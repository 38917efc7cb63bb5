/** `add_line` as it runs: two cursors in one line buffer, written in place. */
module LineScanner {
  import opened Optional
  import opened CText
  import opened LineSpec
  import LineOverrun

  /** The loop's variables: read and write cursor, the caller's state and the per-line flags. */
  datatype Cursor = Cursor(pos: nat, out: nat, st: State, needSpace: bool, ss: bool)

  datatype Control = Next | Break | Exit

  /** From the read cursor on, the line still holds `text` and its terminating NUL. */
  ghost predicate Unread(line: array<char>, text: string, pos: nat)
    reads line
  {
    |text| < line.Length && forall i :: pos <= i <= |text| ==> line[i] == At(text, i)
  }

  /** The write cursor is not ahead of the read cursor, and behind it while a space is owed. */
  ghost predicate Synced(line: array<char>, text: string, c: Cursor)
    reads line
  {
    && Unread(line, text, c.pos)
    && c.out <= c.pos <= |text| + 1 && c.pos <= line.Length
    && (c.needSpace ==> c.out < c.pos)
  }

  ghost function View(line: array<char>, c: Cursor): Scan
    requires c.out <= line.Length
    reads line
  {
    Scan(c.pos, line[..c.out], c.st, c.needSpace, c.ss)
  }

  ghost predicate Reached(r: Step, ctl: Control, s: Scan) {
    match ctl
    case Next => r == More(s)
    case Break => r.Stop? && r.scan.(p := 0) == s.(p := 0)
    case Exit => r == Quit(s.st)
  }

  /** Cursor `c` and `ctl` are where result `r`, computed from `c0`, leaves the loop. */
  ghost predicate TurnedTo(line: array<char>, text: string, c0: Cursor, r: Step, c: Cursor, ctl: Control)
    reads line
  {
    && Synced(line, text, c) && Reached(r, ctl, View(line, c))
    && c.pos <= |text| + (if c0.st.env.binaryMode then 1 else 0)
    && (c.st.env.binaryMode ==> c0.st.env.binaryMode)
  }

  method StringEnd(line: array<char>, ghost text: string, from: nat) returns (q: nat)
    requires from <= |text| && Unread(line, text, from)
    ensures q == StrEnd(text, from) && line[from..q] == text[from..q]
  {
    q := from;
    while line[q] != NUL
      invariant from <= q <= |text|
      invariant StrEnd(text, q) == StrEnd(text, from)
      decreases |text| - q
    {
      q := q + 1;
    }
  }

  method StartsWith(line: array<char>, ghost text: string, p: nat, t: string) returns (hit: bool)
    requires p <= |text| && Unread(line, text, p) && NUL !in t
    ensures hit == PrefixAt(text, p, t)
  {
    var k := 0;
    while k < |t|
      invariant k <= |t| && p + k <= |text|
      invariant text[p..p + k] == t[..k]
    {
      var c := t[k];
      if line[p + k] != c {
        assert PrefixAt(text, p, t) ==> At(text, p + k) == c;
        return false;
      }
      k := k + 1;
    }
    return true;
  }

  method SkipTo(line: array<char>, ghost text: string, from: nat, t: string) returns (q: nat)
    requires from <= |text| && Unread(line, text, from) && t != "" && NUL !in t
    ensures q == Seek(text, from, t)
  {
    q := from;
    while line[q] != NUL
      invariant from <= q <= |text|
      invariant Seek(text, q, t) == Seek(text, from, t)
      decreases |text| - q
    {
      var hit := StartsWith(line, text, q, t);
      if hit { return; }
      q := q + 1;
    }
  }

  method ParamsEnd(line: array<char>, ghost text: string, from: nat, env: Env, ss: bool) returns (q: nat)
    requires from <= |text| && Unread(line, text, from)
    ensures q == SkipParams(text, env, ss, from)
  {
    if ss {
      q := SkipTo(line, text, from, "*/");
    } else {
      q := SkipTo(line, text, from, env.delimiter);
      if line[q] != NUL {
        q := q + |env.delimiter|;
      }
    }
  }

  /** Writes `w` at the write cursor, which leaves everything from `keep` on alone. */
  method Put(line: array<char>, ghost text: string, out: nat, w: string, ghost keep: nat)
    requires out + |w| <= keep <= line.Length && Unread(line, text, keep)
    modifies line
    ensures line[..out + |w|] == old(line[..out]) + w
    ensures Unread(line, text, keep)
    ensures forall i :: keep <= i < line.Length ==> line[i] == old(line[i])
  {
    for k := 0 to |w|
      invariant line[..out + k] == old(line[..out]) + w[..k]
      invariant forall i :: keep <= i < line.Length ==> line[i] == old(line[i])
    {
      line[out + k] := w[k];
    }
  }

  /** The call for a one-character command, which is given the rest of the line. */
  method ShortCall(line: array<char>, ghost text: string, c: Cursor, index: nat) returns (call: Call)
    requires Synced(line, text, c) && c.pos <= |text|
    ensures call == ShortCommand(index, c.st.buffer + line[..c.out], text[c.pos..StrEnd(text, c.pos)])
  {
    var e := StringEnd(line, text, c.pos);
    call := ShortCommand(index, c.st.buffer + line[..c.out], line[c.pos..e]);
  }

  /** The command has asked to quit. */
  lemma ShortQuits(o: Options, srv: Server, text: string, s: Scan, index: nat, st: State, call: Call)
    requires s.p + 2 <= |text| && st == s.st.(buffer := s.st.buffer + s.out) && Quits(st, call, srv)
    requires call == ShortCommand(index, st.buffer, text[s.p..StrEnd(text, s.p)])
    ensures RunShort(o, srv, text, s, index) == Quit(Called(st, call, srv))
  {
  }

  /** The command has been run, and scanning resumes behind its parameters. */
  lemma ShortGoesOn(o: Options, srv: Server, text: string, s: Scan, index: nat, st: State, call: Call, q: nat)
    requires s.p + 2 <= |text| && st == s.st.(buffer := s.st.buffer + s.out) && !Quits(st, call, srv)
    requires call == ShortCommand(index, st.buffer, text[s.p..StrEnd(text, s.p)])
    requires q == if o.takesParams(index) then SkipParams(text, Called(st, call, srv).env, s.ssComment, s.p + 2)
                  else s.p + 2
    ensures RunShort(o, srv, text, s, index) == More(s.(p := q, out := "", st := Called(st, call, srv)))
  {
  }

  method Resume(o: Options, line: array<char>, ghost text: string, pos: nat, env: Env, ss: bool, index: nat)
    returns (q: nat)
    requires pos <= |text| && Unread(line, text, pos)
    ensures q == (if o.takesParams(index) then SkipParams(text, env, ss, pos) else pos) && pos <= q <= |text|
  {
    q := pos;
    if o.takesParams(index) {
      q := ParamsEnd(line, text, q, env, ss);
    }
  }

  /** A one-character command: flush, run it, and drop its parameters. */
  method ShortTurn(o: Options, srv: Server, line: array<char>, ghost text: string, c: Cursor, index: nat)
    returns (c': Cursor, ctl: Control)
    requires Synced(line, text, c) && c.pos + 2 <= |text|
    ensures TurnedTo(line, text, c, RunShort(o, srv, text, View(line, c), index), c', ctl)
  {
    var st := c.st.(buffer := c.st.buffer + line[..c.out]);
    var call := ShortCall(line, text, c, index);
    var st' := Called(st, call, srv);
    assert line[..0] == "";
    if Quits(st, call, srv) {
      ShortQuits(o, srv, text, View(line, c), index, st, call);
      return c.(out := 0, st := st'), Exit;
    }
    var q := Resume(o, line, text, c.pos + 2, st'.env, c.ss, index);
    ShortGoesOn(o, srv, text, View(line, c), index, st, call, q);
    return c.(pos := q, out := 0, st := st'), Next;
  }

  /** Keeps a backslash and the character after it; in binary mode that may be the terminator of the line. */
  method KeepEscape(line: array<char>, ghost text: string, c: Cursor, x: char, st: State) returns (c': Cursor)
    requires Synced(line, text, c) && c.pos < |text|
    requires c.pos + 2 <= |text| + (if c.st.env.binaryMode then 1 else 0) && st.env == c.st.env
    modifies line
    ensures var kept := old(View(line, c)).(p := c.pos + 2, out := old(line[..c.out]) + ['\\', x], st := st);
            TurnedTo(line, text, c, More(kept), c', Next)
    ensures forall i :: |text| < i < line.Length ==> line[i] == old(line[i])
  {
    Put(line, text, c.out, ['\\', x], c.pos + 2);
    c' := c.(pos := c.pos + 2, out := c.out + 2, st := st);
  }

  /** A backslash that is an escape or introduces a one-character command. */
  method BackslashTurn(o: Options, srv: Server, line: array<char>, ghost text: string, c: Cursor)
    returns (c': Cursor, ctl: Control)
    requires Synced(line, text, c) && c.pos < |text|
    modifies line
    ensures TurnedTo(line, text, c, Backslash(o, srv, text, old(View(line, c))), c', ctl)
    ensures forall i :: |text| < i < line.Length ==> line[i] == old(line[i])
  {
    var x := line[c.pos + 1];
    var st := c.st;
    if x == NUL && (!st.env.binaryMode || st.inString == NUL) {
      return c, Break;
    }
    if st.inString == NUL && x != 'N' {
      var com := FindShort(o, st.env, x);
      if com.Some? {
        c', ctl := ShortTurn(o, srv, line, text, c, com.value);
        return;
      }
      st := st.(trace := st.trace + [UnknownCommand(x)]);
      if srv(st.trace).quit {
        return c.(st := st), Exit;
      }
    }
    c' := KeepEscape(line, text, c, x, st);
    ctl := Next;
  }

  /** Keeps the spaces that follow a delimiter. */
  method CopySpaces(env: Env, line: array<char>, ghost text: string, pos: nat, out: nat) returns (q: nat, out': nat)
    requires out <= pos <= |text| && Unread(line, text, pos)
    modifies line
    ensures q == SpacesEnd(env.IsSpace, text, pos) && out' == out + (q - pos)
    ensures Unread(line, text, q) && line[..out'] == old(line[..out]) + text[pos..q]
    ensures forall i :: |text| < i < line.Length ==> line[i] == old(line[i])
  {
    q, out' := pos, out;
    while env.IsSpace(line[q])
      invariant pos <= q <= |text| && out' == out + (q - pos) && Unread(line, text, q)
      invariant SpacesEnd(env.IsSpace, text, q) == SpacesEnd(env.IsSpace, text, pos)
      invariant line[..out'] == old(line[..out]) + text[pos..q]
      invariant forall i :: |text| < i < line.Length ==> line[i] == old(line[i])
      decreases |text| - q
    {
      ghost var kept := line[..out'];
      line[out'] := line[q];
      q, out' := q + 1, out' + 1;
      assert line[..out'] == kept + [text[q - 1]];
      assert text[pos..q] == text[pos..q - 1] + [text[q - 1]];
    }
  }

  method TrailingEnd(o: Options, env: Env, line: array<char>, ghost text: string, q: nat) returns (r: nat)
    requires q <= |text| && Unread(line, text, q)
    ensures r == TrailingComment(o, env, text, q) && line[q..r] == text[q..r]
  {
    r := q;
    if o.preserveComments &&
       (line[q] == '#' || (line[q] == '-' && line[q + 1] == '-' && env.IsSpace(line[q + 2])))
    {
      r := StringEnd(line, text, q);
    }
  }

  /** A delimiter outside strings and comments: the statement is complete. */
  method EndTurn(o: Options, srv: Server, line: array<char>, ghost text: string, c: Cursor)
    returns (c': Cursor, ctl: Control)
    requires Synced(line, text, c) && PrefixAt(text, c.pos, c.st.env.delimiter)
    modifies line
    ensures TurnedTo(line, text, c, EndStatement(o, srv, text, old(View(line, c))), c', ctl)
    ensures forall i :: |text| < i < line.Length ==> line[i] == old(line[i])
  {
    var e := c.st.env;
    var q, out := c.pos + |e.delimiter|, c.out;
    if o.preserveComments {
      q, out := CopySpaces(e, line, text, q, out);
    }
    assert line[..out] == old(line[..c.out]) + text[c.pos + |e.delimiter|..q];
    c', ctl := SubmitTurn(o, srv, line, text, c.(pos := q, out := out));
  }

  /** Flushes the statement with a comment that follows it, and hands it over. */
  method SubmitTurn(o: Options, srv: Server, line: array<char>, ghost text: string, c: Cursor)
    returns (c': Cursor, ctl: Control)
    requires Synced(line, text, c) && c.pos <= |text|
    ensures TurnedTo(line, text, c, EndAfter(o, srv, text, View(line, c)), c', ctl)
  {
    var r := TrailingEnd(o, c.st.env, line, text, c.pos);
    var st := c.st.(buffer := c.st.buffer + line[..c.out] + line[c.pos..r]);
    assert line[..0] == "";
    match Submit(o, srv, Scan(r, "", st, c.needSpace, c.ss))
    case More(s) => return c.(pos := r, out := 0, st := s.st), Next;
    case Quit(st') => return c.(pos := r, out := 0, st := st'), Exit;
  }

  /** A comment that is kept: it joins the statement before it, or is sent by itself. */
  method KeptComment(srv: Server, line: array<char>, ghost text: string, pos: nat, st: State)
    returns (st': State, ctl: Control)
    requires pos <= |text| && Unread(line, text, pos)
    ensures var kept := st.(buffer := st.buffer + text[pos..StrEnd(text, pos)]);
            var call := Statement(kept.buffer);
            if st.buffer != "" then st' == kept && ctl == Break
            else if Quits(kept, call, srv) then st' == Called(kept, call, srv) && ctl == Exit
            else st' == Called(kept, call, srv).(buffer := "") && ctl == Break
  {
    var e := StringEnd(line, text, pos);
    st' := st.(buffer := st.buffer + line[pos..e]);
    if st.buffer != "" {
      return st', Break;
    }
    var call := Statement(st'.buffer);
    var quit := Quits(st', call, srv);
    st' := Called(st', call, srv);
    if quit {
      return st', Exit;
    }
    return st'.(buffer := ""), Break;
  }

  /** A comment up to the end of the line. */
  method CommentTurn(o: Options, srv: Server, line: array<char>, ghost text: string, c: Cursor)
    returns (c': Cursor, ctl: Control)
    requires Synced(line, text, c) && c.pos < |text|
    ensures TurnedTo(line, text, c, LineComment(o, srv, text, View(line, c)), c', ctl)
  {
    var st := c.st.(buffer := c.st.buffer + line[..c.out]);
    ctl := Break;
    assert line[..0] == "";
    if o.preserveComments {
      st, ctl := KeptComment(srv, line, text, c.pos, st);
    }
    c' := c.(out := 0, st := st);
  }

  /** The two characters that open or close a block comment. */
  method EdgeTurn(o: Options, line: array<char>, ghost text: string, c: Cursor, edge: string, opening: bool)
    returns (c': Cursor)
    requires Synced(line, text, c) && c.pos + 2 <= |text| && |edge| == 2
    modifies line
    ensures TurnedTo(line, text, c, BlockEdge(o, old(View(line, c)), edge, opening), c', Next)
    ensures forall i :: |text| < i < line.Length ==> line[i] == old(line[i])
  {
    var out := c.out;
    if o.preserveComments {
      Put(line, text, out, edge, c.pos + 2);
      out := out + 2;
    }
    assert line[..0] == "";
    return c.(pos := c.pos + 2, out := 0, needSpace := c.needSpace || !opening,
              st := c.st.(mlComment := opening, buffer := c.st.buffer + line[..out]));
  }

  method ServerCommentFlag(line: array<char>, ghost text: string, c: Cursor) returns (ss: bool)
    requires Synced(line, text, c) && c.pos < |text|
    ensures ss == SsAfter(text, View(line, c))
  {
    ss := c.ss;
    if c.st.inString == NUL {
      if line[c.pos] == '/' && line[c.pos + 1] == '*' && line[c.pos + 2] == '!' {
        ss := true;
      } else if ss && line[c.pos] == '*' && line[c.pos + 1] == '/' {
        ss := false;
      }
    }
  }

  /** Any other character. */
  method PlainTurn(o: Options, line: array<char>, ghost text: string, c: Cursor) returns (c': Cursor)
    requires Synced(line, text, c) && c.pos < |text|
    modifies line
    ensures TurnedTo(line, text, c, LineSpec.Plain(o, text, old(View(line, c))), c', Next)
    ensures forall i :: |text| < i < line.Length ==> line[i] == old(line[i])
  {
    var x := line[c.pos];
    var ss := ServerCommentFlag(line, text, c);
    c' := c.(pos := c.pos + 1, ss := ss, st := c.st.(inString := QuoteAfter(c.st, x)));
    if !c.st.mlComment || o.preserveComments {
      var w := if c.needSpace && !c.st.env.IsSpace(x) then [' ', x] else [x];
      Put(line, text, c.out, w, c.pos + 1);
      c' := c'.(needSpace := false, out := c.out + |w|);
    }
  }

  /** Copies the next `n` characters down to the write cursor. */
  method KeepText(line: array<char>, ghost text: string, c: Cursor, n: nat) returns (c': Cursor)
    requires Synced(line, text, c) && c.pos + n <= |text|
    modifies line
    ensures Synced(line, text, c') && c' == c.(pos := c.pos + n, out := c.out + n)
    ensures line[..c'.out] == old(line[..c.out]) + text[c.pos..c.pos + n]
    ensures forall i :: |text| < i < line.Length ==> line[i] == old(line[i])
  {
    var w := line[c.pos..c.pos + n];
    assert w == text[c.pos..c.pos + n];
    Put(line, text, c.out, w, c.pos + n);
    c' := c.(pos := c.pos + n, out := c.out + n);
  }

  /** A multi-byte character is kept or dropped whole. */
  method MultiByteTurn(o: Options, line: array<char>, ghost text: string, c: Cursor, n: nat) returns (c': Cursor)
    requires Synced(line, text, c) && c.pos + n <= |text|
    modifies line
    ensures TurnedTo(line, text, c, MultiByte(o, text, old(View(line, c)), n), c', Next)
    ensures forall i :: |text| < i < line.Length ==> line[i] == old(line[i])
  {
    if c.st.mlComment && !o.preserveComments {
      return c.(pos := c.pos + n);
    }
    c' := KeepText(line, text, c, n);
  }

  method StartsLineComment(line: array<char>, ghost text: string, c: Cursor) returns (b: bool)
    requires Synced(line, text, c) && c.pos < |text|
    ensures b == LineCommentAt(c.st.env, text, c.pos, c.st.buffer == "" && c.out == 0)
  {
    b := line[c.pos] == '#' ||
         (line[c.pos] == '-' && line[c.pos + 1] == '-' &&
          (c.st.env.IsSpace(line[c.pos + 2]) || line[c.pos + 2] == NUL || (c.st.buffer == "" && c.out == 0)));
  }

  method OpensBlock(line: array<char>, ghost text: string, pos: nat) returns (b: bool)
    requires pos < |text| && Unread(line, text, pos)
    ensures b == BlockOpenAt(text, pos)
  {
    b := line[pos] == '/' && line[pos + 1] == '*' &&
         !(line[pos + 2] == '!' || (line[pos + 2] == 'M' && line[pos + 3] == '!'));
  }

  /** Outside strings: a delimiter or the start of a comment, if there is one. */
  method MarkOf(line: array<char>, ghost text: string, c: Cursor) returns (mark: Option<Kind>)
    requires Synced(line, text, c) && c.pos < |text|
    ensures var first := c.st.buffer == "" && c.out == 0;
            mark == if !c.st.mlComment && PrefixAt(text, c.pos, c.st.env.delimiter) then Some(StatementEnd)
                    else if !c.st.mlComment && LineCommentAt(c.st.env, text, c.pos, first) then Some(LineRemark)
                    else if BlockOpenAt(text, c.pos) then Some(BlockOpen)
                    else None
  {
    if !c.st.mlComment {
      var ends := StartsWith(line, text, c.pos, c.st.env.delimiter);
      if ends {
        return Some(StatementEnd);
      }
      var comment := StartsLineComment(line, text, c);
      if comment {
        return Some(LineRemark);
      }
    }
    var opens := OpensBlock(line, text, c.pos);
    return if opens then Some(BlockOpen) else None;
  }

  method KindOf(o: Options, line: array<char>, len: nat, ghost text: string, c: Cursor) returns (k: Kind)
    requires Synced(line, text, c) && c.pos < |text| == len
    ensures k == KindAt(o, text, View(line, c))
  {
    var x, st := line[c.pos], c.st;
    if !o.preserveComments && st.env.IsSpace(x) && c.out == 0 && st.buffer == "" {
      return LeadingSpace;
    }
    assert line[c.pos..len] == text[c.pos..];
    var n := st.env.MbLen(line[c.pos..len]);
    if n > 0 {
      return Multi(n);
    }
    if x == '\\' && BackslashActive(st) {
      return Escape;
    }
    if st.inString == NUL {
      var mark := MarkOf(line, text, c);
      if mark.Some? {
        return mark.value;
      }
    }
    return if st.mlComment && !c.ss && x == '*' && line[c.pos + 1] == '/' then BlockClose else Other;
  }

  /** One turn of the loop. */
  method Turn(o: Options, srv: Server, line: array<char>, len: nat, ghost text: string, c: Cursor)
    returns (c': Cursor, ctl: Control)
    requires Synced(line, text, c) && c.pos < |text| == len
    modifies line
    ensures TurnedTo(line, text, c, StepAt(o, srv, text, old(View(line, c))), c', ctl)
    ensures forall i :: |text| < i < line.Length ==> line[i] == old(line[i])
  {
    ctl := Next;
    var k := KindOf(o, line, len, text, c);
    match k
    case LeadingSpace => c' := c.(pos := c.pos + 1);
    case Multi(n) => c' := MultiByteTurn(o, line, text, c, n);
    case Escape => c', ctl := BackslashTurn(o, srv, line, text, c);
    case StatementEnd => c', ctl := EndTurn(o, srv, line, text, c);
    case LineRemark => c', ctl := CommentTurn(o, srv, line, text, c);
    case BlockOpen => c' := EdgeTurn(o, line, text, c, "/*", true);
    case BlockClose => c' := EdgeTurn(o, line, text, c, "*/", false);
    case Other => c' := PlainTurn(o, line, text, c);
  }

  /** The whole loop. */
  method ScanLine(o: Options, srv: Server, line: array<char>, len: nat, c0: Cursor) returns (c: Cursor, ctl: Control)
    requires len < line.Length && line[len] == NUL
    requires c0.pos == c0.out == 0 && !c0.needSpace
    modifies line
    ensures c.out <= c.pos <= len + (if c0.st.env.binaryMode then 1 else 0)
    ensures var r := ScanFrom(o, srv, old(line[..len]), Scan(0, "", c0.st, false, c0.ss));
            ctl != Next && Reached(r, ctl, View(line, c))
    ensures forall i :: len < i < line.Length ==> line[i] == old(line[i])
  {
    ghost var text := line[..len];
    assert line[..0] == "";
    c, ctl := c0, Next;
    while ctl == Next && c.pos < len
      invariant Synced(line, text, c)
      invariant if ctl == Next then ScanFrom(o, srv, text, old(View(line, c0))) == ScanFrom(o, srv, text, View(line, c))
                else Reached(ScanFrom(o, srv, text, old(View(line, c0))), ctl, View(line, c))
      invariant c.pos <= len + (if c0.st.env.binaryMode then 1 else 0)
      invariant c.st.env.binaryMode ==> c0.st.env.binaryMode
      invariant forall i :: len < i < line.Length ==> line[i] == old(line[i])
      decreases ctl == Next, len - c.pos
    {
      c, ctl := Turn(o, srv, line, len, text, c);
    }
    if ctl == Next {
      ctl := Break;
    }
  }

  /** The client's own variables, which `add_line` is given by reference or finds as globals. */
  class Client {
    const o: Options
    const srv: Server
    var buffer: string
    var inString: char
    var mlComment: bool
    var env: Env
    var trace: seq<Call>

    function Current(): State
      reads this
    {
      State(buffer, inString, mlComment, env, trace)
    }

    constructor (o: Options, srv: Server, env: Env)
      ensures this.o == o && this.srv == srv && Current() == State("", NUL, false, env, [])
    {
      this.o, this.srv, this.env := o, srv, env;
      buffer, inString, mlComment, trace := "", NUL, false, [];
    }

    method Assign(st: State)
      modifies this
      ensures Current() == st
    {
      buffer, inString, mlComment, env, trace := st.buffer, st.inString, st.mlComment, st.env, st.trace;
    }

    /** Moves the kept characters to the buffer, followed by a newline where one is due. */
    method FlushLine(line: array<char>, out: nat, truncated: bool)
      requires out <= line.Length && (out == line.Length ==> truncated)
      modifies this`buffer, line
      ensures Current() == Finish(o, old(line[..out]), old(Current()), truncated)
      ensures forall i :: 0 <= i < line.Length && i != out ==> line[i] == old(line[i])
      ensures out < line.Length && !truncated && inString != NUL && out > 0 ==> line[out] == '\n'
      ensures out < line.Length && truncated ==> line[out] == old(line[out])
    {
      if out != 0 || buffer != "" {
        var length := out;
        if !truncated && (!o.isDelimiterCommand(line[..out]) || inString != NUL || mlComment) {
          line[out] := '\n';
          length := length + 1;
        }
        assert line[..length] == old(line[..out]) + (if length == out then "" else "\n");
        if !mlComment || o.preserveComments {
          buffer := buffer + line[..length];
        }
      }
    }

    /**
     Scans a NUL-terminated line of `len` characters in place. Behind the terminator only the next byte can be
     written, by the newline, and exactly for the lines that overrun: the byte has to exist for these.
     */
    method AddLine(line: array<char>, len: nat, truncated: bool) returns (quit: bool)
      requires len < line.Length && line[len] == NUL
      requires LineOverrun.Overruns(o, srv, line[..len], truncated, Current()) ==> len + 1 < line.Length
      modifies this, line
      ensures (Current(), quit) == LineSpec.AddLine(o, srv, old(line[..len]), truncated, old(Current()))
      ensures var over := old(LineOverrun.Overruns(o, srv, line[..len], truncated, Current()));
              forall i :: len < i < line.Length ==> line[i] == if i == len + 1 && over then '\n' else old(line[i])
    {
      if line[0] == NUL && buffer == "" {
        return false;
      }
      ghost var text, st := line[..len], Current();
      var c, ctl := ScanLine(o, srv, line, len, Cursor(0, 0, Current(), false, false));
      if st.env.binaryMode {
        LineOverrun.OverrunsExactly(o, srv, text, st);
      }
      Assign(c.st);
      if ctl == Exit {
        return true;
      }
      FlushLine(line, c.out, truncated);
      return false;
    }

    /** The batch loop: each line is a client command or goes through the scanner. */
    method ReadAndExecute(named: bool, lines: seq<Line>) returns (ending: Ending)
      modifies this
      ensures (Current(), ending) == ReadLines(o, srv, named, lines, old(Current()))
    {
      for i := 0 to |lines|
        invariant ReadLines(o, srv, named, lines[i..], Current()) == ReadLines(o, srv, named, lines, old(Current()))
      {
        var text := lines[i].text;
        assert lines[i..][0] == lines[i] && lines[i..][1..] == lines[i + 1..];
        if !env.binaryMode && NUL in text {
          return NulInLine;
        }
        var com := if (named || buffer == "") && !mlComment && inString == NUL then o.longCommand(env, text) else None;
        var quit;
        if com.Some? {
          var call := LongCommand(com.value, text);
          quit := Quits(Current(), call, srv);
          Assign(Called(Current(), call, srv));
          if buffer == "" {
            inString := NUL;
          }
        } else {
          var line := new char[|text| + 2](k => if 0 <= k < |text| then text[k] else NUL);
          assert line[..|text|] == text;
          quit := AddLine(line, |text|, lines[i].truncated);
        }
        if quit {
          return Stopped;
        }
      }
      return EndOfInput;
    }
  }
}
