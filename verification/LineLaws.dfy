/** What the line scanner guarantees about strings, comments and statement boundaries. */
module LineLaws {
  import opened Optional
  import opened CText
  import opened LineSpec

  /** What holds between lines: a string is never inside a block comment, nor without its opening quote. */
  predicate Consistent(st: State) {
    st.inString != NUL ==> !st.mlComment && st.buffer != "" && IsQuote(st.inString)
  }

  predicate ScanConsistent(s: Scan) {
    s.st.inString != NUL ==>
      !s.st.mlComment && !s.needSpace && s.st.buffer + s.out != "" && IsQuote(s.st.inString)
  }

  lemma BackslashConsistent(o: Options, srv: Server, text: string, s: Scan)
    requires s.p < |text| && ScanConsistent(s)
    ensures var r := Backslash(o, srv, text, s);
            if r.Quit? then r.st.inString == NUL else ScanConsistent(r.scan)
  {
  }

  lemma StepConsistent(o: Options, srv: Server, text: string, s: Scan)
    requires s.p < |text| && ScanConsistent(s)
    ensures var r := StepAt(o, srv, text, s);
            if r.Quit? then r.st.inString == NUL else ScanConsistent(r.scan)
  {
    if KindAt(o, text, s) == Escape {
      BackslashConsistent(o, srv, text, s);
    }
  }

  lemma {:induction false} ScanStaysConsistent(o: Options, srv: Server, text: string, s: Scan)
    requires ScanConsistent(s)
    ensures var r := ScanFrom(o, srv, text, s);
            if r.Quit? then r.st.inString == NUL else ScanConsistent(r.scan)
    decreases |text| - s.p
  {
    if s.p < |text| {
      StepConsistent(o, srv, text, s);
      var r := StepAt(o, srv, text, s);
      if r.More? {
        ScanStaysConsistent(o, srv, text, r.scan);
      }
    }
  }

  lemma LineStaysConsistent(o: Options, srv: Server, text: string, truncated: bool, st: State)
    requires Consistent(st)
    ensures Consistent(AddLine(o, srv, text, truncated, st).0)
  {
    ScanStaysConsistent(o, srv, text, Scan(0, "", st, false, false));
  }

  /** Whether a backslash escapes inside a string opened by `q`. */
  predicate Escapes(e: Env, q: char) {
    q != '`' && !(q == '"' && e.ansiQuotes) && !e.noBackslash
  }

  /** From `p` up to `end` the text lies inside a string opened by `q`: not closed, and no escape is cut off. */
  predicate Inside(e: Env, q: char, text: string, p: nat, end: nat)
    requires end <= |text|
    decreases end - p
  {
    p == end ||
    (p < end &&
     var n := e.MbLen(text[p..]);
     if n > 0 then Inside(e, q, text, p + n, end)
     else if text[p] == '\\' && Escapes(e, q) then
       p + 2 <= end && (text[p + 1] != NUL || e.binaryMode) && Inside(e, q, text, p + 2, end)
     else text[p] != q && Inside(e, q, text, p + 1, end))
  }

  lemma StringStep(o: Options, srv: Server, text: string, s: Scan, end: nat)
    requires s.st.inString != NUL && ScanConsistent(s)
    requires s.p < end <= |text| && Inside(s.st.env, s.st.inString, text, s.p, end)
    ensures var r := StepAt(o, srv, text, s);
            && r.More? && r.scan.p <= end && Inside(s.st.env, s.st.inString, text, r.scan.p, end)
            && r.scan == s.(p := r.scan.p, out := s.out + text[s.p..r.scan.p])
  {
  }

  /** One pass over a line; `run` tells where the loop ends up from each scan. */
  datatype Loop = Loop(o: Options, srv: Server, text: string, run: Scan -> Step)
  {
    ghost predicate Valid() { forall s: Scan :: Runs(s) }

    ghost predicate Runs(s: Scan) { run(s) == ScanFrom(o, srv, text, s) }
  }

  function TheLoop(o: Options, srv: Server, text: string): (l: Loop)
    ensures l.Valid()
  {
    Loop(o, srv, text, s => ScanFrom(o, srv, text, s))
  }

  lemma StepThenScan(l: Loop, s: Scan, t: Scan)
    requires l.Valid() && s.p < |l.text| && StepAt(l.o, l.srv, l.text, s) == More(t)
    ensures l.run(s) == l.run(t)
  {
    assert l.Runs(s) && l.Runs(t);
  }

  /** The scan when everything up to `q` has been kept and nothing else changed. */
  function Copied(text: string, s: Scan, q: nat): Scan
    requires s.p <= q <= |text|
  {
    s.(p := q, out := s.out + text[s.p..q])
  }

  lemma CopiedTwice(text: string, s: Scan, q: nat, end: nat)
    requires s.p <= q <= end <= |text|
    ensures Copied(text, Copied(text, s, q), end) == Copied(text, s, end)
  {
    assert s.out + text[s.p..q] + text[q..end] == s.out + text[s.p..end];
  }

  lemma StringTurn(l: Loop, s: Scan, end: nat) returns (q: nat)
    requires l.Valid() && s.st.inString != NUL && ScanConsistent(s)
    requires s.p < end <= |l.text| && Inside(s.st.env, s.st.inString, l.text, s.p, end)
    ensures s.p < q <= end && Inside(s.st.env, s.st.inString, l.text, q, end)
    ensures l.run(s) == l.run(Copied(l.text, s, q))
  {
    StringStep(l.o, l.srv, l.text, s, end);
    q := StepAt(l.o, l.srv, l.text, s).scan.p;
    StepThenScan(l, s, Copied(l.text, s, q));
  }

  /** Text inside a string is kept byte for byte: nothing is dispatched, split, dropped or inserted. */
  lemma {:induction false} StringVerbatim(l: Loop, s: Scan, end: nat)
    requires l.Valid() && s.st.inString != NUL && ScanConsistent(s)
    requires s.p <= end <= |l.text| && Inside(s.st.env, s.st.inString, l.text, s.p, end)
    ensures l.run(s) == l.run(Copied(l.text, s, end))
    decreases end - s.p
  {
    if s.p == end {
      assert s.out + l.text[s.p..end] == s.out;
    } else {
      var q := StringTurn(l, s, end);
      StringVerbatim(l, Copied(l.text, s, q), end);
      CopiedTwice(l.text, s, q, end);
    }
  }

  /**
   A comment up to the end of the line starts at `p`: a hash, or two dashes that white space or the end of the text
   follows. At the start of a statement, which `first` tells, two dashes are enough.
   */
  predicate RemarkMark(e: Env, text: string, p: nat, first: bool) {
    p < |text| &&
    (text[p] == '#' ||
     (p + 1 < |text| && text[p] == '-' && text[p + 1] == '-' &&
      (first || p + 2 == |text| || text[p + 2] == NUL || e.IsSpace(text[p + 2]))))
  }

  /** A block comment starts at `p`, and not one for the server. */
  predicate CommentMark(text: string, p: nat) {
    && p + 1 < |text| && text[p] == '/' && text[p + 1] == '*'
    && !(p + 2 < |text| && text[p + 2] == '!')
    && !(p + 3 < |text| && text[p + 2] == 'M' && text[p + 3] == '!')
  }

  /** Neither the delimiter nor a comment starts at `p`. */
  predicate NoMark(e: Env, text: string, p: nat, first: bool) {
    !PrefixAt(text, p, e.delimiter) && !RemarkMark(e, text, p, first) && !CommentMark(text, p)
  }

  predicate LiteralAt(e: Env, text: string, p: nat)
    requires p < |text|
  {
    e.MbLen(text[p..]) == 0 && IsQuote(text[p])
  }

  /** What stands at `p` is kept as it is: a multi-byte character, the NULL sign or an ordinary character. */
  predicate PlainAt(e: Env, text: string, p: nat, first: bool)
    requires p < |text|
  {
    e.MbLen(text[p..]) > 0 || (if text[p] == '\\' then At(text, p + 1) == 'N' else NoMark(e, text, p, first))
  }

  function PlainEnd(e: Env, text: string, p: nat): (q: nat)
    requires p < |text|
    ensures p < q
  {
    var n := e.MbLen(text[p..]);
    if n > 0 then p + n else if text[p] == '\\' then p + 2 else p + 1
  }

  /**
   The characters from `p` up to `end`, outside any string at both ends, are the text of one statement:
   whole string literals, and between them no delimiter, comment or client command. `first` tells whether the
   statement starts at `p`, and `keep` whether white space in front of it is kept.
   */
  ghost predicate StatementText(keep: bool, e: Env, text: string, p: nat, end: nat, first: bool)
    requires end <= |text|
    decreases end - p
  {
    p == end ||
    (p < end && (first && !keep ==> !e.IsSpace(text[p])) &&
     if LiteralAt(e, text, p) then
       NoMark(e, text, p, first) &&
       exists k: nat :: LiteralEnds(e, text, p, k, end) && StatementText(keep, e, text, k + 1, end, false)
     else PlainAt(e, text, p, first) && StatementText(keep, e, text, PlainEnd(e, text, p), end, false))
  }

  /** The string literal opened at `p` is closed at `k`. */
  predicate LiteralEnds(e: Env, text: string, p: nat, k: nat, end: nat)
    requires p < end <= |text|
  {
    p < k < end && Inside(e, text[p], text, p + 1, k) && e.MbLen(text[k..]) == 0 && text[k] == text[p]
  }

  /** Outside strings and comments. */
  predicate Free(s: Scan) {
    s.st.inString == NUL && !s.st.mlComment
  }

  /** And no blank is owed for a comment. */
  predicate Outside(s: Scan) {
    Free(s) && !s.needSpace
  }

  /** A comment for the server starts at `k`. */
  predicate ServerMark(text: string, k: nat) {
    At(text, k) == '/' && At(text, k + 1) == '*' && At(text, k + 2) == '!'
  }

  /** Between `p` and `end` no comment for the server starts, and nothing that would end one. */
  predicate NoEdge(text: string, p: nat, end: nat) {
    forall k: nat :: p <= k < end ==> !ServerMark(text, k) && !(At(text, k) == '*' && At(text, k + 1) == '/')
  }

  /** The line is inside a comment for the server only if one has been opened in it. */
  predicate SsTold(text: string, s: Scan) {
    s.ssComment ==> exists k: nat :: k < s.p && ServerMark(text, k)
  }

  lemma QuoteOpens(l: Loop, s: Scan)
    requires l.Valid() && Outside(s) && s.p < |l.text| && IsQuote(l.text[s.p]) && KindAt(l.o, l.text, s) == Other
    ensures l.run(s) ==
            l.run(s.(p := s.p + 1, out := s.out + [l.text[s.p]], st := s.st.(inString := l.text[s.p])))
  {
    var t := s.(p := s.p + 1, out := s.out + [l.text[s.p]], st := s.st.(inString := l.text[s.p]));
    StepThenScan(l, s, t);
  }

  lemma QuoteCloses(l: Loop, s: Scan)
    requires l.Valid() && s.st.inString != NUL && ScanConsistent(s)
    requires s.p < |l.text| && l.text[s.p] == s.st.inString && s.st.env.MbLen(l.text[s.p..]) == 0
    ensures l.run(s) ==
            l.run(s.(p := s.p + 1, out := s.out + [l.text[s.p]], st := s.st.(inString := NUL)))
  {
    var t := s.(p := s.p + 1, out := s.out + [l.text[s.p]], st := s.st.(inString := NUL));
    assert KindAt(l.o, l.text, s) == Other;
    StepThenScan(l, s, t);
  }

  /** The scan after everything up to `q` has been kept. */
  function Kept(text: string, s: Scan, q: nat, ss: bool): Scan
    requires s.p <= q <= |text|
  {
    Copied(text, s, q).(ssComment := ss)
  }

  lemma KeptTwice(text: string, s: Scan, q: nat, ss': bool, end: nat, ss: bool)
    requires s.p <= q <= end <= |text|
    ensures Kept(text, Kept(text, s, q, ss'), end, ss) == Kept(text, s, end, ss)
  {
    CopiedTwice(text, s, q, end);
  }

  lemma LiteralText(out: string, text: string, p: nat, k: nat)
    requires p < k < |text|
    ensures out + [text[p]] + text[p + 1..k] + [text[k]] == out + text[p..k + 1]
  {
    assert text[p..k + 1] == [text[p]] + text[p + 1..k] + [text[k]];
  }

  /** A whole string literal is kept byte for byte, and the scanner is outside strings again. */
  lemma LiteralKept(l: Loop, s: Scan, k: nat, end: nat)
    requires l.Valid() && Outside(s) && s.p < end <= |l.text| && LiteralEnds(s.st.env, l.text, s.p, k, end)
    requires IsQuote(l.text[s.p]) && KindAt(l.o, l.text, s) == Other
    ensures l.run(s) == l.run(Kept(l.text, s, k + 1, s.ssComment))
  {
    var q := l.text[s.p];
    var t := s.(p := s.p + 1, out := s.out + [q], st := s.st.(inString := q));
    var u := t.(p := k, out := t.out + l.text[s.p + 1..k]);
    var v := Kept(l.text, s, k + 1, s.ssComment);
    LiteralText(s.out, l.text, s.p, k);
    calc {
      l.run(s);
      { QuoteOpens(l, s); }
      l.run(t);
      { StringVerbatim(l, t, k); }
      l.run(u);
      { QuoteCloses(l, u); }
      l.run(v);
    }
  }

  /** The scan stands at `p` of statement text that goes on up to `end`. */
  ghost predicate InText(o: Options, text: string, s: Scan, end: nat) {
    && Outside(s) && s.p < end <= |text|
    && StatementText(o.preserveComments, s.st.env, text, s.p, end, s.st.buffer == "" && s.out == "")
  }

  lemma LiteralInText(o: Options, text: string, s: Scan, end: nat) returns (k: nat)
    requires InText(o, text, s, end) && LiteralAt(s.st.env, text, s.p)
    ensures KindAt(o, text, s) == Other && LiteralEnds(s.st.env, text, s.p, k, end)
    ensures StatementText(o.preserveComments, s.st.env, text, k + 1, end, false)
  {
    k :| LiteralEnds(s.st.env, text, s.p, k, end) &&
         StatementText(o.preserveComments, s.st.env, text, k + 1, end, false);
  }

  lemma LiteralUnit(l: Loop, s: Scan, end: nat) returns (q: nat)
    requires l.Valid() && InText(l.o, l.text, s, end) && LiteralAt(s.st.env, l.text, s.p)
    ensures s.p < q <= end && StatementText(l.o.preserveComments, s.st.env, l.text, q, end, false)
    ensures l.run(s) == l.run(Kept(l.text, s, q, s.ssComment))
  {
    var k := LiteralInText(l.o, l.text, s, end);
    LiteralKept(l, s, k, end);
    return k + 1;
  }

  lemma MultiByteKept(o: Options, srv: Server, text: string, s: Scan)
    requires Free(s) && s.p < |text| && KindAt(o, text, s).Multi?
    ensures var q := s.p + KindAt(o, text, s).n;
            StepAt(o, srv, text, s) == More(Kept(text, s, q, s.ssComment))
  {
  }

  lemma NullSignKept(o: Options, srv: Server, text: string, s: Scan)
    requires Free(s) && s.p < |text| && KindAt(o, text, s) == Escape && At(text, s.p + 1) == 'N'
    ensures s.p + 2 <= |text| && StepAt(o, srv, text, s) == More(Kept(text, s, s.p + 2, s.ssComment))
  {
    assert text[s.p..s.p + 2] == ['\\', 'N'];
  }

  lemma CharKept(o: Options, srv: Server, text: string, s: Scan)
    requires Outside(s) && s.p < |text| && KindAt(o, text, s) == Other && !IsQuote(text[s.p])
    ensures StepAt(o, srv, text, s) == More(Kept(text, s, s.p + 1, SsAfter(text, s)))
  {
    assert s.out + "" + [text[s.p]] == s.out + text[s.p..s.p + 1];
  }

  /** Which branch of the loop plain text takes. */
  lemma PlainKind(o: Options, text: string, s: Scan, end: nat)
    requires InText(o, text, s, end) && !LiteralAt(s.st.env, text, s.p)
    ensures var k := KindAt(o, text, s);
            if s.st.env.MbLen(text[s.p..]) > 0 then k == Multi(s.st.env.MbLen(text[s.p..]))
            else if text[s.p] == '\\' then k == Escape && At(text, s.p + 1) == 'N'
            else k == Other && !IsQuote(text[s.p])
    ensures PlainEnd(s.st.env, text, s.p) <= end
    ensures StatementText(o.preserveComments, s.st.env, text, PlainEnd(s.st.env, text, s.p), end, false)
  {
    assert StatementText(o.preserveComments, s.st.env, text, PlainEnd(s.st.env, text, s.p), end, false);
  }

  /** One plain unit of statement text: a character, a multi-byte character or the NULL sign. */
  lemma PlainUnit(l: Loop, s: Scan, end: nat) returns (q: nat, ss: bool)
    requires l.Valid() && InText(l.o, l.text, s, end) && !LiteralAt(s.st.env, l.text, s.p)
    ensures s.p < q <= end && StatementText(l.o.preserveComments, s.st.env, l.text, q, end, false)
    ensures l.run(s) == l.run(Kept(l.text, s, q, ss))
    ensures SsTold(l.text, s) ==> SsTold(l.text, Kept(l.text, s, q, ss))
    ensures NoEdge(l.text, s.p, end) ==> ss == s.ssComment
  {
    PlainKind(l.o, l.text, s, end);
    q, ss := PlainEnd(s.st.env, l.text, s.p), s.ssComment;
    var k := KindAt(l.o, l.text, s);
    if k.Multi? {
      MultiByteKept(l.o, l.srv, l.text, s);
    } else if k == Escape {
      NullSignKept(l.o, l.srv, l.text, s);
    } else {
      CharKept(l.o, l.srv, l.text, s);
      ss := SsAfter(l.text, s);
      assert ss && !s.ssComment ==> ServerMark(l.text, s.p);
    }
    StepThenScan(l, s, Kept(l.text, s, q, ss));
  }

  /** One unit of statement text, a literal or a plain one. */
  lemma TextUnit(l: Loop, s: Scan, end: nat) returns (q: nat, ss: bool)
    requires l.Valid() && InText(l.o, l.text, s, end)
    ensures s.p < q <= end && StatementText(l.o.preserveComments, s.st.env, l.text, q, end, false)
    ensures l.run(s) == l.run(Kept(l.text, s, q, ss))
    ensures SsTold(l.text, s) ==> SsTold(l.text, Kept(l.text, s, q, ss))
    ensures NoEdge(l.text, s.p, end) ==> ss == s.ssComment
  {
    if LiteralAt(s.st.env, l.text, s.p) {
      q := LiteralUnit(l, s, end);
      ss := s.ssComment;
    } else {
      q, ss := PlainUnit(l, s, end);
    }
  }

  /** Statement text is kept byte for byte; only the server-comment flag may differ afterwards. */
  lemma {:induction false} TextKept(l: Loop, s: Scan, end: nat) returns (ss: bool)
    requires l.Valid() && Outside(s) && s.p <= end <= |l.text|
    requires StatementText(l.o.preserveComments, s.st.env, l.text, s.p, end, s.st.buffer == "" && s.out == "")
    ensures l.run(s) == l.run(Kept(l.text, s, end, ss))
    ensures SsTold(l.text, s) ==> SsTold(l.text, Kept(l.text, s, end, ss))
    ensures NoEdge(l.text, s.p, end) ==> ss == s.ssComment
    decreases end - s.p
  {
    if s.p == end {
      assert s.out + l.text[s.p..end] == s.out;
      return s.ssComment;
    }
    var q, ss' := TextUnit(l, s, end);
    ss := TextKept(l, Kept(l.text, s, q, ss'), end);
    KeptTwice(l.text, s, q, ss', end, ss);
  }

  /** A delimiter that ends a statement at `z`. */
  predicate DelimiterAt(e: Env, text: string, z: nat) {
    z < |text| && PrefixAt(text, z, e.delimiter) && e.MbLen(text[z..]) == 0 && text[z] != '\\'
  }

  predicate Blank(e: Env, text: string, p: nat, b: nat)
    requires b <= |text|
  {
    forall k :: p <= k < b ==> e.IsSpace(text[k])
  }

  /** The C string that starts at `p` ends at `e`. */
  predicate StringEndsAt(text: string, p: nat, e: nat) {
    p <= e <= |text| && (forall k :: p <= k < e ==> text[k] != NUL) && (e < |text| ==> text[e] == NUL)
  }

  /** A comment that --comments keeps with the statement before it starts at `k`. */
  predicate TrailingMark(e: Env, text: string, k: nat) {
    k < |text| &&
    (text[k] == '#' || (k + 2 < |text| && text[k] == '-' && text[k + 1] == '-' && e.IsSpace(text[k + 2])))
  }

  /** From the end of white space at `k` the comment there, or nothing, belongs to the statement before it. */
  predicate TrailerFrom(e: Env, text: string, k: nat, r: nat) {
    && (k < |text| ==> !e.IsSpace(text[k]))
    && if TrailingMark(e, text, k) then StringEndsAt(text, k, r) else r == k
  }

  /** What is behind a delimiter, from `d` up to `r`, belongs to the statement: nothing, unless comments are kept. */
  ghost predicate TrailerUpTo(o: Options, e: Env, text: string, d: nat, r: nat) {
    d <= r <= |text| &&
    if o.preserveComments then exists k: nat :: d <= k <= r && Blank(e, text, d, k) && TrailerFrom(e, text, k, r)
    else r == d
  }

  /** The call for a complete statement: a client command if it is one, and the server's otherwise. */
  function CallFor(o: Options, e: Env, statement: string): Call {
    var command := o.longCommand(e, statement);
    if command.Some? then LongCommand(command.value, statement) else Statement(statement)
  }

  /** The session after the last call of `trace`. */
  function Answered(srv: Server, e: Env, trace: seq<Call>): Env {
    srv(trace).env.(binaryMode := e.binaryMode && srv(trace).env.binaryMode)
  }

  /** The state that a call leaves: its buffer and its session, but nothing starts binary mode. */
  function AfterCall(srv: Server, st: State, call: Call): State {
    var trace := st.trace + [call];
    st.(trace := trace, buffer := srv(trace).buffer, env := Answered(srv, st.env, trace))
  }

  /** The scan after a statement has been handed over and scanning resumes at `q`. */
  function HandedOver(o: Options, srv: Server, s: Scan, statement: string, q: nat, ss: bool): Scan {
    var trace := s.st.trace + [CallFor(o, s.st.env, statement)];
    s.(p := q, out := "", ssComment := ss,
       st := s.st.(buffer := "", inString := NUL, trace := trace, env := Answered(srv, s.st.env, trace)))
  }

  /** The state in which the scan ends if the call for a statement asks to quit. */
  function QuitWith(o: Options, srv: Server, st: State, statement: string): State {
    AfterCall(srv, st.(inString := NUL), CallFor(o, st.env, statement))
  }

  /** The call for the statement asks to quit. */
  predicate CallQuits(o: Options, srv: Server, st: State, statement: string) {
    srv(st.trace + [CallFor(o, st.env, statement)]).quit
  }

  /** Nothing of a statement has been collected. */
  predicate Fresh(s: Scan) {
    s.out == "" && s.st.buffer == ""
  }

  lemma {:induction false} BlankSkipped(l: Loop, s: Scan, b: nat)
    requires l.Valid() && Fresh(s) && !l.o.preserveComments && s.p <= b <= |l.text|
    requires Blank(s.st.env, l.text, s.p, b)
    ensures l.run(s) == l.run(s.(p := b))
    decreases b - s.p
  {
    if s.p < b {
      StepThenScan(l, s, s.(p := s.p + 1));
      BlankSkipped(l, s.(p := s.p + 1), b);
    }
  }

  lemma BlankEnds(e: Env, text: string, d: nat, k: nat)
    requires d <= k <= |text| && Blank(e, text, d, k) && (k < |text| ==> !e.IsSpace(text[k]))
    ensures SpacesEnd(e.IsSpace, text, d) == k
    decreases k - d
  {
    if d < k {
      BlankEnds(e, text, d + 1, k);
    }
  }

  lemma StringEndIs(text: string, p: nat, e: nat)
    requires StringEndsAt(text, p, e)
    ensures StrEnd(text, p) == e
    decreases e - p
  {
    if p < e {
      StringEndIs(text, p + 1, e);
    }
  }

  /** The trailer is what the scanner finds behind the delimiter. */
  lemma TrailerIs(o: Options, e: Env, text: string, d: nat, r: nat)
    requires TrailerUpTo(o, e, text, d, r)
    ensures var q := if o.preserveComments then SpacesEnd(e.IsSpace, text, d) else d;
            d <= q <= r && TrailingComment(o, e, text, q) == r
  {
    if o.preserveComments {
      var k: nat :| d <= k <= r && Blank(e, text, d, k) && TrailerFrom(e, text, k, r);
      BlankEnds(e, text, d, k);
      if TrailingMark(e, text, k) {
        StringEndIs(text, k, r);
      }
    }
  }

  /** There always is one. */
  lemma TrailerExists(o: Options, e: Env, text: string, d: nat) returns (r: nat)
    requires d <= |text|
    ensures TrailerUpTo(o, e, text, d, r)
  {
    r := d;
    if o.preserveComments {
      var k := SpacesEnd(e.IsSpace, text, d);
      r := TrailingComment(o, e, text, k);
      forall i | d <= i < k ensures e.IsSpace(text[i]) {
        assert text[i] == At(text, i);
      }
      if TrailingMark(e, text, k) {
        forall i | k <= i < r ensures text[i] != NUL {
          assert text[i] == At(text, i);
        }
      }
      assert Blank(e, text, d, k) && TrailerFrom(e, text, k, r);
    }
  }

  /** The end of the turn at a delimiter, when the spaces behind it have been kept. */
  lemma EndAfterIs(o: Options, srv: Server, text: string, s: Scan)
    requires Free(s) && s.p <= |text|
    ensures var r := TrailingComment(o, s.st.env, text, s.p);
            var given := s.st.buffer + s.out + text[s.p..r];
            EndAfter(o, srv, text, s) ==
            if CallQuits(o, srv, s.st, given) then Quit(QuitWith(o, srv, s.st, given))
            else More(HandedOver(o, srv, s, given, r, s.ssComment))
  {
  }

  lemma SliceJoin(before: string, text: string, d: nat, q: nat, r: nat)
    requires d <= q <= r <= |text|
    ensures before + text[d..q] + text[q..r] == before + text[d..r]
  {
  }

  /** The turn at a delimiter. */
  lemma EndTurn(o: Options, srv: Server, text: string, s: Scan, r: nat)
    requires Free(s) && DelimiterAt(s.st.env, text, s.p)
    requires TrailerUpTo(o, s.st.env, text, s.p + |s.st.env.delimiter|, r)
    ensures var given := s.st.buffer + s.out + text[s.p + |s.st.env.delimiter|..r];
            EndStatement(o, srv, text, s) ==
            if CallQuits(o, srv, s.st, given) then Quit(QuitWith(o, srv, s.st, given))
            else More(HandedOver(o, srv, s, given, r, s.ssComment))
  {
    var d := s.p + |s.st.env.delimiter|;
    var q := if o.preserveComments then SpacesEnd(s.st.env.IsSpace, text, d) else d;
    TrailerIs(o, s.st.env, text, d, r);
    var t := s.(p := q, out := s.out + text[d..q]);
    assert EndStatement(o, srv, text, s) == EndAfter(o, srv, text, t);
    EndAfterIs(o, srv, text, t);
    TrailerJoined(o, srv, text, s, d, q, r);
  }

  /** The spaces behind a delimiter and the comment behind them make up the trailer. */
  lemma TrailerJoined(o: Options, srv: Server, text: string, s: Scan, d: nat, q: nat, r: nat)
    requires d <= q <= r <= |text|
    ensures var t, given := s.(p := q, out := s.out + text[d..q]), s.st.buffer + s.out + text[d..r];
            && t.st.buffer + t.out + text[q..r] == given
            && HandedOver(o, srv, t, given, r, s.ssComment) == HandedOver(o, srv, s, given, r, s.ssComment)
  {
    assert s.st.buffer + (s.out + text[d..q]) == s.st.buffer + s.out + text[d..q];
    SliceJoin(s.st.buffer + s.out, text, d, q, r);
  }

  /** What stands at the read position is not white space in front of a statement, which is skipped. */
  predicate NotSkipped(o: Options, text: string, s: Scan)
    requires s.p < |text|
  {
    !Fresh(s) || o.preserveComments || !s.st.env.IsSpace(text[s.p])
  }

  lemma DelimiterKind(o: Options, srv: Server, text: string, s: Scan)
    requires Free(s) && DelimiterAt(s.st.env, text, s.p) && NotSkipped(o, text, s)
    ensures StepAt(o, srv, text, s) == EndStatement(o, srv, text, s)
  {
    assert KindAt(o, text, s) == StatementEnd;
  }

  /** At a delimiter outside strings exactly the collected text and its trailer are handed over. */
  lemma StatementEnds(l: Loop, s: Scan, r: nat)
    requires l.Valid() && Free(s) && DelimiterAt(s.st.env, l.text, s.p) && NotSkipped(l.o, l.text, s)
    requires TrailerUpTo(l.o, s.st.env, l.text, s.p + |s.st.env.delimiter|, r)
    ensures var given := s.st.buffer + s.out + l.text[s.p + |s.st.env.delimiter|..r];
            l.run(s) ==
            if CallQuits(l.o, l.srv, s.st, given) then Quit(QuitWith(l.o, l.srv, s.st, given))
            else l.run(HandedOver(l.o, l.srv, s, given, r, s.ssComment))
  {
    EndTurn(l.o, l.srv, l.text, s, r);
    DelimiterKind(l.o, l.srv, l.text, s);
    assert l.Runs(s);
    var step := StepAt(l.o, l.srv, l.text, s);
    if step.More? {
      StepThenScan(l, s, step.scan);
    }
  }

  /** The state after the call for a statement. */
  function Resumed(o: Options, srv: Server, st: State, statement: string): State {
    var trace := st.trace + [CallFor(o, st.env, statement)];
    st.(buffer := "", inString := NUL, trace := trace, env := Answered(srv, st.env, trace))
  }

  /** Over any run of lines, a string and a block comment are never open together. */
  lemma {:induction false} RunStaysConsistent(o: Options, srv: Server, named: bool, lines: seq<Line>, st: State)
    requires Consistent(st)
    ensures Consistent(ReadLines(o, srv, named, lines, st).0)
    decreases |lines|
  {
    if lines != [] && (st.env.binaryMode || NUL !in lines[0].text) {
      var text := lines[0].text;
      var com := LineCommand(o, named, text, st);
      if com.Some? {
        RunStaysConsistent(o, srv, named, lines[1..], Called(st, LongCommand(com.value, text), srv));
      } else {
        LineStaysConsistent(o, srv, text, lines[0].truncated, st);
        RunStaysConsistent(o, srv, named, lines[1..], AddLine(o, srv, text, lines[0].truncated, st).0);
      }
    }
  }
}
