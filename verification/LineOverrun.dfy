/** In binary mode, exactly which lines make `add_line` write its newline behind the terminator of the line. */
module LineOverrun {
  import opened CText
  import opened LineSpec
  import opened LineLaws
  import opened ShortCommands

  /**
   From `p` on, inside a string opened by `q` or outside strings, every character is kept and none is flushed,
   and the last one is a lone backslash inside a string. `first` tells whether the statement starts at `p`.
   */
  predicate Unbroken(o: Options, srv: Server, e: Env, trace: seq<Call>, text: string, p: nat, q: char, first: bool)
    decreases |text| - p
  {
    p < |text| && !(first && !o.preserveComments && e.IsSpace(text[p])) &&
    var n := e.MbLen(text[p..]);
    if n > 0 then Unbroken(o, srv, e, trace, text, p + n, q, false)
    else if text[p] == '\\' && (q == NUL || Escapes(e, q)) then
      if p + 1 == |text| then q != NUL
      else if q != NUL || text[p + 1] == 'N' then Unbroken(o, srv, e, trace, text, p + 2, q, false)
      else
        var t := trace + [UnknownCommand(text[p + 1])];
        text[p + 1] != NUL && UnknownShort(o, e, text[p + 1]) && !srv(t).quit &&
        Unbroken(o, srv, e, t, text, p + 2, q, false)
    else if q != NUL then Unbroken(o, srv, e, trace, text, p + 1, if text[p] == q then NUL else q, false)
    else
      NoMark(e, text, p, first) &&
      Unbroken(o, srv, e, trace, text, p + 1, if IsQuote(text[p]) then text[p] else NUL, false)
  }

  /** The newline after this line goes one byte behind its terminator. */
  predicate Overruns(o: Options, srv: Server, text: string, truncated: bool, st: State) {
    && st.env.binaryMode && !st.mlComment && !truncated && !(At(text, 0) == NUL && st.buffer == "")
    && Unbroken(o, srv, st.env, st.trace, text, 0, st.inString, st.buffer == "")
  }

  /** Everything read so far has been kept. */
  predicate Level(s: Scan) {
    s.p == |s.out| && !s.st.mlComment && !s.needSpace
  }

  predicate UnbrokenFrom(l: Loop, s: Scan) {
    Unbroken(l.o, l.srv, s.st.env, s.st.trace, l.text, s.p, s.st.inString, s.st.buffer == "" && s.out == "")
  }

  /** Something read has not been kept, or a block comment is open: the rest cannot make up for it. */
  predicate Behind(text: string, s: Scan) {
    && s.p <= |text| + 1
    && (|s.out| + (if s.needSpace then 1 else 0) < s.p ||
        (s.st.mlComment && !s.needSpace && |s.out| <= s.p <= |text|))
  }

  /** The kept text goes past the terminator. */
  predicate Late(text: string, r: Step) {
    r.Stop? && |r.scan.out| > |text|
  }

  /** The turn leaves a scan that is behind, or ends it without a late text. */
  predicate KeepsBehind(text: string, r: Step) {
    if r.More? then Behind(text, r.scan) else !Late(text, r)
  }

  lemma BehindEscape(o: Options, srv: Server, text: string, s: Scan)
    requires s.p < |text| && Behind(text, s) && !s.st.mlComment
    ensures KeepsBehind(text, Backslash(o, srv, text, s))
  {
  }

  lemma BehindEnd(o: Options, srv: Server, text: string, s: Scan)
    requires Behind(text, s) && PrefixAt(text, s.p, s.st.env.delimiter)
    ensures KeepsBehind(text, EndStatement(o, srv, text, s))
  {
  }

  lemma BehindComment(o: Options, srv: Server, text: string, s: Scan)
    requires s.p < |text| && Behind(text, s)
    ensures KeepsBehind(text, LineComment(o, srv, text, s))
  {
  }

  lemma BehindEdge(o: Options, text: string, s: Scan, edge: string, opening: bool)
    requires s.p + 2 <= |text| && Behind(text, s)
    ensures KeepsBehind(text, BlockEdge(o, s, edge, opening))
  {
  }

  lemma BehindPlain(o: Options, text: string, s: Scan)
    requires s.p < |text| && Behind(text, s)
    ensures KeepsBehind(text, Plain(o, text, s))
  {
  }

  lemma BehindMulti(o: Options, text: string, s: Scan, n: nat)
    requires 0 < n && s.p + n <= |text| && Behind(text, s)
    ensures KeepsBehind(text, MultiByte(o, text, s, n))
  {
  }

  lemma BehindStep(o: Options, srv: Server, text: string, s: Scan)
    requires s.p < |text| && Behind(text, s)
    ensures KeepsBehind(text, StepAt(o, srv, text, s))
  {
    match KindAt(o, text, s)
    case LeadingSpace =>
    case Multi(n) => BehindMulti(o, text, s, n);
    case Escape => BehindEscape(o, srv, text, s);
    case StatementEnd => BehindEnd(o, srv, text, s);
    case LineRemark => BehindComment(o, srv, text, s);
    case BlockOpen => BehindEdge(o, text, s, "/*", true);
    case BlockClose => BehindEdge(o, text, s, "*/", false);
    case Other => BehindPlain(o, text, s);
  }

  lemma {:induction false} BehindStaysBehind(l: Loop, s: Scan)
    requires l.Valid() && Behind(l.text, s)
    ensures !Late(l.text, l.run(s))
    decreases |l.text| - s.p
  {
    assert l.Runs(s);
    if s.p < |l.text| {
      BehindStep(l.o, l.srv, l.text, s);
      var r := StepAt(l.o, l.srv, l.text, s);
      if r.More? {
        BehindStaysBehind(l, r.scan);
        StepThenScan(l, s, r.scan);
      }
    }
  }

  /** What one turn does to a scan that has kept everything, told by the condition. */
  ghost predicate Turned(l: Loop, s: Scan, r: Step) {
    if r.More? && Level(r.scan) && r.scan.p <= |l.text| then
      s.p < r.scan.p && r.scan.st.env == s.st.env && UnbrokenFrom(l, s) == UnbrokenFrom(l, r.scan)
    else if r.More? && Level(r.scan) then r.scan.p == |l.text| + 1 && UnbrokenFrom(l, s)
    else if r.More? then Behind(l.text, r.scan) && !UnbrokenFrom(l, s)
    else !Late(l.text, r) && !UnbrokenFrom(l, s)
  }

  lemma LevelEscape(l: Loop, s: Scan)
    requires s.p < |l.text| && Level(s) && s.st.env.binaryMode && KindAt(l.o, l.text, s) == Escape
    ensures Turned(l, s, Backslash(l.o, l.srv, l.text, s))
  {
  }

  lemma LevelPlain(l: Loop, s: Scan)
    requires s.p < |l.text| && Level(s) && KindAt(l.o, l.text, s) == Other
    ensures Turned(l, s, Plain(l.o, l.text, s))
  {
  }

  lemma LevelMulti(l: Loop, s: Scan)
    requires s.p < |l.text| && Level(s) && KindAt(l.o, l.text, s).Multi?
    ensures Turned(l, s, MultiByte(l.o, l.text, s, KindAt(l.o, l.text, s).n))
  {
  }

  /** White space that is skipped, a delimiter and a comment break the row of kept characters. */
  lemma MarkBreaks(l: Loop, s: Scan)
    requires s.p < |l.text| && Level(s)
    requires var k := KindAt(l.o, l.text, s); k != Escape && k != Other && !k.Multi?
    ensures !UnbrokenFrom(l, s)
  {
  }

  lemma LevelMark(l: Loop, s: Scan)
    requires s.p < |l.text| && Level(s) && !UnbrokenFrom(l, s)
    requires var k := KindAt(l.o, l.text, s); k != Escape && k != Other && !k.Multi?
    ensures Turned(l, s, StepAt(l.o, l.srv, l.text, s))
  {
    match KindAt(l.o, l.text, s)
    case LeadingSpace =>
    case StatementEnd => LevelEnd(l, s);
    case LineRemark => LevelRemark(l, s);
    case BlockOpen => LevelOpen(l, s);
  }

  lemma LevelEnd(l: Loop, s: Scan)
    requires s.p < |l.text| && Level(s) && PrefixAt(l.text, s.p, s.st.env.delimiter) && !UnbrokenFrom(l, s)
    ensures Turned(l, s, EndStatement(l.o, l.srv, l.text, s))
  {
  }

  lemma LevelRemark(l: Loop, s: Scan)
    requires s.p < |l.text| && Level(s) && !UnbrokenFrom(l, s)
    ensures Turned(l, s, LineComment(l.o, l.srv, l.text, s))
  {
  }

  lemma LevelOpen(l: Loop, s: Scan)
    requires s.p + 2 <= |l.text| && Level(s) && !UnbrokenFrom(l, s)
    ensures Turned(l, s, BlockEdge(l.o, s, "/*", true))
  {
  }

  lemma LevelTurn(l: Loop, s: Scan)
    requires s.p < |l.text| && Level(s) && s.st.env.binaryMode
    ensures Turned(l, s, StepAt(l.o, l.srv, l.text, s))
  {
    var k := KindAt(l.o, l.text, s);
    if k == Escape {
      LevelEscape(l, s);
    } else if k == Other {
      LevelPlain(l, s);
    } else if k.Multi? {
      LevelMulti(l, s);
    } else {
      MarkBreaks(l, s);
      LevelMark(l, s);
    }
  }

  /** The kept text goes past the terminator if and only if the rest of the line is unbroken. */
  lemma {:induction false} LateIffUnbroken(l: Loop, s: Scan)
    requires l.Valid() && Level(s) && s.p <= |l.text| && s.st.env.binaryMode
    ensures Late(l.text, l.run(s)) <==> UnbrokenFrom(l, s)
    ensures Late(l.text, l.run(s)) ==> |l.run(s).scan.out| == |l.text| + 1 && l.run(s).scan.st.inString != NUL
    decreases |l.text| - s.p
  {
    assert l.Runs(s);
    if s.p < |l.text| {
      LevelTurn(l, s);
      var r := StepAt(l.o, l.srv, l.text, s);
      if r.More? {
        StepThenScan(l, s, r.scan);
        assert l.Runs(r.scan);
        if !Level(r.scan) {
          BehindStaysBehind(l, r.scan);
        } else if r.scan.p <= |l.text| {
          LateIffUnbroken(l, r.scan);
        }
      }
    }
  }

  /** Where the kept text of a line ends. */
  lemma OverrunsExactly(o: Options, srv: Server, text: string, st: State)
    requires st.env.binaryMode && !(At(text, 0) == NUL && st.buffer == "")
    ensures var r := ScanFrom(o, srv, text, Scan(0, "", st, false, false));
            && (Late(text, r) <==> Overruns(o, srv, text, false, st))
            && (Late(text, r) ==> |r.scan.out| == |text| + 1 && r.scan.st.inString != NUL)
  {
    var l, s := TheLoop(o, srv, text), Scan(0, "", st, false, false);
    assert l.Runs(s);
    if st.mlComment {
      BehindStaysBehind(l, s);
    } else {
      LateIffUnbroken(l, s);
    }
  }

  /** A single-byte session in binary mode where backslashes escape. */
  ghost predicate PlainBinary(e: Env) {
    e.binaryMode && !e.noBackslash && e.delimiter == ";" && (forall t :: e.MbLen(t) == 0) && e.spaces == {' '}
  }

  /** For instance, a backslash alone inside an open string overruns. */
  lemma LoneBackslashOverruns(o: Options, srv: Server, e: Env)
    requires PlainBinary(e)
    ensures var st := State("'", '\'', false, e, []);
            && Overruns(o, srv, "\\", false, st)
            && Late("\\", ScanFrom(o, srv, "\\", Scan(0, "", st, false, false)))
  {
    OverrunsExactly(o, srv, "\\", State("'", '\'', false, e, []));
  }

  /** A line that also ends in a backslash inside a string but has flushed some text does not. */
  lemma FlushedLineStaysInside(o: Options, srv: Server, e: Env)
    requires PlainBinary(e)
    ensures var st := State("x", NUL, false, e, []);
            && !Overruns(o, srv, ";'\\", false, st)
            && !Late(";'\\", ScanFrom(o, srv, ";'\\", Scan(0, "", st, false, false)))
  {
    assert PrefixAt(";'\\", 0, ";");
    OverrunsExactly(o, srv, ";'\\", State("x", NUL, false, e, []));
  }
}
