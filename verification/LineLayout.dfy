/** A line as a row of segments, text, comments and delimiters, and what the scanner makes of each of them. */
module LineLayout {
  import opened Optional
  import opened CText
  import opened LineSpec
  import opened LineLaws
  import opened ShortCommands

  /** Every segment starts where the one before it ends. */
  datatype Segment =
    | Skipped(end: nat)              // white space in front of a statement
    | Text(end: nat, quote: char)    // statement text; `quote` is the string it leaves open, or NUL
    | Wide(end: nat)                 // a multi-byte character or the NULL sign
    | Comment(end: nat)              // the rest of the block comment that starts here or on an earlier line
    | Unclosed                       // a block comment that goes on behind the line
    | Remark(end: nat)               // a comment up to the end of the line
    | Delimiter(end: nat)            // with what follows it and belongs to the statement
    | Short(index: nat, stop: nat, end: nat)    // a short command; its text ends at `stop` and its parameters at `end`
    | Unknown                        // a backslash and a letter that is no command
    | Cut                            // a backslash with nothing behind it

  /** A scan without its flag for server comments; `owed` tells that a blank is owed for a comment. */
  datatype View = View(p: nat, out: string, st: State, owed: bool) {
    predicate Fresh() { out == "" && st.buffer == "" }

    predicate Free() { st.inString == NUL && !st.mlComment }

    /** White space is skipped as long as nothing has been collected. */
    predicate Skips(o: Options) { Fresh() && !o.preserveComments }

    function AsScan(): Scan { Scan(p, out, st, owed, false) }
  }

  function ViewOf(s: Scan): View { View(s.p, s.out, s.st, s.needSpace) }

  // ---------------------------------------------------------------- text that may start or end inside a string

  /** The string opened by `q` is closed at `k`. */
  predicate ClosedAt(e: Env, q: char, text: string, p: nat, k: nat, end: nat)
    requires end <= |text|
  {
    p <= k < end && Inside(e, q, text, p, k) && text[k] == q && e.MbLen(text[k..]) == 0
  }

  /** Statement text up to `k`, where a string is opened that stays open up to `end`. */
  ghost predicate OpenedAt(keep: bool, e: Env, text: string, p: nat, k: nat, end: nat, first: bool)
    requires end <= |text|
  {
    && p <= k < end && StatementText(keep, e, text, p, k, first)
    && LiteralAt(e, text, k) && NoMark(e, text, k, first && k == p)
    && (first && k == p && !keep ==> !e.IsSpace(text[k]))
    && Inside(e, text[k], text, k + 1, end)
  }

  /** Statement text that starts outside strings and ends inside the one opened by `r`, or outside if it is NUL. */
  ghost predicate Outward(keep: bool, e: Env, text: string, p: nat, end: nat, r: char, first: bool)
    requires end <= |text|
  {
    if r == NUL then StatementText(keep, e, text, p, end, first)
    else exists k: nat :: OpenedAt(keep, e, text, p, k, end, first) && text[k] == r
  }

  /** The same for text that starts inside the string opened by `q`, or outside if it is NUL. */
  ghost predicate Stretch(keep: bool, e: Env, text: string, p: nat, q: char, end: nat, r: char, first: bool)
    requires end <= |text|
  {
    if q == NUL then Outward(keep, e, text, p, end, r, first)
    else
      || (r == q && Inside(e, q, text, p, end))
      || exists k: nat :: ClosedAt(e, q, text, p, k, end) && Outward(keep, e, text, k + 1, end, r, false)
  }

  /** The scan when everything up to `end` has been kept and the string opened by `r` is open. */
  function Moved(text: string, s: Scan, end: nat, r: char, ss: bool): Scan
    requires s.p <= end <= |text|
  {
    Kept(text, s, end, ss).(st := s.st.(inString := r))
  }

  lemma MovedTwice(text: string, s: Scan, k: nat, r': char, ss': bool, end: nat, r: char, ss: bool)
    requires s.p <= k <= end <= |text|
    ensures Moved(text, Moved(text, s, k, r', ss'), end, r, ss) == Moved(text, s, end, r, ss)
  {
    assert s.out + text[s.p..k] + text[k..end] == s.out + text[s.p..end];
  }

  /** At its opening quote a string is entered. */
  lemma StringEntered(l: Loop, s: Scan)
    requires l.Valid() && Outside(s) && s.p < |l.text| && LiteralAt(s.st.env, l.text, s.p)
    requires NoMark(s.st.env, l.text, s.p, Fresh(s)) && NotSkipped(l.o, l.text, s)
    ensures l.run(s) == l.run(Moved(l.text, s, s.p + 1, l.text[s.p], s.ssComment))
  {
    assert KindAt(l.o, l.text, s) == Other;
    QuoteOpens(l, s);
    assert s.out + [l.text[s.p]] == s.out + l.text[s.p..s.p + 1];
  }

  lemma StringLeft(l: Loop, s: Scan)
    requires l.Valid() && s.st.inString != NUL && ScanConsistent(s)
    requires s.p < |l.text| && l.text[s.p] == s.st.inString && s.st.env.MbLen(l.text[s.p..]) == 0
    ensures l.run(s) == l.run(Moved(l.text, s, s.p + 1, NUL, s.ssComment))
  {
    QuoteCloses(l, s);
    assert s.out + [l.text[s.p]] == s.out + l.text[s.p..s.p + 1];
  }

  /** Text inside a string, from its opening quote on. */
  lemma StringOpened(l: Loop, s: Scan, end: nat)
    requires l.Valid() && Outside(s) && s.p < end <= |l.text| && LiteralAt(s.st.env, l.text, s.p)
    requires NoMark(s.st.env, l.text, s.p, Fresh(s)) && NotSkipped(l.o, l.text, s)
    requires Inside(s.st.env, l.text[s.p], l.text, s.p + 1, end)
    ensures l.run(s) == l.run(Moved(l.text, s, end, l.text[s.p], s.ssComment))
  {
    var q := l.text[s.p];
    StringEntered(l, s);
    var t := Moved(l.text, s, s.p + 1, q, s.ssComment);
    StringVerbatim(l, t, end);
    MovedTwice(l.text, s, s.p + 1, q, s.ssComment, end, q, s.ssComment);
  }

  lemma TextThenString(l: Loop, s: Scan, k: nat, end: nat) returns (ss: bool)
    requires l.Valid() && Outside(s) && s.p <= end <= |l.text|
    requires OpenedAt(l.o.preserveComments, s.st.env, l.text, s.p, k, end, Fresh(s))
    ensures l.run(s) == l.run(Moved(l.text, s, end, l.text[k], ss))
    ensures SsTold(l.text, s) ==> SsTold(l.text, Moved(l.text, s, end, l.text[k], ss))
  {
    ss := TextKept(l, s, k);
    var t := Kept(l.text, s, k, ss);
    assert Fresh(t) <==> Fresh(s) && k == s.p;
    StringOpened(l, t, end);
    assert t == Moved(l.text, s, k, NUL, ss);
    MovedTwice(l.text, s, k, NUL, ss, end, l.text[k], ss);
  }

  lemma OutwardScanned(l: Loop, s: Scan, end: nat, r: char) returns (ss: bool)
    requires l.Valid() && Outside(s) && s.p <= end <= |l.text|
    requires Outward(l.o.preserveComments, s.st.env, l.text, s.p, end, r, Fresh(s))
    ensures l.run(s) == l.run(Moved(l.text, s, end, r, ss))
    ensures r != NUL ==> s.p < end && IsQuote(r)
    ensures SsTold(l.text, s) ==> SsTold(l.text, Moved(l.text, s, end, r, ss))
  {
    if r == NUL {
      ss := TextKept(l, s, end);
      assert Moved(l.text, s, end, r, ss) == Kept(l.text, s, end, ss);
    } else {
      var k: nat :| OpenedAt(l.o.preserveComments, s.st.env, l.text, s.p, k, end, Fresh(s)) && l.text[k] == r;
      ss := TextThenString(l, s, k, end);
    }
  }

  lemma StretchScanned(l: Loop, s: Scan, end: nat, r: char) returns (ss: bool)
    requires l.Valid() && ScanConsistent(s) && !s.st.mlComment && !s.needSpace && s.p <= end <= |l.text|
    requires Stretch(l.o.preserveComments, s.st.env, l.text, s.p, s.st.inString, end, r, Fresh(s))
    ensures l.run(s) == l.run(Moved(l.text, s, end, r, ss))
    ensures ScanConsistent(Moved(l.text, s, end, r, ss))
    ensures SsTold(l.text, s) ==> SsTold(l.text, Moved(l.text, s, end, r, ss))
  {
    var q := s.st.inString;
    if q == NUL {
      ss := OutwardScanned(l, s, end, r);
    } else if r == q && Inside(s.st.env, q, l.text, s.p, end) {
      StringVerbatim(l, s, end);
      ss := s.ssComment;
    } else {
      ss := StringEnded(l, s, end, r);
    }
  }

  lemma StringClosed(l: Loop, s: Scan, k: nat, end: nat)
    requires l.Valid() && s.st.inString != NUL && ScanConsistent(s) && s.p <= end <= |l.text|
    requires ClosedAt(s.st.env, s.st.inString, l.text, s.p, k, end)
    ensures l.run(s) == l.run(Moved(l.text, s, k + 1, NUL, s.ssComment))
  {
    var q := s.st.inString;
    StringVerbatim(l, s, k);
    StringLeft(l, Moved(l.text, s, k, q, s.ssComment));
    MovedTwice(l.text, s, k, q, s.ssComment, k + 1, NUL, s.ssComment);
  }

  lemma StringEnded(l: Loop, s: Scan, end: nat, r: char) returns (ss: bool)
    requires l.Valid() && s.st.inString != NUL && ScanConsistent(s) && s.p <= end <= |l.text|
    requires exists k: nat :: ClosedAt(s.st.env, s.st.inString, l.text, s.p, k, end) &&
                              Outward(l.o.preserveComments, s.st.env, l.text, k + 1, end, r, false)
    ensures l.run(s) == l.run(Moved(l.text, s, end, r, ss)) && (r != NUL ==> IsQuote(r))
    ensures SsTold(l.text, s) ==> SsTold(l.text, Moved(l.text, s, end, r, ss))
  {
    var k: nat :| ClosedAt(s.st.env, s.st.inString, l.text, s.p, k, end) &&
                  Outward(l.o.preserveComments, s.st.env, l.text, k + 1, end, r, false);
    StringClosed(l, s, k, end);
    var u := Moved(l.text, s, k + 1, NUL, s.ssComment);
    ss := OutwardScanned(l, u, end, r);
    MovedTwice(l.text, s, k + 1, NUL, s.ssComment, end, r, ss);
  }

  // ---------------------------------------------------------------- the blank that is owed for a comment

  /** What is inserted before the character at `p`. */
  function Gap(e: Env, text: string, p: nat, owed: bool): string {
    if owed && !e.IsSpace(At(text, p)) then " " else ""
  }

  /** The character at `p` takes the blank that is owed: multi-byte characters and the NULL sign do not. */
  predicate TakesGap(e: Env, text: string, p: nat)
    requires p < |text|
  {
    e.MbLen(text[p..]) == 0 && text[p] != '\\'
  }

  lemma FirstRelaxed(keep: bool, e: Env, text: string, p: nat, end: nat)
    requires end <= |text| && StatementText(keep, e, text, p, end, true)
    ensures StatementText(keep, e, text, p, end, false)
  {
    if p < end && LiteralAt(e, text, p) {
      var k: nat :| LiteralEnds(e, text, p, k, end) && StatementText(keep, e, text, k + 1, end, false);
    }
  }

  lemma StretchRelaxed(keep: bool, e: Env, text: string, p: nat, end: nat, r: char, first: bool)
    requires end <= |text| && Outward(keep, e, text, p, end, r, first)
    ensures Outward(keep, e, text, p, end, r, false)
  {
    if first {
      if r == NUL {
        FirstRelaxed(keep, e, text, p, end);
      } else {
        var k: nat :| OpenedAt(keep, e, text, p, k, end, first) && text[k] == r;
        FirstRelaxed(keep, e, text, p, k);
        assert OpenedAt(keep, e, text, p, k, end, false);
      }
    }
  }

  /** The first character of statement text that takes a gap is an ordinary one. */
  lemma StretchStarts(keep: bool, e: Env, text: string, p: nat, end: nat, r: char, first: bool)
    requires p < end <= |text| && Outward(keep, e, text, p, end, r, first) && TakesGap(e, text, p)
    ensures NoMark(e, text, p, first) && (first && !keep ==> !e.IsSpace(text[p]))
  {
    if r != NUL {
      var k: nat :| OpenedAt(keep, e, text, p, k, end, first) && text[k] == r;
    }
  }

  /** The blank that is owed comes before an ordinary character. */
  lemma GapFilled(l: Loop, s: Scan)
    requires l.Valid() && Free(s) && s.p < |l.text| && TakesGap(s.st.env, l.text, s.p)
    requires NoMark(s.st.env, l.text, s.p, Fresh(s)) && NotSkipped(l.o, l.text, s)
    ensures l.run(s) == l.run(s.(needSpace := false, out := s.out + Gap(s.st.env, l.text, s.p, s.needSpace)))
  {
    var gap := Gap(s.st.env, l.text, s.p, s.needSpace);
    var f := s.(needSpace := false, out := s.out + gap);
    assert KindAt(l.o, l.text, s) == Other && KindAt(l.o, l.text, f) == Other;
    var t := StepAt(l.o, l.srv, l.text, s).scan;
    assert f.out + "" == f.out;
    assert StepAt(l.o, l.srv, l.text, f) == More(t);
    StepThenScan(l, s, t);
    StepThenScan(l, f, t);
  }

  // ---------------------------------------------------------------- comments

  /** From `p` up to `k` the text lies inside a block comment; `first` tells that white space is skipped. */
  predicate InComment(e: Env, text: string, p: nat, k: nat, first: bool)
    requires k <= |text|
    decreases k - p
  {
    p == k ||
    (p < k &&
     var n := e.MbLen(text[p..]);
     if first && e.IsSpace(text[p]) then InComment(e, text, p + 1, k, first)
     else if n > 0 then InComment(e, text, p + n, k, first)
     else if CommentMark(text, p) then InComment(e, text, p + 2, k, first)
     else
       !(text[p] == '*' && At(text, p + 1) == '/') && !ServerMark(text, p) && InComment(e, text, p + 1, k, first))
  }

  /** A block comment is opened at `p`. */
  predicate CommentAt(e: Env, text: string, p: nat, first: bool) {
    && CommentMark(text, p) && e.MbLen(text[p..]) == 0
    && !PrefixAt(text, p, e.delimiter) && (first ==> !e.IsSpace(text[p]))
  }

  /** And one is closed. */
  predicate CommentEndAt(e: Env, text: string, k: nat, first: bool) {
    && k + 2 <= |text| && text[k] == '*' && text[k + 1] == '/' && e.MbLen(text[k..]) == 0
    && (first ==> !e.IsSpace(text[k]))
  }

  /** Inside a block comment, with nothing owed if it is kept. */
  predicate Commenting(o: Options, s: Scan) {
    && s.st.mlComment && s.st.inString == NUL && !s.ssComment
    && if o.preserveComments then !s.needSpace else s.out == ""
  }

  /** White space is skipped as long as nothing has been collected. */
  predicate Skips(o: Options, s: Scan) { Fresh(s) && !o.preserveComments }

  /** The scan with other text collected; it may be in the line or in the buffer already. */
  ghost predicate Collects(s: Scan, t: Scan, p: nat, text: string) {
    t == s.(p := p, out := t.out, st := s.st.(buffer := t.st.buffer)) && t.st.buffer + t.out == text
  }

  /** What a stretch of comment adds to the statement. */
  function CommentText(o: Options, text: string, p: nat, k: nat): string
    requires p <= k <= |text|
  {
    if o.preserveComments then text[p..k] else ""
  }

  /** One turn inside a comment that is dropped. */
  lemma DroppedStep(o: Options, srv: Server, text: string, s: Scan, k: nat)
    requires !o.preserveComments && Commenting(o, s) && s.p < k <= |text|
    requires InComment(s.st.env, text, s.p, k, Skips(o, s))
    ensures var r := StepAt(o, srv, text, s);
            && r.More? && s.p < r.scan.p <= k && InComment(s.st.env, text, r.scan.p, k, Skips(o, s))
            && r.scan == s.(p := r.scan.p)
  {
    assert s.st.buffer + "" == s.st.buffer;
  }

  /** And one inside a comment that is kept. */
  lemma KeptStep(o: Options, srv: Server, text: string, s: Scan, k: nat)
    requires o.preserveComments && Commenting(o, s) && s.p < k <= |text|
    requires InComment(s.st.env, text, s.p, k, false)
    ensures var r := StepAt(o, srv, text, s);
            && r.More? && s.p < r.scan.p <= k && InComment(s.st.env, text, r.scan.p, k, false)
            && Collects(s, r.scan, r.scan.p, s.st.buffer + (s.out + text[s.p..r.scan.p]))
  {
    var r := StepAt(o, srv, text, s);
    var n := r.scan.p;
    assert s.out + "" == s.out;
    assert CommentMark(text, s.p) && s.st.env.MbLen(text[s.p..]) == 0 ==> text[s.p..n] == "/*";
    assert s.st.buffer + (s.out + text[s.p..n]) + "" == s.st.buffer + (s.out + text[s.p..n]);
  }

  lemma CommentStep(o: Options, srv: Server, text: string, s: Scan, k: nat)
    requires Commenting(o, s) && s.p < k <= |text| && InComment(s.st.env, text, s.p, k, Skips(o, s))
    ensures var r := StepAt(o, srv, text, s);
            && r.More? && s.p < r.scan.p <= k && InComment(s.st.env, text, r.scan.p, k, Skips(o, s))
            && Collects(s, r.scan, r.scan.p, s.st.buffer + s.out + CommentText(o, text, s.p, r.scan.p))
  {
    if o.preserveComments {
      KeptStep(o, srv, text, s, k);
      var n := StepAt(o, srv, text, s).scan.p;
      assert s.st.buffer + (s.out + text[s.p..n]) == s.st.buffer + s.out + text[s.p..n];
    } else {
      DroppedStep(o, srv, text, s, k);
      assert s.st.buffer + s.out + "" == s.st.buffer + s.out;
    }
  }

  lemma CommentTextJoin(o: Options, text: string, p: nat, q: nat, k: nat, before: string)
    requires p <= q <= k <= |text|
    ensures before + CommentText(o, text, p, q) + CommentText(o, text, q, k) == before + CommentText(o, text, p, k)
  {
    if o.preserveComments {
      SliceJoin(before, text, p, q, k);
    }
  }

  /** Inside a block comment nothing is collected but the comment itself, if comments are kept. */
  lemma {:induction false} CommentPassed(l: Loop, s: Scan, k: nat) returns (t: Scan)
    requires l.Valid() && Commenting(l.o, s) && s.p <= k <= |l.text|
    requires InComment(s.st.env, l.text, s.p, k, Skips(l.o, s))
    ensures l.run(s) == l.run(t) && Commenting(l.o, t)
    ensures Collects(s, t, k, s.st.buffer + s.out + CommentText(l.o, l.text, s.p, k))
    decreases k - s.p
  {
    if s.p == k {
      t := s;
      assert s.st.buffer + s.out + "" == s.st.buffer + s.out && l.text[k..k] == "";
    } else {
      CommentStep(l.o, l.srv, l.text, s, k);
      var u := StepAt(l.o, l.srv, l.text, s).scan;
      StepThenScan(l, s, u);
      SkipsStill(l.o, s, u, CommentText(l.o, l.text, s.p, u.p));
      t := CommentPassed(l, u, k);
      CommentTextJoin(l.o, l.text, s.p, u.p, k, s.st.buffer + s.out);
    }
  }

  lemma SkipsStill(o: Options, s: Scan, u: Scan, more: string)
    requires u.st.buffer + u.out == s.st.buffer + s.out + more && (more != "" ==> o.preserveComments)
    requires !o.preserveComments ==> u.out == "" && s.out == ""
    ensures Skips(o, u) == Skips(o, s)
  {
    assert more == "" ==> s.st.buffer + s.out + more == s.st.buffer + s.out;
  }

  /** The scan inside a comment that starts at the read position. */
  function Commented(o: Options, text: string, s: Scan): Scan
    requires s.p + 2 <= |text|
  {
    s.(p := s.p + 2, out := "",
       st := s.st.(buffer := s.st.buffer + s.out + CommentText(o, text, s.p, s.p + 2), mlComment := true))
  }

  lemma CommentEntered(l: Loop, s: Scan)
    requires l.Valid() && Free(s) && CommentAt(s.st.env, l.text, s.p, Skips(l.o, s))
    ensures l.run(s) == l.run(Commented(l.o, l.text, s))
  {
    assert KindAt(l.o, l.text, s) == BlockOpen;
    assert l.text[s.p..s.p + 2] == "/*";
    assert s.st.buffer + (s.out + "/*") == s.st.buffer + s.out + "/*";
    assert s.st.buffer + s.out + "" == s.st.buffer + s.out;
    StepThenScan(l, s, Commented(l.o, l.text, s));
  }

  /** The scan behind a comment that ends at the read position. */
  function Uncommented(o: Options, text: string, s: Scan): Scan
    requires s.p + 2 <= |text|
  {
    s.(p := s.p + 2, out := "", needSpace := true,
       st := s.st.(buffer := s.st.buffer + s.out + CommentText(o, text, s.p, s.p + 2), mlComment := false))
  }

  lemma CommentLeft(l: Loop, s: Scan)
    requires l.Valid() && Commenting(l.o, s) && CommentEndAt(s.st.env, l.text, s.p, Skips(l.o, s))
    ensures l.run(s) == l.run(Uncommented(l.o, l.text, s))
  {
    assert KindAt(l.o, l.text, s) == BlockClose;
    assert l.text[s.p..s.p + 2] == "*/";
    assert s.st.buffer + (s.out + "*/") == s.st.buffer + s.out + "*/";
    assert s.st.buffer + s.out + "" == s.st.buffer + s.out;
    StepThenScan(l, s, Uncommented(l.o, l.text, s));
  }

  // ---------------------------------------------------------------- segments

  /** No comment for the server has been opened in the line before `p`. */
  predicate NoServerMark(text: string, p: nat) {
    forall k: nat :: k < p ==> !ServerMark(text, k)
  }

  /** From `v` on the text lies in a block comment up to `k`: one that starts here, or one opened by an earlier line. */
  predicate CommentUpTo(o: Options, text: string, v: View, k: nat)
    requires k <= |text|
  {
    && v.st.inString == NUL && NoServerMark(text, v.p) && v.p <= k
    && (if o.preserveComments then !v.owed else v.st.mlComment ==> v.out == "")
    && if v.st.mlComment then InComment(v.st.env, text, v.p, k, v.Skips(o))
       else CommentAt(v.st.env, text, v.p, v.Skips(o)) && InComment(v.st.env, text, v.p + 2, k, v.Skips(o))
  }

  predicate RemarkAt(o: Options, text: string, v: View) {
    && v.Free() && RemarkMark(v.st.env, text, v.p, v.Fresh()) && v.st.env.MbLen(text[v.p..]) == 0
    && !PrefixAt(text, v.p, v.st.env.delimiter) && (v.Skips(o) ==> !v.st.env.IsSpace(text[v.p]))
  }

  predicate SlashAt(e: Env, text: string, p: nat)
    requires p < |text|
  {
    text[p] == '\\' && e.MbLen(text[p..]) == 0
  }

  /** A backslash that escapes, or would start a command, has no character behind it. */
  predicate CutAt(o: Options, text: string, v: View) {
    && v.p < |text| && SlashAt(v.st.env, text, v.p) && !v.st.mlComment
    && if v.st.inString == NUL then
         (v.p + 1 == |text| || text[v.p + 1] == NUL) && (v.Skips(o) ==> !v.st.env.IsSpace(text[v.p]))
       else
         Escapes(v.st.env, v.st.inString) && !v.Fresh() &&
         (v.p + 1 == |text| || (text[v.p + 1] == NUL && !v.st.env.binaryMode))
  }

  /** The session that short command `i` leaves. */
  function SessionAfter(srv: Server, text: string, v: View, i: nat, stop: nat): Env
    requires v.p <= stop <= |text|
  {
    ShortCommands.Behind(srv, text, v.AsScan(), i, stop, 0).st.env
  }

  /** The parameters of short command `i`, if it takes some, end at `end`: behind the delimiter or with the text. */
  predicate ParamsUpTo(o: Options, srv: Server, text: string, v: View, i: nat, stop: nat, end: nat)
    requires v.p <= stop <= |text|
  {
    if !o.takesParams(i) then end == v.p + 2
    else
      var d := SessionAfter(srv, text, v, i, stop).delimiter;
      && NoServerMark(text, v.p)
      && ((end >= |d| && FirstMark(text, v.p + 2, d, end - |d|)) || NoMarkUpTo(text, v.p + 2, d, end))
  }

  /** The segment stands at the read position. */
  ghost predicate Fits(o: Options, srv: Server, text: string, v: View, g: Segment) {
    var e, keep := v.st.env, o.preserveComments;
    match g
    case Skipped(end) => v.Free() && v.Skips(o) && v.p < end <= |text| && Blank(e, text, v.p, end)
    case Text(end, r) =>
      && !v.st.mlComment && v.p < end <= |text| && (v.owed ==> TakesGap(e, text, v.p))
      && Stretch(keep, e, text, v.p, v.st.inString, end, r, v.Fresh())
    case Wide(end) =>
      && v.Free() && v.p < end <= |text| && end == PlainEnd(e, text, v.p)
      && PlainAt(e, text, v.p, v.Fresh()) && !TakesGap(e, text, v.p)
      && (v.Skips(o) ==> !e.IsSpace(text[v.p]))
    case Comment(end) =>
      2 <= end <= |text| && CommentUpTo(o, text, v, end - 2) && CommentEndAt(e, text, end - 2, v.Skips(o))
    case Unclosed => CommentUpTo(o, text, v, |text|)
    case Remark(end) => RemarkAt(o, text, v) && StringEndsAt(text, v.p, end)
    case Delimiter(end) =>
      && v.Free() && DelimiterAt(e, text, v.p) && (v.Skips(o) ==> !e.IsSpace(text[v.p]))
      && TrailerUpTo(o, e, text, v.p + |e.delimiter|, end)
    case Short(i, stop, end) => ShortAt(o, text, v.AsScan(), i, stop) && ParamsUpTo(o, srv, text, v, i, stop, end)
    case Unknown => SlashLetter(o, text, v.AsScan()) && UnknownShort(o, e, text[v.p + 1])
    case Cut => CutAt(o, text, v)
  }

  /** What is handed over at a delimiter whose trailer ends at `end`. */
  function Given(text: string, v: View, end: nat): string
    requires v.p + |v.st.env.delimiter| <= end <= |text|
  {
    v.st.buffer + v.out + text[v.p + |v.st.env.delimiter|..end]
  }

  /** The call that a segment causes: also for a comment that is kept and has no statement to go with. */
  ghost function CallOf(o: Options, srv: Server, text: string, v: View, g: Segment): Option<Call>
    requires Fits(o, srv, text, v, g)
  {
    match g
    case Delimiter(end) => Some(CallFor(o, v.st.env, Given(text, v, end)))
    case Short(i, stop, _) => Some(ShortCommand(i, v.st.buffer + v.out, text[v.p..stop]))
    case Unknown => Some(UnknownCommand(text[v.p + 1]))
    case Remark(end) => if o.preserveComments && v.Fresh() then Some(Statement(text[v.p..end])) else None
    case _ => None
  }

  ghost predicate Quits(o: Options, srv: Server, text: string, v: View, g: Segment)
    requires Fits(o, srv, text, v, g)
  {
    var call := CallOf(o, srv, text, v, g);
    call.Some? && srv(v.st.trace + [call.value]).quit
  }

  /** The segment is the last one that is looked at. */
  ghost predicate Final(o: Options, srv: Server, text: string, v: View, g: Segment)
    requires Fits(o, srv, text, v, g)
  {
    g.Unclosed? || g.Remark? || g.Cut? || Quits(o, srv, text, v, g)
  }

  /** What has been collected goes to the buffer, with more. */
  function Flushed(v: View, more: string): View {
    v.(out := "", st := v.st.(buffer := v.st.buffer + v.out + more))
  }

  /** The scan behind the segment. */
  ghost function Effect(o: Options, srv: Server, text: string, v: View, g: Segment): View
    requires Fits(o, srv, text, v, g)
  {
    match g
    case Skipped(end) => v.(p := end)
    case Text(end, r) =>
      v.(p := end, out := v.out + Gap(v.st.env, text, v.p, v.owed) + text[v.p..end], owed := false,
         st := v.st.(inString := r))
    case Wide(end) => v.(p := end, out := v.out + text[v.p..end])
    case Comment(end) =>
      var w := Flushed(v, CommentText(o, text, v.p, end));
      w.(p := end, owed := true, st := w.st.(mlComment := false))
    case Unclosed =>
      var w := Flushed(v, CommentText(o, text, v.p, |text|));
      w.(p := |text|, st := w.st.(mlComment := true))
    case Remark(end) =>
      var call := CallOf(o, srv, text, v, g);
      if call.Some? then v.(out := "", st := AfterCall(srv, v.st, call.value).(buffer := ""))
      else Flushed(v, CommentText(o, text, v.p, end))
    case Delimiter(end) => View(end, "", Resumed(o, srv, v.st, Given(text, v, end)), v.owed)
    case Short(i, stop, end) => View(end, "", AfterCall(srv, v.st, CallOf(o, srv, text, v, g).value), v.owed)
    case Unknown =>
      v.(p := v.p + 2, out := v.out + text[v.p..v.p + 2],
         st := v.st.(trace := v.st.trace + [UnknownCommand(text[v.p + 1])]))
    case Cut => if v.st.inString != NUL && v.st.env.binaryMode then v.(out := v.out + ['\\', NUL]) else v
  }

  /** The state in which the scan ends if the call of the segment asks to quit. */
  ghost function QuitState(o: Options, srv: Server, text: string, v: View, g: Segment): State
    requires Fits(o, srv, text, v, g) && CallOf(o, srv, text, v, g).Some?
  {
    var call := CallOf(o, srv, text, v, g).value;
    if g.Unknown? then v.st.(trace := v.st.trace + [call]) else AfterCall(srv, v.st, call)
  }

  /** From `v` on the text is the row of segments; each call may change the session for what follows it. */
  ghost predicate Laid(o: Options, srv: Server, text: string, v: View, gs: seq<Segment>)
    decreases |gs|
  {
    if gs == [] then v.p == |text|
    else
      && Fits(o, srv, text, v, gs[0])
      && if Final(o, srv, text, v, gs[0]) then |gs| == 1
         else Laid(o, srv, text, Effect(o, srv, text, v, gs[0]), gs[1..])
  }

  /** The state after the line, and whether a call asked to quit. */
  ghost function Outcome(o: Options, srv: Server, text: string, truncated: bool, v: View, gs: seq<Segment>)
    : (State, bool)
    requires Laid(o, srv, text, v, gs)
    decreases |gs|
  {
    if gs == [] then (Finish(o, v.out, v.st, truncated), false)
    else if Quits(o, srv, text, v, gs[0]) then (QuitState(o, srv, text, v, gs[0]), true)
    else
      var w := Effect(o, srv, text, v, gs[0]);
      if Final(o, srv, text, v, gs[0]) then (Finish(o, w.out, w.st, truncated), false)
      else Outcome(o, srv, text, truncated, w, gs[1..])
  }

  /** The scan behind a segment, in step with the view of it. */
  ghost predicate Reached(l: Loop, s: Scan, g: Segment, t: Scan)
    requires Fits(l.o, l.srv, l.text, ViewOf(s), g)
  {
    && l.run(s) == l.run(t) && ViewOf(t) == Effect(l.o, l.srv, l.text, ViewOf(s), g)
    && SsTold(l.text, t) && ScanConsistent(t)
  }

  /** What holds of the scan where a segment stands. */
  ghost predicate Ready(l: Loop, s: Scan, g: Segment) {
    l.Valid() && SsTold(l.text, s) && ScanConsistent(s) && Fits(l.o, l.srv, l.text, ViewOf(s), g)
  }

  lemma TextScanned(l: Loop, s: Scan, g: Segment) returns (t: Scan)
    requires Ready(l, s, g) && g.Text?
    ensures Reached(l, s, g, t)
  {
    var keep, e := l.o.preserveComments, s.st.env;
    var gap := Gap(e, l.text, s.p, s.needSpace);
    var f := s.(needSpace := false, out := s.out + gap);
    if s.needSpace {
      StretchStarts(keep, e, l.text, s.p, g.end, g.quote, Fresh(s));
      GapFilled(l, s);
      StretchRelaxed(keep, e, l.text, s.p, g.end, g.quote, Fresh(s));
      assert Stretch(keep, e, l.text, f.p, f.st.inString, g.end, g.quote, Fresh(f));
    } else {
      assert f == s;
    }
    var ss := StretchScanned(l, f, g.end, g.quote);
    t := Moved(l.text, f, g.end, g.quote, ss);
  }

  lemma WideScanned(l: Loop, s: Scan, g: Segment) returns (t: Scan)
    requires Ready(l, s, g) && g.Wide?
    ensures Reached(l, s, g, t)
  {
    t := Kept(l.text, s, g.end, s.ssComment);
    if s.st.env.MbLen(l.text[s.p..]) > 0 {
      MultiByteKept(l.o, l.srv, l.text, s);
    } else {
      NullSignKept(l.o, l.srv, l.text, s);
    }
    StepThenScan(l, s, t);
  }

  lemma CommentScanned(l: Loop, s: Scan, k: nat) returns (t: Scan)
    requires l.Valid() && SsTold(l.text, s) && k <= |l.text| && CommentUpTo(l.o, l.text, ViewOf(s), k)
    ensures l.run(s) == l.run(t) && Commenting(l.o, t)
    ensures Collects(s.(st := s.st.(mlComment := true)), t, k, s.st.buffer + s.out + CommentText(l.o, l.text, s.p, k))
  {
    assert !s.ssComment;
    if s.st.mlComment {
      t := CommentPassed(l, s, k);
    } else {
      CommentEntered(l, s);
      var u := Commented(l.o, l.text, s);
      SkipsStill(l.o, s.(out := "", st := s.st.(buffer := s.st.buffer + s.out)), u,
                 CommentText(l.o, l.text, s.p, s.p + 2));
      assert s.st.buffer + s.out + "" == s.st.buffer + s.out;
      t := CommentPassed(l, u, k);
      assert u.st.buffer + "" == u.st.buffer;
      CommentTextJoin(l.o, l.text, s.p, s.p + 2, k, s.st.buffer + s.out);
    }
  }

  lemma {:induction false} CommentEnds(l: Loop, s: Scan, g: Segment) returns (t: Scan)
    requires Ready(l, s, g) && g.Comment?
    ensures Reached(l, s, g, t)
  {
    var k := g.end - 2;
    var u := CommentScanned(l, s, k);
    SkipsStill(l.o, s.(out := "", st := s.st.(buffer := s.st.buffer + s.out)), u, CommentText(l.o, l.text, s.p, k));
    assert s.st.buffer + s.out + "" == s.st.buffer + s.out;
    CommentLeft(l, u);
    CommentTextJoin(l.o, l.text, s.p, k, g.end, s.st.buffer + s.out);
    t := Uncommented(l.o, l.text, u);
  }

  lemma DelimiterPassed(l: Loop, s: Scan, g: Segment) returns (t: Scan)
    requires Ready(l, s, g) && g.Delimiter? && !Final(l.o, l.srv, l.text, ViewOf(s), g)
    ensures Reached(l, s, g, t)
  {
    StatementEnds(l, s, g.end);
    t := HandedOver(l.o, l.srv, s, Given(l.text, ViewOf(s), g.end), g.end, s.ssComment);
  }

  lemma ParamsPassed(l: Loop, s: Scan, i: nat, stop: nat, end: nat, d: string)
    requires l.Valid() && ShortAt(l.o, l.text, s, i, stop) && l.o.takesParams(i) && !s.ssComment
    requires d == ShortCommands.Behind(l.srv, l.text, s, i, stop, 0).st.env.delimiter
    requires (end >= |d| && FirstMark(l.text, s.p + 2, d, end - |d|)) || NoMarkUpTo(l.text, s.p + 2, d, end)
    ensures var t := ShortCommands.Behind(l.srv, l.text, s, i, stop, end);
            l.run(s) == if Answer(l, t).quit then Quit(t.st) else l.run(t)
  {
    if end >= |d| && FirstMark(l.text, s.p + 2, d, end - |d|) {
      ShortParams(l, s, i, stop, end - |d|);
    } else {
      ShortParamsToEnd(l, s, i, stop, end);
      assert l.Runs(ShortCommands.Behind(l.srv, l.text, s, i, stop, end));
    }
  }

  /** Where the scan resumes after a short command. */
  lemma ShortResumes(l: Loop, s: Scan, g: Segment)
    requires Ready(l, s, g) && g.Short?
    ensures var t := ShortCommands.Behind(l.srv, l.text, s, g.index, g.stop, g.end);
            l.run(s) == if Answer(l, t).quit then Quit(t.st) else l.run(t)
  {
    if l.o.takesParams(g.index) {
      var d := SessionAfter(l.srv, l.text, ViewOf(s), g.index, g.stop).delimiter;
      ParamsPassed(l, s, g.index, g.stop, g.end, d);
    } else {
      ShortAlone(l, s, g.index, g.stop);
    }
  }

  lemma ShortPassed(l: Loop, s: Scan, g: Segment) returns (t: Scan)
    requires Ready(l, s, g) && g.Short? && !Final(l.o, l.srv, l.text, ViewOf(s), g)
    ensures Reached(l, s, g, t)
  {
    ShortResumes(l, s, g);
    t := ShortCommands.Behind(l.srv, l.text, s, g.index, g.stop, g.end);
  }

  lemma UnknownPassed(l: Loop, s: Scan, g: Segment) returns (t: Scan)
    requires Ready(l, s, g) && g.Unknown? && !Final(l.o, l.srv, l.text, ViewOf(s), g)
    ensures Reached(l, s, g, t)
  {
    UnknownRun(l, s);
    t := Untaken(l.text, s);
  }

  lemma SegmentPassed(l: Loop, s: Scan, g: Segment) returns (t: Scan)
    requires Ready(l, s, g) && !Final(l.o, l.srv, l.text, ViewOf(s), g)
    ensures Reached(l, s, g, t)
  {
    match g
    case Skipped(end) =>
      BlankSkipped(l, s, end);
      t := s.(p := end);
    case Text(_, _) => t := TextScanned(l, s, g);
    case Wide(_) => t := WideScanned(l, s, g);
    case Comment(_) => t := CommentEnds(l, s, g);
    case Delimiter(_) => t := DelimiterPassed(l, s, g);
    case Short(_, _, _) => t := ShortPassed(l, s, g);
    case Unknown => t := UnknownPassed(l, s, g);
  }

  /** Where the scan of a line ends up. */
  ghost predicate EndsAs(o: Options, truncated: bool, r: Step, x: (State, bool)) {
    match r
    case More(_) => false
    case Stop(s) => x == (Finish(o, s.out, s.st, truncated), false)
    case Quit(st) => x == (st, true)
  }

  /** The last segment that is looked at leaves what it says. */
  ghost predicate Ended(l: Loop, s: Scan, g: Segment, truncated: bool)
    requires Fits(l.o, l.srv, l.text, ViewOf(s), g) && Final(l.o, l.srv, l.text, ViewOf(s), g)
  {
    var v := ViewOf(s);
    var w := Effect(l.o, l.srv, l.text, v, g);
    EndsAs(l.o, truncated, l.run(s),
           if Quits(l.o, l.srv, l.text, v, g) then (QuitState(l.o, l.srv, l.text, v, g), true)
           else (Finish(l.o, w.out, w.st, truncated), false))
  }

  lemma UnclosedEnds(l: Loop, s: Scan, g: Segment, truncated: bool)
    requires Ready(l, s, g) && g.Unclosed?
    ensures Ended(l, s, g, truncated)
  {
    var t := CommentScanned(l, s, |l.text|);
    assert l.Runs(t);
    FinishTogether(l.o, t.out, t.st, truncated);
  }

  /** In a block comment it makes no difference whether the text is in the line or in the buffer. */
  lemma FinishTogether(o: Options, out: string, st: State, truncated: bool)
    requires st.mlComment && (!o.preserveComments ==> out == "")
    ensures Finish(o, "", st.(buffer := st.buffer + out), truncated) == Finish(o, out, st, truncated)
  {
    assert st.buffer + "" == st.buffer && st.buffer + out + "" == st.buffer + out;
  }

  lemma {:induction false} RemarkEnds(l: Loop, s: Scan, g: Segment, truncated: bool)
    requires Ready(l, s, g) && g.Remark?
    ensures Ended(l, s, g, truncated)
  {
    assert KindAt(l.o, l.text, s) == LineRemark;
    assert l.Runs(s);
    StringEndIs(l.text, s.p, g.end);
    assert s.st.buffer + s.out + "" == s.st.buffer + s.out;
    assert Fresh(s) ==> s.st.buffer + s.out + l.text[s.p..g.end] == l.text[s.p..g.end];
  }

  lemma CutEnds(l: Loop, s: Scan, g: Segment, truncated: bool)
    requires Ready(l, s, g) && g.Cut?
    ensures Ended(l, s, g, truncated)
  {
    assert KindAt(l.o, l.text, s) == Escape;
    assert l.Runs(s);
    var kept := s.(p := s.p + 2, out := s.out + ['\\', NUL]);
    assert l.Runs(kept);
  }

  lemma LastPassed(l: Loop, s: Scan, g: Segment, truncated: bool)
    requires Ready(l, s, g) && Final(l.o, l.srv, l.text, ViewOf(s), g)
    ensures Ended(l, s, g, truncated)
  {
    match g
    case Unclosed => UnclosedEnds(l, s, g, truncated);
    case Remark(_) => RemarkEnds(l, s, g, truncated);
    case Cut => CutEnds(l, s, g, truncated);
    case Delimiter(end) => StatementEnds(l, s, end);
    case Short(_, _, _) => ShortResumes(l, s, g);
    case Unknown => UnknownRun(l, s);
  }

  lemma {:induction false} LaidScanned(l: Loop, s: Scan, gs: seq<Segment>, truncated: bool)
    requires l.Valid() && SsTold(l.text, s) && ScanConsistent(s) && Laid(l.o, l.srv, l.text, ViewOf(s), gs)
    ensures EndsAs(l.o, truncated, l.run(s), Outcome(l.o, l.srv, l.text, truncated, ViewOf(s), gs))
    decreases |gs|
  {
    if gs == [] {
      assert l.Runs(s);
    } else if Final(l.o, l.srv, l.text, ViewOf(s), gs[0]) {
      LastPassed(l, s, gs[0], truncated);
    } else {
      var t := SegmentPassed(l, s, gs[0]);
      LaidScanned(l, t, gs[1..], truncated);
    }
  }

  function StartView(st: State): View { View(0, "", st, false) }

  /**
   A line that is a row of segments leaves what they say: a delimiter outside strings and comments hands over what has
   been collected, a short command is run and its parameters dropped, nothing else causes a call, and comments leave
   nothing but the blank that is owed, unless they are kept.
   */
  lemma LineSplit(o: Options, srv: Server, text: string, truncated: bool, st: State, gs: seq<Segment>)
    requires Consistent(st) && Laid(o, srv, text, StartView(st), gs)
    requires st.buffer == "" && text != "" ==> text[0] != NUL
    ensures AddLine(o, srv, text, truncated, st) == Outcome(o, srv, text, truncated, StartView(st), gs)
  {
    var l, s := TheLoop(o, srv, text), Scan(0, "", st, false, false);
    LaidScanned(l, s, gs, truncated);
    assert l.Runs(s);
    if text == "" && st.buffer == "" {
      assert ScanFrom(o, srv, text, s) == Stop(s);
    }
  }
}
