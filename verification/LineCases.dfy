/** Lines of a particular kind: inside strings, inside comments, and around a comment. */
module LineCases {
  import opened Optional
  import opened Sequences
  import opened CText
  import opened LineSpec
  import opened LineLaws
  import opened LineLayout
  import opened StatementLines

  // ---------------------------------------------------------------- strings over many lines

  /** The whole line lies inside the string opened by `q`. */
  predicate StringLine(e: Env, q: char, l: Line) {
    !l.truncated && (e.binaryMode || NUL !in l.text) && Inside(e, q, l.text, 0, |l.text|)
  }

  function Joined(lines: seq<Line>): string {
    if lines == [] then "" else lines[0].text + "\n" + Joined(lines[1..])
  }

  function Buffered(st: State, more: string): State { st.(buffer := st.buffer + more) }

  lemma {:induction false} StringLineLaid(o: Options, srv: Server, named: bool, st: State, l: Line)
    returns (gs: seq<Segment>)
    requires st.inString != NUL && Consistent(st) && StringLine(st.env, st.inString, l)
    ensures LineLaid(o, srv, named, st, l, gs) && AllQuiet(o, st.env, gs)
    ensures Gathered(o, l.text, false, StartView(st), gs) == Buffered(st, l.text + "\n")
  {
    gs := if l.text == "" then [] else [Text(|l.text|, st.inString)];
    var v := StartView(st);
    if l.text != "" {
      assert gs[1..] == [] && Fits(o, srv, l.text, v, gs[0]);
      assert Laid(o, srv, l.text, Effect(o, srv, l.text, v, gs[0]), []);
    }
    assert Clean(o.preserveComments, st.env, l.text, 0, false, gs) == l.text;
    assert st.buffer + "" == st.buffer && st.buffer + l.text + "\n" == st.buffer + (l.text + "\n");
    assert QuoteAfterAll(st.inString, gs) == st.inString;
  }

  lemma StringLineRead(z: Session, l: Line, rest: seq<Line>, st: State)
    requires z.Valid() && st.inString != NUL && Consistent(st) && StringLine(st.env, st.inString, l)
    ensures z.read([l] + rest, st) == z.read(rest, Buffered(st, l.text + "\n"))
  {
    var gs := StringLineLaid(z.o, z.srv, z.named, st, l);
    LineRead(z, l, rest, st, gs);
    LineGathered(z.o, z.srv, l.text, l.truncated, StartView(st), gs);
  }

  /** Lines inside an open string reach the buffer byte for byte, newlines included, with no call made. */
  lemma {:induction false} StringLinesKept(z: Session, lines: seq<Line>, rest: seq<Line>, st: State)
    requires z.Valid() && st.inString != NUL && Consistent(st)
    requires forall l :: l in lines ==> StringLine(st.env, st.inString, l)
    ensures z.read(lines + rest, st) == z.read(rest, Buffered(st, Joined(lines)))
    decreases |lines|
  {
    if lines == [] {
      assert lines + rest == rest && st.buffer + "" == st.buffer;
    } else {
      var first, more := lines[0], lines[1..];
      assert lines + rest == [first] + (more + rest);
      StringLineRead(z, first, more + rest, st);
      StringLinesKept(z, more, rest, Buffered(st, first.text + "\n"));
      Associate(st.buffer, first.text + "\n", Joined(more));
    }
  }

  // ---------------------------------------------------------------- comments over many lines

  /** The whole line lies inside a block comment. */
  predicate CommentLine(o: Options, st: State, l: Line) {
    && (st.env.binaryMode || NUL !in l.text) && (st.buffer == "" && l.text != "" ==> l.text[0] != NUL)
    && InComment(st.env, l.text, 0, |l.text|, st.buffer == "" && !o.preserveComments)
  }

  /** What such a line leaves: nothing, or itself if comments are kept. */
  function CommentLineText(o: Options, st: State, l: Line): string {
    if !o.preserveComments || (l.text == "" && st.buffer == "") then ""
    else l.text + if l.truncated then "" else "\n"
  }

  lemma {:induction false} CommentLineLaid(o: Options, srv: Server, named: bool, st: State, l: Line)
    returns (gs: seq<Segment>)
    requires st.mlComment && st.inString == NUL && CommentLine(o, st, l)
    ensures LineLaid(o, srv, named, st, l, gs) && AllQuiet(o, st.env, gs)
    ensures Gathered(o, l.text, l.truncated, StartView(st), gs) == Buffered(st, CommentLineText(o, st, l))
  {
    gs := if l.text == "" then [] else [Unclosed];
    var v := StartView(st);
    if l.text != "" {
      assert gs[1..] == [] && Fits(o, srv, l.text, v, Unclosed) && Final(o, srv, l.text, v, Unclosed);
    }
    var clean := Clean(o.preserveComments, st.env, l.text, 0, false, gs);
    CleanOne(o.preserveComments, st.env, l.text, 0, false, Unclosed);
    assert l.text[0..|l.text|] == l.text;
    assert QuoteAfterAll(NUL, gs) == NUL && CommentAfter(true, gs);
    assert st.buffer + "" == st.buffer && st.buffer + clean + "" == st.buffer + clean;
    assert st.buffer + l.text + "\n" == st.buffer + (l.text + "\n");
  }

  lemma CommentLineRead(z: Session, l: Line, rest: seq<Line>, st: State)
    requires z.Valid() && st.mlComment && Consistent(st) && CommentLine(z.o, st, l)
    ensures z.read([l] + rest, st) == z.read(rest, Buffered(st, CommentLineText(z.o, st, l)))
  {
    var gs := CommentLineLaid(z.o, z.srv, z.named, st, l);
    LineRead(z, l, rest, st, gs);
    LineGathered(z.o, z.srv, l.text, l.truncated, StartView(st), gs);
  }

  /** Lines inside a block comment leave nothing, and none of them is run as a command, whatever it says. */
  lemma {:induction false} CommentLinesSkipped(z: Session, lines: seq<Line>, rest: seq<Line>, st: State)
    requires z.Valid() && st.mlComment && Consistent(st) && !z.o.preserveComments
    requires forall l :: l in lines ==> CommentLine(z.o, st, l)
    ensures z.read(lines + rest, st) == z.read(rest, st)
    decreases |lines|
  {
    if lines == [] {
      assert lines + rest == rest;
    } else {
      assert lines + rest == [lines[0]] + (lines[1..] + rest);
      CommentLineRead(z, lines[0], lines[1..] + rest, st);
      assert Buffered(st, "") == st by { assert st.buffer + "" == st.buffer; }
      CommentLinesSkipped(z, lines[1..], rest, st);
    }
  }

  /** Between statements, a line that starts with a NUL leaves no trace. */
  lemma NulLineSkipped(o: Options, srv: Server, text: string, truncated: bool, st: State)
    requires st.buffer == "" && (text == "" || text[0] == NUL)
    ensures AddLine(o, srv, text, truncated, st) == (st, false)
  {
  }

  // ---------------------------------------------------------------- the blank for a comment

  predicate White(e: Env, c: char) { c == ' ' || e.IsSpace(c) }

  /** What follows a comment is kept apart from what is before it exactly if it takes the blank that is owed. */
  lemma CommentSeparates(o: Options, srv: Server, text: string, v: View, g: Segment)
    requires v.owed && (g.Text? || g.Wide?) && Fits(o, srv, text, v, g)
    ensures var out := Effect(o, srv, text, v, g).out;
            v.out < out && (White(v.st.env, out[|v.out|]) <==> g.Text? || White(v.st.env, text[v.p]))
  {
    if g.Text? {
      Associate(v.out, Gap(v.st.env, text, v.p, true), text[v.p..g.end]);
    }
  }

  predicate AsciiAlone(e: Env, t: string) {
    t != "" && t[0] as int < 128 ==> e.MbLen(t) == 0
  }

  /** A session of single-byte characters and of multi-byte ones that do not start with a byte below 128. */
  ghost predicate PlainSession(e: Env) {
    (forall t: string :: AsciiAlone(e, t)) && e.delimiter == ";" && e.spaces == {' '}
  }

  /** An ordinary letter is a segment of its own. */
  lemma LetterFits(o: Options, srv: Server, text: string, v: View)
    requires PlainSession(v.st.env) && v.Free() && v.p < |text| && 'a' <= text[v.p] <= 'z'
    ensures Fits(o, srv, text, v, Text(v.p + 1, NUL))
  {
    assert text[v.p..][0] == text[v.p];
    assert AsciiAlone(v.st.env, text[v.p..]);
    assert StatementText(o.preserveComments, v.st.env, text, v.p + 1, v.p + 1, false);
  }

  /** A comment with nothing in it. */
  lemma EmptyCommentFits(o: Options, srv: Server, text: string, v: View)
    requires PlainSession(v.st.env) && v.Free() && !o.preserveComments && v.p + 4 <= |text| && NoServerMark(text, v.p)
    requires text[v.p] == '/' && text[v.p + 1] == '*' && text[v.p + 2] == '*' && text[v.p + 3] == '/'
    ensures Fits(o, srv, text, v, Comment(v.p + 4))
  {
    var p := v.p;
    assert text[p..][0] == '/' && text[p + 2..][0] == '*';
    assert AsciiAlone(v.st.env, text[p..]) && AsciiAlone(v.st.env, text[p + 2..]);
  }

  lemma WideFits(o: Options, srv: Server, text: string, v: View, n: nat)
    requires v.Free() && !v.Fresh() && v.p + n <= |text| && n > 0 && v.st.env.MbLen(text[v.p..]) == n
    ensures Fits(o, srv, text, v, Wide(v.p + n))
  {
  }

  lemma EndFits(o: Options, srv: Server, text: string, v: View)
    requires PlainSession(v.st.env) && v.Free() && !o.preserveComments && v.p < |text| && text[v.p] == ';'
    ensures Fits(o, srv, text, v, Delimiter(v.p + 1))
  {
    assert AsciiAlone(v.st.env, text[v.p..]) && text[v.p..][0] == ';';
    assert text[v.p..v.p + 1] == ";";
  }

  /** A letter, a comment and a multi-byte character of `n` bytes, ended by the delimiter. */
  predicate LostText(e: Env, text: string, n: nat) {
    && |text| == n + 6 && n > 0 && text[0] == 'a' && text[1] == '/' && text[2] == '*' && text[3] == '*'
    && text[4] == '/' && e.MbLen(text[5..]) == n && text[n + 5] == ';'
  }

  function LostSegments(n: nat): seq<Segment> { [Text(1, NUL), Comment(5), Wide(n + 5)] }

  lemma EndLaid(o: Options, srv: Server, text: string, v: View)
    requires PlainSession(v.st.env) && v.Free() && !o.preserveComments && |text| == v.p + 1 && text[v.p] == ';'
    ensures Laid(o, srv, text, v, [Delimiter(|text|)])
  {
    EndFits(o, srv, text, v);
    assert [Delimiter(|text|)][1..] == [];
  }

  lemma WideLaid(o: Options, srv: Server, text: string, v: View, n: nat)
    requires PlainSession(v.st.env) && v.Free() && !v.Fresh() && !o.preserveComments
    requires |text| == v.p + n + 1 && n > 0 && v.st.env.MbLen(text[v.p..]) == n && text[v.p + n] == ';'
    ensures Laid(o, srv, text, v, [Wide(v.p + n)] + [Delimiter(|text|)])
  {
    WideFits(o, srv, text, v, n);
    EndLaid(o, srv, text, Effect(o, srv, text, v, Wide(v.p + n)));
    LaidOn(o, srv, text, v, Wide(v.p + n), [Delimiter(|text|)]);
  }

  lemma {:induction false} CommentLaid(o: Options, srv: Server, text: string, v: View, n: nat)
    requires PlainSession(v.st.env) && v.Free() && !v.Fresh() && !o.preserveComments && v.p == 1
    requires LostText(v.st.env, text, n)
    ensures Laid(o, srv, text, v, [Comment(5)] + ([Wide(n + 5)] + [Delimiter(|text|)]))
  {
    EmptyCommentFits(o, srv, text, v);
    WideLaid(o, srv, text, Effect(o, srv, text, v, Comment(5)), n);
    LaidOn(o, srv, text, v, Comment(5), [Wide(n + 5)] + [Delimiter(|text|)]);
  }

  lemma {:induction false} LostLaid(o: Options, srv: Server, text: string, v: View, n: nat)
    requires PlainSession(v.st.env) && v == StartView(v.st) && v.Free() && !o.preserveComments
    requires LostText(v.st.env, text, n)
    ensures Laid(o, srv, text, v, LostSegments(n) + ([Delimiter(|text|)] + []))
  {
    LetterFits(o, srv, text, v);
    CommentLaid(o, srv, text, Effect(o, srv, text, v, Text(1, NUL)), n);
    LaidOn(o, srv, text, v, Text(1, NUL), [Comment(5)] + ([Wide(n + 5)] + [Delimiter(|text|)]));
    assert LostSegments(n) + ([Delimiter(|text|)] + []) ==
           [Text(1, NUL)] + ([Comment(5)] + ([Wide(n + 5)] + [Delimiter(|text|)]));
  }

  lemma LostClean(e: Env, text: string, n: nat)
    requires LostText(e, text, n)
    ensures Clean(false, e, text, 0, false, LostSegments(n)) == "a" + text[5..n + 5]
    ensures EndOfAll(0, LostSegments(n)) == n + 5
  {
    var xs := LostSegments(n);
    assert xs[1..][1..] == xs[2..] && xs[2..][1..] == [];
    assert text[0..1] == "a";
    assert Clean(false, e, text, 5, true, xs[2..]) == text[5..n + 5] + "";
    assert EndOfAll(5, xs[2..]) == n + 5;
  }

  /** A line of one statement, with nothing behind it. */
  lemma {:induction false} OnlyStatement(o: Options, srv: Server, text: string, st: State, xs: seq<Segment>)
    requires !o.preserveComments && AllQuiet(o, st.env, xs) && st.buffer == ""
    requires Laid(o, srv, text, StartView(st), xs + ([Delimiter(|text|)] + []))
    requires |text| == EndOfAll(0, xs) + |st.env.delimiter|
    ensures Outcome(o, srv, text, false, StartView(st), xs + ([Delimiter(|text|)] + [])).0.trace ==
            st.trace + [CallFor(o, st.env, Clean(o.preserveComments, st.env, text, 0, false, xs))]
  {
    var v, end := StartView(st), |text|;
    FirstStatement(o, srv, text, false, v, xs, end, []);
    BareStatement(o, text, st, xs);
    NothingBehind(o, srv, text, NextView(o, srv, text, v, xs, end));
  }

  lemma {:induction false} BareStatement(o: Options, text: string, st: State, xs: seq<Segment>)
    requires st.buffer == "" && EndsStatement(text, StartView(st), xs, |text|)
    requires |text| == EndOfAll(0, xs) + |st.env.delimiter|
    ensures Whole(o, text, StartView(st), xs, |text|) == Clean(o.preserveComments, st.env, text, 0, false, xs)
  {
    var clean := Clean(o.preserveComments, st.env, text, 0, false, xs);
    assert text[|text|..|text|] == "";
    assert "" + "" + clean + "" == clean;
  }

  lemma NothingBehind(o: Options, srv: Server, text: string, v: View)
    requires Laid(o, srv, text, v, []) && v.out == "" && v.st.buffer == ""
    ensures Outcome(o, srv, text, false, v, []) == (v.st, false)
  {
  }

  /** For instance, a comment in front of a multi-byte character is lost, and what it kept apart is put together. */
  lemma CommentLost(o: Options, srv: Server, e: Env, text: string, n: nat)
    requires !o.preserveComments && PlainSession(e) && LostText(e, text, n)
    ensures AddLine(o, srv, text, false, State("", NUL, false, e, [])).0.trace ==
            [CallFor(o, e, "a" + text[5..n + 5])]
  {
    var st := State("", NUL, false, e, []);
    LostLaid(o, srv, text, StartView(st), n);
    LineSplit(o, srv, text, false, st, LostSegments(n) + ([Delimiter(|text|)] + []));
    LostClean(e, text, n);
    OnlyStatement(o, srv, text, st, LostSegments(n));
  }
}
