/** Every line is a row of segments, but for comments beside one for the server and comments kept side by side. */
module LayoutExists {
  import opened Optional
  import opened CText
  import opened LineSpec
  import opened LineLaws
  import opened ShortCommands
  import opened LineLayout
  import opened StatementLines

  /** What holds of every scan. */
  predicate Sound(text: string, v: View) {
    && v.p <= |text| && (v.st.mlComment ==> v.out == "")
    && (v.st.inString != NUL ==> !v.st.mlComment && !v.owed && !v.Fresh() && IsQuote(v.st.inString))
  }

  predicate CommentHere(text: string, v: View) {
    v.st.inString == NUL && (v.st.mlComment || CommentMark(text, v.p))
  }

  /** A block comment, or a short command with parameters, on a line that has a comment for the server too. */
  ghost predicate BesideServerComment(o: Options, text: string, v: View) {
    && (exists k: nat :: k < |text| && ServerMark(text, k))
    && (CommentHere(text, v) ||
        (SlashLetter(o, text, v.AsScan()) &&
         exists i: nat :: KnownShort(o, v.st.env, text[v.p + 1], i) && o.takesParams(i)))
  }

  /** No segment stands here; the second case is a comment that is kept directly behind another one. */
  ghost predicate Stuck(o: Options, text: string, v: View) {
    v.p < |text| && (BesideServerComment(o, text, v) || (o.preserveComments && v.owed && CommentHere(text, v)))
  }

  /** Where a block comment is closed, or the end of the line. */
  lemma {:induction false} CommentWalk(e: Env, text: string, p: nat, first: bool) returns (k: nat)
    requires p <= |text| && forall j: nat :: p <= j < |text| ==> !ServerMark(text, j)
    ensures p <= k <= |text| && InComment(e, text, p, k, first) && (k == |text| || CommentEndAt(e, text, k, first))
    decreases |text| - p
  {
    if p == |text| {
      return p;
    }
    var n := e.MbLen(text[p..]);
    if first && e.IsSpace(text[p]) {
      k := CommentWalk(e, text, p + 1, first);
    } else if n > 0 {
      k := CommentWalk(e, text, p + n, first);
    } else if CommentMark(text, p) {
      k := CommentWalk(e, text, p + 2, first);
    } else if text[p] == '*' && At(text, p + 1) == '/' {
      return p;
    } else {
      k := CommentWalk(e, text, p + 1, first);
    }
  }

  /** A comment is a segment, closed or not. */
  lemma CommentSegment(o: Options, srv: Server, text: string, v: View) returns (g: Segment)
    requires Sound(text, v) && v.p < |text| && !Stuck(o, text, v) && v.st.inString == NUL
    requires v.st.mlComment || CommentAt(v.st.env, text, v.p, v.Skips(o))
    ensures Fits(o, srv, text, v, g) && (g.Unclosed? || (g.Comment? && v.p < g.end))
  {
    assert CommentHere(text, v);
    assert forall j: nat :: j < |text| ==> !ServerMark(text, j);
    var k := CommentWalk(v.st.env, text, if v.st.mlComment then v.p else v.p + 2, v.Skips(o));
    assert CommentUpTo(o, text, v, k);
    g := if k == |text| then Unclosed else Comment(k + 2);
  }

  /** Inside a string the next segment is one turn of text, or a cut escape. */
  lemma StringSegment(o: Options, srv: Server, text: string, v: View) returns (g: Segment)
    requires Sound(text, v) && v.p < |text| && v.st.inString != NUL
    ensures Fits(o, srv, text, v, g) && (g.Cut? || (g.Text? && (g.quote != NUL ==> IsQuote(g.quote))))
  {
    var e, p, q := v.st.env, v.p, v.st.inString;
    var n := e.MbLen(text[p..]);
    if n > 0 {
      g := Text(p + n, q);
    } else if text[p] == '\\' && Escapes(e, q) {
      if p + 1 == |text| || (text[p + 1] == NUL && !e.binaryMode) {
        return Cut;
      }
      g := Text(p + 2, q);
      assert Inside(e, q, text, p + 2, p + 2);
    } else if text[p] != q {
      g := Text(p + 1, q);
    } else {
      g := Text(p + 1, NUL);
      assert ClosedAt(e, q, text, p, p, p + 1);
      assert StatementText(o.preserveComments, e, text, p + 1, p + 1, false);
    }
  }

  /** Outside strings and comments an ordinary character is a segment; a quote opens a string. */
  lemma CharSegment(o: Options, srv: Server, text: string, v: View) returns (g: Segment)
    requires Sound(text, v) && v.p < |text| && v.Free() && TakesGap(v.st.env, text, v.p)
    requires NoMark(v.st.env, text, v.p, v.Fresh())
    requires v.Skips(o) ==> !v.st.env.IsSpace(text[v.p])
    ensures Fits(o, srv, text, v, g) && g.Text? && (g.quote != NUL ==> IsQuote(g.quote))
  {
    var e, p, keep := v.st.env, v.p, o.preserveComments;
    if IsQuote(text[p]) {
      g := Text(p + 1, text[p]);
      assert StatementText(keep, e, text, p, p, v.Fresh());
      assert OpenedAt(keep, e, text, p, p, p + 1, v.Fresh());
    } else {
      g := Text(p + 1, NUL);
      assert StatementText(keep, e, text, p + 1, p + 1, false);
      assert StatementText(keep, e, text, p, p + 1, v.Fresh());
    }
  }

  lemma StringEndFound(text: string, p: nat) returns (e: nat)
    requires p <= |text|
    ensures StringEndsAt(text, p, e)
  {
    e := StrEnd(text, p);
    forall k | p <= k < e ensures text[k] != NUL {
      assert text[k] == At(text, k);
    }
  }

  /** Where the parameters of a short command end. */
  lemma ParamsFound(text: string, from: nat, mark: string) returns (z: nat)
    requires from <= |text| && mark != "" && NUL !in mark
    ensures FirstMark(text, from, mark, z) || NoMarkUpTo(text, from, mark, z)
  {
    z := Seek(text, from, mark);
    forall k | from <= k < z ensures text[k] != NUL && !PrefixAt(text, k, mark) {
      assert text[k] == At(text, k);
    }
    if !PrefixAt(text, z, mark) {
      assert At(text, z) == NUL;
    }
  }

  lemma ShortSegment(o: Options, srv: Server, text: string, v: View, i: nat) returns (g: Segment)
    requires Sound(text, v) && SlashLetter(o, text, v.AsScan()) && !Stuck(o, text, v)
    requires KnownShort(o, v.st.env, text[v.p + 1], i)
    ensures Fits(o, srv, text, v, g) && g.Short? && v.p < g.end <= |text|
  {
    var stop := StringEndFound(text, v.p);
    var end := v.p + 2;
    if o.takesParams(i) {
      var d := SessionAfter(srv, text, v, i, stop).delimiter;
      var z := ParamsFound(text, v.p + 2, d);
      end := if FirstMark(text, v.p + 2, d, z) then z + |d| else z;
    }
    g := Short(i, stop, end);
  }

  /** A backslash outside strings: the NULL sign, a command, an unknown letter, or nothing. */
  lemma SlashSegment(o: Options, srv: Server, text: string, v: View) returns (g: Segment)
    requires Sound(text, v) && v.p < |text| && v.Free() && SlashAt(v.st.env, text, v.p) && !Stuck(o, text, v)
    requires v.Skips(o) ==> !v.st.env.IsSpace(text[v.p])
    ensures Fits(o, srv, text, v, g) && (g.Wide? || g.Short? || g.Unknown? || g.Cut?)
    ensures g.Wide? || g.Short? ==> v.p < g.end <= |text|
  {
    var p, e := v.p, v.st.env;
    if p + 1 == |text| || text[p + 1] == NUL {
      g := Cut;
    } else if text[p + 1] == 'N' {
      g := Wide(p + 2);
    } else if UnknownShort(o, e, text[p + 1]) {
      g := Unknown;
    } else {
      var i := if e.binaryMode then o.charsetCommand else o.shortCommand(text[p + 1]).value;
      g := ShortSegment(o, srv, text, v, i);
    }
  }

  /** The segment takes up some text, or is the last one. */
  predicate Advances(text: string, v: View, g: Segment) {
    match g
    case Skipped(end) => v.p < end <= |text|
    case Text(end, q) => v.p < end <= |text| && (q != NUL ==> IsQuote(q))
    case Wide(end) => v.p < end <= |text|
    case Comment(end) => v.p < end <= |text|
    case Short(_, _, end) => v.p < end <= |text|
    case _ => true
  }

  lemma FreeSegment(o: Options, srv: Server, text: string, v: View) returns (g: Segment)
    requires Sound(text, v) && v.p < |text| && !Stuck(o, text, v) && v.Free()
    ensures Fits(o, srv, text, v, g) && Advances(text, v, g)
  {
    var e, p := v.st.env, v.p;
    if v.Skips(o) && e.IsSpace(text[p]) {
      g := Skipped(p + 1);
    } else if e.MbLen(text[p..]) > 0 {
      g := Wide(PlainEnd(e, text, p));
    } else if text[p] == '\\' {
      g := SlashSegment(o, srv, text, v);
    } else if PrefixAt(text, p, e.delimiter) {
      var end := TrailerExists(o, e, text, p + |e.delimiter|);
      g := Delimiter(end);
    } else if RemarkMark(e, text, p, v.Fresh()) {
      var end := StringEndFound(text, p);
      g := Remark(end);
    } else if CommentMark(text, p) {
      g := CommentSegment(o, srv, text, v);
    } else {
      g := CharSegment(o, srv, text, v);
    }
  }

  lemma NextSegment(o: Options, srv: Server, text: string, v: View) returns (g: Segment)
    requires Sound(text, v) && v.p < |text| && !Stuck(o, text, v)
    ensures Fits(o, srv, text, v, g) && Advances(text, v, g)
  {
    if v.st.inString != NUL {
      g := StringSegment(o, srv, text, v);
    } else if v.st.mlComment {
      g := CommentSegment(o, srv, text, v);
    } else {
      g := FreeSegment(o, srv, text, v);
    }
  }

  lemma SoundAfter(o: Options, srv: Server, text: string, v: View, g: Segment)
    requires Sound(text, v) && Fits(o, srv, text, v, g) && !Final(o, srv, text, v, g) && Advances(text, v, g)
    ensures var w := Effect(o, srv, text, v, g); Sound(text, w) && v.p < w.p
  {
  }

  /**
   Every line is a row of segments, from any state of the client: up to its end, or up to a block comment or a short
   command with parameters beside a comment for the server, or a comment kept directly behind another one.
   */
  lemma {:induction false} LineLaidOut(o: Options, srv: Server, text: string, v: View) returns (gs: seq<Segment>)
    requires Sound(text, v)
    ensures Laid(o, srv, text, v, gs) ||
            (Along(o, srv, text, v, gs) && Stuck(o, text, Advanced(o, srv, text, v, gs)))
    decreases |text| - v.p
  {
    if v.p == |text| || Stuck(o, text, v) {
      return [];
    }
    var g := NextSegment(o, srv, text, v);
    if Final(o, srv, text, v, g) {
      gs := [g];
    } else {
      SoundAfter(o, srv, text, v, g);
      var rest := LineLaidOut(o, srv, text, Effect(o, srv, text, v, g));
      gs := [g] + rest;
      assert gs[0] == g && gs[1..] == rest;
    }
  }
}
