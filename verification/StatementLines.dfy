/** Statements laid out over lines in any way, and what is handed over for each of them. */
module StatementLines {
  import opened Optional
  import opened Sequences
  import opened CText
  import opened LineSpec
  import opened LineLaws
  import opened ShortCommands
  import opened LineLayout

  /** The segment causes no call, whatever has been collected. */
  predicate Quiet(o: Options, e: Env, g: Segment) {
    match g
    case Delimiter(_) => false
    case Short(_, _, _) => false
    case Unknown => false
    case Remark(_) => !o.preserveComments
    case Cut => !e.binaryMode
    case _ => true
  }

  predicate AllQuiet(o: Options, e: Env, gs: seq<Segment>) {
    forall g :: g in gs ==> Quiet(o, e, g)
  }

  function Slice(text: string, p: nat, end: nat): string {
    if p <= end <= |text| then text[p..end] else ""
  }

  /** What one segment adds to the statement. */
  function Piece(keep: bool, e: Env, text: string, p: nat, owed: bool, g: Segment): string {
    match g
    case Text(end, _) => Gap(e, text, p, owed) + Slice(text, p, end)
    case Wide(end) => Slice(text, p, end)
    case Comment(end) => if keep then Slice(text, p, end) else ""
    case Unclosed => if keep then Slice(text, p, |text|) else ""
    case _ => ""
  }

  function EndOf(p: nat, g: Segment): nat {
    match g
    case Skipped(end) => end
    case Text(end, _) => end
    case Wide(end) => end
    case Comment(end) => end
    case _ => p
  }

  function OwedAfter(owed: bool, g: Segment): bool {
    g.Comment? || (owed && !g.Text?)
  }

  /** The text of segments without a call: comments are left out, unless kept, with a blank where one is owed. */
  function Clean(keep: bool, e: Env, text: string, p: nat, owed: bool, gs: seq<Segment>): string
    decreases |gs|
  {
    if gs == [] then ""
    else
      Piece(keep, e, text, p, owed, gs[0]) + Clean(keep, e, text, EndOf(p, gs[0]), OwedAfter(owed, gs[0]), gs[1..])
  }

  lemma CleanOne(keep: bool, e: Env, text: string, p: nat, owed: bool, g: Segment)
    ensures Clean(keep, e, text, p, owed, [g]) == Piece(keep, e, text, p, owed, g)
  {
    assert [g][1..] == [];
    assert Piece(keep, e, text, p, owed, g) + "" == Piece(keep, e, text, p, owed, g);
  }

  /** Where the segments end. */
  function EndOfAll(p: nat, gs: seq<Segment>): nat
    decreases |gs|
  {
    if gs == [] then p else EndOfAll(EndOf(p, gs[0]), gs[1..])
  }

  function OwedAfterAll(owed: bool, gs: seq<Segment>): bool
    decreases |gs|
  {
    if gs == [] then owed else OwedAfterAll(OwedAfter(owed, gs[0]), gs[1..])
  }

  /** The segments fit one after the other and none of them ends the line. */
  ghost predicate Along(o: Options, srv: Server, text: string, v: View, gs: seq<Segment>)
    decreases |gs|
  {
    gs == [] ||
    (Fits(o, srv, text, v, gs[0]) && !Final(o, srv, text, v, gs[0]) &&
     Along(o, srv, text, Effect(o, srv, text, v, gs[0]), gs[1..]))
  }

  ghost function Advanced(o: Options, srv: Server, text: string, v: View, gs: seq<Segment>): View
    requires Along(o, srv, text, v, gs)
    decreases |gs|
  {
    if gs == [] then v else Advanced(o, srv, text, Effect(o, srv, text, v, gs[0]), gs[1..])
  }

  /** What has been collected of the statement. */
  function Collected(v: View): string { v.st.buffer + v.out }

  lemma PieceCollected(o: Options, srv: Server, text: string, v: View, g: Segment)
    requires Fits(o, srv, text, v, g) && Quiet(o, v.st.env, g)
    ensures var w := Effect(o, srv, text, v, g);
            && Collected(w) == Collected(v) + Piece(o.preserveComments, v.st.env, text, v.p, v.owed, g)
            && w.st.env == v.st.env && w.st.trace == v.st.trace
            && (!Final(o, srv, text, v, g) ==> w.p == EndOf(v.p, g)) && w.owed == OwedAfter(v.owed, g)
  {
    if g.Text? {
      Associate(v.st.buffer + v.out, Gap(v.st.env, text, v.p, v.owed), text[v.p..g.end]);
      Associate(v.st.buffer, v.out + Gap(v.st.env, text, v.p, v.owed), text[v.p..g.end]);
      Associate(v.st.buffer, v.out, Gap(v.st.env, text, v.p, v.owed));
    } else if g.Wide? {
      Associate(v.st.buffer, v.out, text[v.p..g.end]);
    } else {
      var more := Piece(o.preserveComments, v.st.env, text, v.p, v.owed, g);
      assert Collected(v) + "" == Collected(v) && Collected(v) + more + "" == Collected(v) + more;
    }
  }

  /** Segments without a call collect their clean text and cause no call. */
  lemma {:induction false} CleanCollected(o: Options, srv: Server, text: string, v: View, gs: seq<Segment>)
    requires Along(o, srv, text, v, gs) && AllQuiet(o, v.st.env, gs)
    ensures var w := Advanced(o, srv, text, v, gs);
            && Collected(w) == Collected(v) + Clean(o.preserveComments, v.st.env, text, v.p, v.owed, gs)
            && w.st.env == v.st.env && w.st.trace == v.st.trace
            && w.p == EndOfAll(v.p, gs) && w.owed == OwedAfterAll(v.owed, gs)
    decreases |gs|
  {
    if gs == [] {
      assert Collected(v) + "" == Collected(v);
    } else {
      var g, w := gs[0], Effect(o, srv, text, v, gs[0]);
      assert Quiet(o, v.st.env, g);
      PieceCollected(o, srv, text, v, g);
      CleanCollected(o, srv, text, w, gs[1..]);
      Associate(Collected(v), Piece(o.preserveComments, v.st.env, text, v.p, v.owed, g),
                Clean(o.preserveComments, v.st.env, text, w.p, w.owed, gs[1..]));
    }
  }

  lemma QuietGoesOn(o: Options, srv: Server, text: string, v: View, g: Segment)
    requires Fits(o, srv, text, v, g) && Quiet(o, v.st.env, g)
    ensures CallOf(o, srv, text, v, g).None? && Effect(o, srv, text, v, g).st.env == v.st.env
  {
  }

  lemma {:induction false} LaidAlong(o: Options, srv: Server, text: string, truncated: bool, v: View,
                                     xs: seq<Segment>, gs: seq<Segment>)
    requires Laid(o, srv, text, v, xs + gs) && AllQuiet(o, v.st.env, xs) && gs != []
    ensures Along(o, srv, text, v, xs) && Laid(o, srv, text, Advanced(o, srv, text, v, xs), gs)
    ensures Outcome(o, srv, text, truncated, v, xs + gs) ==
            Outcome(o, srv, text, truncated, Advanced(o, srv, text, v, xs), gs)
    decreases |xs|
  {
    if xs == [] {
      assert xs + gs == gs;
    } else {
      assert (xs + gs)[0] == xs[0] && (xs + gs)[1..] == xs[1..] + gs && Quiet(o, v.st.env, xs[0]);
      QuietGoesOn(o, srv, text, v, xs[0]);
      LaidAlong(o, srv, text, truncated, Effect(o, srv, text, v, xs[0]), xs[1..], gs);
    }
  }

  /** The delimiter that follows the segments `xs`, and its trailer, which ends at `end`. */
  predicate EndsStatement(text: string, v: View, xs: seq<Segment>, end: nat) {
    var z := EndOfAll(v.p, xs);
    PrefixAt(text, z, v.st.env.delimiter) && z + |v.st.env.delimiter| <= end <= |text|
  }

  /** What is handed over when `xs` are the segments of the line in front of the first delimiter. */
  function Whole(o: Options, text: string, v: View, xs: seq<Segment>, end: nat): string
    requires EndsStatement(text, v, xs, end)
  {
    Collected(v) + Clean(o.preserveComments, v.st.env, text, v.p, v.owed, xs) +
    text[EndOfAll(v.p, xs) + |v.st.env.delimiter|..end]
  }

  /** The view behind the first delimiter. */
  function NextView(o: Options, srv: Server, text: string, v: View, xs: seq<Segment>, end: nat): View
    requires EndsStatement(text, v, xs, end)
  {
    View(end, "", Resumed(o, srv, v.st.(mlComment := false), Whole(o, text, v, xs, end)), OwedAfterAll(v.owed, xs))
  }

  /**
   The first delimiter of a line hands over what was collected before the line and the clean text in front of it;
   then the rest of the line is read in the session that the call leaves.
   */
  lemma {:induction false} FirstStatement(o: Options, srv: Server, text: string, truncated: bool, v: View,
                                          xs: seq<Segment>, end: nat, gs: seq<Segment>)
    requires Laid(o, srv, text, v, xs + ([Delimiter(end)] + gs)) && AllQuiet(o, v.st.env, xs)
    ensures EndsStatement(text, v, xs, end)
    ensures !CallQuits(o, srv, v.st, Whole(o, text, v, xs, end)) ==>
              Laid(o, srv, text, NextView(o, srv, text, v, xs, end), gs)
    ensures Outcome(o, srv, text, truncated, v, xs + ([Delimiter(end)] + gs)) ==
            if CallQuits(o, srv, v.st, Whole(o, text, v, xs, end))
            then (QuitWith(o, srv, v.st.(mlComment := false), Whole(o, text, v, xs, end)), true)
            else Outcome(o, srv, text, truncated, NextView(o, srv, text, v, xs, end), gs)
  {
    LaidAlong(o, srv, text, truncated, v, xs, [Delimiter(end)] + gs);
    CleanCollected(o, srv, text, v, xs);
    var w := Advanced(o, srv, text, v, xs);
    AtDelimiter(o, srv, text, truncated, w, end, gs);
    SameGiven(o, text, v, w, xs, end);
    SameNext(o, srv, text, v, w, xs, end, Given(text, w, end));
  }

  lemma {:induction false} SameGiven(o: Options, text: string, v: View, w: View, xs: seq<Segment>, end: nat)
    requires Collected(w) == Collected(v) + Clean(o.preserveComments, v.st.env, text, v.p, v.owed, xs)
    requires w.st.env == v.st.env && w.p == EndOfAll(v.p, xs)
    requires PrefixAt(text, w.p, w.st.env.delimiter) && w.p + |w.st.env.delimiter| <= end <= |text|
    ensures EndsStatement(text, v, xs, end) && Given(text, w, end) == Whole(o, text, v, xs, end)
  {
  }

  /** The view at the delimiter, told from the one before the segments. */
  lemma {:induction false} SameNext(o: Options, srv: Server, text: string, v: View, w: View, xs: seq<Segment>,
                                    end: nat, given: string)
    requires w.st.env == v.st.env && w.st.trace == v.st.trace && !w.st.mlComment && w.st.inString == NUL
    requires w.owed == OwedAfterAll(v.owed, xs)
    requires EndsStatement(text, v, xs, end) && given == Whole(o, text, v, xs, end)
    ensures View(end, "", Resumed(o, srv, w.st, given), w.owed) == NextView(o, srv, text, v, xs, end)
    ensures QuitWith(o, srv, w.st, given) == QuitWith(o, srv, v.st.(mlComment := false), given)
    ensures CallQuits(o, srv, w.st, given) == CallQuits(o, srv, v.st, given)
  {
    SameSession(o, srv, w.st, v.st, given);
  }

  lemma {:induction false} AtDelimiter(o: Options, srv: Server, text: string, truncated: bool, w: View, end: nat,
                                       gs: seq<Segment>)
    requires Laid(o, srv, text, w, [Delimiter(end)] + gs)
    ensures PrefixAt(text, w.p, w.st.env.delimiter) && w.p + |w.st.env.delimiter| <= end <= |text|
    ensures !w.st.mlComment && w.st.inString == NUL
    ensures var given := Given(text, w, end);
            var next := View(end, "", Resumed(o, srv, w.st, given), w.owed);
            if CallQuits(o, srv, w.st, given) then
              Outcome(o, srv, text, truncated, w, [Delimiter(end)] + gs) == (QuitWith(o, srv, w.st, given), true)
            else
              && Laid(o, srv, text, next, gs)
              && Outcome(o, srv, text, truncated, w, [Delimiter(end)] + gs) ==
                 Outcome(o, srv, text, truncated, next, gs)
  {
    var all := [Delimiter(end)] + gs;
    assert all[0] == Delimiter(end) && all[1..] == gs;
  }

  /** What follows a call depends on the session and the calls before it only. */
  lemma SameSession(o: Options, srv: Server, a: State, b: State, given: string)
    requires a.env == b.env && a.trace == b.trace && !a.mlComment
    ensures var outside := b.(mlComment := false);
            && CallQuits(o, srv, a, given) == CallQuits(o, srv, b, given)
            && QuitWith(o, srv, a, given) == QuitWith(o, srv, outside, given)
            && Resumed(o, srv, a, given) == Resumed(o, srv, outside, given)
  {
  }

  /** The calls that a line causes. */
  ghost function Calls(o: Options, srv: Server, text: string, v: View, gs: seq<Segment>): seq<Call>
    requires Laid(o, srv, text, v, gs)
    decreases |gs|
  {
    if gs == [] then []
    else
      var call := CallOf(o, srv, text, v, gs[0]);
      var first := if call.Some? then [call.value] else [];
      if Final(o, srv, text, v, gs[0]) then first
      else first + Calls(o, srv, text, Effect(o, srv, text, v, gs[0]), gs[1..])
  }

  /** How many of the segments can cause a call. */
  function LoudCount(o: Options, e: Env, gs: seq<Segment>): nat {
    if gs == [] then 0 else (if Quiet(o, e, gs[0]) || gs[0].Cut? then 0 else 1) + LoudCount(o, e, gs[1..])
  }

  lemma CallAdded(o: Options, srv: Server, text: string, v: View, g: Segment)
    requires Fits(o, srv, text, v, g)
    ensures var call := CallOf(o, srv, text, v, g);
            && Effect(o, srv, text, v, g).st.trace == v.st.trace + (if call.Some? then [call.value] else [])
            && (call.Some? ==> QuitState(o, srv, text, v, g).trace == v.st.trace + [call.value])
  {
    assert v.st.trace + [] == v.st.trace;
  }

  /** Every segment adds its own call and nothing else does; without kept comments, one for each that can. */
  lemma {:induction false} OneCallEach(o: Options, srv: Server, text: string, truncated: bool, v: View, e: Env,
                                       gs: seq<Segment>)
    requires Laid(o, srv, text, v, gs)
    ensures Outcome(o, srv, text, truncated, v, gs).0.trace == v.st.trace + Calls(o, srv, text, v, gs)
    ensures !o.preserveComments ==> |Calls(o, srv, text, v, gs)| == LoudCount(o, e, gs)
    decreases |gs|
  {
    if gs == [] {
      assert v.st.trace + [] == v.st.trace;
    } else {
      CallAdded(o, srv, text, v, gs[0]);
      if !o.preserveComments {
        LoudCalls(o, srv, text, v, e, gs[0]);
      }
      if Final(o, srv, text, v, gs[0]) {
        assert gs[1..] == [];
      } else {
        var w, call := Effect(o, srv, text, v, gs[0]), CallOf(o, srv, text, v, gs[0]);
        OneCallEach(o, srv, text, truncated, w, e, gs[1..]);
        Associate(v.st.trace, if call.Some? then [call.value] else [], Calls(o, srv, text, w, gs[1..]));
      }
    }
  }

  lemma LoudCalls(o: Options, srv: Server, text: string, v: View, e: Env, g: Segment)
    requires Fits(o, srv, text, v, g) && !o.preserveComments
    ensures CallOf(o, srv, text, v, g).Some? <==> !(Quiet(o, e, g) || g.Cut?)
  {
  }

  lemma {:induction false} LaidOn(o: Options, srv: Server, text: string, v: View, g: Segment, gs: seq<Segment>)
    requires Fits(o, srv, text, v, g) && !Final(o, srv, text, v, g)
    requires Laid(o, srv, text, Effect(o, srv, text, v, g), gs)
    ensures Laid(o, srv, text, v, [g] + gs)
    ensures forall truncated :: Outcome(o, srv, text, truncated, v, [g] + gs) ==
                                Outcome(o, srv, text, truncated, Effect(o, srv, text, v, g), gs)
  {
    assert ([g] + gs)[0] == g && ([g] + gs)[1..] == gs;
  }

  /** A line that is one statement, started and ended there. */
  lemma StatementLine(o: Options, srv: Server, text: string, truncated: bool, st: State, z: nat)
    requires st.buffer == "" && st.inString == NUL && !st.mlComment && 0 < z && DelimiterAt(st.env, text, z)
    requires StatementText(o.preserveComments, st.env, text, 0, z, true) && text[0] != NUL
    requires TrailerUpTo(o, st.env, text, z + |st.env.delimiter|, |text|)
    ensures var given := text[..z] + text[z + |st.env.delimiter|..];
            AddLine(o, srv, text, truncated, st) ==
            if CallQuits(o, srv, st, given) then (QuitWith(o, srv, st, given), true)
            else (Resumed(o, srv, st, given), false)
  {
    StatementLaid(o, srv, text, truncated, st, z);
    LineSplit(o, srv, text, truncated, st, [Text(z, NUL)] + [Delimiter(|text|)]);
  }

  lemma {:induction false} StatementLaid(o: Options, srv: Server, text: string, truncated: bool, st: State, z: nat)
    requires st.buffer == "" && st.inString == NUL && !st.mlComment && 0 < z && DelimiterAt(st.env, text, z)
    requires StatementText(o.preserveComments, st.env, text, 0, z, true)
    requires TrailerUpTo(o, st.env, text, z + |st.env.delimiter|, |text|)
    ensures var gs := [Text(z, NUL)] + [Delimiter(|text|)];
            var given := text[..z] + text[z + |st.env.delimiter|..];
            && Laid(o, srv, text, StartView(st), gs)
            && Outcome(o, srv, text, truncated, StartView(st), gs) ==
               if CallQuits(o, srv, st, given) then (QuitWith(o, srv, st, given), true)
               else (Resumed(o, srv, st, given), false)
  {
    TextFits(o, srv, text, st, z);
    EndOfLine(o, srv, text, truncated, View(z, text[..z], st, false));
    assert "" + text[..z] == text[..z];
    LaidOn(o, srv, text, StartView(st), Text(z, NUL), [Delimiter(|text|)]);
  }

  lemma TextFits(o: Options, srv: Server, text: string, st: State, z: nat)
    requires st.buffer == "" && st.inString == NUL && !st.mlComment && 0 < z <= |text|
    requires StatementText(o.preserveComments, st.env, text, 0, z, true)
    ensures var g := Text(z, NUL);
            && Fits(o, srv, text, StartView(st), g)
            && Effect(o, srv, text, StartView(st), g) == View(z, text[..z], st, false)
  {
    assert "" + "" + text[0..z] == text[..z];
  }

  lemma FinishOpen(o: Options, text: string, st: State)
    requires st.buffer == "" && st.inString != NUL && !st.mlComment && text != ""
    ensures Finish(o, text, st, false) == st.(buffer := text + "\n")
  {
    assert "" + text + "\n" == text + "\n";
  }

  lemma OpenLineFits(o: Options, srv: Server, text: string, st: State, k: nat)
    requires st.buffer == "" && st.inString == NUL && !st.mlComment && k < |text|
    requires OpenedAt(o.preserveComments, st.env, text, 0, k, |text|, true)
    ensures var g := Text(|text|, text[k]);
            && Fits(o, srv, text, StartView(st), g)
            && Effect(o, srv, text, StartView(st), g) == View(|text|, text, st.(inString := text[k]), false)
  {
    assert "" + "" + text[0..|text|] == text;
  }

  /** A line that leaves open the string it opens at `k`. */
  lemma {:induction false} OpenLine(o: Options, srv: Server, text: string, st: State, k: nat)
    requires st.buffer == "" && st.inString == NUL && !st.mlComment && k < |text| && text[0] != NUL
    requires OpenedAt(o.preserveComments, st.env, text, 0, k, |text|, true)
    ensures AddLine(o, srv, text, false, st) == (st.(buffer := text + "\n", inString := text[k]), false)
  {
    var g := Text(|text|, text[k]);
    OpenLineFits(o, srv, text, st, k);
    LaidOn(o, srv, text, StartView(st), g, []);
    LineSplit(o, srv, text, false, st, [g] + []);
    FinishOpen(o, text, st.(inString := text[k]));
  }

  /** The delimiter is the last segment of the line. */
  lemma {:induction false} EndOfLine(o: Options, srv: Server, text: string, truncated: bool, w: View)
    requires w.Free() && !w.Fresh() && DelimiterAt(w.st.env, text, w.p)
    requires TrailerUpTo(o, w.st.env, text, w.p + |w.st.env.delimiter|, |text|)
    ensures Laid(o, srv, text, w, [Delimiter(|text|)])
    ensures var given := w.st.buffer + w.out + text[w.p + |w.st.env.delimiter|..];
            Outcome(o, srv, text, truncated, w, [Delimiter(|text|)]) ==
            if CallQuits(o, srv, w.st, given) then (QuitWith(o, srv, w.st, given), true)
            else (Resumed(o, srv, w.st, given), false)
  {
    assert Fits(o, srv, text, w, Delimiter(|text|)) && [Delimiter(|text|)][1..] == [];
    assert text[w.p + |w.st.env.delimiter|..] == text[w.p + |w.st.env.delimiter|..|text|];
  }

  // ---------------------------------------------------------------- lines that end no statement

  /** The text that is still in the line when it ends: what follows the last comment. */
  function Tail(keep: bool, e: Env, text: string, p: nat, owed: bool, out: string, gs: seq<Segment>): string
    decreases |gs|
  {
    if gs == [] then out
    else if gs[0].Unclosed? || gs[0].Remark? then ""
    else
      var now := if gs[0].Comment? then "" else out + Piece(keep, e, text, p, owed, gs[0]);
      Tail(keep, e, text, EndOf(p, gs[0]), OwedAfter(owed, gs[0]), now, gs[1..])
  }

  /** Whether the line leaves a block comment open. */
  function CommentAfter(inside: bool, gs: seq<Segment>): bool {
    if gs == [] then inside else gs[|gs| - 1].Unclosed?
  }

  function QuoteAfterAll(q: char, gs: seq<Segment>): char
    decreases |gs|
  {
    if gs == [] then q else QuoteAfterAll(if gs[0].Text? then gs[0].quote else q, gs[1..])
  }

  /** Whether the line gives the statement a newline. */
  predicate NewlineAfter(o: Options, collected: string, tail: string, truncated: bool, q: char, inside: bool) {
    && collected != "" && !truncated && (inside ==> o.preserveComments)
    && (!o.isDelimiterCommand(tail) || q != NUL || inside)
  }

  /** The state after a line that ends no statement: its clean text and a newline are added to the buffer. */
  function Gathered(o: Options, text: string, truncated: bool, v: View, gs: seq<Segment>): State {
    var all := Collected(v) + Clean(o.preserveComments, v.st.env, text, v.p, v.owed, gs);
    var tail := Tail(o.preserveComments, v.st.env, text, v.p, v.owed, v.out, gs);
    var q, inside := QuoteAfterAll(v.st.inString, gs), CommentAfter(v.st.mlComment, gs);
    v.st.(buffer := all + (if NewlineAfter(o, all, tail, truncated, q, inside) then "\n" else ""),
          inString := q, mlComment := inside)
  }

  lemma {:induction false} TailStep(o: Options, srv: Server, text: string, v: View, gs: seq<Segment>)
    requires gs != [] && Fits(o, srv, text, v, gs[0]) && Quiet(o, v.st.env, gs[0]) && !Final(o, srv, text, v, gs[0])
    ensures var w := Effect(o, srv, text, v, gs[0]);
            Tail(o.preserveComments, v.st.env, text, v.p, v.owed, v.out, gs) ==
            Tail(o.preserveComments, w.st.env, text, w.p, w.owed, w.out, gs[1..])
  {
    var g, w := gs[0], Effect(o, srv, text, v, gs[0]);
    PieceCollected(o, srv, text, v, g);
    if g.Text? {
      Associate(v.out, Gap(v.st.env, text, v.p, v.owed), text[v.p..g.end]);
    }
    assert w.out == if g.Comment? then "" else v.out + Piece(o.preserveComments, v.st.env, text, v.p, v.owed, g);
  }

  lemma {:induction false} GatheredStep(o: Options, srv: Server, text: string, truncated: bool, v: View,
                                        gs: seq<Segment>)
    requires gs != [] && Fits(o, srv, text, v, gs[0]) && Quiet(o, v.st.env, gs[0]) && !Final(o, srv, text, v, gs[0])
    ensures Gathered(o, text, truncated, v, gs) ==
            Gathered(o, text, truncated, Effect(o, srv, text, v, gs[0]), gs[1..])
  {
    var g, w := gs[0], Effect(o, srv, text, v, gs[0]);
    PieceCollected(o, srv, text, v, g);
    Associate(Collected(v), Piece(o.preserveComments, v.st.env, text, v.p, v.owed, g),
              Clean(o.preserveComments, v.st.env, text, w.p, w.owed, gs[1..]));
    assert CommentAfter(v.st.mlComment, gs) == CommentAfter(w.st.mlComment, gs[1..]);
    TailStep(o, srv, text, v, gs);
  }

  lemma GatheredLast(o: Options, srv: Server, text: string, truncated: bool, v: View, g: Segment)
    requires Fits(o, srv, text, v, g) && Quiet(o, v.st.env, g) && (g.Unclosed? || g.Remark? || g.Cut?)
    ensures var w := Effect(o, srv, text, v, g);
            Gathered(o, text, truncated, v, [g]) == Finish(o, w.out, w.st, truncated)
  {
    assert [g][1..] == [];
    var more := Piece(o.preserveComments, v.st.env, text, v.p, v.owed, g);
    assert Clean(o.preserveComments, v.st.env, text, v.p, v.owed, [g]) == more + "" == more;
    PieceCollected(o, srv, text, v, g);
    assert QuoteAfterAll(v.st.inString, [g]) == v.st.inString;
    var w := Effect(o, srv, text, v, g);
    assert w.st.buffer + w.out == Collected(v) + more && w.st.buffer + "" == w.st.buffer;
    assert g.Cut? ==> v.out + more == v.out;
    assert Tail(o.preserveComments, v.st.env, text, v.p, v.owed, v.out, [g]) == if g.Cut? then v.out else "";
  }

  lemma GatheredNothing(o: Options, text: string, truncated: bool, v: View)
    requires v.st.mlComment ==> v.out == ""
    ensures Gathered(o, text, truncated, v, []) == Finish(o, v.out, v.st, truncated)
  {
    var all := Collected(v);
    assert all + "" == all && v.st.buffer + "" == v.st.buffer;
    assert v.st.mlComment ==> all == v.st.buffer;
    assert all == "" <==> v.out == "" && v.st.buffer == "";
  }

  lemma {:induction false} LineGathered(o: Options, srv: Server, text: string, truncated: bool, v: View,
                                        gs: seq<Segment>)
    requires Laid(o, srv, text, v, gs) && AllQuiet(o, v.st.env, gs) && (v.st.mlComment ==> v.out == "")
    ensures Outcome(o, srv, text, truncated, v, gs) == (Gathered(o, text, truncated, v, gs), false)
    decreases |gs|
  {
    if gs == [] {
      GatheredNothing(o, text, truncated, v);
    } else {
      assert Quiet(o, v.st.env, gs[0]);
      QuietGoesOn(o, srv, text, v, gs[0]);
      if Final(o, srv, text, v, gs[0]) {
        assert gs == [gs[0]];
        GatheredLast(o, srv, text, truncated, v, gs[0]);
      } else {
        GatheredStep(o, srv, text, truncated, v, gs);
        LineGathered(o, srv, text, truncated, Effect(o, srv, text, v, gs[0]), gs[1..]);
      }
    }
  }

  // ---------------------------------------------------------------- many lines

  /** The reading of lines; `read` tells where it ends up from each state. */
  datatype Session = Session(o: Options, srv: Server, named: bool, read: (seq<Line>, State) -> (State, Ending))
  {
    ghost predicate Valid() { forall lines: seq<Line>, st: State :: Reads(lines, st) }

    ghost predicate Reads(lines: seq<Line>, st: State) { read(lines, st) == ReadLines(o, srv, named, lines, st) }
  }

  function TheSession(o: Options, srv: Server, named: bool): (z: Session)
    ensures z.Valid()
  {
    Session(o, srv, named, (lines, st) => ReadLines(o, srv, named, lines, st))
  }

  /** No client command is looked for in the line, or none is found. */
  predicate ToScanner(o: Options, named: bool, text: string, st: State) {
    || st.inString != NUL || st.mlComment || (st.buffer != "" && !named)
    || o.longCommand(st.env, text).None?
  }

  /** A line that is a client command by itself is run, and the rest is read in the session that it leaves. */
  lemma CommandLineRead(z: Session, l: Line, rest: seq<Line>, st: State, i: nat)
    requires z.Valid() && st.inString == NUL && !st.mlComment && (z.named || st.buffer == "")
    requires (st.env.binaryMode || NUL !in l.text) && z.o.longCommand(st.env, l.text) == Some(i)
    ensures var st' := AfterCall(z.srv, st, LongCommand(i, l.text));
            z.read([l] + rest, st) == if z.srv(st'.trace).quit then (st', Stopped) else z.read(rest, st')
  {
    assert ([l] + rest)[0] == l && ([l] + rest)[1..] == rest;
    assert z.Reads([l] + rest, st) && z.Reads(rest, AfterCall(z.srv, st, LongCommand(i, l.text)));
  }

  /** Outside binary mode a line with a NUL ends the reading before anything of it is looked at. */
  lemma NulStops(z: Session, l: Line, rest: seq<Line>, st: State)
    requires z.Valid() && !st.env.binaryMode && NUL in l.text
    ensures z.read([l] + rest, st) == (st, NulInLine) && z.read([], st) == (st, EndOfInput)
  {
    assert ([l] + rest)[0] == l;
    assert z.Reads([l] + rest, st) && z.Reads([], st);
  }

  /** The line goes to the scanner, and there it is the row of segments. */
  ghost predicate LineLaid(o: Options, srv: Server, named: bool, st: State, l: Line, gs: seq<Segment>) {
    && (st.env.binaryMode || NUL !in l.text) && ToScanner(o, named, l.text, st)
    && (st.buffer == "" && l.text != "" ==> l.text[0] != NUL)
    && Laid(o, srv, l.text, StartView(st), gs)
  }

  lemma {:induction false} LineRead(z: Session, l: Line, rest: seq<Line>, st: State, gs: seq<Segment>)
    requires z.Valid() && Consistent(st) && LineLaid(z.o, z.srv, z.named, st, l, gs)
    ensures var (st', quit) := Outcome(z.o, z.srv, l.text, l.truncated, StartView(st), gs);
            z.read([l] + rest, st) == if quit then (st', Stopped) else z.read(rest, st')
  {
    LineSplit(z.o, z.srv, l.text, l.truncated, st, gs);
    assert ([l] + rest)[0] == l && ([l] + rest)[1..] == rest;
    var st' := Outcome(z.o, z.srv, l.text, l.truncated, StartView(st), gs).0;
    assert z.Reads([l] + rest, st) && z.Reads(rest, st');
  }

  /** The state after lines that end no statement, laid out as `gss` tells. */
  function GatheredAll(o: Options, st: State, lines: seq<Line>, gss: seq<seq<Segment>>): State
    requires |lines| == |gss|
    decreases |lines|
  {
    if lines == [] then st
    else GatheredAll(o, Gathered(o, lines[0].text, lines[0].truncated, StartView(st), gss[0]), lines[1..], gss[1..])
  }

  ghost predicate AllGathered(o: Options, srv: Server, named: bool, st: State, lines: seq<Line>,
                              gss: seq<seq<Segment>>)
    requires |lines| == |gss|
    decreases |lines|
  {
    lines == [] ||
    (LineLaid(o, srv, named, st, lines[0], gss[0]) && AllQuiet(o, st.env, gss[0]) &&
     AllGathered(o, srv, named, Gathered(o, lines[0].text, lines[0].truncated, StartView(st), gss[0]), lines[1..],
                 gss[1..]))
  }

  lemma {:induction false} GatheredConsistent(o: Options, srv: Server, named: bool, st: State, l: Line,
                                              gs: seq<Segment>)
    requires Consistent(st) && LineLaid(o, srv, named, st, l, gs) && AllQuiet(o, st.env, gs)
    ensures Consistent(Gathered(o, l.text, l.truncated, StartView(st), gs))
  {
    LineStaysConsistent(o, srv, l.text, l.truncated, st);
    LineSplit(o, srv, l.text, l.truncated, st, gs);
    LineGathered(o, srv, l.text, l.truncated, StartView(st), gs);
  }

  /** Lines that end no statement cause no call; their clean text is gathered in the buffer. */
  lemma {:induction false} LinesGathered(z: Session, st: State, lines: seq<Line>, gss: seq<seq<Segment>>,
                                         rest: seq<Line>)
    requires z.Valid() && Consistent(st) && |lines| == |gss| && AllGathered(z.o, z.srv, z.named, st, lines, gss)
    ensures z.read(lines + rest, st) == z.read(rest, GatheredAll(z.o, st, lines, gss))
    ensures Consistent(GatheredAll(z.o, st, lines, gss))
    decreases |lines|
  {
    if lines == [] {
      assert lines + rest == rest;
    } else {
      var l, gs := lines[0], gss[0];
      assert lines + rest == [l] + (lines[1..] + rest);
      LineRead(z, l, lines[1..] + rest, st, gs);
      LineGathered(z.o, z.srv, l.text, l.truncated, StartView(st), gs);
      GatheredConsistent(z.o, z.srv, z.named, st, l, gs);
      LinesGathered(z, Gathered(z.o, l.text, l.truncated, StartView(st), gs), lines[1..], gss[1..], rest);
    }
  }

  /** The text of lines that end no statement, put together. */
  function GatheredText(o: Options, st: State, lines: seq<Line>, gss: seq<seq<Segment>>): string
    requires |lines| == |gss|
    decreases |lines|
  {
    if lines == [] then ""
    else
      var text, v := lines[0].text, StartView(st);
      var next := Gathered(o, text, lines[0].truncated, v, gss[0]);
      var clean := Clean(o.preserveComments, st.env, text, 0, false, gss[0]);
      clean + (if next.buffer == st.buffer + clean then "" else "\n") + GatheredText(o, next, lines[1..], gss[1..])
  }

  lemma {:induction false} GatheredIsText(o: Options, st: State, lines: seq<Line>, gss: seq<seq<Segment>>)
    requires |lines| == |gss|
    ensures var r := GatheredAll(o, st, lines, gss);
            r.buffer == st.buffer + GatheredText(o, st, lines, gss) && r.env == st.env && r.trace == st.trace
    decreases |lines|
  {
    if lines == [] {
      assert st.buffer + "" == st.buffer;
    } else {
      var next := Gathered(o, lines[0].text, lines[0].truncated, StartView(st), gss[0]);
      var clean := Clean(o.preserveComments, st.env, lines[0].text, 0, false, gss[0]);
      var end := if next.buffer == st.buffer + clean then "" else "\n";
      assert st.buffer + "" == st.buffer && st.buffer + clean + "" == st.buffer + clean;
      assert next.buffer == st.buffer + clean + end;
      GatheredIsText(o, next, lines[1..], gss[1..]);
      Associate(st.buffer, clean, end);
      Associate(st.buffer, clean + end, GatheredText(o, next, lines[1..], gss[1..]));
    }
  }

  /** The rest of a line and the lines behind it. */
  ghost function RestRead(z: Session, l: Line, v: View, gs: seq<Segment>, rest: seq<Line>): (State, Ending)
    requires Laid(z.o, z.srv, l.text, v, gs)
  {
    var (st, quit) := Outcome(z.o, z.srv, l.text, l.truncated, v, gs);
    if quit then (st, Stopped) else z.read(rest, st)
  }

  lemma {:induction false} LastLineRead(z: Session, st: State, last: Line, xs: seq<Segment>, end: nat, gs: seq<Segment>,
                     rest: seq<Line>)
    requires z.Valid() && Consistent(st) && AllQuiet(z.o, st.env, xs)
    requires LineLaid(z.o, z.srv, z.named, st, last, xs + ([Delimiter(end)] + gs))
    ensures EndsStatement(last.text, StartView(st), xs, end)
    ensures var given := Whole(z.o, last.text, StartView(st), xs, end);
            var next := NextView(z.o, z.srv, last.text, StartView(st), xs, end);
            if CallQuits(z.o, z.srv, st, given)
            then z.read([last] + rest, st) == (QuitWith(z.o, z.srv, st.(mlComment := false), given), Stopped)
            else Laid(z.o, z.srv, last.text, next, gs) && z.read([last] + rest, st) == RestRead(z, last, next, gs, rest)
  {
    LineRead(z, last, rest, st, xs + ([Delimiter(end)] + gs));
    FirstStatement(z.o, z.srv, last.text, last.truncated, StartView(st), xs, end, gs);
  }

  /** What is handed over for a statement that starts on the lines before the one with its delimiter. */
  function Statement(o: Options, st: State, lines: seq<Line>, gss: seq<seq<Segment>>, last: Line, xs: seq<Segment>,
                     end: nat)
    : string
    requires |lines| == |gss| && EndsStatement(last.text, StartView(st), xs, end)
  {
    st.buffer + GatheredText(o, st, lines, gss) + Clean(o.preserveComments, st.env, last.text, 0, false, xs) +
    last.text[EndOfAll(0, xs) + |st.env.delimiter|..end]
  }

  /**
   A statement that goes on over any number of lines, in literals, in comments or between them, becomes one call:
   with what was in the buffer, the clean text of the lines and the clean text in front of the delimiter. Then the rest
   of the line and the lines behind it are read in the session that the call leaves.
   */
  lemma {:induction false} StatementAcrossLines(z: Session, st: State, lines: seq<Line>, gss: seq<seq<Segment>>,
                                                last: Line, xs: seq<Segment>, end: nat, gs: seq<Segment>,
                                                rest: seq<Line>)
    requires z.Valid() && Consistent(st) && |lines| == |gss| && AllGathered(z.o, z.srv, z.named, st, lines, gss)
    requires AllQuiet(z.o, st.env, xs)
    requires LineLaid(z.o, z.srv, z.named, GatheredAll(z.o, st, lines, gss), last, xs + ([Delimiter(end)] + gs))
    ensures EndsStatement(last.text, StartView(st), xs, end)
    ensures var given := Statement(z.o, st, lines, gss, last, xs, end);
            var outside := st.(mlComment := false);
            var next := View(end, "", Resumed(z.o, z.srv, outside, given), OwedAfterAll(false, xs));
            if CallQuits(z.o, z.srv, st, given)
            then z.read(lines + ([last] + rest), st) == (QuitWith(z.o, z.srv, outside, given), Stopped)
            else
              && Laid(z.o, z.srv, last.text, next, gs)
              && z.read(lines + ([last] + rest), st) == RestRead(z, last, next, gs, rest)
  {
    LinesGathered(z, st, lines, gss, [last] + rest);
    GatheredIsText(z.o, st, lines, gss);
    var st' := GatheredAll(z.o, st, lines, gss);
    LastLineRead(z, st', last, xs, end, gs, rest);
    SameStatement(z.o, z.srv, st, st', lines, gss, last, xs, end);
  }

  lemma {:induction false} SameStatement(o: Options, srv: Server, st: State, st': State, lines: seq<Line>,
                                         gss: seq<seq<Segment>>, last: Line, xs: seq<Segment>, end: nat)
    requires |lines| == |gss| && EndsStatement(last.text, StartView(st'), xs, end)
    requires st'.buffer == st.buffer + GatheredText(o, st, lines, gss) && st'.env == st.env && st'.trace == st.trace
    ensures var given := Statement(o, st, lines, gss, last, xs, end);
            var outside := st.(mlComment := false);
            && Whole(o, last.text, StartView(st'), xs, end) == given
            && NextView(o, srv, last.text, StartView(st'), xs, end) ==
               View(end, "", Resumed(o, srv, outside, given), OwedAfterAll(false, xs))
            && QuitWith(o, srv, st'.(mlComment := false), given) == QuitWith(o, srv, outside, given)
            && CallQuits(o, srv, st', given) == CallQuits(o, srv, st, given)
  {
    assert st'.buffer + "" == st'.buffer;
    SameSession(o, srv, st'.(mlComment := false), st, Statement(o, st, lines, gss, last, xs, end));
  }
}
