/** Backslash commands inside a line, and the comments for the server that change where their parameters end. */
module ShortCommands {
  import opened Optional
  import opened CText
  import opened LineSpec
  import opened LineLaws

  /** `c` is the letter of short command `i`; in binary mode only the one for the character set is known. */
  predicate KnownShort(o: Options, e: Env, c: char, i: nat) {
    if e.binaryMode then c == 'C' && i == o.charsetCommand else o.shortCommand(c) == Some(i)
  }

  predicate UnknownShort(o: Options, e: Env, c: char) {
    if e.binaryMode then c != 'C' else o.shortCommand(c).None?
  }

  /** Outside strings and comments, a backslash with a letter behind it that is not the NULL sign. */
  predicate SlashLetter(o: Options, text: string, s: Scan) {
    && Free(s) && s.p + 1 < |text| && text[s.p] == '\\' && s.st.env.MbLen(text[s.p..]) == 0
    && text[s.p + 1] != NUL && text[s.p + 1] != 'N' && NotSkipped(o, text, s)
  }

  /** The first `mark` at or after `from`, with no end of the C string before it, is at `z`. */
  predicate FirstMark(text: string, from: nat, mark: string, z: nat) {
    from <= z && PrefixAt(text, z, mark) &&
    forall k :: from <= k < z ==> text[k] != NUL && !PrefixAt(text, k, mark)
  }

  /** The C string that starts at `from` ends at `z`, and `mark` is not in it. */
  predicate NoMarkUpTo(text: string, from: nat, mark: string, z: nat) {
    StringEndsAt(text, from, z) && forall k :: from <= k < z ==> !PrefixAt(text, k, mark)
  }

  lemma {:induction false} SeekFirst(text: string, from: nat, mark: string, z: nat)
    requires FirstMark(text, from, mark, z)
    ensures Seek(text, from, mark) == z
    decreases z - from
  {
    if from < z {
      SeekFirst(text, from + 1, mark, z);
    }
  }

  lemma {:induction false} SeekNone(text: string, from: nat, mark: string, z: nat)
    requires NoMarkUpTo(text, from, mark, z)
    ensures Seek(text, from, mark) == z
    decreases z - from
  {
    if from < z {
      SeekNone(text, from + 1, mark, z);
    }
  }

  /** What the command is called with: what has been collected, and the line from the backslash on. */
  function ShortCall(text: string, s: Scan, i: nat, stop: nat): Call
    requires s.p <= stop <= |text|
  {
    ShortCommand(i, s.st.buffer + s.out, text[s.p..stop])
  }

  /** The scan that resumes at `end` in the state that the command leaves. */
  function Behind(srv: Server, text: string, s: Scan, i: nat, stop: nat, end: nat): Scan
    requires s.p <= stop <= |text|
  {
    s.(p := end, out := "", st := AfterCall(srv, s.st, ShortCall(text, s, i, stop)))
  }

  /** A known short command stands at the read position, and its text ends at `stop`. */
  predicate ShortAt(o: Options, text: string, s: Scan, i: nat, stop: nat) {
    SlashLetter(o, text, s) && KnownShort(o, s.st.env, text[s.p + 1], i) && StringEndsAt(text, s.p, stop)
  }

  /** The turn at a short command; `end` is where the scan resumes. */
  lemma ShortStep(o: Options, srv: Server, text: string, s: Scan, i: nat, stop: nat, end: nat)
    requires ShortAt(o, text, s, i, stop)
    requires var e := Behind(srv, text, s, i, stop, end).st.env;
             end == if o.takesParams(i) then SkipParams(text, e, s.ssComment, s.p + 2) else s.p + 2
    ensures var t := Behind(srv, text, s, i, stop, end);
            StepAt(o, srv, text, s) == if srv(t.st.trace).quit then Quit(t.st) else More(t)
  {
    assert KindAt(o, text, s) == Escape;
    StringEndIs(text, s.p, stop);
    assert FindShort(o, s.st.env, text[s.p + 1]) == Some(i);
  }

  /** The answer to the last call of a scan. */
  function Answer(l: Loop, t: Scan): Reply { l.srv(t.st.trace) }

  lemma ShortRun(l: Loop, s: Scan, i: nat, stop: nat, end: nat)
    requires l.Valid() && ShortAt(l.o, l.text, s, i, stop)
    requires var e := Behind(l.srv, l.text, s, i, stop, end).st.env;
             end == if l.o.takesParams(i) then SkipParams(l.text, e, s.ssComment, s.p + 2) else s.p + 2
    ensures var t := Behind(l.srv, l.text, s, i, stop, end);
            l.run(s) == if Answer(l, t).quit then Quit(t.st) else l.run(t)
  {
    ShortStep(l.o, l.srv, l.text, s, i, stop, end);
    var t := Behind(l.srv, l.text, s, i, stop, end);
    assert l.Runs(s);
    if !l.srv(t.st.trace).quit {
      StepThenScan(l, s, t);
    }
  }

  /** A short command without parameters is run, and the scan goes on behind its letter. */
  lemma ShortAlone(l: Loop, s: Scan, i: nat, stop: nat)
    requires l.Valid() && ShortAt(l.o, l.text, s, i, stop) && !l.o.takesParams(i)
    ensures var t := Behind(l.srv, l.text, s, i, stop, s.p + 2);
            l.run(s) == if Answer(l, t).quit then Quit(t.st) else l.run(t)
  {
    ShortRun(l, s, i, stop, s.p + 2);
  }

  /** Its parameters are dropped up to and including the first delimiter of the session that it leaves. */
  lemma {:induction false} ShortParams(l: Loop, s: Scan, i: nat, stop: nat, z: nat)
    requires l.Valid() && ShortAt(l.o, l.text, s, i, stop) && l.o.takesParams(i) && !s.ssComment
    requires FirstMark(l.text, s.p + 2, Behind(l.srv, l.text, s, i, stop, 0).st.env.delimiter, z)
    ensures var t := Behind(l.srv, l.text, s, i, stop, z + |Behind(l.srv, l.text, s, i, stop, 0).st.env.delimiter|);
            l.run(s) == if Answer(l, t).quit then Quit(t.st) else l.run(t)
  {
    var e := Behind(l.srv, l.text, s, i, stop, 0).st.env;
    SeekFirst(l.text, s.p + 2, e.delimiter, z);
    assert l.text[z] == e.delimiter[0] && e.delimiter[0] in e.delimiter;
    ShortRun(l, s, i, stop, z + |e.delimiter|);
  }

  /** Without one they go up to the end of the text, and the command is the last thing in it. */
  lemma ShortParamsToEnd(l: Loop, s: Scan, i: nat, stop: nat, z: nat)
    requires l.Valid() && ShortAt(l.o, l.text, s, i, stop) && l.o.takesParams(i) && !s.ssComment
    requires NoMarkUpTo(l.text, s.p + 2, Behind(l.srv, l.text, s, i, stop, 0).st.env.delimiter, z)
    ensures var t := Behind(l.srv, l.text, s, i, stop, z);
            l.run(s) == if Answer(l, t).quit then Quit(t.st) else if z == |l.text| then Stop(t) else l.run(t)
  {
    SeekNone(l.text, s.p + 2, Behind(l.srv, l.text, s, i, stop, 0).st.env.delimiter, z);
    ShortRun(l, s, i, stop, z);
    assert l.Runs(Behind(l.srv, l.text, s, i, stop, z));
  }

  /** Inside a comment for the server they go up to its end, wherever the delimiter is. */
  lemma ShortInServerComment(l: Loop, s: Scan, i: nat, stop: nat, z: nat)
    requires l.Valid() && ShortAt(l.o, l.text, s, i, stop) && l.o.takesParams(i) && s.ssComment
    requires FirstMark(l.text, s.p + 2, "*/", z) || NoMarkUpTo(l.text, s.p + 2, "*/", z)
    ensures var t := Behind(l.srv, l.text, s, i, stop, z);
            l.run(s) == if Answer(l, t).quit then Quit(t.st) else l.run(t)
  {
    if FirstMark(l.text, s.p + 2, "*/", z) {
      SeekFirst(l.text, s.p + 2, "*/", z);
    } else {
      SeekNone(l.text, s.p + 2, "*/", z);
    }
    ShortRun(l, s, i, stop, z);
  }

  /** The scan behind a backslash with a letter that is no command: both are kept, and the user is told. */
  function Untaken(text: string, s: Scan): Scan
    requires s.p + 1 < |text|
  {
    s.(p := s.p + 2, out := s.out + text[s.p..s.p + 2],
       st := s.st.(trace := s.st.trace + [UnknownCommand(text[s.p + 1])]))
  }

  lemma UnknownRun(l: Loop, s: Scan)
    requires l.Valid() && SlashLetter(l.o, l.text, s) && UnknownShort(l.o, s.st.env, l.text[s.p + 1])
    ensures var t := Untaken(l.text, s);
            l.run(s) == if Answer(l, t).quit then Quit(s.st.(trace := t.st.trace)) else l.run(t)
  {
    var t := Untaken(l.text, s);
    assert KindAt(l.o, l.text, s) == Escape && FindShort(l.o, s.st.env, l.text[s.p + 1]).None?;
    assert l.text[s.p..s.p + 2] == ['\\', l.text[s.p + 1]];
    assert l.Runs(s);
    if !Answer(l, t).quit {
      StepThenScan(l, s, t);
    }
  }

  // ---------------------------------------------------------------- comments for the server

  /** Where such a comment starts, the line knows that it is inside one. */
  lemma ServerCommentOpened(l: Loop, s: Scan)
    requires l.Valid() && Outside(s) && s.p < |l.text| && ServerMark(l.text, s.p) && NotSkipped(l.o, l.text, s)
    requires s.st.env.MbLen(l.text[s.p..]) == 0 && !PrefixAt(l.text, s.p, s.st.env.delimiter)
    ensures l.run(s) == l.run(Kept(l.text, s, s.p + 1, true))
  {
    CharKept(l.o, l.srv, l.text, s);
    StepThenScan(l, s, Kept(l.text, s, s.p + 1, true));
  }

  /** And where it ends, that it is not. */
  lemma ServerCommentClosed(l: Loop, s: Scan)
    requires l.Valid() && Outside(s) && s.p < |l.text| && NotSkipped(l.o, l.text, s)
    requires l.text[s.p] == '*' && At(l.text, s.p + 1) == '/'
    requires s.st.env.MbLen(l.text[s.p..]) == 0 && !PrefixAt(l.text, s.p, s.st.env.delimiter)
    ensures l.run(s) == l.run(Kept(l.text, s, s.p + 1, false))
  {
    CharKept(l.o, l.srv, l.text, s);
    StepThenScan(l, s, Kept(l.text, s, s.p + 1, false));
  }

  /** A block comment inside one for the server: the first end closes the outer one, and the inner one goes on. */
  lemma InnerCommentGoesOn(l: Loop, s: Scan)
    requires l.Valid() && s.st.mlComment && s.st.inString == NUL && s.ssComment && !l.o.preserveComments
    requires s.p < |l.text| && l.text[s.p] == '*' && At(l.text, s.p + 1) == '/' && NotSkipped(l.o, l.text, s)
    requires s.st.env.MbLen(l.text[s.p..]) == 0
    ensures l.run(s) == l.run(s.(p := s.p + 1, ssComment := false))
  {
    assert KindAt(l.o, l.text, s) == Other;
    StepThenScan(l, s, s.(p := s.p + 1, ssComment := false));
  }

  /** A short command with parameters inside a comment for the server that was opened before it on the line. */
  lemma CommandInServerComment(l: Loop, s: Scan, k: nat, i: nat, stop: nat, z: nat)
    requires l.Valid() && Outside(s) && s.p < k < |l.text| && ServerMark(l.text, s.p) && NotSkipped(l.o, l.text, s)
    requires s.st.env.MbLen(l.text[s.p..]) == 0 && !PrefixAt(l.text, s.p, s.st.env.delimiter)
    requires StatementText(l.o.preserveComments, s.st.env, l.text, s.p + 1, k, false) && NoEdge(l.text, s.p + 1, k)
    requires ShortAt(l.o, l.text, Kept(l.text, s, k, true), i, stop) && l.o.takesParams(i)
    requires FirstMark(l.text, k + 2, "*/", z)
    ensures var t := Behind(l.srv, l.text, Kept(l.text, s, k, true), i, stop, z);
            l.run(s) == if Answer(l, t).quit then Quit(t.st) else l.run(t)
  {
    ServerCommentOpened(l, s);
    var u := Kept(l.text, s, s.p + 1, true);
    var ss := TextKept(l, u, k);
    KeptTwice(l.text, s, s.p + 1, true, k, true);
    ShortInServerComment(l, Kept(l.text, s, k, true), i, stop, z);
  }
}
