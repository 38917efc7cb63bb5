/**
 The meaning of `add_line` as a scanner over a text that is never written: kept characters
 go to a separate string instead of being moved down inside the line buffer.
 */
module LineSpec {
  import opened Optional
  import opened CText

  /** Never empty: an empty delimiter would match everywhere without advancing. */
  type Delimiter = d: string | d != "" && NUL !in d witness ";"

  /** The part of the client's global state that the scanner reads and that a command may change. */
  datatype Env = Env(
    delimiter: Delimiter,
    ansiQuotes: bool,          // SERVER_STATUS_ANSI_QUOTES
    noBackslash: bool,         // SERVER_STATUS_NO_BACKSLASH_ESCAPES
    binaryMode: bool,          // real_binary_mode
    spaces: set<char>,         // the characters my_isspace accepts in the current character set
    mbLen: string -> nat)      // my_ismbchar, given the rest of the line
  {
    predicate IsSpace(c: char) { c in spaces && c != NUL }

    /** Length of the multi-byte character that starts `rest`, 0 if there is none. */
    function MbLen(rest: string): (n: nat)
      ensures n <= |rest|
    {
      var n := mbLen(rest);
      if n <= |rest| then n else 0
    }
  }

  /** Options and command tables, fixed for the whole run. */
  datatype Options = Options(
    preserveComments: bool,
    shortCommand: char -> Option<nat>,           // find_command(char), outside binary mode
    charsetCommand: nat,                         // index of \C, the only short command in binary mode
    takesParams: nat -> bool,
    longCommand: (Env, string) -> Option<nat>,   // find_command(char *)
    isDelimiterCommand: string -> bool)

  /** What the scanner hands to the rest of the client. */
  datatype Call =
    | Statement(text: string)
    | LongCommand(index: nat, text: string)
    | ShortCommand(index: nat, buffer: string, text: string)
    | UnknownCommand(c: char)

  datatype Reply = Reply(quit: bool, buffer: string, env: Env)

  /** The outside world: its answer to the last call of a history. */
  type Server = seq<Call> -> Reply

  datatype State = State(buffer: string, inString: char, mlComment: bool, env: Env, trace: seq<Call>)

  /** A scan of one line: read position, kept characters not yet flushed, and the per-line flags. */
  datatype Scan = Scan(p: nat, out: string, st: State, needSpace: bool, ssComment: bool)

  datatype Step = More(scan: Scan) | Stop(scan: Scan) | Quit(st: State)

  /** The state after a call; a nested `source` can end binary mode but nothing starts it. */
  function Called(st: State, c: Call, srv: Server): State {
    var r := srv(st.trace + [c]);
    st.(trace := st.trace + [c], buffer := r.buffer,
        env := r.env.(binaryMode := st.env.binaryMode && r.env.binaryMode))
  }

  predicate Quits(st: State, c: Call, srv: Server) {
    srv(st.trace + [c]).quit
  }

  function Flush(s: Scan): Scan {
    s.(out := "", st := s.st.(buffer := s.st.buffer + s.out))
  }

  function FindShort(o: Options, e: Env, c: char): Option<nat> {
    if e.binaryMode then if c == 'C' then Some(o.charsetCommand) else None else o.shortCommand(c)
  }

  /** Whether a backslash is an escape or command character in this state. */
  predicate BackslashActive(st: State) {
    && !st.mlComment && st.inString != '`'
    && !(st.inString == '"' && st.env.ansiQuotes)
    && !(st.inString != NUL && st.env.noBackslash)
  }

  /** A comment up to the end of the line starts at `p`; `first` tells whether the statement is still empty. */
  predicate LineCommentAt(e: Env, text: string, p: nat, first: bool) {
    || At(text, p) == '#'
    || (At(text, p) == '-' && At(text, p + 1) == '-' &&
        (e.IsSpace(At(text, p + 2)) || At(text, p + 2) == NUL || first))
  }

  predicate BlockOpenAt(text: string, p: nat) {
    At(text, p) == '/' && At(text, p + 1) == '*' &&
    !(At(text, p + 2) == '!' || (At(text, p + 2) == 'M' && At(text, p + 3) == '!'))
  }

  function MultiByte(o: Options, text: string, s: Scan, n: nat): Step
    requires s.p + n <= |text|
  {
    More(s.(p := s.p + n,
            out := if !s.st.mlComment || o.preserveComments then s.out + text[s.p..s.p + n] else s.out))
  }

  /** Where scanning resumes after a short command that takes the rest as parameters. */
  function SkipParams(text: string, e: Env, ss: bool, i: nat): (r: nat)
    ensures i <= r && (i <= |text| ==> r <= |text|)
  {
    if ss then Seek(text, i, "*/")
    else
      var q := Seek(text, i, e.delimiter);
      if At(text, q) == NUL then q else q + |e.delimiter|
  }

  function RunShort(o: Options, srv: Server, text: string, s: Scan, index: nat): Step
    requires s.p + 2 <= |text|
  {
    var f := Flush(s);
    var c := ShortCommand(index, f.st.buffer, text[s.p..StrEnd(text, s.p)]);
    var st' := Called(f.st, c, srv);
    if Quits(f.st, c, srv) then Quit(st')
    else More(f.(st := st',
                 p := if o.takesParams(index) then SkipParams(text, st'.env, s.ssComment, s.p + 2) else s.p + 2))
  }

  function Backslash(o: Options, srv: Server, text: string, s: Scan): Step
    requires s.p < |text|
  {
    var c := At(text, s.p + 1);
    var kept := s.(p := s.p + 2, out := s.out + ['\\', c]);
    if c == NUL && (!s.st.env.binaryMode || s.st.inString == NUL) then Stop(s)
    else if s.st.inString != NUL || c == 'N' then More(kept)
    else match FindShort(o, s.st.env, c)
      case Some(i) => RunShort(o, srv, text, s, i)
      case None =>
        var call := UnknownCommand(c);
        if Quits(s.st, call, srv) then Quit(s.st.(trace := s.st.trace + [call]))
        else More(kept.(st := s.st.(trace := s.st.trace + [call])))
  }

  function Dispatch(o: Options, st: State): Call {
    match o.longCommand(st.env, st.buffer)
    case Some(i) => LongCommand(i, st.buffer)
    case None => Statement(st.buffer)
  }

  /** Hands the complete statement in the buffer over and empties the buffer. */
  function Submit(o: Options, srv: Server, s: Scan): Step {
    var c := Dispatch(o, s.st);
    var st := Called(s.st, c, srv);
    if Quits(s.st, c, srv) then Quit(st) else More(s.(st := st.(buffer := "")))
  }

  /** End of the single-line comment that `--comments` attaches to the statement before it. */
  function TrailingComment(o: Options, e: Env, text: string, q: nat): (r: nat)
    ensures q <= r && (q <= |text| ==> r <= |text|)
  {
    if o.preserveComments &&
       (At(text, q) == '#' || (At(text, q) == '-' && At(text, q + 1) == '-' && e.IsSpace(At(text, q + 2))))
    then StrEnd(text, q) else q
  }

  /** A delimiter at the read position ends the statement. */
  function EndStatement(o: Options, srv: Server, text: string, s: Scan): Step
    requires PrefixAt(text, s.p, s.st.env.delimiter)
  {
    var d := s.p + |s.st.env.delimiter|;
    var q := if o.preserveComments then SpacesEnd(s.st.env.IsSpace, text, d) else d;
    EndAfter(o, srv, text, s.(p := q, out := s.out + text[d..q]))
  }

  function EndAfter(o: Options, srv: Server, text: string, s: Scan): Step
    requires s.p <= |text|
  {
    var f := Flush(s);
    var r := TrailingComment(o, s.st.env, text, s.p);
    Submit(o, srv, f.(p := r, st := f.st.(buffer := f.st.buffer + text[s.p..r])))
  }

  function LineComment(o: Options, srv: Server, text: string, s: Scan): Step
    requires s.p < |text|
  {
    var f := Flush(s);
    if !o.preserveComments then Stop(f)
    else
      var st := f.st.(buffer := f.st.buffer + text[s.p..StrEnd(text, s.p)]);
      if f.st.buffer != "" then Stop(f.(st := st))
      else
        var c := Statement(st.buffer);
        if Quits(st, c, srv) then Quit(Called(st, c, srv))
        else Stop(f.(st := Called(st, c, srv).(buffer := "")))
  }

  function BlockEdge(o: Options, s: Scan, edge: string, opening: bool): Step {
    var f := Flush(s.(out := if o.preserveComments then s.out + edge else s.out));
    More(f.(p := s.p + 2, st := f.st.(mlComment := opening), needSpace := s.needSpace || !opening))
  }

  function QuoteAfter(st: State, c: char): char {
    if c == st.inString then NUL
    else if !st.mlComment && st.inString == NUL && (c == '\'' || c == '"' || c == '`') then c
    else st.inString
  }

  function SsAfter(text: string, s: Scan): bool {
    var c := At(text, s.p);
    if s.st.inString == NUL && c == '/' && At(text, s.p + 1) == '*' && At(text, s.p + 2) == '!' then true
    else if s.st.inString == NUL && s.ssComment && c == '*' && At(text, s.p + 1) == '/' then false
    else s.ssComment
  }

  function Plain(o: Options, text: string, s: Scan): Step
    requires s.p < |text|
  {
    var c := text[s.p];
    var t := s.(p := s.p + 1, ssComment := SsAfter(text, s), st := s.st.(inString := QuoteAfter(s.st, c)));
    if s.st.mlComment && !o.preserveComments then More(t)
    else
      var gap := if s.needSpace && !s.st.env.IsSpace(c) then " " else "";
      More(t.(needSpace := false, out := s.out + gap + [c]))
  }

  /** Which branch of the loop the next character takes. */
  datatype Kind = LeadingSpace | Multi(n: nat) | Escape | StatementEnd | LineRemark | BlockOpen | BlockClose | Other

  function KindAt(o: Options, text: string, s: Scan): (k: Kind)
    requires s.p < |text|
    ensures k.Multi? ==> 0 < k.n && s.p + k.n <= |text|
  {
    var c, st := text[s.p], s.st;
    var n := st.env.MbLen(text[s.p..]);
    if !o.preserveComments && st.env.IsSpace(c) && s.out == "" && st.buffer == "" then LeadingSpace
    else if n > 0 then Multi(n)
    else if c == '\\' && BackslashActive(st) then Escape
    else if !st.mlComment && st.inString == NUL && PrefixAt(text, s.p, st.env.delimiter) then StatementEnd
    else if !st.mlComment && st.inString == NUL && LineCommentAt(st.env, text, s.p, st.buffer == "" && s.out == "")
    then LineRemark
    else if st.inString == NUL && BlockOpenAt(text, s.p) then BlockOpen
    else if st.mlComment && !s.ssComment && c == '*' && At(text, s.p + 1) == '/' then BlockClose
    else Other
  }

  /** One turn of the loop of `add_line`. */
  function StepAt(o: Options, srv: Server, text: string, s: Scan): (r: Step)
    requires s.p < |text|
    ensures r.More? ==> s.p < r.scan.p <= |text| + (if s.st.env.binaryMode then 1 else 0)
    ensures r.More? && r.scan.st.env.binaryMode ==> s.st.env.binaryMode
  {
    match KindAt(o, text, s)
    case LeadingSpace => More(s.(p := s.p + 1))
    case Multi(n) => MultiByte(o, text, s, n)
    case Escape => Backslash(o, srv, text, s)
    case StatementEnd => EndStatement(o, srv, text, s)
    case LineRemark => LineComment(o, srv, text, s)
    case BlockOpen => BlockEdge(o, s, "/*", true)
    case BlockClose => BlockEdge(o, s, "*/", false)
    case Other => Plain(o, text, s)
  }

  /** The whole loop; the result is never `More`. */
  function ScanFrom(o: Options, srv: Server, text: string, s: Scan): (r: Step)
    ensures !r.More?
    decreases |text| - s.p
  {
    if s.p >= |text| then Stop(s)
    else
      var r := StepAt(o, srv, text, s);
      if r.More? then ScanFrom(o, srv, text, r.scan) else r
  }

  /** What is left in the line goes to the buffer, with a newline unless the line was cut short. */
  function Finish(o: Options, out: string, st: State, truncated: bool): State {
    if (out == "" && st.buffer == "") || (st.mlComment && !o.preserveComments) then st
    else
      var newline := !truncated && (!o.isDelimiterCommand(out) || st.inString != NUL || st.mlComment);
      st.(buffer := st.buffer + out + (if newline then "\n" else ""))
  }

  /** `add_line` as a function; the flag is its "quit" result. */
  function AddLine(o: Options, srv: Server, text: string, truncated: bool, st: State): (State, bool) {
    if At(text, 0) == NUL && st.buffer == "" then (st, false)
    else match ScanFrom(o, srv, text, Scan(0, "", st, false, false))
      case Stop(s) => (Finish(o, s.out, s.st, truncated), false)
      case Quit(q) => (q, true)
  }

  datatype Line = Line(text: string, truncated: bool)

  datatype Ending = EndOfInput | NulInLine | Stopped

  /** The client command a line stands for, if it is to be run without going through the scanner. */
  function LineCommand(o: Options, named: bool, text: string, st: State): Option<nat> {
    if (named || st.buffer == "") && !st.mlComment && st.inString == NUL then o.longCommand(st.env, text) else None
  }

  /** The loop of `read_and_execute` in batch mode. */
  function ReadLines(o: Options, srv: Server, named: bool, lines: seq<Line>, st: State): (State, Ending) {
    if lines == [] then (st, EndOfInput)
    else
      var text := lines[0].text;
      if !st.env.binaryMode && NUL in text then (st, NulInLine)
      else
        var (st', quit) :=
          match LineCommand(o, named, text, st)
          case Some(i) => (Called(st, LongCommand(i, text), srv), Quits(st, LongCommand(i, text), srv))
          case None => AddLine(o, srv, text, lines[0].truncated, st);
        if quit then (st', Stopped) else ReadLines(o, srv, named, lines[1..], st')
  }
}
