/** Recognising a line as a client command by its name: `find_command`. */
module Commands {
  import opened Optional
  import opened CText
  import opened Arguments
  import opened ArgumentLaws

  datatype Command = Command(name: string, takesParams: bool)

  /** What `find_command` looks at besides the line; `fold` maps the letters its collation takes for the same. */
  datatype Setting = Setting(
    commands: seq<Command>,
    delimiterIndex: nat,
    delimiter: string,
    binaryMode: bool,
    fold: char -> char,
    isSpace: char -> bool)
  {
    predicate Valid() {
      !isSpace(NUL) && delimiterIndex < |commands|
    }
  }

  predicate Contains(s: string, t: string) {
    exists k: nat :: k <= |s| && PrefixAt(s, k, t)
  }

  predicate SameLetters(fold: char -> char, s: string, t: string) {
    |s| == |t| && forall k :: 0 <= k < |s| ==> fold(s[k]) == fold(t[k])
  }

  const DELIMITER_NAME: string := "delimiter"

  /** `is_delimiter_command`: only the first letters are looked at. */
  predicate IsDelimiterCommand(fold: char -> char, s: string) {
    |s| >= |DELIMITER_NAME| && SameLetters(fold, s[..|DELIMITER_NAME|], DELIMITER_NAME)
  }

  /** First blank or tab, or the end. */
  function NameEnd(s: string): (r: nat)
    ensures r <= |s|
    ensures r < |s| ==> s[r] == ' ' || s[r] == '\t'
    ensures forall k :: 0 <= k < r ==> s[k] != ' ' && s[k] != '\t'
  {
    if s == "" || s[0] == ' ' || s[0] == '\t' then 0 else 1 + NameEnd(s[1..])
  }

  /** Something other than white space follows the command name. */
  predicate HasMore(isSpace: char -> bool, s: string)
    requires !isSpace(NUL)
  {
    SpacesEnd(isSpace, s, NameEnd(s)) < |s|
  }

  /** The line, without its leading white space, names command `c`. */
  predicate Names(e: Setting, c: Command, s: string)
    requires e.Valid()
  {
    && SameLetters(e.fold, s[..NameEnd(s)], c.name)
    && (HasMore(e.isSpace, s) ==> c.takesParams && Argument(e.isSpace, s).Some?)
  }

  /** The line is left to the scanner: it may hold more than one command. */
  predicate LeftToScanner(e: Setting, s: string) {
    || (!e.binaryMode && Contains(s, "\\g"))
    || (Contains(s, e.delimiter) && !IsDelimiterCommand(e.fold, s))
  }

  /** The line stands for command `i`, the first one it names; in binary mode only `delimiter` is known. */
  predicate Finds(e: Setting, s: string, i: nat)
    requires e.Valid()
  {
    && i < |e.commands| && !LeftToScanner(e, s)
    && if e.binaryMode then i == e.delimiterIndex && IsDelimiterCommand(e.fold, s[..NameEnd(s)])
       else Names(e, e.commands[i], s) && forall k :: 0 <= k < i ==> !Names(e, e.commands[k], s)
  }

  method StrStr(s: string, t: string) returns (found: bool)
    ensures found <==> Contains(s, t)
  {
    for k := 0 to |s| + 1
      invariant forall j: nat :: j < k ==> !PrefixAt(s, j, t)
    {
      if PrefixAt(s, k, t) {
        return true;
      }
    }
    return false;
  }

  method StrCont(s: string) returns (r: nat)
    ensures r == NameEnd(s)
  {
    r := 0;
    while r < |s| && s[r] != ' ' && s[r] != '\t'
      invariant r <= |s| && NameEnd(s) == r + NameEnd(s[r..])
    {
      r := r + 1;
    }
  }

  method SkipBlank(isSpace: char -> bool, s: string, i: nat) returns (r: nat)
    requires !isSpace(NUL) && i <= |s| && NUL !in s
    ensures r == SpacesEnd(isSpace, s, i)
  {
    r := i;
    while r < |s| && isSpace(s[r])
      invariant i <= r <= |s| && SpacesEnd(isSpace, s, r) == SpacesEnd(isSpace, s, i)
    {
      r := r + 1;
    }
  }

  /** The line from its first character that is not white space. */
  function Trimmed(isSpace: char -> bool, line: string): string
    requires !isSpace(NUL)
  {
    line[SpacesEnd(isSpace, line, 0)..]
  }

  method CString(s: string) returns (a: array<char>)
    requires NUL !in s
    ensures fresh(a) && Holds(a, 0, s)
  {
    a := new char[|s| + 1];
    for i := 0 to |s|
      invariant a[..i] == s[..i]
    {
      a[i] := s[i];
    }
    a[|s|] := NUL;
    assert a[0..|s|] == s;
  }

  method FitsCommand(e: Setting, c: Command, a: array<char>, s: string, more: bool) returns (fits: bool)
    requires e.Valid() && Holds(a, 0, s) && (more ==> Callable(e.isSpace, s))
    ensures fits <==> (more ==> c.takesParams && Argument(e.isSpace, s).Some?)
  {
    fits := !more;
    if more && c.takesParams {
      fits := HasArgument(e.isSpace, a, s);
    }
  }

  /** The loop over the command table. */
  method SearchTable(e: Setting, s: string) returns (r: Option<nat>)
    requires e.Valid() && NUL !in s && (s != "" ==> !e.isSpace(s[0]))
    ensures r.Some? ==> r.value < |e.commands| && Names(e, e.commands[r.value], s)
    ensures forall k :: 0 <= k < (if r.Some? then r.value else |e.commands|) ==> !Names(e, e.commands[k], s)
  {
    var len := StrCont(s);
    var end := SkipBlank(e.isSpace, s, len);
    var a := CString(s);
    for i := 0 to |e.commands|
      invariant Holds(a, 0, s)
      invariant forall k :: 0 <= k < i ==> !Names(e, e.commands[k], s)
    {
      var fits := FitsCommand(e, e.commands[i], a, s, end < |s|);
      if SameLetters(e.fold, s[..len], e.commands[i].name) && fits {
        return Some(i);
      }
    }
    return None;
  }

  /** The C string that a line starts with; in binary mode the line may go on behind its first NUL. */
  function Terminated(line: string): (s: string)
    ensures NUL !in s
  {
    var n := StrEnd(line, 0);
    assert forall k :: 0 <= k < n ==> line[k] == At(line, k);
    line[..n]
  }

  method StrLen(line: string) returns (n: nat)
    ensures n == StrEnd(line, 0) && n <= |line|
  {
    n := 0;
    while n < |line| && line[n] != NUL
      invariant n <= |line| && StrEnd(line, n) == StrEnd(line, 0)
    {
      n := n + 1;
    }
  }

  method FindCommand(e: Setting, line: string) returns (r: Option<nat>)
    requires e.Valid()
    ensures forall i: nat :: r == Some(i) <==> Finds(e, Trimmed(e.isSpace, Terminated(line)), i)
  {
    var n := StrLen(line);
    var text := line[..n];
    assert text == Terminated(line);
    var start := SkipBlank(e.isSpace, text, 0);
    var name := text[start..];
    var hasG := StrStr(name, "\\g");
    var hasDelimiter := StrStr(name, e.delimiter);
    if (!e.binaryMode && hasG) || (hasDelimiter && !IsDelimiterCommand(e.fold, name)) {
      return None;
    }
    if e.binaryMode {
      var len := StrCont(name);
      return if IsDelimiterCommand(e.fold, name[..len]) then Some(e.delimiterIndex) else None;
    }
    r := SearchTable(e, name);
    assert r.None? ==> forall i: nat :: !Finds(e, name, i);
  }

  // ---------------------------------------------------------------- which lines are commands

  /** The name of the line ends at `n`: at a blank, a tab or the end. */
  predicate NameUpTo(s: string, n: nat) {
    && n <= |s| && (forall k :: 0 <= k < n ==> s[k] != ' ' && s[k] != '\t')
    && (n < |s| ==> s[n] == ' ' || s[n] == '\t')
  }

  lemma {:induction false} NameEndIs(s: string, n: nat)
    requires NameUpTo(s, n)
    ensures NameEnd(s) == n
  {
    if n > 0 {
      NameEndIs(s[1..], n - 1);
    }
  }

  /** The line starts with the nine letters of `delimiter`, in the collation of the client. */
  predicate StartsAsDelimiter(fold: char -> char, s: string) {
    |s| >= 9 && forall k :: 0 <= k < 9 ==> fold(s[k]) == fold("delimiter"[k])
  }

  /** Nothing but white space follows the name. */
  predicate NameAlone(e: Setting, s: string, n: nat) {
    n <= |s| && forall k :: n <= k < |s| ==> e.isSpace(s[k])
  }

  /** Command `i` goes by the name of the line and takes what follows it. */
  predicate Takes(e: Setting, s: string, n: nat, i: nat)
    requires e.Valid() && n <= |s| && i < |e.commands|
  {
    && |e.commands[i].name| == n && (forall k :: 0 <= k < n ==> e.fold(s[k]) == e.fold(e.commands[i].name[k]))
    && (NameAlone(e, s, n) || (e.commands[i].takesParams && Argument(e.isSpace, s).Some?))
  }

  lemma {:induction false} MoreBehind(isSpace: char -> bool, s: string, i: nat)
    requires !isSpace(NUL) && i <= |s|
    ensures SpacesEnd(isSpace, s, i) < |s| <==> exists k :: i <= k < |s| && !isSpace(s[k])
    decreases |s| - i
  {
    if i < |s| && isSpace(s[i]) {
      MoreBehind(isSpace, s, i + 1);
    }
  }

  lemma TakesIsNames(e: Setting, s: string, n: nat, i: nat)
    requires e.Valid() && NameUpTo(s, n) && i < |e.commands|
    ensures Takes(e, s, n, i) <==> Names(e, e.commands[i], s)
  {
    NameEndIs(s, n);
    MoreBehind(e.isSpace, s, n);
  }

  /**
   Outside binary mode a line is command `i` if and only if it holds neither `\g` nor, unless it starts with the letters
   of `delimiter`, the delimiter, and `i` is the first command of its name that takes what follows.
   */
  lemma CommandIs(e: Setting, s: string, n: nat, i: nat)
    requires e.Valid() && !e.binaryMode && NameUpTo(s, n)
    ensures Finds(e, s, i) <==>
            && i < |e.commands| && !Contains(s, "\\g") && (Contains(s, e.delimiter) ==> StartsAsDelimiter(e.fold, s))
            && Takes(e, s, n, i) && forall k :: 0 <= k < i ==> !Takes(e, s, n, k)
  {
    if i < |e.commands| {
      forall k | 0 <= k <= i ensures Takes(e, s, n, k) <==> Names(e, e.commands[k], s) {
        TakesIsNames(e, s, n, k);
      }
    }
    DelimiterLetters(e.fold, s);
  }

  lemma DelimiterLetters(fold: char -> char, s: string)
    ensures IsDelimiterCommand(fold, s) <==> StartsAsDelimiter(fold, s)
  {
    if |s| >= 9 {
      assert forall k :: 0 <= k < 9 ==> s[..9][k] == s[k];
    }
  }

  /** In binary mode `delimiter` is the only command, and what follows it is not looked at. */
  lemma CommandInBinaryMode(e: Setting, s: string, n: nat, i: nat)
    requires e.Valid() && e.binaryMode && NameUpTo(s, n)
    ensures Finds(e, s, i) <==> i == e.delimiterIndex && StartsAsDelimiter(e.fold, s[..n])
  {
    NameEndIs(s, n);
    DelimiterLetters(e.fold, s[..n]);
    DelimiterLetters(e.fold, s);
    assert n >= 9 ==> forall k :: 0 <= k < 9 ==> s[..n][k] == s[k];
  }

  /** For instance, `delimiter ;;` is the command, although it holds the delimiter. */
  lemma DelimiterLineFound(e: Setting, d: nat)
    requires e.Valid() && e.delimiter == ";" && e.isSpace(' ') && (forall c :: c in "delimiter;" ==> !e.isSpace(c))
    requires d < |e.commands| && e.commands[d].name == "delimiter" && e.commands[d].takesParams
    requires forall k :: 0 <= k < d ==> |e.commands[k].name| != 9
    requires d == e.delimiterIndex
    ensures Finds(e, "delimiter ;;", d)
  {
    var s := "delimiter ;;";
    assert NameUpTo(s, 9);
    if e.binaryMode {
      assert s[..9] == "delimiter";
      CommandInBinaryMode(e, s, 9, d);
    } else {
      assert forall j :: 0 <= j < 12 ==> s[j] != '\\';
      forall k: nat | k <= |s| ensures !PrefixAt(s, k, "\\g") {
        assert k < 11 ==> s[k..k + 2][0] == s[k];
      }
      DelimiterArgument(e.isSpace);
      CommandIs(e, s, 9, d);
    }
  }

  lemma DelimiterArgument(isSpace: char -> bool)
    requires !isSpace(NUL) && isSpace(' ') && forall c :: c in "delimiter;" ==> !isSpace(c)
    ensures Argument(isSpace, "delimiter ;;") == Some(";;")
  {
    var s := "delimiter ;;";
    assert s[10..] == ";;" && ";;"[1..] == ";" && ";"[1..] == "";
    assert forall k :: 0 <= k < 9 ==> s[k] in "delimiter;";
    assert s[10] == ';' && ';' in "delimiter;";
    assert Spells(false, NUL, ' ', ";;", ";;");
    BareArgument(isSpace, s, 0, 9, 10, false, 12, ";;");
  }
}
