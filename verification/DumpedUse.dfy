/** The line that mysqldump writes to change the database, read by the client: from `quote_name` to `com_use`. */
module DumpedUse {
  import opened Optional
  import opened CText
  import opened Arguments
  import opened Quoting
  import LineSpec
  import LineLaws
  import StatementLines
  import Commands

  /** The statement for a name that is written as `w`. */
  function Statement(w: string): string { "USE " + w }

  // ---------------------------------------------------------------- the argument

  predicate KnowsBlanks(isSpace: char -> bool) {
    !isSpace(NUL) && isSpace(' ') && forall c :: c in "USE" ==> !isSpace(c)
  }

  lemma WordOfUse(isSpace: char -> bool, s: string)
    requires KnowsBlanks(isSpace) && |s| > 4 && s[..4] == "USE " && !isSpace(s[4])
    ensures SpacesEnd(isSpace, s, 0) == 0 && s[0] == 'U' && WordEnd(isSpace, s, 0) == 3 && SpacesEnd(isSpace, s, 3) == 4
  {
    assert s[0] == s[..4][0] && s[1] == s[..4][1] && s[2] == s[..4][2] && s[3] == s[..4][3];
    assert 'U' in "USE" && 'S' in "USE" && 'E' in "USE";
    assert WordEnd(isSpace, s, 3) == 3 && WordEnd(isSpace, s, 1) == WordEnd(isSpace, s, 2);
    assert SpacesEnd(isSpace, s, 4) == 4;
  }

  /** The argument of the statement is read from the first character of the written name on. */
  lemma ArgumentOfUse(isSpace: char -> bool, w: string)
    requires KnowsBlanks(isSpace) && w != "" && !isSpace(w[0])
    ensures var (arg, closed) := if IsQuote(w[0]) then Read(false, w[0], w[1..]) else Read(false, NUL, w);
            Argument(isSpace, Statement(w)) == if arg != "" && closed then Some(arg) else None
  {
    var s := Statement(w);
    assert s[..4] == "USE " && s[4] == w[0] && s[4..] == w && s[5..] == w[1..];
    WordOfUse(isSpace, s);
  }

  /** The client finds a quoted name again exactly if it is not empty and, in double quotes, has no backslash. */
  lemma ArgumentIsName(isSpace: char -> bool, q: char, n: string)
    requires KnowsBlanks(isSpace) && (q == '`' || q == '"') && !isSpace(q)
    ensures Argument(isSpace, Statement(Quoted(q, n))) == Some(n) <==> n != "" && (q == '`' || '\\' !in n)
    ensures q == '`' || '\\' !in n ==> (Argument(isSpace, Statement(Quoted(q, n))).Some? <==> n != "")
  {
    var w := Quoted(q, n);
    assert w[0] == q && w[1..] == Doubled(q, n) + [q];
    ArgumentOfUse(isSpace, w);
    QuotedIsReadBack(q, n);
    if q != '`' && '\\' in n {
      SlashesLost(q, "", n);
      assert "" + n == n;
    }
  }

  lemma ReadsWithoutSlash()
    ensures ReadBack('"', "a\\b") == ("ab", true)
  {
    var n := "a\\b";
    assert n[1..] == "\\b" && "\\b"[2..] == "" && Doubled('"', "") + "\"" == "\"";
    assert ReadBack('"', "") == ("", true);
    ReadBackSlash('"', "\\b");
    assert ['b'] + "" == "b" && "\\b"[1] == 'b';
    ReadBackPlain('"', n);
    assert ['a'] + "b" == "ab";
  }

  /** For instance, a backslash in a name written in double quotes is lost. */
  lemma SlashInNameLost(isSpace: char -> bool)
    requires KnowsBlanks(isSpace) && !isSpace('"')
    ensures Argument(isSpace, Statement(Quoted('"', "a\\b"))) == Some("ab")
  {
    var w := Quoted('"', "a\\b");
    assert w[0] == '"' && w[1..] == Doubled('"', "a\\b") + "\"";
    ArgumentOfUse(isSpace, w);
    ReadsWithoutSlash();
  }

  /** A name that is written bare is found again. */
  lemma BareArgumentIsName(isSpace: char -> bool, isVar: char -> bool, n: string)
    requires KnowsBlanks(isSpace) && PlainName(isVar, n) && n != ""
    requires !isSpace('$') && (forall c :: isVar(c) ==> !isSpace(c) && !IsQuote(c) && c != '\\' && c != NUL)
    ensures Argument(isSpace, Statement(n)) == Some(n)
  {
    ArgumentOfUse(isSpace, n);
    ReadBare(n);
  }

  // ---------------------------------------------------------------- the name in the scanner

  predicate ClearOf(e: LineSpec.Env, bad: set<char>, t: string) {
    var n := e.MbLen(t);
    n > 0 ==> t[0] as int >= 128 && forall k :: 0 <= k < n ==> t[k] !in bad
  }

  /** Multi-byte characters do not start with a byte below 128, and have none of the bytes in `bad`. */
  ghost predicate Clear(e: LineSpec.Env, bad: set<char>) {
    forall t: string :: ClearOf(e, bad, t)
  }

  /** The bytes that have a meaning between the quotes `q`. */
  function Meaningful(e: LineSpec.Env, q: char): set<char> {
    if LineLaws.Escapes(e, q) then {q, '\\'} else {q}
  }

  /** Every backslash has a character to escape that is not the quote. */
  predicate Paired(binary: bool, q: char, n: string) {
    n == "" ||
    if n[0] == '\\' then |n| > 1 && n[1] != q && (n[1] != NUL || binary) && Paired(binary, q, n[2..])
    else Paired(binary, q, n[1..])
  }

  /** Where backslashes escape inside the quotes `q`, none takes a quote with it. */
  predicate Kept(e: LineSpec.Env, q: char, n: string) {
    LineLaws.Escapes(e, q) ==> Paired(e.binaryMode, q, n)
  }

  lemma {:induction false} PairedSkip(binary: bool, q: char, n: string, k: nat)
    requires k <= |n| && Paired(binary, q, n) && forall i :: 0 <= i < k ==> n[i] != '\\'
    ensures Paired(binary, q, n[k..])
    decreases k
  {
    if k > 0 {
      PairedSkip(binary, q, n[1..], k - 1);
      assert n[1..][k - 1..] == n[k..];
    } else {
      assert n[0..] == n;
    }
  }

  /** Between its quotes, everything is inside the string. */
  lemma {:induction false} InsideQuotes(e: LineSpec.Env, q: char, text: string, p: nat, end: nat)
    requires Clear(e, Meaningful(e, q)) && p <= end < |text| && text[end] == q && q != '\\'
    requires (forall i :: p <= i < end ==> text[i] != q) && Kept(e, q, text[p..end])
    ensures LineLaws.Inside(e, q, text, p, end)
    decreases end - p
  {
    if p < end {
      assert ClearOf(e, Meaningful(e, q), text[p..]) && text[p..][end - p] == q;
      var n, s := e.MbLen(text[p..]), text[p..end];
      if n > 0 {
        assert forall k :: 0 <= k < n ==> text[p..][k] == text[p + k];
        assert n <= end - p;
        if LineLaws.Escapes(e, q) {
          PairedSkip(e.binaryMode, q, s, n);
        }
        assert s[n..] == text[p + n..end];
        InsideQuotes(e, q, text, p + n, end);
      } else if text[p] == '\\' && LineLaws.Escapes(e, q) {
        assert s[0] == '\\' && s[1] == text[p + 1] && s[2..] == text[p + 2..end];
        InsideQuotes(e, q, text, p + 2, end);
      } else {
        assert s[0] == text[p] && s[1..] == text[p + 1..end];
        InsideQuotes(e, q, text, p + 1, end);
      }
    }
  }

  /** First quote in a name, or its length. */
  function FirstQuote(q: char, n: string): (r: nat)
    ensures r <= |n| && (r < |n| ==> n[r] == q)
    ensures forall i :: 0 <= i < r ==> n[i] != q
  {
    if n == "" || n[0] == q then 0 else FirstQuote(q, n[1..]) + 1
  }

  /** Pairs do not reach over a quote: what is before one is paired, and so is what is behind it. */
  lemma {:induction false} PairedFront(binary: bool, q: char, n: string, r: nat)
    requires Paired(binary, q, n) && r <= |n| && (r < |n| ==> n[r] == q) && q != '\\'
    ensures Paired(binary, q, n[..r])
    decreases r
  {
    if r > 0 {
      var k := if n[0] == '\\' then 2 else 1;
      assert r >= k;
      assert n[k..][..r - k] == n[..r][k..];
      assert r < |n| ==> n[k..][r - k] == q;
      PairedFront(binary, q, n[k..], r - k);
      assert n[..r][0] == n[0] && (k == 2 ==> n[..r][1] == n[1]);
    }
  }

  lemma {:induction false} PairedBack(binary: bool, q: char, n: string, r: nat)
    requires Paired(binary, q, n) && r < |n| && n[r] == q && q != '\\'
    ensures Paired(binary, q, n[r + 1..])
    decreases r
  {
    if r > 0 {
      var k := if n[0] == '\\' then 2 else 1;
      assert r >= k && n[k..][r - k] == q;
      PairedBack(binary, q, n[k..], r - k);
      assert n[k..][r - k + 1..] == n[r + 1..];
    }
  }

  lemma {:induction false} DoubledFromQuote(q: char, n: string)
    requires n != "" && n[0] == q
    ensures Doubled(q, n) == [q, q] + Doubled(q, n[1..])
  {
  }

  lemma {:induction false} DoubledSplits(q: char, n: string)
    ensures var r := FirstQuote(q, n);
            Doubled(q, n) == n[..r] + if r < |n| then [q, q] + Doubled(q, n[r + 1..]) else ""
  {
    var r := FirstQuote(q, n);
    var a, b := n[..r], n[r..];
    assert n == a + b;
    DoubledConcat(q, a, b);
    DoubledPlain(q, a);
    if r < |n| {
      DoubledFromQuote(q, b);
      assert b[1..] == n[r + 1..];
    }
  }

  /** The first literal of a quoted name. */
  function FirstPart(q: char, n: string): (a: string)
    ensures |a| == FirstQuote(q, n) + 2
  {
    [q] + n[..FirstQuote(q, n)] + [q]
  }

  /** And what follows it. */
  function RestPart(q: char, n: string): string {
    var r := FirstQuote(q, n);
    if r < |n| then Quoted(q, n[r + 1..]) else ""
  }

  /** A quoted name is a row of string literals, one more than it has quotes. */
  lemma {:induction false} QuotedSplits(q: char, n: string)
    ensures Quoted(q, n) == FirstPart(q, n) + RestPart(q, n)
  {
    DoubledSplits(q, n);
    var r := FirstQuote(q, n);
    var lit := n[..r];
    if r < |n| {
      var d := Doubled(q, n[r + 1..]);
      assert Doubled(q, n) == lit + ([q, q] + d);
      Regroup(q, lit, d);
    } else {
      assert Doubled(q, n) == lit + "";
      WholeLiteral(q, lit);
    }
  }

  lemma WholeLiteral(q: char, a: string)
    ensures [q] + (a + "") + [q] == [q] + a + [q] + ""
  {
    assert a + "" == a;
  }

  lemma Regroup(q: char, a: string, d: string)
    ensures [q] + (a + ([q, q] + d)) + [q] == [q] + a + [q] + ([q] + d + [q])
  {
  }

  lemma PrefixSplits(text: string, p: nat, a: string, b: string)
    requires PrefixAt(text, p, a + b)
    ensures PrefixAt(text, p, a) && PrefixAt(text, p + |a|, b)
  {
    var t := text[p..p + |a + b|];
    assert text[p..p + |a|] == t[..|a|] && text[p + |a|..p + |a| + |b|] == t[|a|..];
  }

  lemma LiteralOfName(e: LineSpec.Env, q: char, text: string, p: nat, a: string, end: nat)
    requires IsQuote(q) && Clear(e, Meaningful(e, q)) && PrefixAt(text, p, [q] + a + [q])
    requires (forall i :: 0 <= i < |a| ==> a[i] != q) && Kept(e, q, a)
    requires p + |a| + 1 < end <= |text|
    ensures text[p] == q && e.MbLen(text[p..]) == 0 && LineLaws.LiteralEnds(e, text, p, p + |a| + 1, end)
  {
    var k := p + |a| + 1;
    PrefixSplits(text, p, [q] + a, [q]);
    PrefixSplits(text, p, [q], a);
    assert text[p..p + 1][0] == q && text[k..k + 1][0] == q && text[p + 1..k] == a;
    assert forall i :: p + 1 <= i < k ==> text[i] == text[p + 1..k][i - p - 1];
    InsideQuotes(e, q, text, p + 1, k);
    assert ClearOf(e, Meaningful(e, q), text[k..]) && ClearOf(e, Meaningful(e, q), text[p..]);
    assert text[k..][0] == q && text[p..][0] == q;
  }

  lemma QuotedText(keep: bool, e: LineSpec.Env, text: string, p: nat, k: nat, end: nat)
    requires p < end <= |text| && IsQuote(text[p]) && e.delimiter[0] != text[p] && e.MbLen(text[p..]) == 0
    requires LineLaws.LiteralEnds(e, text, p, k, end) && LineLaws.StatementText(keep, e, text, k + 1, end, false)
    ensures LineLaws.StatementText(keep, e, text, p, end, false)
  {
  }

  lemma KeptSplits(e: LineSpec.Env, q: char, n: string)
    requires IsQuote(q) && Kept(e, q, n)
    ensures var r := FirstQuote(q, n); Kept(e, q, n[..r]) && (r < |n| ==> Kept(e, q, n[r + 1..]))
  {
    if LineLaws.Escapes(e, q) {
      var r := FirstQuote(q, n);
      PairedFront(e.binaryMode, q, n, r);
      if r < |n| {
        PairedBack(e.binaryMode, q, n, r);
      }
    }
  }

  /** A literal before the text of a statement. */
  lemma LiteralThenText(keep: bool, e: LineSpec.Env, q: char, text: string, p: nat, a: string, end: nat)
    requires IsQuote(q) && Clear(e, Meaningful(e, q)) && e.delimiter[0] != q && PrefixAt(text, p, [q] + a + [q])
    requires (forall i :: 0 <= i < |a| ==> a[i] != q) && Kept(e, q, a) && p + |a| + 2 <= end <= |text|
    requires LineLaws.StatementText(keep, e, text, p + |a| + 2, end, false)
    ensures LineLaws.StatementText(keep, e, text, p, end, false)
  {
    LiteralOfName(e, q, text, p, a, end);
    QuotedText(keep, e, text, p, p + |a| + 1, end);
  }

  lemma FirstLiteral(q: char, text: string, p: nat, n: string)
    requires PrefixAt(text, p, Quoted(q, n))
    ensures var a, b := FirstPart(q, n), RestPart(q, n);
            PrefixAt(text, p, a) && PrefixAt(text, p + |a|, b) && |Quoted(q, n)| == |a| + |b|
  {
    QuotedSplits(q, n);
    PrefixSplits(text, p, FirstPart(q, n), RestPart(q, n));
  }

  /** A quoted name is the text of a statement wherever it stands: nothing in it is a delimiter or a comment. */
  lemma {:induction false} QuotedIsText(keep: bool, e: LineSpec.Env, q: char, text: string, p: nat, n: string)
    requires IsQuote(q) && Clear(e, Meaningful(e, q)) && e.delimiter[0] != q && Kept(e, q, n)
    requires PrefixAt(text, p, Quoted(q, n))
    ensures LineLaws.StatementText(keep, e, text, p, p + |Quoted(q, n)|, false)
    decreases |n|
  {
    FirstLiteral(q, text, p, n);
    KeptSplits(e, q, n);
    var r := FirstQuote(q, n);
    if r < |n| {
      QuotedIsText(keep, e, q, text, p + r + 2, n[r + 1..]);
    }
    LiteralThenText(keep, e, q, text, p, n[..r], p + |Quoted(q, n)|);
  }

  lemma TickQuoted(c: char)
    requires c != '`'
    ensures Quoted('`', [c, '`']) == ['`', c, '`', '`', '`']
  {
    assert [c, '`'][1..] == ['`'] && ['`'][1..] == "";
    assert Doubled('`', ['`']) == ['`', '`'] + "";
  }

  /** The statement for a name of one multi-byte character that ends in a backtick. */
  predicate TickText(e: LineSpec.Env, text: string) {
    && |text| == 10 && text[0] == 'U' && text[1] == 'S' && text[2] == 'E' && text[3] == ' ' && text[4] == '`'
    && e.MbLen(text[5..]) == 2 && text[7] == '`' && text[8] == '`' && text[9] == ';'
  }

  lemma TickLiteral(keep: bool, e: LineSpec.Env, text: string)
    requires Clear(e, {}) && e.delimiter == ";" && !e.IsSpace('U') && TickText(e, text)
    ensures LineLaws.StatementText(keep, e, text, 0, 8, true)
  {
    assert ClearOf(e, {}, text[4..]) && ClearOf(e, {}, text[7..]) && text[4..][0] == '`' && text[7..][0] == '`';
    assert LineLaws.Inside(e, '`', text, 7, 7);
    assert LineLaws.StatementText(keep, e, text, 8, 8, false);
    QuotedText(keep, e, text, 4, 7, 8);
    UsePrefix(keep, e, text, 8);
  }

  /** In a character set where a multi-byte character can end in a backtick, such a name leaves the line open. */
  lemma TickInCharacter(o: LineSpec.Options, srv: LineSpec.Server, st: LineSpec.State, c: char)
    requires st.buffer == "" && st.inString == NUL && !st.mlComment && c != '`'
    requires Clear(st.env, {}) && st.env.delimiter == ";" && !st.env.IsSpace('U')
    requires st.env.MbLen([c, '`', '`', '`', ';']) == 2
    ensures var text := Statement(Quoted('`', [c, '`'])) + ";";
            LineSpec.AddLine(o, srv, text, false, st) == (st.(buffer := text + "\n", inString := '`'), false)
  {
    var e, text := st.env, Statement(Quoted('`', [c, '`'])) + ";";
    TickQuoted(c);
    assert text[5..] == [c, '`', '`', '`', ';'];
    TickLiteral(o.preserveComments, e, text);
    assert ClearOf(e, {}, text[8..]) && text[8..][0] == '`';
    assert ClearOf(e, {}, text[9..]) && text[9..][0] == ';';
    assert LineLaws.Inside(e, '`', text, 10, 10);
    StatementLines.OpenLine(o, srv, text, st, 8);
  }

  const SPECIAL: string := "'\"`\\#-/;"

  /** A bare name is the text of a statement. */
  lemma {:induction false} BareIsText(keep: bool, e: LineSpec.Env, text: string, p: nat, end: nat)
    requires Clear(e, {';'}) && e.delimiter == ";" && p <= end < |text| && text[end] == ';'
    requires forall i :: p <= i < end ==> text[i] !in SPECIAL
    ensures LineLaws.StatementText(keep, e, text, p, end, false)
    decreases end - p
  {
    if p < end {
      assert ClearOf(e, {';'}, text[p..]) && text[p..][end - p] == ';';
      var n := e.MbLen(text[p..]);
      assert n <= end - p;
      assert text[p] !in SPECIAL;
      OrdinaryChar(text[p]);
      assert !PrefixAt(text, p, ";") by { assert text[p..p + 1] == [text[p]]; }
      BareIsText(keep, e, text, LineLaws.PlainEnd(e, text, p), end);
    }
  }

  lemma OrdinaryChar(c: char)
    requires c !in SPECIAL
    ensures !IsQuote(c) && c != '\\' && c != '#' && c != '-' && c != '/' && c != ';'
  {
    assert SPECIAL[0] == '\'' && SPECIAL[1] == '"' && SPECIAL[2] == '`' && SPECIAL[3] == '\\';
    assert SPECIAL[4] == '#' && SPECIAL[5] == '-' && SPECIAL[6] == '/' && SPECIAL[7] == ';';
  }

  lemma PlainThenText(keep: bool, e: LineSpec.Env, text: string, p: nat, end: nat, first: bool)
    requires Clear(e, {}) && e.delimiter == ";" && p < end <= |text| && text[p] in "USE "
    requires (first && !keep ==> !e.IsSpace(text[p])) && LineLaws.StatementText(keep, e, text, p + 1, end, false)
    ensures LineLaws.StatementText(keep, e, text, p, end, first)
  {
    assert ClearOf(e, {}, text[p..]) && text[p..][0] == text[p];
  }

  lemma ClearOfNone(e: LineSpec.Env, bad: set<char>)
    requires Clear(e, bad)
    ensures Clear(e, {})
  {
    forall t: string ensures ClearOf(e, {}, t) {
      assert ClearOf(e, bad, t);
    }
  }

  lemma UsePrefix(keep: bool, e: LineSpec.Env, text: string, z: nat)
    requires Clear(e, {}) && e.delimiter == ";" && !e.IsSpace('U') && 4 <= z <= |text|
    requires text[0] == 'U' && text[1] == 'S' && text[2] == 'E' && text[3] == ' '
    requires LineLaws.StatementText(keep, e, text, 4, z, false)
    ensures LineLaws.StatementText(keep, e, text, 0, z, true)
  {
    PlainThenText(keep, e, text, 3, z, false);
    PlainThenText(keep, e, text, 2, z, false);
    PlainThenText(keep, e, text, 1, z, false);
    PlainThenText(keep, e, text, 0, z, true);
  }

  lemma UseIsText(keep: bool, e: LineSpec.Env, text: string, w: string)
    requires Clear(e, {}) && e.delimiter == ";" && !e.IsSpace('U') && text == Statement(w) + ";"
    requires LineLaws.StatementText(keep, e, text, 4, 4 + |w|, false)
    ensures LineLaws.StatementText(keep, e, text, 0, |Statement(w)|, true)
  {
    UsePrefix(keep, e, text, |Statement(w)|);
  }

  lemma UseEnds(o: LineSpec.Options, e: LineSpec.Env, w: string)
    requires Clear(e, {}) && e.delimiter == ";"
    ensures var text, z := Statement(w) + ";", |Statement(w)|;
            && LineLaws.DelimiterAt(e, text, z) && LineLaws.TrailerUpTo(o, e, text, z + 1, |text|)
            && text[..z] == Statement(w) && text[z + 1..] == ""
  {
    var text, z := Statement(w) + ";", |Statement(w)|;
    assert ClearOf(e, {}, text[z..]) && text[z..][0] == ';';
    assert text[z..z + 1] == ";";
    assert LineLaws.Blank(e, text, z + 1, z + 1) && LineLaws.TrailerFrom(e, text, z + 1, z + 1);
  }

  // ---------------------------------------------------------------- the command

  /** A backslash followed by a `g`. */
  predicate HasGo(s: string) {
    exists k :: 0 <= k < |s| - 1 && s[k] == '\\' && s[k + 1] == 'g'
  }

  lemma HasGoIsContains(s: string)
    ensures HasGo(s) <==> Commands.Contains(s, "\\g")
  {
    if HasGo(s) {
      var k :| 0 <= k < |s| - 1 && s[k] == '\\' && s[k + 1] == 'g';
      assert s[k..k + 2] == "\\g" && PrefixAt(s, k, "\\g");
    }
    if Commands.Contains(s, "\\g") {
      var k: nat :| k <= |s| && PrefixAt(s, k, "\\g");
      assert s[k] == s[k..k + 2][0] && s[k + 1] == s[k..k + 2][1];
    }
  }

  lemma HasGoAppend(a: string, b: string)
    requires a != "" && a[|a| - 1] != '\\'
    ensures HasGo(a + b) <==> HasGo(a) || HasGo(b)
  {
    if HasGo(b) {
      var k :| 0 <= k < |b| - 1 && b[k] == '\\' && b[k + 1] == 'g';
      assert (a + b)[|a| + k] == '\\' && (a + b)[|a| + k + 1] == 'g';
    }
    if HasGo(a) {
      var k :| 0 <= k < |a| - 1 && a[k] == '\\' && a[k + 1] == 'g';
      assert (a + b)[k] == '\\' && (a + b)[k + 1] == 'g';
    }
    if HasGo(a + b) {
      var k :| 0 <= k < |a + b| - 1 && (a + b)[k] == '\\' && (a + b)[k + 1] == 'g';
      assert k >= |a| ==> b[k - |a|] == '\\' && b[k - |a| + 1] == 'g';
      assert k + 1 < |a| ==> a[k] == '\\' && a[k + 1] == 'g';
    }
  }

  lemma HasGoOn(s: string)
    requires s != ""
    ensures HasGo(s) <==> (|s| > 1 && s[0] == '\\' && s[1] == 'g') || HasGo(s[1..])
  {
    if HasGo(s[1..]) {
      var k :| 0 <= k < |s[1..]| - 1 && s[1..][k] == '\\' && s[1..][k + 1] == 'g';
      assert s[k + 1] == '\\' && s[k + 2] == 'g';
    }
    if HasGo(s) {
      var k :| 0 <= k < |s| - 1 && s[k] == '\\' && s[k + 1] == 'g';
      assert k > 0 ==> s[1..][k - 1] == '\\' && s[1..][k] == 'g';
    }
  }

  /** Doubling the quotes neither makes nor breaks a backslash followed by a `g`. */
  lemma {:induction false} HasGoDoubled(q: char, n: string)
    requires IsQuote(q)
    ensures HasGo(Doubled(q, n) + [q]) <==> HasGo(n)
  {
    var t := Doubled(q, n) + [q];
    if n != "" {
      HasGoDoubled(q, n[1..]);
      HasGoOn(n);
      var rest := Doubled(q, n[1..]) + [q];
      if n[0] == q {
        assert t == [q, q] + rest;
        HasGoAppend([q, q], rest);
      } else {
        assert t == [n[0]] + rest && t[1..] == rest;
        HasGoOn(t);
        assert rest[0] == if |n| > 1 then n[1] else q;
      }
    }
  }

  lemma StatementHasGo(q: char, n: string)
    requires IsQuote(q)
    ensures Commands.Contains(Statement(Quoted(q, n)), "\\g") <==> Commands.Contains(n, "\\g")
  {
    HasGoIsContains(Statement(Quoted(q, n)));
    HasGoIsContains(n);
    HasGoDoubled(q, n);
    assert Statement(Quoted(q, n)) == ("USE " + [q]) + (Doubled(q, n) + [q]);
    HasGoAppend("USE " + [q], Doubled(q, n) + [q]);
  }

  lemma ContainsOne(s: string, c: char)
    ensures Commands.Contains(s, [c]) <==> c in s
  {
    if c in s {
      var k :| 0 <= k < |s| && s[k] == c;
      assert s[k..k + 1] == [c] && PrefixAt(s, k, [c]);
    }
    if Commands.Contains(s, [c]) {
      var k: nat :| k <= |s| && PrefixAt(s, k, [c]);
      assert s[k] == s[k..k + 1][0];
    }
  }

  /** The command table knows `use`, at `u`, and nothing before it by that name. */
  predicate KnowsUse(c: Commands.Setting, u: nat) {
    && c.Valid() && c.fold('U') != c.fold('d') && KnowsBlanks(c.isSpace)
    && u < |c.commands| && c.commands[u].takesParams && Commands.SameLetters(c.fold, "USE", c.commands[u].name)
    && forall k :: 0 <= k < u ==> !Commands.SameLetters(c.fold, "USE", c.commands[k].name)
  }

  /** The statement is taken for the client's own command: it has an argument, no delimiter and no `\g`. */
  predicate IsClientCommand(c: Commands.Setting, w: string)
    requires c.Valid()
  {
    && !c.binaryMode && Argument(c.isSpace, Statement(w)).Some?
    && !Commands.Contains(Statement(w), c.delimiter) && !Commands.Contains(Statement(w), "\\g")
  }

  lemma UseName(c: Commands.Setting, u: nat, w: string, tail: string)
    requires KnowsUse(c, u)
    ensures var s := Statement(w) + tail;
            && Commands.Trimmed(c.isSpace, s) == s && Commands.NameEnd(s) == 3 && s[..3] == "USE"
            && !Commands.IsDelimiterCommand(c.fold, s)
  {
    var s := Statement(w) + tail;
    assert s[0] == 'U' && s[1] == 'S' && s[2] == 'E' && s[3] == ' ';
    assert 'U' in "USE";
    assert SpacesEnd(c.isSpace, s, 0) == 0;
  }

  lemma UseHasMore(c: Commands.Setting, w: string)
    requires KnowsBlanks(c.isSpace) && w != "" && !c.isSpace(w[0]) && Commands.NameEnd(Statement(w)) == 3
    ensures Commands.HasMore(c.isSpace, Statement(w))
  {
    var s := Statement(w);
    assert s[3] == ' ' && s[4] == w[0];
    assert SpacesEnd(c.isSpace, s, 3) == SpacesEnd(c.isSpace, s, 4) == 4;
  }

  /** Which commands of the table the statement names. */
  lemma NamesUse(c: Commands.Setting, u: nat, w: string, k: nat)
    requires KnowsUse(c, u) && w != "" && !c.isSpace(w[0]) && k < |c.commands|
    ensures Commands.Names(c, c.commands[k], Statement(w)) <==>
            Commands.SameLetters(c.fold, "USE", c.commands[k].name) && c.commands[k].takesParams &&
            Argument(c.isSpace, Statement(w)).Some?
  {
    assert Statement(w) + "" == Statement(w);
    UseName(c, u, w, "");
    UseHasMore(c, w);
  }

  /** `find_command` takes the statement for `use` exactly then, and for no other command. */
  lemma FindsUse(c: Commands.Setting, u: nat, w: string, i: nat)
    requires KnowsUse(c, u) && w != "" && !c.isSpace(w[0])
    ensures Commands.Finds(c, Statement(w), i) <==> i == u && IsClientCommand(c, w)
  {
    var s := Statement(w);
    assert s + "" == s;
    UseName(c, u, w, "");
    NamesUse(c, u, w, u);
    if i < |c.commands| {
      NamesUse(c, u, w, i);
    }
    forall k | 0 <= k < u ensures !Commands.Names(c, c.commands[k], s) {
      NamesUse(c, u, w, k);
    }
  }

  lemma InStatement(q: char, n: string, x: char)
    requires x !in "USE " && x != q
    ensures x in Statement(Quoted(q, n)) <==> x in n
  {
    DoubledLength(q, n);
    assert Statement(Quoted(q, n)) == "USE " + [q] + Doubled(q, n) + [q];
  }

  /** For a quoted name and the delimiter that mysqldump writes, the name alone tells. */
  lemma QuotedCommand(c: Commands.Setting, q: char, n: string)
    requires c.Valid() && IsQuote(q) && c.delimiter == ";"
    ensures IsClientCommand(c, Quoted(q, n)) <==>
            && !c.binaryMode && Argument(c.isSpace, Statement(Quoted(q, n))).Some?
            && ';' !in n && !Commands.Contains(n, "\\g")
  {
    StatementHasGo(q, n);
    InStatement(q, n, ';');
    ContainsOne(Statement(Quoted(q, n)), ';');
    assert c.delimiter == [';'];
  }

  // ---------------------------------------------------------------- the line

  ghost predicate AgreesOn(o: LineSpec.Options, e: LineSpec.Env, c: Commands.Setting, t: string)
    requires c.Valid()
  {
    forall i: nat :: o.longCommand(e, t) == Some(i) <==> Commands.Finds(c, Commands.Trimmed(c.isSpace, t), i)
  }

  /** The scanner's table of long commands is `find_command` with this setting. */
  ghost predicate Agrees(o: LineSpec.Options, e: LineSpec.Env, c: Commands.Setting)
    requires c.Valid()
  {
    forall t: string :: NUL !in t ==> AgreesOn(o, e, c, t)
  }

  /** What the client does with the statement. */
  function UseCall(c: Commands.Setting, u: nat, w: string): LineSpec.Call
    requires c.Valid()
  {
    if IsClientCommand(c, w) then LineSpec.LongCommand(u, Statement(w)) else LineSpec.Statement(Statement(w))
  }

  lemma UseDispatched(o: LineSpec.Options, e: LineSpec.Env, c: Commands.Setting, u: nat, w: string)
    requires KnowsUse(c, u) && Agrees(o, e, c) && NUL !in w && w != "" && !c.isSpace(w[0])
    ensures LineLaws.CallFor(o, e, Statement(w)) == UseCall(c, u, w)
  {
    var s := Statement(w);
    assert NUL !in s && s + "" == s;
    UseName(c, u, w, "");
    assert AgreesOn(o, e, c, s);
    forall i: nat ensures o.longCommand(e, s) == Some(i) <==> i == u && IsClientCommand(c, w) {
      FindsUse(c, u, w, i);
    }
    var found := o.longCommand(e, s);
    assert found == Some(u) <==> IsClientCommand(c, w);
    assert found.Some? ==> found == Some(found.value);
  }

  lemma FoundIsNotLeft(o: LineSpec.Options, e: LineSpec.Env, c: Commands.Setting, s: string, i: nat)
    requires c.Valid() && AgreesOn(o, e, c, s) && Commands.Trimmed(c.isSpace, s) == s && o.longCommand(e, s) == Some(i)
    ensures !Commands.LeftToScanner(c, s)
  {
    assert Commands.Finds(c, s, i);
  }

  lemma LeftIsNone(o: LineSpec.Options, e: LineSpec.Env, c: Commands.Setting, s: string)
    requires c.Valid() && AgreesOn(o, e, c, s) && Commands.Trimmed(c.isSpace, s) == s && Commands.LeftToScanner(c, s)
    ensures o.longCommand(e, s) == None
  {
    match o.longCommand(e, s)
    case None =>
    case Some(i) => FoundIsNotLeft(o, e, c, s, i);
  }

  /** The whole line, with its delimiter, is left to the scanner. */
  lemma UseLineScanned(o: LineSpec.Options, e: LineSpec.Env, c: Commands.Setting, u: nat, w: string)
    requires KnowsUse(c, u) && c.delimiter == ";" && Agrees(o, e, c) && NUL !in w
    ensures o.longCommand(e, Statement(w) + ";") == None
  {
    var s := Statement(w) + ";";
    assert NUL !in s && ';' in s;
    UseName(c, u, w, ";");
    ContainsOne(s, ';');
    assert c.delimiter == [';'];
    assert AgreesOn(o, e, c, s);
    LeftIsNone(o, e, c, s);
  }

  /** A client that is between statements and reads with the setting `c`, where `use` is command `u`. */
  ghost predicate Waiting(o: LineSpec.Options, st: LineSpec.State, c: Commands.Setting, u: nat) {
    && st.buffer == "" && st.inString == NUL && !st.mlComment && st.env.delimiter == ";" && !st.env.IsSpace('U')
    && KnowsUse(c, u) && c.delimiter == ";" && Agrees(o, st.env, c)
  }

  /** One call for the statement, and the session that it leaves. */
  ghost predicate ReadAsOne(o: LineSpec.Options, srv: LineSpec.Server, named: bool, st: LineSpec.State, w: string,
                            call: LineSpec.Call) {
    && LineLaws.CallFor(o, st.env, Statement(w)) == call
    && LineSpec.ReadLines(o, srv, named, [LineSpec.Line(Statement(w) + ";", false)], st) ==
       if srv(st.trace + [call]).quit then (LineLaws.QuitWith(o, srv, st, Statement(w)), LineSpec.Stopped)
       else (LineLaws.Resumed(o, srv, st, Statement(w)), LineSpec.EndOfInput)
  }

  lemma LineAlone(o: LineSpec.Options, srv: LineSpec.Server, named: bool, text: string, st: LineSpec.State)
    requires NUL !in text && o.longCommand(st.env, text) == None
    ensures var (st', quit) := LineSpec.AddLine(o, srv, text, false, st);
            LineSpec.ReadLines(o, srv, named, [LineSpec.Line(text, false)], st) ==
            (st', if quit then LineSpec.Stopped else LineSpec.EndOfInput)
  {
    assert [LineSpec.Line(text, false)][1..] == [];
  }

  lemma UseLineAdded(o: LineSpec.Options, srv: LineSpec.Server, st: LineSpec.State, w: string)
    requires st.buffer == "" && st.inString == NUL && !st.mlComment && st.env.delimiter == ";" && !st.env.IsSpace('U')
    requires Clear(st.env, {})
    requires LineLaws.StatementText(o.preserveComments, st.env, Statement(w) + ";", 4, 4 + |w|, false)
    ensures LineSpec.AddLine(o, srv, Statement(w) + ";", false, st) ==
            if LineLaws.CallQuits(o, srv, st, Statement(w)) then (LineLaws.QuitWith(o, srv, st, Statement(w)), true)
            else (LineLaws.Resumed(o, srv, st, Statement(w)), false)
  {
    var s := Statement(w);
    UseIsText(o.preserveComments, st.env, s + ";", w);
    UseEnds(o, st.env, w);
    assert (s + ";")[0] == 'U';
    LineOfStatement(o, srv, st, s + ";", s);
  }

  lemma LineOfStatement(o: LineSpec.Options, srv: LineSpec.Server, st: LineSpec.State, text: string, s: string)
    requires st.buffer == "" && st.inString == NUL && !st.mlComment && st.env.delimiter == ";"
    requires 0 < |s| < |text| && text[..|s|] == s && text[|s| + 1..] == "" && text[0] != NUL
    requires LineLaws.DelimiterAt(st.env, text, |s|) && LineLaws.TrailerUpTo(o, st.env, text, |s| + 1, |text|)
    requires LineLaws.StatementText(o.preserveComments, st.env, text, 0, |s|, true)
    ensures LineSpec.AddLine(o, srv, text, false, st) ==
            if LineLaws.CallQuits(o, srv, st, s) then (LineLaws.QuitWith(o, srv, st, s), true)
            else (LineLaws.Resumed(o, srv, st, s), false)
  {
    assert s + "" == s;
    StatementLines.StatementLine(o, srv, text, false, st, |s|);
  }

  /**
   The line `USE name;` of a dump, with the name written in any way that the scanner takes for text, causes one call:
   the client's own `use`, or the statement itself for the server. The client goes on with the session that the call
   leaves, or quits with it.
   */
  lemma UseLineRead(o: LineSpec.Options, srv: LineSpec.Server, named: bool, st: LineSpec.State,
                    c: Commands.Setting, u: nat, w: string)
    requires Waiting(o, st, c, u) && NUL !in w && w != "" && !c.isSpace(w[0]) && Clear(st.env, {})
    requires LineLaws.StatementText(o.preserveComments, st.env, Statement(w) + ";", 4, 4 + |w|, false)
    ensures ReadAsOne(o, srv, named, st, w, UseCall(c, u, w))
  {
    var s := Statement(w);
    var text := s + ";";
    UseDispatched(o, st.env, c, u, w);
    UseLineScanned(o, st.env, c, u, w);
    UseLineAdded(o, srv, st, w);
    assert NUL !in text;
    LineAlone(o, srv, named, text, st);
  }

  /**
   With a quoted name, `use` gets the name exactly if it is not empty and, in double quotes, has no backslash; it is
   not called at all if the name holds the delimiter or `\g`, or in binary mode.
   */
  lemma QuotedUseRead(o: LineSpec.Options, srv: LineSpec.Server, named: bool, st: LineSpec.State,
                      c: Commands.Setting, u: nat, q: char, n: string)
    requires Waiting(o, st, c, u) && (q == '`' || q == '"') && !c.isSpace(q) && NUL !in n
    requires Clear(st.env, Meaningful(st.env, q)) && Kept(st.env, q, n)
    ensures ReadAsOne(o, srv, named, st, Quoted(q, n), UseCall(c, u, Quoted(q, n)))
    ensures UseCall(c, u, Quoted(q, n)).LongCommand? <==>
            && !c.binaryMode && Argument(c.isSpace, Statement(Quoted(q, n))).Some?
            && ';' !in n && !Commands.Contains(n, "\\g")
    ensures Argument(c.isSpace, Statement(Quoted(q, n))) == Some(n) <==> n != "" && (q == '`' || '\\' !in n)
  {
    var w := Quoted(q, n);
    var text := Statement(w) + ";";
    DoubledLength(q, n);
    assert NUL !in w && w[0] == q;
    assert text[4..4 + |w|] == w;
    QuotedIsText(o.preserveComments, st.env, q, text, 4, n);
    ClearOfNone(st.env, Meaningful(st.env, q));
    UseLineRead(o, srv, named, st, c, u, w);
    QuotedCommand(c, q, n);
    ArgumentIsName(c.isSpace, q, n);
  }

  /** A name that is written bare reaches `use`, but for binary mode. */
  lemma BareUseRead(o: LineSpec.Options, srv: LineSpec.Server, named: bool, st: LineSpec.State,
                    c: Commands.Setting, u: nat, isVar: char -> bool, n: string)
    requires Waiting(o, st, c, u) && Clear(st.env, {';'}) && PlainName(isVar, n) && n != ""
    requires !c.isSpace('$') && (forall x :: isVar(x) ==> !c.isSpace(x) && x !in SPECIAL && x != NUL)
    ensures ReadAsOne(o, srv, named, st, n, UseCall(c, u, n))
    ensures UseCall(c, u, n).LongCommand? <==> !c.binaryMode
    ensures Argument(c.isSpace, Statement(n)) == Some(n)
  {
    var text := Statement(n) + ";";
    assert forall i :: 4 <= i < 4 + |n| ==> text[i] == n[i - 4];
    BareIsText(o.preserveComments, st.env, text, 4, 4 + |n|);
    ClearOfNone(st.env, {';'});
    BareChars(isVar, n);
    UseLineRead(o, srv, named, st, c, u, n);
    BareArgumentIsName(c.isSpace, isVar, n);
    HasGoIsContains(Statement(n));
    ContainsOne(Statement(n), ';');
    assert c.delimiter == [';'];
  }

  lemma BareChars(isVar: char -> bool, n: string)
    requires PlainName(isVar, n) && (forall x :: isVar(x) ==> x !in SPECIAL && x != NUL)
    ensures NUL !in n && ';' !in Statement(n) && !HasGo(Statement(n))
    ensures forall x :: isVar(x) ==> !IsQuote(x) && x != '\\'
  {
    forall x | isVar(x) ensures !IsQuote(x) && x != '\\' && x != ';' {
      OrdinaryChar(x);
    }
    var s := Statement(n);
    assert forall i :: 4 <= i < |s| ==> s[i] == n[i - 4];
    assert s[0] == 'U' && s[1] == 'S' && s[2] == 'E' && s[3] == ' ';
  }
}
