/** What `get_arg` makes of a line, told from the characters of the line. */
module ArgumentLaws {
  import opened Optional
  import opened CText
  import opened Arguments

  /**
   White space up to `b`, the command up to `e`, white space up to `k`, and there the argument. A short command is a
   backslash and a letter, whatever follows it; a long one is a word.
   */
  predicate Parts(isSpace: char -> bool, s: string, b: nat, e: nat, k: nat, short: bool) {
    && b < e <= k < |s| && NUL !in s
    && (forall i :: 0 <= i < b ==> isSpace(s[i])) && !isSpace(s[b])
    && (if short then s[b] == '\\' && e == b + 2
        else s[b] != '\\' && (forall i :: b <= i < e ==> !isSpace(s[i])) && e < k)
    && (forall i :: e <= i < k ==> isSpace(s[i])) && !isSpace(s[k])
  }

  /**
   The characters `t`, up to but not including `stop`, stand for `v`. A backslash stands for the character behind it,
   except inside backticks after a long command; there and in other quotes a doubled quote `q` stands for one. After a
   short command only the backslash counts.
   */
  predicate Spells(short: bool, q: char, stop: char, t: string, v: string)
    decreases |t|
  {
    if t == "" then v == ""
    else if t[0] == '\\' && (short || q != '`') then
      |t| > 1 && v != "" && v[0] == t[1] && Spells(short, q, stop, t[2..], v[1..])
    else if t[0] == stop then
      !short && q == stop && |t| > 1 && t[1] == q && v != "" && v[0] == q && Spells(short, q, stop, t[2..], v[1..])
    else v != "" && v[0] == t[0] && Spells(short, q, stop, t[1..], v[1..])
  }

  lemma {:induction false} SpacesUpTo(isSpace: char -> bool, s: string, i: nat, k: nat)
    requires !isSpace(NUL) && i <= k < |s| && (forall j :: i <= j < k ==> isSpace(s[j])) && !isSpace(s[k])
    ensures SpacesEnd(isSpace, s, i) == k
    decreases k - i
  {
    if i < k {
      SpacesUpTo(isSpace, s, i + 1, k);
    }
  }

  lemma {:induction false} WordToEnd(isSpace: char -> bool, s: string, i: nat, e: nat)
    requires i <= e <= |s| && NUL !in s && (forall j :: i <= j < e ==> !isSpace(s[j])) && (e < |s| ==> isSpace(s[e]))
    ensures WordEnd(isSpace, s, i) == e
    decreases e - i
  {
    if i < e {
      assert s[i] in s;
      WordToEnd(isSpace, s, i + 1, e);
    }
  }

  /** The parts are what the program finds. */
  lemma PartsFound(isSpace: char -> bool, s: string, b: nat, e: nat, k: nat, short: bool)
    requires !isSpace(NUL) && Parts(isSpace, s, b, e, k, short)
    ensures Callable(isSpace, s) && IsShort(isSpace, s) == short && CommandEnd(isSpace, s) == e
    ensures ArgumentStart(isSpace, s) == if IsQuote(s[k]) then (k + 1, s[k]) else (k, NUL)
  {
    SpacesUpTo(isSpace, s, 0, b);
    if !short {
      WordToEnd(isSpace, s, b, e);
    }
    SpacesUpTo(isSpace, s, e, k);
  }

  /** What ends the argument: its quote, or a blank. */
  function StopFor(q: char): char { if q == NUL then ' ' else q }

  /** The first `n` characters spell `v`, and there the argument ends. */
  lemma {:induction false} ReadSpelled(short: bool, q: char, u: string, n: nat, v: string)
    requires (q == NUL || IsQuote(q)) && n <= |u| && Spells(short, q, StopFor(q), u[..n], v)
    requires if n == |u| then q == NUL else u[n] == StopFor(q) && (q == NUL || short || n + 1 == |u| || u[n + 1] != q)
    ensures Read(short, q, u) == (v, true)
    decreases n
  {
    if n > 0 {
      var t, stop := u[..n], StopFor(q);
      var one := !(t[0] == '\\' && (short || q != '`')) && t[0] != stop;
      var k := if one then 1 else 2;
      assert t[k..] == u[k..][..n - k] && t[0] == u[0];
      assert n < |u| ==> u[k..][n - k] == u[n] && (n + 1 < |u| ==> u[k..][n - k + 1] == u[n + 1]);
      ReadSpelled(short, q, u[k..], n - k, v[1..]);
      assert [v[0]] + v[1..] == v;
    }
  }

  /** And without an end a quoted argument is none. */
  lemma {:induction false} ReadUnclosed(short: bool, q: char, u: string, v: string)
    requires IsQuote(q) && Spells(short, q, q, u, v)
    ensures !Read(short, q, u).1
    decreases |u|
  {
    if u != "" {
      var one := !(u[0] == '\\' && (short || q != '`')) && u[0] != q;
      ReadUnclosed(short, q, u[if one then 1 else 2..], v[1..]);
    }
  }

  /** A quoted argument goes up to its closing quote, and what follows that is left alone. */
  lemma QuotedArgument(isSpace: char -> bool, s: string, b: nat, e: nat, k: nat, short: bool, end: nat, v: string)
    requires !isSpace(NUL) && Parts(isSpace, s, b, e, k, short) && IsQuote(s[k]) && k < end < |s|
    requires Spells(short, s[k], s[k], s[k + 1..end], v) && s[end] == s[k]
    requires short || end + 1 == |s| || s[end + 1] != s[k]
    ensures Argument(isSpace, s) == if v == "" then None else Some(v)
  {
    PartsFound(isSpace, s, b, e, k, short);
    var u := s[k + 1..];
    assert u[..end - k - 1] == s[k + 1..end] && u[end - k - 1] == s[end];
    assert end + 1 < |s| ==> u[end - k] == s[end + 1];
    ReadSpelled(short, s[k], u, end - k - 1, v);
  }

  /** Without a closing quote there is no argument. */
  lemma UnclosedArgument(isSpace: char -> bool, s: string, b: nat, e: nat, k: nat, short: bool, v: string)
    requires !isSpace(NUL) && Parts(isSpace, s, b, e, k, short) && IsQuote(s[k])
    requires Spells(short, s[k], s[k], s[k + 1..], v)
    ensures Argument(isSpace, s) == None
  {
    PartsFound(isSpace, s, b, e, k, short);
    ReadUnclosed(short, s[k], s[k + 1..], v);
  }

  /** An argument without quotes goes up to the first blank that is not escaped, or to the end. */
  lemma BareArgument(isSpace: char -> bool, s: string, b: nat, e: nat, k: nat, short: bool, end: nat, v: string)
    requires !isSpace(NUL) && Parts(isSpace, s, b, e, k, short) && !IsQuote(s[k]) && k < end <= |s|
    requires Spells(short, NUL, ' ', s[k..end], v) && (end < |s| ==> s[end] == ' ')
    ensures Argument(isSpace, s) == Some(v)
  {
    PartsFound(isSpace, s, b, e, k, short);
    var u := s[k..];
    assert u[..end - k] == s[k..end];
    assert end < |s| ==> u[end - k] == s[end];
    ReadSpelled(short, NUL, u, end - k, v);
  }

  /** A command with nothing behind it but white space has no argument. */
  lemma NoArgument(isSpace: char -> bool, s: string, e: nat)
    requires !isSpace(NUL) && NUL !in s && 0 < e <= |s| && (forall i :: e <= i < |s| ==> isSpace(s[i]))
    requires if s[0] == '\\' then !isSpace('\\') && e == 2 else forall i :: 0 <= i < e ==> !isSpace(s[i])
    ensures Argument(isSpace, s) == None
  {
    assert SpacesEnd(isSpace, s, 0) == 0;
    if s[0] != '\\' {
      WordToEnd(isSpace, s, 0, e);
    }
    SpacesToEnd(isSpace, s, e);
    assert s[|s|..] == "";
  }

  lemma {:induction false} SpacesToEnd(isSpace: char -> bool, s: string, i: nat)
    requires !isSpace(NUL) && i <= |s| && forall j :: i <= j < |s| ==> isSpace(s[j])
    ensures SpacesEnd(isSpace, s, i) == |s|
    decreases |s| - i
  {
    if i < |s| {
      SpacesToEnd(isSpace, s, i + 1);
    }
  }

  /** For instance, after a short command a doubled backtick ends the argument and a backslash escapes it. */
  lemma ShortInBackticks(isSpace: char -> bool)
    requires !isSpace(NUL) && isSpace(' ') && !isSpace('\\') && !isSpace('`')
    ensures Argument(isSpace, "\\u `a``b`") == Some("a") && Argument(isSpace, "\\u `a\\`b`") == Some("a`b")
  {
    var s, t := "\\u `a``b`", "\\u `a\\`b`";
    assert s[4..5] == "a" && "a"[1..] == "" && t[4..8] == "a\\`b";
    assert "a\\`b"[1..] == "\\`b" && "\\`b"[2..] == "b" && "b"[1..] == "" && "a`b"[1..] == "`b" && "`b"[1..] == "b";
    assert Spells(true, '`', '`', "b", "b");
    assert Spells(true, '`', '`', "\\`b", "`b");
    QuotedArgument(isSpace, s, 0, 2, 3, true, 5, "a");
    QuotedArgument(isSpace, t, 0, 2, 3, true, 8, "a`b");
  }
}
