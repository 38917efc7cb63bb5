/** Names as mysqldump writes them and as the client reads them back: `quote_name` against `get_arg`. */
module Quoting {
  import opened Sequences
  import opened CText
  import opened Arguments

  function Doubled(q: char, n: string): string {
    if n == "" then "" else (if n[0] == q then [q, q] else [n[0]]) + Doubled(q, n[1..])
  }

  function Quoted(q: char, n: string): string {
    [q] + Doubled(q, n) + [q]
  }

  lemma {:induction false} DoubledLength(q: char, n: string)
    ensures |n| <= |Doubled(q, n)| <= 2 * |n|
    ensures forall c :: c in Doubled(q, n) <==> c in n
  {
    if n != "" {
      DoubledLength(q, n[1..]);
      assert n == [n[0]] + n[1..];
    }
  }

  lemma {:induction false} DoubledConcat(q: char, a: string, b: string)
    ensures Doubled(q, a + b) == Doubled(q, a) + Doubled(q, b)
  {
    if a == "" {
      assert a + b == b;
    } else {
      DoubledConcat(q, a[1..], b);
      assert (a + b)[1..] == a[1..] + b;
      Associate(if a[0] == q then [q, q] else [a[0]], Doubled(q, a[1..]), Doubled(q, b));
    }
  }

  lemma {:induction false} DoubledPlain(q: char, n: string)
    requires forall i :: 0 <= i < |n| ==> n[i] != q
    ensures Doubled(q, n) == n
  {
    if n != "" {
      DoubledPlain(q, n[1..]);
    }
  }

  /** Writes one character, twice if it is the quote. */
  method WriteDoubled(q: char, c: char, buff: array<char>, w: nat) returns (w': nat)
    requires w + 2 <= buff.Length
    modifies buff
    ensures w < w' <= w + 2 && buff[..w'] == old(buff[..w]) + (if c == q then [q, q] else [c])
  {
    w' := w;
    if c == q {
      buff[w'] := q;
      w' := w' + 1;
    }
    buff[w'] := c;
    w' := w' + 1;
  }

  lemma DoubledOn(q: char, n: string, i: nat, done: string)
    requires i < |n|
    ensures done + Doubled(q, n[i..]) == done + (if n[i] == q then [q, q] else [n[i]]) + Doubled(q, n[i + 1..])
  {
    assert n[i..][1..] == n[i + 1..];
  }

  /** Only letters, digits and the like, which `my_isvar` accepts, and dollar signs. */
  predicate PlainName(isVar: char -> bool, name: string) {
    forall i :: 0 <= i < |name| ==> isVar(name[i]) || name[i] == '$'
  }

  /** For instance, a dollar sign needs no quotes, and a dash, which is no letter, does. */
  lemma DollarIsPlain(isVar: char -> bool)
    requires !isVar('-')
    ensures PlainName(isVar, "$") && !PlainName(isVar, "-")
  {
    assert "-"[0] == '-';
  }

  method HasSpecialChars(isVar: char -> bool, name: string) returns (special: bool)
    ensures special <==> !PlainName(isVar, name)
  {
    for i := 0 to |name|
      invariant PlainName(isVar, name[..i])
    {
      if !isVar(name[i]) && name[i] != '$' {
        return true;
      }
    }
    assert name[..|name|] == name;
    return false;
  }

  /** Returns whether the name can stay as it is; otherwise the buffer holds it with quotes. */
  method QuoteName(q: char, isVar: char -> bool, force: bool, optQuoted: bool, name: string, buff: array<char>)
    returns (bare: bool)
    requires NUL !in name && q != NUL && 2 * |name| + 3 <= buff.Length
    modifies buff
    ensures bare <==> !force && !optQuoted && PlainName(isVar, name)
    ensures if bare then buff[..] == old(buff[..]) else Holds(buff, 0, Quoted(q, name))
  {
    if !force && !optQuoted {
      var special := HasSpecialChars(isVar, name);
      if !special {
        return true;
      }
    }
    WriteQuoted(q, name, buff);
    return false;
  }

  /** Without a quote, a name free of blanks and backslashes is read back. */
  lemma {:induction false} ReadBare(n: string)
    requires ' ' !in n && '\\' !in n
    ensures Read(false, NUL, n) == (n, true)
  {
    if n != "" {
      assert n[0] in n && n == [n[0]] + n[1..];
      ReadBare(n[1..]);
    }
  }

  /** Writes the quoted name into the buffer; twice the length of the name, two quotes and a NUL are enough for it. */
  method WriteQuoted(q: char, name: string, buff: array<char>)
    requires NUL !in name && q != NUL && 2 * |name| + 3 <= buff.Length
    modifies buff
    ensures Holds(buff, 0, Quoted(q, name))
  {
    DoubledLength(q, name);
    buff[0] := q;
    var w := 1;
    for i := 0 to |name|
      invariant 1 <= w <= 2 * i + 1
      invariant buff[..w] + Doubled(q, name[i..]) == [q] + Doubled(q, name)
    {
      DoubledOn(q, name, i, buff[..w]);
      w := WriteDoubled(q, name[i], buff, w);
    }
    assert buff[..w] == [q] + Doubled(q, name);
    buff[w] := q;
    buff[w + 1] := NUL;
    assert buff[..w + 1] == buff[..w] + [q];
    assert buff[0..w + 1] == Quoted(q, name);
  }

  /** What the reader makes of a quoted name. */
  function ReadBack(q: char, n: string): (string, bool) {
    Read(false, q, Doubled(q, n) + [q])
  }

  lemma {:induction false} ReadBackPlain(q: char, n: string)
    requires IsQuote(q) && n != "" && (q == '`' || n[0] != '\\')
    ensures ReadBack(q, n) == ([n[0]] + ReadBack(q, n[1..]).0, ReadBack(q, n[1..]).1)
  {
    var t, rest := Doubled(q, n) + [q], Doubled(q, n[1..]) + [q];
    if n[0] == q {
      assert t == [q, q] + rest && t[2..] == rest;
    } else {
      assert t == [n[0]] + rest && t[1..] == rest;
    }
  }

  /** Where backslashes escape, one makes the reader take what follows: a character of the name, or a quote. */
  lemma {:induction false} ReadBackSlash(q: char, n: string)
    requires IsQuote(q) && q != '`' && n != "" && n[0] == '\\'
    ensures if |n| > 1 && n[1] != q then ReadBack(q, n) == ([n[1]] + ReadBack(q, n[2..]).0, ReadBack(q, n[2..]).1)
            else ReadBack(q, n).0 != "" && ReadBack(q, n).0[0] == q
  {
    var t := Doubled(q, n) + [q];
    assert t == ['\\'] + (Doubled(q, n[1..]) + [q]);
    if |n| > 1 && n[1] != q {
      var rest := Doubled(q, n[2..]) + [q];
      assert n[1..][1..] == n[2..];
      assert t == ['\\', n[1]] + rest && t[2..] == rest;
    } else {
      assert t[1] == q;
    }
  }

  /** Reading back what was doubled gives the name again. */
  lemma {:induction false} ReadDoubled(q: char, n: string)
    requires IsQuote(q) && (q == '`' || '\\' !in n)
    ensures ReadBack(q, n) == (n, true)
  {
    if n == "" {
      assert Doubled(q, n) + [q] == [q];
    } else {
      ReadBackPlain(q, n);
      ReadDoubled(q, n[1..]);
      assert n == [n[0]] + n[1..];
    }
  }

  /** Where backslashes escape, a name that has one is not read back; `s` is a run of backslashes lost so far. */
  lemma {:induction false} SlashesLost(q: char, s: string, n: string)
    requires IsQuote(q) && q != '`' && (forall k :: 0 <= k < |s| ==> s[k] == '\\') && '\\' in s + n
    ensures ReadBack(q, n).0 != s + n
    decreases |n|
  {
    if n == "" {
      assert Doubled(q, n) + [q] == [q];
    } else if n[0] == '\\' {
      assert (s + n)[0] == '\\';
      ReadBackSlash(q, n);
      if |n| > 1 && n[1] == '\\' {
        SlashesLost(q, s + "\\", n[2..]);
        assert (s + n)[1..] == s + "\\" + n[2..];
        assert ReadBack(q, n).0[1..] == ReadBack(q, n[2..]).0;
      }
    } else {
      ReadBackPlain(q, n);
      if s == "" {
        SlashesLost(q, s, n[1..]);
        assert ReadBack(q, n).0[1..] == ReadBack(q, n[1..]).0;
        assert (s + n)[1..] == s + n[1..];
      } else {
        assert (s + n)[0] == '\\';
      }
    }
  }

  /** Up to its closing quote, a name in backticks is always read back; in double quotes, if it has no backslash. */
  lemma QuotedIsReadBack(q: char, n: string)
    requires q == '`' || q == '"'
    ensures ReadBack(q, n) == (n, true) <==> q == '`' || '\\' !in n
  {
    if q == '`' || '\\' !in n {
      ReadDoubled(q, n);
    } else {
      SlashesLost(q, "", n);
      assert "" + n == n;
    }
  }
}
