/** The `field_escape` of mysqldump and of mysqlimport: the user's text made into an SQL string literal. */
module FieldEscape {
  import opened Optional
  import opened CText

  /** What a character adds, after an odd number of backslashes or not. */
  function Unit(c: char, odd: bool): string {
    if c == '\'' && !odd then "''" else [c]
  }

  function OddAfter(c: char, odd: bool): bool {
    c == '\\' && !odd
  }

  /** What both write for the text `x`, `odd` telling whether an odd number of backslashes stands before it. */
  function Escape(x: string, odd: bool): string {
    if x == "" then (if odd then "\\" else "")
    else Unit(x[0], odd) + Escape(x[1..], OddAfter(x[0], odd))
  }

  lemma EscapeOn(x: string, i: nat, odd: bool, done: string)
    requires i < |x|
    ensures done + Escape(x[i..], odd) == done + Unit(x[i], odd) + Escape(x[i + 1..], OddAfter(x[i], odd))
  {
    assert x[i..][1..] == x[i + 1..];
  }

  /** mysqldump appends to a string that grows, and writes the quotes itself. */
  method DumpFieldEscape(x: string) returns (out: string)
    requires NUL !in x
    ensures out == "'" + Escape(x, false) + "'"
  {
    out := "'";
    var odd := false;
    for i := 0 to |x|
      invariant out + Escape(x[i..], odd) == "'" + Escape(x, false)
    {
      EscapeOn(x, i, odd, out);
      ghost var was := out + Unit(x[i], odd);
      out := out + [x[i]];
      if x[i] == '\\' {
        odd := !odd;
      } else {
        if x[i] == '\'' && !odd {
          out := out + "\'";
        }
        odd := false;
      }
      assert out == was;
    }
    if odd {
      out := out + "\\";
    }
    out := out + "'";
  }

  /** mysqlimport writes into a buffer from `w` on and returns where it stopped; its text has a length of its own. */
  method ImportFieldEscape(a: array<char>, w: nat, x: string) returns (r: nat)
    requires w + 2 * |x| <= a.Length
    modifies a
    ensures w <= r <= a.Length && a[w..r] == Escape(x, false)
    ensures a[..w] == old(a[..w])
  {
    r := w;
    var odd := false;
    for i := 0 to |x|
      invariant w <= r <= w + 2 * i && (odd ==> r < w + 2 * i)
      invariant a[w..r] + Escape(x[i..], odd) == Escape(x, false)
      invariant a[..w] == old(a[..w])
    {
      EscapeOn(x, i, odd, a[w..r]);
      ghost var was := a[w..r] + Unit(x[i], odd);
      a[r] := x[i];
      r := r + 1;
      if x[i] == '\\' {
        odd := !odd;
      } else {
        if x[i] == '\'' && !odd {
          a[r] := x[i];
          r := r + 1;
        }
        odd := false;
      }
      assert a[w..r] == was;
    }
    if odd {
      a[r] := '\\';
      r := r + 1;
    }
  }

  function Prepend(c: char, r: Option<(string, string)>): Option<(string, string)> {
    if r.None? then None else Some(([c] + r.value.0, r.value.1))
  }

  /**
   The SQL string literal that `t` continues, just after its opening quote: a backslash stands for what `esc`
   makes of the next character, two quotes stand for one, and a single quote ends it. The result is the string
   and what follows the literal.
   */
  function ReadLiteral(esc: char -> char, t: string): Option<(string, string)> {
    if t == "" then None
    else if t[0] == '\\' then if |t| == 1 then None else Prepend(esc(t[1]), ReadLiteral(esc, t[2..]))
    else if t[0] == '\'' then
      if |t| > 1 && t[1] == '\'' then Prepend('\'', ReadLiteral(esc, t[2..])) else Some(("", t[1..]))
    else Prepend(t[0], ReadLiteral(esc, t[1..]))
  }

  /** What the user means: backslashes escape, a quote is a quote, and a last lone backslash is a backslash. */
  function Meaning(esc: char -> char, x: string): string {
    if x == "" then ""
    else if x[0] == '\\' then
      if |x| == 1 then [esc('\\')] else [esc(x[1])] + Meaning(esc, x[2..])
    else [x[0]] + Meaning(esc, x[1..])
  }

  lemma EscapedPair(x: string)
    requires |x| > 1 && x[0] == '\\'
    ensures Escape(x, false) == [x[0], x[1]] + Escape(x[2..], false)
  {
    assert x[1..][1..] == x[2..];
    assert Escape(x[1..], true) == [x[1]] + Escape(x[2..], false);
  }

  lemma LoneBackslash(esc: char -> char, rest: string)
    requires rest != "" ==> rest[0] != '\''
    ensures ReadLiteral(esc, "\\\\" + "'" + rest) == Some(([esc('\\')], rest))
  {
    var t, u := "\\\\" + "'" + rest, "'" + rest;
    assert t[2..] == u && u[1..] == rest;
    assert ReadLiteral(esc, u) == Some(("", rest)) && [esc('\\')] + "" == [esc('\\')];
  }

  lemma UnitRead(esc: char -> char, c: char, u: string)
    requires c != '\\' && u != ""
    ensures ReadLiteral(esc, Unit(c, false) + u) == Prepend(c, ReadLiteral(esc, u))
  {
    var unit := Unit(c, false);
    assert (unit + u)[|unit|..] == u;
  }

  lemma PairRead(esc: char -> char, c: char, u: string)
    ensures ReadLiteral(esc, ['\\', c] + u) == Prepend(esc(c), ReadLiteral(esc, u))
  {
    assert (['\\', c] + u)[2..] == u;
  }

  /** The rest of a literal, with its closing quote and what follows. */
  function Tail(x: string, rest: string): string {
    Escape(x, false) + ("'" + rest)
  }

  lemma TailOfEmpty(esc: char -> char, rest: string)
    requires rest != "" ==> rest[0] != '\''
    ensures ReadLiteral(esc, Tail("", rest)) == Some(("", rest))
  {
    assert Tail("", rest) == "'" + rest && ("'" + rest)[1..] == rest;
  }

  lemma TailOfPair(x: string, rest: string)
    requires |x| > 1 && x[0] == '\\'
    ensures Tail(x, rest) == ['\\', x[1]] + Tail(x[2..], rest)
  {
    EscapedPair(x);
  }

  lemma TailOfUnit(x: string, rest: string)
    requires x != "" && x[0] != '\\'
    ensures Tail(x, rest) == Unit(x[0], false) + Tail(x[1..], rest)
  {
  }

  lemma {:induction false} TailIsRead(esc: char -> char, x: string, rest: string)
    requires rest != "" ==> rest[0] != '\''
    ensures ReadLiteral(esc, Tail(x, rest)) == Some((Meaning(esc, x), rest))
  {
    if x == "" {
      TailOfEmpty(esc, rest);
    } else if x == "\\" {
      assert Escape(x[1..], true) == "\\" && Tail(x, rest) == "\\\\" + "'" + rest;
      LoneBackslash(esc, rest);
    } else if x[0] == '\\' {
      TailOfPair(x, rest);
      TailIsRead(esc, x[2..], rest);
      PairRead(esc, x[1], Tail(x[2..], rest));
    } else {
      TailOfUnit(x, rest);
      TailIsRead(esc, x[1..], rest);
      UnitRead(esc, x[0], Tail(x[1..], rest));
    }
  }

  /** Whatever the user gives, the literal ends where it should, and the server reads what was meant. */
  lemma EscapedIsRead(esc: char -> char, x: string, rest: string)
    requires rest != "" ==> rest[0] != '\''
    ensures ReadLiteral(esc, Escape(x, false) + "'" + rest) == Some((Meaning(esc, x), rest))
  {
    TailIsRead(esc, x, rest);
    assert Escape(x, false) + "'" + rest == Tail(x, rest);
  }
}
