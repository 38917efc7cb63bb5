/** The argument of a client command: `get_arg`, which unquotes it inside the line or only checks that it is there. */
module Arguments {
  import opened Optional
  import opened CText

  /** The text starts with a character that stands for the next one: a backslash, or the first of two quotes. */
  predicate Escaped(short: bool, q: char, t: string) {
    |t| > 1 &&
    if short then t[0] == '\\'
    else (t[0] == '\\' && q != '`') || (q != NUL && t[0] == q && t[1] == q)
  }

  predicate Ends(q: char, c: char) {
    c == if q != NUL then q else ' '
  }

  /** The argument at the start of `t`, and whether it ends properly; `q` is its quote or NUL. */
  function Read(short: bool, q: char, t: string): (string, bool) {
    if t == "" then ("", q == NUL)
    else if Escaped(short, q, t) then
      var (arg, closed) := Read(short, q, t[2..]);
      ([t[1]] + arg, closed)
    else if Ends(q, t[0]) then ("", true)
    else
      var (arg, closed) := Read(short, q, t[1..]);
      ([t[0]] + arg, closed)
  }

  /** First index at or after `i` that ends the command word. */
  function WordEnd(isSpace: char -> bool, s: string, i: nat): (r: nat)
    ensures i <= r && (i <= |s| ==> r <= |s|)
    ensures At(s, r) == NUL || isSpace(At(s, r))
    ensures forall k :: i <= k < r ==> At(s, k) != NUL && !isSpace(At(s, k))
    decreases |s| - i
  {
    if At(s, i) == NUL || isSpace(At(s, i)) then i else WordEnd(isSpace, s, i + 1)
  }

  predicate IsShort(isSpace: char -> bool, s: string)
    requires !isSpace(NUL)
  {
    At(s, SpacesEnd(isSpace, s, 0)) == '\\'
  }

  /** The line is not a backslash alone: after one, `get_arg` skips the letter of a short command. */
  predicate Callable(isSpace: char -> bool, s: string)
    requires !isSpace(NUL)
  {
    IsShort(isSpace, s) ==> SpacesEnd(isSpace, s, 0) + 1 < |s|
  }

  /** Where the command ends. */
  function CommandEnd(isSpace: char -> bool, s: string): (r: nat)
    requires !isSpace(NUL) && Callable(isSpace, s)
    ensures r <= |s|
  {
    var i := SpacesEnd(isSpace, s, 0);
    if IsShort(isSpace, s) then i + 2 else WordEnd(isSpace, s, i)
  }

  /** Where the text of the argument starts, and its quote or NUL. */
  function ArgumentStart(isSpace: char -> bool, s: string): (r: (nat, char))
    requires !isSpace(NUL) && Callable(isSpace, s)
    ensures r.0 <= |s| && (r.1 == NUL || IsQuote(r.1))
  {
    var k := SpacesEnd(isSpace, s, CommandEnd(isSpace, s));
    if IsQuote(At(s, k)) then (k + 1, s[k]) else (k, NUL)
  }

  /** The first argument of the command in line `s`, unquoted; there is none if it is empty or its quote stays open. */
  function Argument(isSpace: char -> bool, s: string): Option<string>
    requires !isSpace(NUL)
  {
    if !Callable(isSpace, s) || CommandEnd(isSpace, s) == |s| then None
    else
      var (p, q) := ArgumentStart(isSpace, s);
      var (arg, closed) := Read(IsShort(isSpace, s), q, s[p..]);
      if arg != "" && closed then Some(arg) else None
  }

  /** The array holds the C string `s` from `at` on. */
  ghost predicate Holds(a: array<char>, at: nat, s: string)
    reads a
  {
    at + |s| < a.Length && NUL !in s && a[at..at + |s|] == s && a[at + |s|] == NUL
  }

  method SkipSpaces(isSpace: char -> bool, a: array<char>, i: nat, ghost s: string) returns (r: nat)
    requires !isSpace(NUL) && Holds(a, 0, s) && i <= |s|
    ensures r == SpacesEnd(isSpace, s, i)
  {
    r := i;
    while isSpace(a[r])
      invariant i <= r <= |s| && SpacesEnd(isSpace, s, r) == SpacesEnd(isSpace, s, i)
      decreases |s| - r
    {
      assert a[r] == At(s, r);
      r := r + 1;
    }
    assert a[r] == At(s, r);
  }

  method SkipCommand(isSpace: char -> bool, a: array<char>, ghost s: string) returns (r: nat, short: bool)
    requires !isSpace(NUL) && Holds(a, 0, s) && Callable(isSpace, s)
    ensures r == CommandEnd(isSpace, s) && short == IsShort(isSpace, s)
  {
    r := SkipSpaces(isSpace, a, 0, s);
    assert a[r] == At(s, r);
    short := a[r] == '\\';
    if short {
      r := r + 2;
      return;
    }
    ghost var i := r;
    while a[r] != NUL && !isSpace(a[r])
      invariant i <= r <= |s| && WordEnd(isSpace, s, r) == WordEnd(isSpace, s, i)
      decreases |s| - r
    {
      assert a[r] == At(s, r);
      r := r + 1;
    }
    assert a[r] == At(s, r);
  }

  method FindStart(isSpace: char -> bool, a: array<char>, ghost s: string)
    returns (found: bool, p: nat, q: char, short: bool)
    requires !isSpace(NUL) && Holds(a, 0, s) && Callable(isSpace, s)
    ensures found <==> CommandEnd(isSpace, s) != |s|
    ensures found ==> (p, q) == ArgumentStart(isSpace, s) && short == IsShort(isSpace, s)
  {
    p, short := SkipCommand(isSpace, a, s);
    assert a[p] == At(s, p);
    q := NUL;
    if a[p] == NUL {
      return false, p, q, short;
    }
    p := SkipSpaces(isSpace, a, p, s);
    assert a[p] == At(s, p);
    if IsQuote(a[p]) {
      q := a[p];
      p := p + 1;
    }
    found := true;
  }

  lemma HoldsOn(a: array<char>, p: nat, t: string)
    requires Holds(a, p, t) && t != ""
    ensures a[p] == t[0] && Holds(a, p + 1, t[1..])
  {
    assert a[p] == a[p..p + |t|][0];
    assert a[p + 1..p + |t|] == a[p..p + |t|][1..];
  }

  /** The test for an escaped character, on the array that holds `t` at `p`. */
  method IsEscaped(short: bool, q: char, a: array<char>, p: nat, ghost t: string) returns (r: bool)
    requires t != "" && Holds(a, p, t)
    ensures r == Escaped(short, q, t)
  {
    HoldsOn(a, p, t);
    assert |t| > 1 ==> a[p + 1] == t[1] by {
      if |t| > 1 {
        HoldsOn(a, p + 1, t[1..]);
      }
    }
    if short {
      return a[p] == '\\' && a[p + 1] != NUL;
    }
    return (a[p] == '\\' && a[p + 1] != NUL && q != '`') || (q != NUL && a[p] == q && a[p + 1] == q);
  }

  lemma {:induction false} ReadOn(short: bool, q: char, t: string, kept: string)
    requires t != ""
    ensures Escaped(short, q, t) ==>
              kept + Read(short, q, t).0 == kept + [t[1]] + Read(short, q, t[2..]).0 &&
              Read(short, q, t).1 == Read(short, q, t[2..]).1
    ensures !Escaped(short, q, t) && !Ends(q, t[0]) ==>
              kept + Read(short, q, t).0 == kept + [t[0]] + Read(short, q, t[1..]).0 &&
              Read(short, q, t).1 == Read(short, q, t[1..]).1
    ensures !Escaped(short, q, t) && Ends(q, t[0]) ==> kept + Read(short, q, t).0 == kept && Read(short, q, t).1
  {
  }

  lemma {:induction false} ReadHasNoNul(short: bool, q: char, t: string)
    requires NUL !in t
    ensures NUL !in Read(short, q, t).0
  {
    if t != "" {
      if Escaped(short, q, t) {
        ReadHasNoNul(short, q, t[2..]);
      } else if !Ends(q, t[0]) {
        ReadHasNoNul(short, q, t[1..]);
      }
    }
  }

  /** One character of `CHECK` mode: `rest` is still to be read at `p`. */
  method CheckTurn(short: bool, q: char, a: array<char>, p: nat, ghost rest: string, ghost kept: string)
    returns (done: bool, p': nat, ghost rest': string, ghost kept': string)
    requires rest != "" && Holds(a, p, rest)
    ensures done ==> p' == p && kept + Read(short, q, rest).0 == kept && Read(short, q, rest).1
    ensures !done ==> p' > p && Holds(a, p', rest') && |rest'| < |rest| && kept' != ""
    ensures !done ==> kept' + Read(short, q, rest').0 == kept + Read(short, q, rest).0
    ensures !done ==> Read(short, q, rest').1 == Read(short, q, rest).1
  {
    ReadOn(short, q, rest, kept);
    HoldsOn(a, p, rest);
    done, p' := false, p;
    var escaped := IsEscaped(short, q, a, p, rest);
    if escaped {
      HoldsOn(a, p + 1, rest[1..]);
      assert rest[1..][1..] == rest[2..];
      kept', rest', p' := kept + [rest[1]], rest[2..], p + 2;
    } else if Ends(q, a[p]) {
      done, kept', rest' := true, kept, rest;
    } else {
      kept', rest', p' := kept + [rest[0]], rest[1..], p + 1;
    }
  }

  /** The walk of `CHECK` mode over the text `t` of the argument, which stays as it is. */
  method Check(short: bool, q: char, a: array<char>, start: nat, ghost t: string) returns (ok: bool)
    requires Holds(a, start, t)
    ensures ok <==> Read(short, q, t).0 != "" && Read(short, q, t).1
  {
    var p := start;
    ghost var rest, kept, all := t, "", Read(short, q, t);
    while a[p] != NUL
      invariant start <= p && Holds(a, p, rest) && (p != start <==> kept != "")
      invariant all.0 == kept + Read(short, q, rest).0 && all.1 == Read(short, q, rest).1
      decreases |rest|
    {
      var done, p', rest', kept' := CheckTurn(short, q, a, p, rest, kept);
      if done {
        return p != start;
      }
      p, rest, kept := p', rest', kept';
    }
    AtEnd(a, p, rest);
    return p != start && q == NUL;
  }

  lemma AtEnd(a: array<char>, p: nat, rest: string)
    requires Holds(a, p, rest) && a[p] == NUL
    ensures rest == ""
  {
    if rest != "" {
      HoldsOn(a, p, rest);
    }
  }

  lemma HoldsFrom(a: array<char>, s: string, p: nat)
    requires Holds(a, 0, s) && p <= |s|
    ensures Holds(a, p, s[p..])
  {
    assert a[p..|s|] == a[0..|s|][p..];
  }

  /** `CHECK` mode: says whether there is an argument and writes nothing. */
  method HasArgument(isSpace: char -> bool, a: array<char>, ghost s: string) returns (ok: bool)
    requires !isSpace(NUL) && Holds(a, 0, s) && Callable(isSpace, s)
    ensures ok <==> Argument(isSpace, s).Some?
  {
    var found, start, q, short := FindStart(isSpace, a, s);
    if !found {
      return false;
    }
    HoldsFrom(a, s, start);
    ok := Check(short, q, a, start, s[start..]);
  }

  /** `strmov_overlapp(ptr, ptr + 1)`: removes the character at `p` from the string of length `n` in the array. */
  method RemoveAt(a: array<char>, p: nat, ghost n: nat)
    requires p < n < a.Length && a[n] == NUL && NUL !in a[p..n]
    modifies a
    ensures forall k :: 0 <= k < p ==> a[k] == old(a[k])
    ensures forall k :: p <= k < n ==> a[k] == old(a[k + 1])
    ensures forall k :: n <= k < a.Length ==> a[k] == old(a[k])
  {
    var i := p;
    while a[i] != NUL
      invariant p <= i <= n
      invariant forall k :: 0 <= k < p ==> a[k] == old(a[k])
      invariant forall k :: p <= k < i ==> a[k] == old(a[k + 1])
      invariant forall k :: i <= k < a.Length ==> a[k] == old(a[k])
      decreases n - i
    {
      assert i < n ==> old(a[p..n])[i - p] != NUL;
      a[i] := a[i + 1];
      i := i + 1;
    }
  }

  /** Removes the escape at the head of the string `t` at `p`; the escaped character takes its place. */
  method Unescape(a: array<char>, start: nat, p: nat, ghost t: string, ghost kept: string)
    requires start <= p && Holds(a, p, t) && |t| >= 2 && a[start..p] == kept
    modifies a
    ensures Holds(a, p + 1, t[2..]) && a[start..p + 1] == kept + [t[1]]
    ensures forall k :: p + |t| <= k < a.Length ==> a[k] == old(a[k])
  {
    ghost var was, n := a[..], p + |t|;
    assert a[p..n] == t;
    assert forall k :: 0 <= k < |t| ==> was[p + k] == t[k];
    RemoveAt(a, p, n);
    assert forall k :: p <= k < n - 1 ==> a[k] == was[k + 1] == t[k - p + 1];
    assert a[n - 1] == NUL;
    assert a[p + 1..n - 1] == t[2..];
    assert a[start..p] == kept;
  }

  /** One character of `GET` mode: `kept` stands before `p`, `rest` is still to be read from there. */
  method UnquoteTurn(short: bool, q: char, a: array<char>, start: nat, p: nat, ghost rest: string, ghost kept: string)
    returns (done: bool, ghost rest': string, ghost kept': string)
    requires start <= p && rest != "" && Holds(a, p, rest) && a[start..p] == kept
    modifies a
    ensures forall k :: p + |rest| < k < a.Length ==> a[k] == old(a[k])
    ensures done ==> kept + Read(short, q, rest).0 == kept && Read(short, q, rest).1
    ensures done ==> a[p] == NUL && a[start..p] == kept
    ensures !done ==> |rest'| < |rest| && kept' + Read(short, q, rest').0 == kept + Read(short, q, rest).0
    ensures !done ==> Read(short, q, rest').1 == Read(short, q, rest).1
    ensures !done ==> Holds(a, p + 1, rest') && a[start..p + 1] == kept'
  {
    ReadOn(short, q, rest, kept);
    HoldsOn(a, p, rest);
    done := false;
    var escaped := IsEscaped(short, q, a, p, rest);
    if escaped {
      Unescape(a, start, p, rest, kept);
      kept', rest' := kept + [rest[1]], rest[2..];
    } else if Ends(q, a[p]) {
      a[p] := NUL;
      done, kept', rest' := true, kept, rest;
    } else {
      kept', rest' := kept + [rest[0]], rest[1..];
    }
  }

  /** The walk of `GET` mode over the text `t` of the argument, which is unquoted in place. */
  method Unquote(short: bool, q: char, a: array<char>, start: nat, ghost t: string) returns (ok: bool)
    requires Holds(a, start, t)
    modifies a
    ensures ok <==> Read(short, q, t).0 != "" && Read(short, q, t).1
    ensures ok ==> Holds(a, start, Read(short, q, t).0)
    ensures forall k :: start + |t| < k < a.Length ==> a[k] == old(a[k])
  {
    var p := start;
    ghost var rest, kept, all := t, "", Read(short, q, t);
    ReadHasNoNul(short, q, t);
    while a[p] != NUL
      invariant start <= p && p - start + |rest| <= |t|
      invariant Holds(a, p, rest) && a[start..p] == kept
      invariant all.0 == kept + Read(short, q, rest).0 && all.1 == Read(short, q, rest).1
      invariant forall k :: start + |t| < k < a.Length ==> a[k] == old(a[k])
      decreases |rest|
    {
      var done, rest', kept' := UnquoteTurn(short, q, a, start, p, rest, kept);
      if done {
        assert all.0 == kept;
        return p != start;
      }
      rest, kept := rest', kept';
      p := p + 1;
    }
    AtEnd(a, p, rest);
    return p != start && q == NUL;
  }

  /** `GET` mode: unquotes the argument where it stands and ends it with a NUL. */
  method GetArgument(isSpace: char -> bool, a: array<char>, ghost s: string) returns (r: Option<nat>)
    requires !isSpace(NUL) && Holds(a, 0, s) && Callable(isSpace, s)
    modifies a
    ensures r.Some? <==> Argument(isSpace, s).Some?
    ensures r.Some? ==> Holds(a, r.value, Argument(isSpace, s).value)
    ensures forall k :: |s| < k < a.Length ==> a[k] == old(a[k])
  {
    var found, start, q, short := FindStart(isSpace, a, s);
    if !found {
      return None;
    }
    HoldsFrom(a, s, start);
    var ok := Unquote(short, q, a, start, s[start..]);
    return if ok then Some(start) else None;
  }
}
