/** C strings as sequences: reading at or past the end yields the terminating NUL. */
module CText {

  const NUL: char := '\0'

  /** `*(s + i)` for a string `s` stored with a terminating NUL. */
  function At(s: string, i: nat): char {
    if i < |s| then s[i] else NUL
  }

  predicate IsQuote(c: char) { c == '\'' || c == '"' || c == '`' }

  /** `is_prefix(s + i, t)`, for a `t` without NUL. */
  predicate PrefixAt(s: string, i: nat, t: string) {
    i + |t| <= |s| && s[i..i + |t|] == t
  }

  /** First index at or after `i` holding a NUL: `i + strlen(s + i)`. */
  function StrEnd(s: string, i: nat): (r: nat)
    ensures i <= r && (i <= |s| ==> r <= |s|) && At(s, r) == NUL
    ensures forall k :: i <= k < r ==> At(s, k) != NUL
    decreases |s| - i
  {
    if At(s, i) == NUL then i else StrEnd(s, i + 1)
  }

  /** First index at or after `i` whose character is not a space. */
  function SpacesEnd(isSpace: char -> bool, s: string, i: nat): (r: nat)
    requires !isSpace(NUL)
    ensures i <= r && (i <= |s| ==> r <= |s|) && !isSpace(At(s, r))
    ensures forall k :: i <= k < r ==> isSpace(At(s, k))
    decreases |s| - i
  {
    if isSpace(At(s, i)) then SpacesEnd(isSpace, s, i + 1) else i
  }

  /** First index at or after `i` where `t` starts or the string ends. */
  function Seek(s: string, i: nat, t: string): (r: nat)
    ensures i <= r && (i <= |s| ==> r <= |s|)
    ensures At(s, r) == NUL || PrefixAt(s, r, t)
    ensures forall k :: i <= k < r ==> At(s, k) != NUL && !PrefixAt(s, k, t)
    decreases |s| - i
  {
    if At(s, i) == NUL || PrefixAt(s, i, t) then i else Seek(s, i + 1, t)
  }
}
