/** What the completion table stands for: the list of words added to it, oldest first. */
module CompletionSpec {
  import opened Sequences

  /** One call of `completion_hash_update`: the key is the first `len` characters of `word`. */
  datatype Update = Update(word: string, len: nat, str: string) {
    function Key(): string { Prefix(word, len) }
  }

  function Prefix(word: string, len: nat): string {
    if len <= |word| then word[..len] else word
  }

  type Log = seq<Update>

  /** The strings recorded under a key, newest first. */
  function Lookup(log: Log, key: string): seq<string> {
    if log == [] then []
    else
      var n := |log| - 1;
      (if log[n].Key() == key then [log[n].str] else []) + Lookup(log[..n], key)
  }

  /** The word whose update created the entry for a key. */
  function FirstWord(log: Log, key: string): string
    requires Lookup(log, key) != []
  {
    var n := |log| - 1;
    if Lookup(log[..n], key) != [] then FirstWord(log[..n], key) else log[n].word
  }

  /** The updates `add_word` makes: one for each non-empty prefix, the shortest first. */
  function Prefixes(w: string, n: nat): Log
    requires n <= |w|
  {
    if n == 0 then [] else Prefixes(w, n - 1) + [Update(w, n, w)]
  }

  function LogOf(words: seq<string>): Log {
    if words == [] then []
    else
      var n := |words| - 1;
      LogOf(words[..n]) + Prefixes(words[n], |words[n]|)
  }

  /** The added words that start with `key`, newest first and with repeats. */
  function Matches(words: seq<string>, key: string): seq<string> {
    if words == [] then []
    else
      var n := |words| - 1;
      (if key <= words[n] then [words[n]] else []) + Matches(words[..n], key)
  }

  lemma LookupAfter(log: Log, u: Update, key: string)
    ensures Lookup(log + [u], key) == (if u.Key() == key then [u.str] else []) + Lookup(log, key)
    ensures Lookup(log, key) != [] ==> FirstWord(log + [u], key) == FirstWord(log, key)
    ensures Lookup(log, key) == [] && u.Key() == key ==> FirstWord(log + [u], key) == u.word
  {
    assert (log + [u])[..|log|] == log;
  }

  lemma {:induction false} LookupConcat(a: Log, b: Log, key: string)
    ensures Lookup(a + b, key) == Lookup(b, key) + Lookup(a, key)
    decreases |b|
  {
    if b == [] {
      assert a + b == a;
    } else {
      var n := |b| - 1;
      LookupConcat(a, b[..n], key);
      assert a + b == (a + b[..n]) + [b[n]] && b == b[..n] + [b[n]];
      LookupAfter(a + b[..n], b[n], key);
      LookupAfter(b[..n], b[n], key);
      var last := if b[n].Key() == key then [b[n].str] else [];
      Associate(last, Lookup(b[..n], key), Lookup(a, key));
    }
  }

  lemma {:induction false} PrefixesLookup(w: string, n: nat, key: string)
    requires n <= |w|
    ensures Lookup(Prefixes(w, n), key) == if 0 < |key| <= n && key <= w then [w] else []
    decreases n
  {
    if n > 0 {
      var log := Prefixes(w, n);
      assert log[..|log| - 1] == Prefixes(w, n - 1);
      PrefixesLookup(w, n - 1, key);
      assert key == w[..n] ==> key <= w && |key| == n;
      assert key <= w && |key| == n ==> key == w[..n];
    }
  }

  /** A non-empty key finds exactly the added words that start with it. */
  lemma {:induction false} LookupIsMatches(words: seq<string>, key: string)
    ensures Lookup(LogOf(words), key) == if key == "" then [] else Matches(words, key)
    decreases |words|
  {
    if words != [] {
      var n := |words| - 1;
      LookupIsMatches(words[..n], key);
      PrefixesLookup(words[n], |words[n]|, key);
      LookupConcat(LogOf(words[..n]), Prefixes(words[n], |words[n]|), key);
    }
  }

  /** For instance, the word added last comes first. */
  lemma {:induction false} NewestFirst()
    ensures Lookup(LogOf(["ab", "a"]), "a") == ["a", "ab"]
  {
    var words := ["ab", "a"];
    LookupIsMatches(words, "a");
    assert words[..1] == ["ab"] && ["ab"][..0] == [];
    assert Matches(["ab"], "a") == ["ab"] + [];
    assert Matches(words, "a") == ["a"] + Matches(["ab"], "a");
  }

  lemma {:induction false} MatchesElements(words: seq<string>, key: string, w: string)
    ensures w in Matches(words, key) <==> w in words && key <= w
    decreases |words|
  {
    if words != [] {
      var n := |words| - 1;
      MatchesElements(words[..n], key, w);
      assert words == words[..n] + [words[n]];
    }
  }

  /** `p` is a prefix of all of `ws`. */
  predicate Common(ws: seq<string>, p: string) {
    forall w :: w in ws ==> p <= w
  }

  lemma CommonCons(w: string, rest: seq<string>, p: string)
    ensures Common([w] + rest, p) <==> p <= w && Common(rest, p)
  {
    var all := [w] + rest;
    assert w in all && forall x :: x in all <==> x == w || x in rest;
  }

  /** Comparing counts is enough: a longer prefix keeps the count exactly when it is common to all matches. */
  lemma {:induction false} CountsTellPrefix(words: seq<string>, key: string, longer: string)
    requires key <= longer
    ensures |Matches(words, longer)| <= |Matches(words, key)|
    ensures |Matches(words, longer)| == |Matches(words, key)| <==> Common(Matches(words, key), longer)
    decreases |words|
  {
    if words != [] {
      var n := |words| - 1;
      var w, rest := words[n], Matches(words[..n], key);
      CountsTellPrefix(words[..n], key, longer);
      assert longer <= w ==> w[..|key|] == longer[..|key|] == key;
      CommonCons(w, rest, longer);
      assert [] + rest == rest;
    }
  }

  ghost predicate LongestCommon(ws: seq<string>, p: string) {
    Common(ws, p) && forall q :: Common(ws, q) ==> |q| <= |p|
  }

  lemma ShorterCommon(ws: seq<string>, q: string, n: nat)
    requires Common(ws, q) && n <= |q|
    ensures Common(ws, q[..n])
  {
    assert forall w :: w in ws ==> q <= w ==> q[..n] <= w;
  }

  lemma LongestSoFar(ws: seq<string>, s: string, n: nat)
    requires s in ws && n <= |s| && Common(ws, s[..n])
    requires n < |s| ==> !Common(ws, s[..n + 1])
    ensures LongestCommon(ws, s[..n])
  {
    forall q | Common(ws, q)
      ensures |q| <= n
    {
      assert q <= s;
      if |q| > n {
        ShorterCommon(ws, q, n + 1);
      }
    }
  }

  /** One more character of a matching word: its bucket exists, and holds no more words. */
  lemma OneMoreCharacter(words: seq<string>, key: string, s: string, n: nat)
    requires key != "" && s in Matches(words, key) && |key| <= n < |s|
    ensures Lookup(LogOf(words), s[..n + 1]) == Matches(words, s[..n + 1]) != []
    ensures |Matches(words, s[..n + 1])| <= |Matches(words, key)|
  {
    MatchesElements(words, key, s);
    MatchesElements(words, s[..n + 1], s);
    LookupIsMatches(words, s[..n + 1]);
    CountsTellPrefix(words, key, s[..n + 1]);
  }

  /** Where the count first falls along one matching word, the common prefix of all matches ends. */
  lemma LongestByCounts(words: seq<string>, key: string, s: string, n: nat)
    requires s in Matches(words, key) && |key| <= n <= |s|
    requires |Matches(words, s[..n])| == |Matches(words, key)|
    requires n < |s| ==> |Matches(words, s[..n + 1])| < |Matches(words, key)|
    ensures LongestCommon(Matches(words, key), s[..n])
  {
    MatchesElements(words, key, s);
    CountsTellPrefix(words, key, s[..n]);
    if n < |s| {
      CountsTellPrefix(words, key, s[..n + 1]);
    }
    LongestSoFar(Matches(words, key), s, n);
  }

  /** The bucket for a key was created by the oldest word that starts with it. */
  lemma {:induction false} FirstWordIsOldest(words: seq<string>, key: string)
    requires key != "" && Matches(words, key) != []
    ensures Lookup(LogOf(words), key) != []
    ensures FirstWord(LogOf(words), key) == Matches(words, key)[|Matches(words, key)| - 1]
    decreases |words|
  {
    LookupIsMatches(words, key);
    var n := |words| - 1;
    var log, w := LogOf(words[..n]), words[n];
    LookupIsMatches(words[..n], key);
    PrefixesWord(w, |w|);
    if Matches(words[..n], key) != [] {
      FirstWordIsOldest(words[..n], key);
      FirstWordThen(log, Prefixes(w, |w|), key, FirstWord(log, key));
    } else {
      FirstWordThen(log, Prefixes(w, |w|), key, w);
    }
  }

  /** The oldest word that starts with `word` is `word` itself. */
  predicate AddedFirst(words: seq<string>, word: string) {
    var m := Matches(words, word);
    m != [] && m[|m| - 1] == word
  }

  lemma FirstWordIsItself(words: seq<string>, word: string)
    ensures Lookup(LogOf(words), word) != [] && FirstWord(LogOf(words), word) == word <==>
            word != "" && AddedFirst(words, word)
  {
    LookupIsMatches(words, word);
    if word != "" && Matches(words, word) != [] {
      FirstWordIsOldest(words, word);
    }
  }

  /** A word that was added after a longer one is not found: `completion_hash_exists` is not membership. */
  lemma AddedWordNotFound()
    ensures var words := ["ab", "a"]; "a" in words && !AddedFirst(words, "a")
  {
    var words := ["ab", "a"];
    assert words[1] == "a" && words[..1] == ["ab"] && ["ab"][..0] == [];
    assert "a" <= "ab";
    assert Matches(["ab"], "a") == ["ab"] && Matches(words, "a") == ["a", "ab"];
  }

  lemma FirstWordAfter(log: Log, u: Update, key: string, x: string)
    requires if Lookup(log, key) != [] then FirstWord(log, key) == x else u.word == x
    ensures Lookup(log, key) != [] ==> Lookup(log + [u], key) != []
    ensures Lookup(log + [u], key) != [] ==> FirstWord(log + [u], key) == x
  {
    LookupAfter(log, u, key);
  }

  /** More updates do not change which word came first; if there was none, it is the word of the updates. */
  lemma {:induction false} FirstWordThen(log: Log, more: Log, key: string, x: string)
    requires if Lookup(log, key) != [] then FirstWord(log, key) == x else forall u :: u in more ==> u.word == x
    ensures Lookup(log, key) != [] ==> Lookup(log + more, key) != []
    ensures Lookup(log + more, key) != [] ==> FirstWord(log + more, key) == x
    decreases |more|
  {
    if more == [] {
      assert log + more == log;
    } else {
      var u, rest := more[0], more[1..];
      assert log + more == (log + [u]) + rest;
      FirstWordAfter(log, u, key, x);
      FirstWordThen(log + [u], rest, key, x);
    }
  }

  lemma {:induction false} PrefixesWord(w: string, n: nat)
    requires n <= |w|
    ensures forall u :: u in Prefixes(w, n) ==> u.word == w
  {
    if n > 0 {
      PrefixesWord(w, n - 1);
    }
  }

  /** The entries that are the key itself. */
  function Whole(data: seq<string>, len: nat): seq<string> {
    if data == [] then [] else (if |data[0]| == len then [data[0]] else []) + Whole(data[1..], len)
  }

  lemma CountLast(words: seq<string>, w: string)
    requires words != []
    ensures var n := |words| - 1;
            multiset(words)[w] == multiset(words[..n])[w] + if words[n] == w then 1 else 0
  {
    assert words == words[..|words| - 1] + [words[|words| - 1]];
  }

  lemma WholeHead(head: string, rest: seq<string>, key: string, w: string)
    requires key <= head
    ensures multiset(Whole([head] + rest, |key|))[w] ==
            multiset(Whole(rest, |key|))[w] + if head == key == w then 1 else 0
  {
    assert ([head] + rest)[1..] == rest;
    assert |head| == |key| ==> head == key;
  }

  /** Among the words under a key, those of the key's length are the occurrences of the key itself. */
  lemma {:induction false} WholeCounts(words: seq<string>, key: string, w: string)
    ensures multiset(Whole(Matches(words, key), |key|))[w] == if w == key then multiset(words)[key] else 0
    decreases |words|
  {
    if words != [] {
      var n := |words| - 1;
      WholeCounts(words[..n], key, w);
      CountLast(words, key);
      var rest := Matches(words[..n], key);
      if key <= words[n] {
        WholeHead(words[n], rest, key, w);
        assert Matches(words, key) == [words[n]] + rest;
      } else {
        assert Matches(words, key) == rest;
      }
    }
  }

  /** The occurrences of `key` itself among the words stored under it. */
  function Stored(log: Log, key: string): seq<string> {
    Whole(Lookup(log, key), |key|)
  }

  function Concat(parts: seq<seq<string>>, j: nat): seq<string>
    decreases |parts| - j
  {
    if j >= |parts| then [] else parts[j] + Concat(parts, j + 1)
  }

  function ConcatAll(slots: seq<seq<seq<string>>>, i: nat): seq<string>
    decreases |slots| - i
  {
    if i >= |slots| then [] else Concat(slots[i], 0) + ConcatAll(slots, i + 1)
  }

  lemma StoredCounts(words: seq<string>, key: string, w: string)
    requires key != ""
    ensures multiset(Stored(LogOf(words), key))[w] == if key == w then multiset(words)[w] else 0
  {
    LookupIsMatches(words, key);
    WholeCounts(words, key, w);
  }

  /** A chain's contribution: `n` occurrences of `w`, if it is among the rest of the keys, which are all different. */
  lemma {:induction false} ChainCounts(keys: seq<string>, parts: seq<seq<string>>, j: nat, w: string, n: nat)
    requires |parts| == |keys| && forall k :: 0 <= k < |keys| ==> multiset(parts[k])[w] == if keys[k] == w then n else 0
    requires forall k, l :: 0 <= k < l < |keys| ==> keys[k] != keys[l]
    ensures multiset(Concat(parts, j))[w] == if exists k :: j <= k < |keys| && keys[k] == w then n else 0
    decreases |keys| - j
  {
    if j < |keys| {
      ChainCounts(keys, parts, j + 1, w, n);
    }
  }
}
