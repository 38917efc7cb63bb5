/** The completion table itself: an array of bucket chains, changed in place. */
module CompletionHash {
  import opened CompletionSpec

  class Bucket {
    const word: string         // arKey points into the word that created the bucket
    const len: nat             // nKeyLength
    const h: nat
    var data: seq<string>      // pData: the entries, newest first
    var count: nat
    var next: Bucket?

    constructor (word: string, len: nat, h: nat, str: string, next: Bucket?)
      ensures this.word == word && this.len == len && this.h == h
      ensures data == [str] && count == 1 && this.next == next
    {
      this.word, this.len, this.h, this.next := word, len, h, next;
      data, count := [str], 1;
    }

    function Key(): string { Prefix(word, len) }
  }

  class HashTable {
    const hash: string -> nat
    const buckets: array<Bucket?>
    ghost var chains: seq<seq<Bucket>>     // the buckets of each slot, in list order
    ghost var repr: set<Bucket>
    ghost var log: Log                     // all updates so far

    /** The list that starts in slot `i` is `chains[i]`. */
    ghost predicate Linked(i: nat)
      requires i < |chains| == buckets.Length
      reads this`chains, buckets, (set b | b in chains[i])`next
    {
      var chain := chains[i];
      && buckets[i] == NextIn(chain, 0)
      && (forall j :: 0 <= j < |chain| ==> chain[j].next == NextIn(chain, j + 1))
    }

    /** Chain `i` holds buckets of `all` that belong there, with different keys. */
    ghost predicate Placed(cs: seq<seq<Bucket>>, all: set<Bucket>, i: nat)
      requires i < |cs| == buckets.Length
    {
      var chain := cs[i];
      && (forall j :: 0 <= j < |chain| ==> chain[j] in all && chain[j].len <= |chain[j].word|)
      && (forall j :: 0 <= j < |chain| ==> chain[j].h == hash(chain[j].Key()) && chain[j].h % buckets.Length == i)
      && (forall j, k :: 0 <= j < k < |chain| ==> chain[j].Key() != chain[k].Key())
    }

    static ghost function NextIn(chain: seq<Bucket>, j: nat): Bucket? {
      if j < |chain| then chain[j] else null
    }

    ghost predicate ChainsOk()
      reads this`chains, this`repr, buckets, repr`next
    {
      && |chains| == buckets.Length > 0
      && (forall i: nat :: i < |chains| ==> Placed(chains, repr, i) && Linked(i))
    }

    /** The bucket holds exactly what updates `lg` recorded under its key. */
    ghost predicate Holds(b: Bucket, lg: Log)
      reads b`data, b`count
    {
      && b.data == Lookup(lg, b.Key()) != [] && b.count == |b.data|
      && b.word == FirstWord(lg, b.Key())
    }

    /** Bucket `b` is in the chain of its slot. */
    ghost predicate Slot(cs: seq<seq<Bucket>>, b: Bucket)
      requires |cs| == buckets.Length > 0
    {
      b in cs[b.h % buckets.Length]
    }

    /** There is a bucket for `key` in the chain where it is looked for. */
    ghost predicate Recorded(cs: seq<seq<Bucket>>, key: string)
      requires |cs| == buckets.Length > 0
    {
      exists b :: b in cs[hash(key) % buckets.Length] && b.Key() == key
    }

    /** The table's content is that of `lg`. */
    ghost predicate Content(lg: Log)
      requires |chains| == buckets.Length > 0
      reads this`chains, this`repr, repr`data, repr`count
    {
      && (forall b {:trigger Slot(chains, b)} {:trigger Holds(b, lg)} :: b in repr ==> Slot(chains, b) && Holds(b, lg))
      && (forall key {:trigger Recorded(chains, key)} :: Lookup(lg, key) != [] ==> Recorded(chains, key))
    }

    ghost predicate Valid()
      reads this, buckets, repr
    {
      ChainsOk() && Content(log) && forall u :: u in log ==> u.len > 0
    }

    constructor (size: nat, hash: string -> nat)
      requires size > 0
      ensures Valid() && log == [] && fresh(buckets) && fresh(repr) && this.hash == hash
    {
      this.hash := hash;
      buckets := new Bucket?[size](_ => null);
      chains := seq(size, _ => []);
      repr, log := {}, [];
    }

    /** The bucket for the first `len` characters of `s`, or null. */
    method Find(s: string, len: nat) returns (b: Bucket?)
      requires Valid() && len <= |s|
      ensures b == null <==> Lookup(log, s[..len]) == []
      ensures b != null ==> b in repr && b.Key() == s[..len] && Holds(b, log)
    {
      var key := s[..len];
      var h := hash(key);
      var i := h % buckets.Length;
      assert Placed(chains, repr, i) && Linked(i) && (Lookup(log, key) != [] ==> Recorded(chains, key));
      var p := buckets[i];
      ghost var j := 0;
      while p != null
        invariant 0 <= j <= |chains[i]| && p == NextIn(chains[i], j)
        invariant forall k :: 0 <= k < j ==> chains[i][k].Key() != key
        decreases |chains[i]| - j
      {
        if p.h == h && p.len == len && p.word[..p.len] == key {
          assert Holds(p, log);
          return p;
        }
        p, j := p.next, j + 1;
      }
      return null;
    }

    /** Records `str` under the first `len` characters of `word`; refuses an empty key. */
    method Update(word: string, len: nat, str: string) returns (ok: bool)
      requires Valid() && len <= |word|
      modifies this, buckets, repr
      ensures Valid() && fresh(repr - old(repr))
      ensures ok == (len > 0)
      ensures log == if ok then old(log) + [CompletionSpec.Update(word, len, str)] else old(log)
    {
      if len == 0 {
        return false;
      }
      var p := Find(word, len);
      if p != null {
        InChain(p);
        AddEntry(p, word, str);
      } else {
        AddBucket(word, len, str);
      }
      return true;
    }

    lemma InChain(b: Bucket)
      requires Valid() && b in repr
      ensures b.h == hash(b.Key()) && b in chains[b.h % buckets.Length] && b.len == |b.Key()|
    {
      var i := b.h % buckets.Length;
      assert Slot(chains, b) && Placed(chains, repr, i);
    }

    lemma DifferentKeys(a: Bucket, b: Bucket)
      requires Valid() && a in repr && b in repr && a != b
      ensures a.Key() != b.Key()
    {
      InChain(a);
      InChain(b);
      assert Placed(chains, repr, a.h % buckets.Length);
    }

    /** One more update, which changed or created bucket `p` only. */
    lemma ContentExtends(lg: Log, u: Update, p: Bucket)
      requires |chains| == buckets.Length > 0 && p in repr && Slot(chains, p) && Recorded(chains, u.Key())
      requires forall b :: b in repr && b != p ==> Slot(chains, b) && Holds(b, lg) && b.Key() != u.Key()
      requires forall key :: key != u.Key() && Lookup(lg, key) != [] ==> Recorded(chains, key)
      requires p.Key() == u.Key() && p.data == [u.str] + Lookup(lg, u.Key()) && p.count == |p.data|
      requires p.word == if Lookup(lg, u.Key()) == [] then u.word else FirstWord(lg, u.Key())
      ensures Content(lg + [u])
    {
      forall b | b in repr
        ensures Slot(chains, b) && Holds(b, lg + [u])
      {
        LookupAfter(lg, u, b.Key());
      }
      forall key | Lookup(lg + [u], key) != []
        ensures Recorded(chains, key)
      {
        LookupAfter(lg, u, key);
      }
    }

    lemma OthersHeld(p: Bucket)
      requires Valid() && p in repr
      ensures forall b :: b in repr && b != p ==> Slot(chains, b) && Holds(b, log) && b.Key() != p.Key()
    {
      forall b | b in repr && b != p
        ensures b.Key() != p.Key()
      {
        DifferentKeys(b, p);
      }
    }

    method AddEntry(p: Bucket, word: string, str: string)
      requires Valid() && p in repr && p.Key() <= word && p.len > 0
      modifies this`log, p`data, p`count
      ensures Valid() && log == old(log) + [CompletionSpec.Update(word, p.len, str)]
    {
      ghost var u := CompletionSpec.Update(word, p.len, str);
      InChain(p);
      OthersHeld(p);
      assert Holds(p, log) && Slot(chains, p) && u.Key() == p.Key() && Recorded(chains, p.Key());
      p.data := [str] + p.data;
      p.count := p.count + 1;
      log := log + [u];
      forall b | b in repr && b != p
        ensures Slot(chains, b) && Holds(b, old(log)) && b.Key() != u.Key()
      {
        assert old(Slot(chains, b) && Holds(b, log) && b.Key() != p.Key());
      }
      ContentExtends(old(log), u, p);
      assert ChainsOk() && Content(log);
    }

    lemma FrontPlaced(was: seq<seq<Bucket>>, all: set<Bucket>, p: Bucket)
      requires |was| == buckets.Length > 0 && forall i: nat :: i < |was| ==> Placed(was, all, i)
      requires p.len <= |p.word| && p.h == hash(p.Key())
      requires forall b :: b in was[p.h % buckets.Length] ==> b.Key() != p.Key()
      ensures var cs := was[p.h % buckets.Length := [p] + was[p.h % buckets.Length]];
              forall i: nat :: i < |cs| ==> Placed(cs, all + {p}, i)
    {
      var n := p.h % buckets.Length;
      var cs := was[n := [p] + was[n]];
      forall i: nat | i < |cs|
        ensures Placed(cs, all + {p}, i)
      {
        assert Placed(was, all, i);
        assert i == n ==> cs[i][1..] == was[i];
      }
    }

    /** Puts a new bucket at the front of its chain. */
    method Link(word: string, len: nat, str: string) returns (p: Bucket)
      requires ChainsOk() && len <= |word|
      requires forall b :: b in chains[hash(word[..len]) % buckets.Length] ==> b.Key() != word[..len]
      modifies this`chains, this`repr, buckets
      ensures ChainsOk() && fresh(p) && repr == old(repr) + {p} && fresh(repr - old(repr))
      ensures p.word == word && p.len == len && p.h == hash(word[..len]) && p.data == [str] && p.count == 1
      ensures chains == old(chains)[p.h % buckets.Length := [p] + old(chains)[p.h % buckets.Length]]
    {
      var h := hash(word[..len]);
      var n := h % buckets.Length;
      assert Linked(n);
      p := new Bucket(word, len, h, str, buckets[n]);
      buckets[n] := p;
      chains := chains[n := [p] + chains[n]];
      repr := repr + {p};
      FrontPlaced(old(chains), old(repr), p);
      assert forall j: nat :: NextIn(chains[n], j + 1) == NextIn(old(chains[n]), j);
      forall i: nat | i < |chains|
        ensures Linked(i)
      {
        assert old(Placed(chains, repr, i) && Linked(i));
      }
    }

    /** A bucket put in front of a chain hides none of the others. */
    lemma FrontKeeps(was: seq<seq<Bucket>>, p: Bucket)
      requires |was| == buckets.Length > 0
      requires chains == was[p.h % buckets.Length := [p] + was[p.h % buckets.Length]]
      ensures forall b :: Slot(was, b) ==> Slot(chains, b)
      ensures forall key :: Recorded(was, key) ==> Recorded(chains, key)
    {
      forall key | Recorded(was, key)
        ensures Recorded(chains, key)
      {
        var b :| b in was[hash(key) % buckets.Length] && b.Key() == key;
        assert b in chains[hash(key) % buckets.Length];
      }
    }

    method AddBucket(word: string, len: nat, str: string)
      requires Valid() && 0 < len <= |word| && Lookup(log, word[..len]) == []
      modifies this, buckets
      ensures Valid() && fresh(repr - old(repr)) && log == old(log) + [CompletionSpec.Update(word, len, str)]
    {
      ghost var u := CompletionSpec.Update(word, len, str);
      ghost var n := hash(u.Key()) % buckets.Length;
      assert forall b :: b in repr ==> b.Key() != u.Key() by {
        forall b | b in repr ensures b.Key() != u.Key() { assert Holds(b, log); }
      }
      assert Placed(chains, repr, n);
      var p := Link(word, len, str);
      FrontKeeps(old(chains), p);
      log := log + [u];
      assert p in chains[n] && p.Key() == u.Key();
      forall b | b in repr && b != p
        ensures Slot(chains, b) && Holds(b, old(log))
      {
        assert old(Slot(chains, b) && Holds(b, log));
      }
      ContentExtends(old(log), u, p);
      assert ChainsOk() && Content(log);
    }

    /** Records a word under each of its non-empty prefixes. */
    method AddWord(str: string)
      requires Valid()
      modifies this, buckets, repr
      ensures Valid() && fresh(repr - old(repr))
      ensures log == old(log) + Prefixes(str, |str|)
    {
      for i := 0 to |str|
        invariant Valid() && fresh(repr - old(repr))
        invariant log == old(log) + Prefixes(str, i)
      {
        var ok := Update(str, i + 1, str);
        assert log == old(log) + Prefixes(str, i) + [CompletionSpec.Update(str, i + 1, str)];
      }
    }

    /** Any number of words, one after the other: the table then stands for the list of them all. */
    method AddWords(ghost before: seq<string>, ws: seq<string>)
      requires Valid() && log == LogOf(before)
      modifies this, buckets, repr
      ensures Valid() && fresh(repr - old(repr)) && log == LogOf(before + ws)
    {
      assert before + ws[..0] == before;
      for i := 0 to |ws|
        invariant Valid() && fresh(repr - old(repr)) && log == LogOf(before + ws[..i])
      {
        AddWord(ws[i]);
        assert (before + ws[..i + 1])[..|before| + i] == before + ws[..i];
      }
      assert ws[..|ws|] == ws;
    }

    static ghost predicate CreatedBy(chain: seq<Bucket>, word: string) {
      exists k :: 0 <= k < |chain| && chain[k].word == word && chain[k].len == |word|
    }

    lemma CreatedByFirstWord(word: string)
      requires Valid()
      ensures CreatedBy(chains[hash(word) % buckets.Length], word) <==>
              Lookup(log, word) != [] && FirstWord(log, word) == word
    {
      var i := hash(word) % buckets.Length;
      var chain := chains[i];
      assert Placed(chains, repr, i);
      if k :| 0 <= k < |chain| && chain[k].word == word && chain[k].len == |word| {
        assert word[..|word|] == word && Holds(chain[k], log);
      }
      if Lookup(log, word) != [] {
        assert Recorded(chains, word);
        var b :| b in chain && b.Key() == word;
        assert Holds(b, log);
      }
    }

    /** True exactly when the first word added with prefix `word` was `word` itself. */
    method Exists(word: string, ghost words: seq<string>) returns (found: bool)
      requires Valid()
      ensures found <==> Lookup(log, word) != [] && FirstWord(log, word) == word
      ensures log == LogOf(words) ==> (found <==> word != "" && AddedFirst(words, word))
    {
      FirstWordIsItself(words, word);
      found := HasCreated(word);
    }

    /** The walk over the chain, which compares whole stored words. */
    method HasCreated(word: string) returns (found: bool)
      requires Valid()
      ensures found <==> Lookup(log, word) != [] && FirstWord(log, word) == word
    {
      CreatedByFirstWord(word);
      var h := hash(word);
      var i := h % buckets.Length;
      assert Placed(chains, repr, i) && Linked(i);
      var p := buckets[i];
      ghost var j := 0;
      while p != null
        invariant 0 <= j <= |chains[i]| && p == NextIn(chains[i], j)
        invariant forall k :: 0 <= k < j ==> !(chains[i][k].word == word && chains[i][k].len == |word|)
        decreases |chains[i]| - j
      {
        if p.h == h && p.len == |word| && p.word == word {
          return true;
        }
        assert word[..|word|] == word;
        p, j := p.next, j + 1;
      }
      return false;
    }

    method FindAllMatches(str: string, len: nat) returns (b: Bucket?, resLength: nat)
      requires Valid() && len <= |str|
      ensures b == null <==> Lookup(log, str[..len]) == []
      ensures b != null ==> b in repr && b.Key() == str[..len] && Holds(b, log)
      ensures resLength == if b == null then 0 else len
    {
      b := Find(str, len);
      resLength := if b == null then 0 else len;
    }

    /** The bucket one character further along a matching word, which is there. */
    method Further(key: string, s: string, n: nat, ghost words: seq<string>) returns (b: Bucket)
      requires Valid() && log == LogOf(words) && key != "" && s in Matches(words, key) && |key| <= n < |s|
      ensures b in repr && b.Key() == s[..n + 1] && b.count == |Matches(words, s[..n + 1])|
      ensures b.count <= |Matches(words, key)|
    {
      OneMoreCharacter(words, key, s, n);
      b := Find(s, n + 1);
    }

    /** Follows one matching word for as long as its buckets hold as many words as the first one. */
    method Follow(first: Bucket, s: string, ghost words: seq<string>) returns (b: Bucket, lm: nat)
      requires Valid() && log == LogOf(words) && first in repr && first.Key() != "" && s in Matches(words, first.Key())
      requires first.count == |Matches(words, first.Key())| && first.len == |first.Key()|
      ensures b in repr && lm == |b.Key()| && LongestCommon(Matches(words, first.Key()), b.Key())
    {
      var key := first.Key();
      MatchesElements(words, key, s);
      b, lm := first, first.len;
      var count := first.count;
      assert s[..lm] == key;
      while lm < |s|
        invariant |key| <= lm <= |s| && b in repr && b.Key() == s[..lm]
        invariant |Matches(words, s[..lm])| == count
      {
        var b' := Further(key, s, lm, words);
        if b'.count < count {
          break;
        }
        b, lm := b', lm + 1;
      }
      LongestByCounts(words, key, s, lm);
    }

    /** The bucket of the longest common prefix of all words that start with the first `len` characters of `str`. */
    method FindLongestMatch(str: string, len: nat, ghost words: seq<string>) returns (b: Bucket?, resLength: nat)
      requires Valid() && len <= |str| && log == LogOf(words)
      ensures b == null <==> len == 0 || Matches(words, str[..len]) == []
      ensures b == null ==> resLength == 0
      ensures b != null ==> b in repr && resLength == |b.Key()| && LongestCommon(Matches(words, str[..len]), b.Key())
    {
      LookupIsMatches(words, str[..len]);
      b := Find(str, len);
      if b == null {
        return null, 0;
      }
      InChain(b);
      b, resLength := Follow(b, b.data[0], words);
    }

    /** Empties the table. */
    method Clean()
      requires Valid()
      modifies this, buckets
      ensures Valid() && log == [] && repr == {}
    {
      for i := 0 to buckets.Length
        invariant forall k :: 0 <= k < i ==> buckets[k] == null
        invariant |chains| == buckets.Length
      {
        buckets[i] := null;
      }
      chains := seq(buckets.Length, _ => []);
      repr, log := {}, [];
    }

    /** Per slot and bucket, the occurrences of the bucket's key itself. */
    ghost function Stock(): (slots: seq<seq<seq<string>>>)
      reads this
      ensures |slots| == |chains|
      ensures forall i :: 0 <= i < |chains| ==> |slots[i]| == |chains[i]|
      ensures forall i, j :: 0 <= i < |chains| && 0 <= j < |chains[i]| ==>
                slots[i][j] == Stored(log, chains[i][j].Key())
    {
      var cs, lg := chains, log;
      seq(|cs|, i requires 0 <= i < |cs| => seq(|cs[i]|, j requires 0 <= j < |cs[i]| => Stored(lg, cs[i][j].Key())))
    }

    lemma StockHeld(i: nat, j: nat)
      requires Valid() && i < |chains| && j < |chains[i]|
      ensures chains[i][j] in repr && Stock()[i][j] == Whole(chains[i][j].data, chains[i][j].len)
    {
      assert Placed(chains, repr, i) && Holds(chains[i][j], log);
    }

    /** The first bucket of a slot. */
    method Head(i: nat) returns (b: Bucket?)
      requires Valid() && i < buckets.Length
      ensures b == null <==> chains[i] == []
      ensures b != null ==> b == chains[i][0] && b.data != []
    {
      assert Placed(chains, repr, i) && Linked(i);
      b := buckets[i];
      assert b != null ==> Holds(b, log);
    }

    /** The first used slot at or after `from`, with its first bucket, or null. */
    method FirstUsed(from: nat) returns (i: nat, b: Bucket?)
      requires Valid()
      ensures from <= i && forall k: nat :: from <= k < i && k < |chains| ==> chains[k] == []
      ensures if b == null then i >= |chains| else i < |chains| && chains[i] != [] && b == chains[i][0] && b.data != []
    {
      i := from;
      while i < buckets.Length
        invariant from <= i && forall k: nat :: from <= k < i && k < |chains| ==> chains[k] == []
      {
        b := Head(i);
        if b != null {
          return;
        }
        i := i + 1;
      }
      b := null;
    }

    /** The bucket after the `j`-th of a slot. */
    method After(p: Bucket, ghost i: nat, ghost j: nat) returns (b: Bucket?)
      requires Valid() && i < |chains| && j < |chains[i]| && p == chains[i][j]
      ensures b == null <==> j + 1 == |chains[i]|
      ensures b != null ==> b == chains[i][j + 1] && b.data != []
    {
      assert Placed(chains, repr, i) && Linked(i);
      b := p.next;
      assert b != null ==> Holds(b, log);
    }
  }
}
