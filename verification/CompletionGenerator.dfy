/** `new_command_generator`: hands out the completions of a text one call at a time. */
module CompletionGenerator {
  import opened Optional
  import opened CompletionSpec
  import opened CompletionHash

  /** A walk over the buckets of all slots: what each bucket contributes, and what comes from a bucket on. */
  datatype Walk = Walk(stock: seq<seq<seq<string>>>, from: (nat, nat) -> seq<string>) {
    ghost predicate Valid() { forall n: nat, m: nat :: Follows(n, m) }

    /** `from` tells what is handed out from the `m`-th bucket of slot `n` on. */
    ghost predicate Follows(n: nat, m: nat) {
      from(n, m) == (if n < |stock| then Concat(stock[n], m) else []) + ConcatAll(stock, n + 1)
    }

    lemma Bucket(n: nat, m: nat)
      requires Valid() && n < |stock| && m < |stock[n]|
      ensures from(n, m) == stock[n][m] + from(n, m + 1)
    {
      assert Follows(n, m) && Follows(n, m + 1);
    }

    lemma SlotEnds(n: nat)
      requires Valid() && n < |stock|
      ensures from(n, |stock[n]|) == from(n + 1, 0)
    {
      assert Follows(n, |stock[n]|) && Follows(n + 1, 0);
    }

    lemma {:induction false} EmptySlots(n: nat, end: nat)
      requires Valid() && n <= end && forall k: nat :: n <= k < end && k < |stock| ==> stock[k] == []
      ensures from(n, 0) == from(end, 0)
      decreases end - n
    {
      if n < end {
        EmptySlots(n + 1, end);
        if n < |stock| {
          SlotEnds(n);
        } else {
          assert Follows(n, 0) && Follows(n + 1, 0);
        }
      }
    }

    lemma Ends(n: nat)
      requires Valid() && n >= |stock|
      ensures from(n, 0) == []
    {
      assert Follows(n, 0);
    }

    lemma Begins()
      requires Valid()
      ensures from(0, 0) == ConcatAll(stock, 0)
    {
      assert Follows(0, 0);
      assert stock == [] ==> ConcatAll(stock, 1) == [];
    }
  }

  ghost function WalkOf(stock: seq<seq<seq<string>>>): (w: Walk)
    ensures w.Valid() && w.stock == stock
  {
    Walk(stock, (n: nat, m: nat) => (if n < |stock| then Concat(stock[n], m) else []) + ConcatAll(stock, n + 1))
  }

  class Generator {
    const ht: HashTable
    var textlen: nat
    var b: Bucket?
    var e: seq<string>         // the entries not yet handed out; empty for a null pointer
    var i: nat
    ghost var j: nat           // position of `b` in its chain
    ghost var walk: Walk

    constructor (ht: HashTable)
      ensures this.ht == ht && e == []
    {
      this.ht := ht;
      textlen, b, e, i, j, walk := 0, null, [], 0, 0, WalkOf([]);
    }

    /** The walk is the one over the buckets of the table. */
    ghost predicate Stocked()
      reads this`walk, ht, ht.repr
    {
      var stock := walk.stock;
      && walk.Valid() && |stock| == |ht.chains|
      && (forall n: nat :: n < |stock| ==> |stock[n]| == |ht.chains[n]|)
      && (forall n: nat, m: nat :: n < |stock| && m < |stock[n]| ==>
            ht.chains[n][m] in ht.repr && stock[n][m] == Whole(ht.chains[n][m].data, ht.chains[n][m].len))
    }

    /** While entries are left in a walk over the whole table, `b` is the bucket they come from. */
    ghost predicate Walking()
      reads this`b, this`e, this`i, this`j, this`walk, ht`chains
    {
      e != [] ==> i < |walk.stock| == |ht.chains| && j < |ht.chains[i]| && b == ht.chains[i][j]
    }

    /** What the walk has still to hand out. */
    ghost function Rest(): seq<string>
      requires Walking()
      reads this`b, this`e, this`i, this`j, this`walk, ht`chains
    {
      if e == [] then [] else Whole(e, b.len) + walk.from(i, j + 1)
    }

    /** Starts on the `m`-th bucket of slot `n`. */
    method Enter(p: Bucket, n: nat, ghost m: nat)
      requires walk.Valid() && n < |walk.stock| == |ht.chains| && m < |ht.chains[n]| == |walk.stock[n]|
      requires p == ht.chains[n][m] && p.data != [] && walk.stock[n][m] == Whole(p.data, p.len)
      modifies this`b, this`e, this`i, this`j
      ensures Walking() && i == n && j == m
      ensures Rest() == walk.from(n, m)
    {
      b, e, i, j := p, p.data, n, m;
      walk.Bucket(n, m);
    }

    /** Some slot at or after `from` is in use. */
    ghost predicate UsedFrom(from: nat)
      reads ht`chains
    {
      exists k: nat :: from <= k < |ht.chains| && ht.chains[k] != []
    }

    /** Moves to the first used slot at or after `from`; without one, bucket and entries stay as they are. */
    method Seek(from: nat)
      requires ht.Valid() && Stocked()
      modifies this`b, this`e, this`i, this`j
      ensures i >= from
      ensures UsedFrom(from) || old(e) == [] ==> Walking() && Rest() == walk.from(from, 0)
      ensures !UsedFrom(from) ==> e == old(e) && b == old(b)
    {
      var n, p := ht.FirstUsed(from);
      walk.EmptySlots(from, n);
      if p != null {
        Enter(p, n, 0);
      } else {
        i := n;
        walk.Ends(n);
      }
    }

    /** Leaves an exhausted bucket for the next one in its chain, or else for the next used slot. */
    method Advance()
      requires ht.Valid() && Stocked() && e == [] && i < |ht.chains| && j < |ht.chains[i]| && b == ht.chains[i][j]
      modifies this`b, this`e, this`i, this`j
      ensures Walking()
      ensures Rest() == walk.from(old(i), old(j) + 1)
      ensures i > old(i) || (i == old(i) && j > old(j))
    {
      var p := ht.After(b, i, j);
      if p == null {
        walk.SlotEnds(i);
        Seek(i + 1);
      } else {
        Enter(p, i, j + 1);
      }
    }

    static lemma TakeOne(data: seq<string>, len: nat, later: seq<string>)
      requires data != []
      ensures Whole(data, len) + later ==
              (if |data[0]| == len then [data[0]] else []) + (Whole(data[1..], len) + later)
    {
    }

    static lemma EmptyBucket(len: nat, later: seq<string>)
      ensures Whole([], len) + later == later
    {
    }

    /** Drops an entry, which is handed out if it is the bucket's key itself. */
    method Take() returns (r: Option<string>)
      requires Walking() && e != []
      modifies this`e
      ensures e == old(e[1..]) && Walking()
      ensures old(Rest()) == (if r.None? then [] else [r.value]) + if e == [] then walk.from(i, j + 1) else Rest()
    {
      r := if |e[0]| == b.len then Some(e[0]) else None;
      TakeOne(e, b.len, walk.from(i, j + 1));
      EmptyBucket(b.len, walk.from(i, j + 1));
      e := e[1..];
    }

    /** One turn of the walk. */
    method Turn() returns (r: Option<string>)
      requires ht.Valid() && Stocked() && Walking() && e != []
      modifies this`b, this`e, this`i, this`j
      ensures Walking()
      ensures old(Rest()) == (if r.None? then [] else [r.value]) + Rest()
      ensures e == [] || i > old(i) || (i == old(i) && (j > old(j) || (j == old(j) && |e| < |old(e)|)))
    {
      r := Take();
      if e == [] {
        Advance();
      }
    }

    /** The next string in the walk over the whole table. */
    method NextInWalk() returns (r: Option<string>)
      requires ht.Valid() && Stocked() && Walking()
      modifies this`b, this`e, this`i, this`j
      ensures Walking()
      ensures if r.None? then old(Rest()) == [] && e == [] else old(Rest()) == [r.value] + Rest()
    {
      r := None;
      ghost var whole := Rest();
      while e != [] && r.None?
        invariant Walking()
        invariant whole == (if r.None? then [] else [r.value]) + Rest()
        decreases e != [], |ht.chains| - i, if i < |ht.chains| then |ht.chains[i]| - j else 0, |e|
      {
        r := Turn();
      }
    }

    /** The next string from the bucket of a non-empty text. */
    method NextMatch(text: string, first: bool) returns (r: Option<string>)
      requires ht.Valid()
      modifies this`b, this`e
      ensures var left := if first then Lookup(ht.log, text) else old(e);
              if r.None? then left == [] else left == [r.value] + e
      ensures r.None? ==> e == [] || (first && e == old(e))
    {
      if first {
        assert text[..|text|] == text;
        var p, len := ht.FindAllMatches(text, |text|);
        b := p;
        if p == null {
          return None;
        }
        e := p.data;
      }
      if e == [] {
        return None;
      }
      r := Some(e[0]);
      e := e[1..];
    }

    /** Starts a walk: takes stock of the table and moves to its first used slot. */
    method Begin()
      requires ht.Valid() && (UsedFrom(0) || e == [])
      modifies this`b, this`e, this`i, this`j, this`walk
      ensures Stocked() && Walking() && Rest() == ConcatAll(ht.Stock(), 0)
    {
      walk := WalkOf(ht.Stock());
      forall n: nat, m: nat | n < |walk.stock| && m < |walk.stock[n]|
        ensures ht.chains[n][m] in ht.repr && walk.stock[n][m] == Whole(ht.chains[n][m].data, ht.chains[n][m].len)
      {
        ht.StockHeld(n, m);
      }
      walk.Begins();
      Seek(0);
    }

    /** One call for the empty text. */
    method NextOfAll(first: bool) returns (r: Option<string>)
      requires ht.Valid() && if first then UsedFrom(0) || e == [] else Stocked() && Walking()
      modifies this`b, this`e, this`i, this`j, this`walk
      ensures Stocked() && Walking()
      ensures var left := if first then ConcatAll(ht.Stock(), 0) else old(Rest());
              if r.None? then left == [] else left == [r.value] + Rest()
      ensures r.None? ==> e == []
    {
      if first {
        Begin();
      }
      r := NextInWalk();
    }

    /** A walk is under way, or the text was not empty. */
    ghost predicate Active(text: string)
      reads this, ht, ht.repr
    {
      textlen == |text| && (text == "" ==> Stocked() && Walking())
    }

    /** What the calls after the first one are to return. */
    ghost function Left(text: string): seq<string>
      requires Active(text)
      reads this, ht, ht.repr
    {
      if text != "" then e else Rest()
    }

    /** All that is to be returned for a text, from the first call on. */
    ghost function Completions(text: string): seq<string>
      reads ht
    {
      if text != "" then Lookup(ht.log, text) else ConcatAll(ht.Stock(), 0)
    }

    /**
     One call of the generator; `first` for the call with state 0. A walk over an empty table would go on
     with whatever the previous enumeration left behind.
     */
    method Next(text: string, first: bool) returns (r: Option<string>)
      requires ht.Valid()
      requires if first then text == "" && e != [] ==> UsedFrom(0) else Active(text)
      modifies this
      ensures Active(text)
      ensures var left := if first then Completions(text) else old(Left(text));
              if r.None? then left == [] else left == [r.value] + Left(text)
      ensures r.None? ==> e == [] || (first && e == old(e))
    {
      if first {
        textlen := |text|;
      }
      if textlen > 0 {
        r := NextMatch(text, first);
      } else {
        r := NextOfAll(first);
      }
    }

    static lemma HandOut(all: seq<string>, x: string, left: seq<string>)
      ensures all + ([x] + left) == all + [x] + left
    {
    }

    /** Goes on until the generator returns null; `x` is what it returned last. */
    method Collect(text: string, x: string, ghost goal: seq<string>) returns (all: seq<string>)
      requires ht.Valid() && Active(text) && goal == [x] + Left(text)
      modifies this
      ensures all == goal && e == []
    {
      all := [];
      var r := Some(x);
      ghost var left := Left(text);
      while r.Some?
        invariant Active(text) && left == Left(text)
        invariant if r.None? then all == goal && e == [] else all + ([r.value] + left) == goal
        decreases |goal| - |all|, r.Some?
      {
        HandOut(all, r.value, left);
        all := all + [r.value];
        r := Next(text, false);
        left := Left(text);
      }
    }

    /** All completions, in the order of the table. */
    method Enumerate(text: string) returns (all: seq<string>)
      requires ht.Valid() && (text == "" && e != [] ==> UsedFrom(0))
      modifies this
      ensures all == old(Completions(text)) && (e == [] || (all == [] && e == old(e)))
    {
      ghost var goal := Completions(text);
      var r := Next(text, true);
      if r.None? {
        return [];
      }
      all := Collect(text, r.value, goal);
    }

    /** The completion loop: calling the generator until it returns null gives exactly the words that were added. */
    method Complete(text: string, ghost words: seq<string>) returns (all: seq<string>)
      requires ht.Valid() && ht.log == LogOf(words) && (text == "" && e != [] ==> UsedFrom(0))
      modifies this
      ensures text == "" ==> multiset(all) == multiset(words)["" := 0]
      ensures text != "" ==> all == Matches(words, text)
      ensures e == [] || (all == [] && e == old(e))
    {
      LookupIsMatches(words, text);
      WalkIsAllWords(ht, words);
      all := Enumerate(text);
    }
  }

  // ---------------------------------------------------------------- the walk hands out every word once

  /** The keys of a chain, which are not empty and all different. */
  lemma ChainKeys(ht: HashTable, words: seq<string>, i: nat) returns (keys: seq<string>)
    requires ht.Valid() && ht.log == LogOf(words) && i < |ht.chains|
    ensures |keys| == |ht.chains[i]| && forall k :: 0 <= k < |keys| ==> keys[k] == ht.chains[i][k].Key() != ""
    ensures forall k, l :: 0 <= k < l < |keys| ==> keys[k] != keys[l]
  {
    var chain := ht.chains[i];
    keys := seq(|chain|, k requires 0 <= k < |chain| => chain[k].Key());
    assert ht.Placed(ht.chains, ht.repr, i);
    LookupIsMatches(words, "");
    forall k | 0 <= k < |keys|
      ensures keys[k] != ""
    {
      assert ht.Holds(chain[k], ht.log);
    }
  }

  /** An added word is the key of a bucket in the chain of its slot. */
  lemma WordHasBucket(ht: HashTable, words: seq<string>, w: string) returns (k: nat)
    requires ht.Valid() && ht.log == LogOf(words) && w != "" && w in words
    ensures var chain := ht.chains[ht.hash(w) % ht.buckets.Length];
            k < |chain| && chain[k].Key() == w
  {
    LookupIsMatches(words, w);
    MatchesElements(words, w, w);
    assert ht.Recorded(ht.chains, w);
    var chain := ht.chains[ht.hash(w) % ht.buckets.Length];
    k :| 0 <= k < |chain| && chain[k].Key() == w;
  }

  lemma KeysElsewhere(ht: HashTable, i: nat, k: nat)
    requires ht.Valid() && i < |ht.chains| && k < |ht.chains[i]|
    ensures ht.hash(ht.chains[i][k].Key()) % ht.buckets.Length == i
  {
    assert ht.Placed(ht.chains, ht.repr, i);
  }

  /** All occurrences of a word are in the chain of its slot. */
  lemma OneSlotCounts(ht: HashTable, words: seq<string>, i: nat, w: string)
    requires ht.Valid() && ht.log == LogOf(words) && i < |ht.chains|
    ensures multiset(Concat(ht.Stock()[i], 0))[w] ==
            if w != "" && i == ht.hash(w) % ht.buckets.Length then multiset(words)[w] else 0
  {
    var keys := ChainKeys(ht, words, i);
    var parts, n := ht.Stock()[i], multiset(words)[w];
    forall k | 0 <= k < |keys| ensures multiset(parts[k])[w] == if keys[k] == w then n else 0 {
      StoredCounts(words, keys[k], w);
    }
    ChainCounts(keys, parts, 0, w, n);
    if w != "" && i == ht.hash(w) % ht.buckets.Length {
      if w in words {
        var k := WordHasBucket(ht, words, w);
        assert keys[k] == w;
      }
    } else if k :| 0 <= k < |keys| && keys[k] == w {
      KeysElsewhere(ht, i, k);
    }
  }

  lemma {:induction false} SlotCounts(ht: HashTable, words: seq<string>, i: nat, w: string)
    requires ht.Valid() && ht.log == LogOf(words)
    ensures multiset(ConcatAll(ht.Stock(), i))[w] ==
            if w != "" && i <= ht.hash(w) % ht.buckets.Length then multiset(words)[w] else 0
    decreases |ht.chains| - i
  {
    if i < |ht.chains| {
      SlotCounts(ht, words, i + 1, w);
      OneSlotCounts(ht, words, i, w);
      var here, later := Concat(ht.Stock()[i], 0), ConcatAll(ht.Stock(), i + 1);
      assert multiset(here + later) == multiset(here) + multiset(later);
    }
  }

  /** For the empty text the completions are all added words, with repeats, except the empty one. */
  lemma WalkIsAllWords(ht: HashTable, words: seq<string>)
    requires ht.Valid() && ht.log == LogOf(words)
    ensures multiset(ConcatAll(ht.Stock(), 0)) == multiset(words)["" := 0]
  {
    var all := multiset(ConcatAll(ht.Stock(), 0));
    forall w: string
      ensures all[w] == multiset(words)["" := 0][w]
    {
      SlotCounts(ht, words, 0, w);
    }
  }
}
