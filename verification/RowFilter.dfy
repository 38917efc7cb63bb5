/**
 * What is printed of a binary log's row events when databases or tables are filtered away: which row events are
 * hidden with their table map, when the kept Annotate_rows event comes out, and when each event object is deleted.
 */
module RowFilter {
  import opened Optional

  /** An event, known by its place in the log; `filtered` says that its database or table is not wanted. */
  datatype Event = Annotate | TableMap(id: nat, filtered: bool) | Rows(id: nat, stmtEnd: bool) | Other

  predicate EndsStatement(e: Event) {
    e.Rows? && e.stmtEnd
  }

  /** The events after which no earlier Annotate event is kept any more. */
  predicate Settles(e: Event) {
    e.Annotate? || EndsStatement(e) || (e.TableMap? && !e.filtered)
  }

  /** No statement ends between the events at `from` and `until`, both exclusive. */
  predicate SameStatement(evs: seq<Event>, from: nat, until: nat)
    requires until <= |evs|
  {
    forall k :: from < k < until ==> !EndsStatement(evs[k])
  }

  /** Before event `i`, rows of table `id` are hidden: the statement has a filtered table map for it. */
  ghost predicate Hidden(evs: seq<Event>, i: nat, id: nat)
    requires i <= |evs|
  {
    exists j: nat :: j < i && evs[j] == TableMap(id, true) && SameStatement(evs, j, i)
  }

  /** Before event `i`, the Annotate event at `a` is being kept. */
  predicate Kept(evs: seq<Event>, i: nat, a: nat)
    requires i <= |evs|
  {
    a < i && evs[a].Annotate? && forall k :: a < k < i ==> !Settles(evs[k])
  }

  /** Before event `i`, the filtered table map at `j` is still needed: same statement, and not replaced. */
  predicate Needed(evs: seq<Event>, i: nat, j: nat)
    requires i <= |evs|
  {
    j < i && evs[j].TableMap? && evs[j].filtered && SameStatement(evs, j, i) &&
    forall k :: j < k < i ==> evs[k] != evs[j]
  }

  /** What event `i` brings to the output, as places in the log. */
  ghost function Block(evs: seq<Event>, keep: bool, i: nat): seq<nat>
    requires i < |evs|
  {
    match evs[i]
    case Annotate => []
    case TableMap(_, true) => []
    case TableMap(_, false) =>
      if keep && exists a: nat :: Kept(evs, i, a) then var a: nat :| Kept(evs, i, a); [a, i] else [i]
    case Rows(id, _) => if Hidden(evs, i, id) then [] else [i]
    case Other => [i]
  }

  ghost function Blocks(evs: seq<Event>, keep: bool, n: nat): seq<nat>
    requires n <= |evs|
  {
    if n == 0 then [] else Blocks(evs, keep, n - 1) + Block(evs, keep, n - 1)
  }

  /** Before event `i`, the event object at `j` has been read and must still exist. */
  predicate Live(evs: seq<Event>, keep: bool, i: nat, j: nat)
    requires i <= |evs|
  {
    (keep && Kept(evs, i, j)) || Needed(evs, i, j)
  }

  lemma {:induction false} HiddenStep(evs: seq<Event>, i: nat, id: nat)
    requires i < |evs|
    ensures Hidden(evs, i + 1, id) <==>
            !EndsStatement(evs[i]) && (evs[i] == TableMap(id, true) || Hidden(evs, i, id))
  {
    if Hidden(evs, i, id) && !EndsStatement(evs[i]) {
      var j: nat :| j < i && evs[j] == TableMap(id, true) && SameStatement(evs, j, i);
      assert SameStatement(evs, j, i + 1);
    }
    if evs[i] == TableMap(id, true) {
      assert SameStatement(evs, i, i + 1);
    }
    if Hidden(evs, i + 1, id) {
      var j: nat :| j < i + 1 && evs[j] == TableMap(id, true) && SameStatement(evs, j, i + 1);
      assert SameStatement(evs, j, i);
    }
  }

  lemma KeptStep(evs: seq<Event>, i: nat, a: nat)
    requires i < |evs|
    ensures Kept(evs, i + 1, a) <==> (a == i && evs[i].Annotate?) || (Kept(evs, i, a) && !Settles(evs[i]))
  {
  }

  lemma NeededStep(evs: seq<Event>, i: nat, j: nat)
    requires i < |evs|
    ensures Needed(evs, i + 1, j) <==>
            if j == i then evs[i].TableMap? && evs[i].filtered
            else Needed(evs, i, j) && !EndsStatement(evs[i]) && evs[i] != evs[j]
  {
  }

  predicate VisibleMap(e: Event) {
    e.TableMap? && !e.filtered
  }

  /** Among the first `n` events, a table map that is not filtered is the first to settle the Annotate event at `a`. */
  ghost predicate SettledByMap(evs: seq<Event>, n: nat, a: nat)
    requires n <= |evs|
  {
    exists j :: a < j < n && Kept(evs, j, a) && VisibleMap(evs[j])
  }

  /** Event `n` is a table map that settles the Annotate event at `a`. */
  predicate SettledAt(evs: seq<Event>, n: nat, a: nat)
    requires n < |evs|
  {
    a < n && Kept(evs, n, a) && VisibleMap(evs[n])
  }

  lemma SettledStep(evs: seq<Event>, n: nat, a: nat)
    requires 0 < n <= |evs|
    ensures SettledByMap(evs, n, a) <==> SettledByMap(evs, n - 1, a) || SettledAt(evs, n - 1, a)
  {
    if SettledByMap(evs, n - 1, a) {
      var j :| a < j < n - 1 && Kept(evs, j, a) && VisibleMap(evs[j]);
      assert a < j < n;
    }
  }

  lemma {:induction false} InBlocks(evs: seq<Event>, keep: bool, n: nat, x: nat)
    requires 0 < n <= |evs|
    ensures x in Blocks(evs, keep, n) <==> x in Blocks(evs, keep, n - 1) || x in Block(evs, keep, n - 1)
  {
    var before, block := Blocks(evs, keep, n - 1), Block(evs, keep, n - 1);
    assert Blocks(evs, keep, n) == before + block;
  }

  /** An Annotate event is printed if and only if the next event to settle it is a table map that is not filtered. */
  lemma {:induction false} AnnotateShown(evs: seq<Event>, keep: bool, n: nat, a: nat)
    requires n <= |evs| && a < |evs| && evs[a].Annotate?
    ensures a in Blocks(evs, keep, n) <==> keep && SettledByMap(evs, n, a)
  {
    if n > 0 {
      AnnotateShown(evs, keep, n - 1, a);
      AnnotateNext(evs, keep, n, a);
    }
  }

  lemma {:induction false} AnnotateNext(evs: seq<Event>, keep: bool, n: nat, a: nat)
    requires 0 < n <= |evs| && a < |evs| && evs[a].Annotate?
    requires a in Blocks(evs, keep, n - 1) <==> keep && SettledByMap(evs, n - 1, a)
    ensures a in Blocks(evs, keep, n) <==> keep && SettledByMap(evs, n, a)
  {
    SettledStep(evs, n, a);
    AnnotateInBlocks(evs, keep, n, a);
  }

  lemma {:induction false} AnnotateInBlocks(evs: seq<Event>, keep: bool, n: nat, a: nat)
    requires 0 < n <= |evs| && a < |evs| && evs[a].Annotate?
    ensures a in Blocks(evs, keep, n) <==>
            a in Blocks(evs, keep, n - 1) || (keep && SettledAt(evs, n - 1, a))
  {
    InBlocks(evs, keep, n, a);
    AnnotateInBlock(evs, keep, n - 1, a);
  }

  lemma AnnotateInBlock(evs: seq<Event>, keep: bool, i: nat, a: nat)
    requires i < |evs| && a < |evs| && evs[a].Annotate?
    ensures a in Block(evs, keep, i) <==> a < i && keep && Kept(evs, i, a) && VisibleMap(evs[i])
  {
    BlockContents(evs, keep, i);
  }

  lemma BlockContents(evs: seq<Event>, keep: bool, i: nat)
    requires i < |evs|
    ensures |Block(evs, keep, i)| == 2 ==> Block(evs, keep, i)[0] < i == Block(evs, keep, i)[1]
    ensures forall x: nat :: x in Block(evs, keep, i) && x != i ==> Settles(evs[i])
    ensures forall x: nat :: x in Block(evs, keep, i) && x != i <==>
              keep && Kept(evs, i, x) && evs[i].TableMap? && !evs[i].filtered
    ensures i in Block(evs, keep, i) ==> !evs[i].Annotate?
    ensures |Block(evs, keep, i)| <= 2
  {
    forall x: nat, y: nat | Kept(evs, i, x) && Kept(evs, i, y) ensures x == y {
      assert x < y ==> Settles(evs[y]);
      assert y < x ==> Settles(evs[x]);
    }
  }

  /** Nothing is printed twice. */
  lemma {:induction false} PrintedOnce(evs: seq<Event>, keep: bool, n: nat)
    requires n <= |evs|
    ensures forall p, q :: 0 <= p < q < |Blocks(evs, keep, n)| ==> Blocks(evs, keep, n)[p] != Blocks(evs, keep, n)[q]
    ensures forall x :: x in Blocks(evs, keep, n) ==> x < n
    ensures forall x :: x in Blocks(evs, keep, n) && evs[x].Annotate? ==> !Kept(evs, n, x)
  {
    if n > 0 {
      PrintedOnce(evs, keep, n - 1);
      BlockContents(evs, keep, n - 1);
      forall x | x in Blocks(evs, keep, n) && evs[x].Annotate? ensures !Kept(evs, n, x) {
        KeptStep(evs, n - 1, x);
      }
      var before, block := Blocks(evs, keep, n - 1), Block(evs, keep, n - 1);
      assert forall x: nat :: x in block ==> x !in before;
      forall p, q | 0 <= p < q < |before + block| ensures (before + block)[p] != (before + block)[q] {
        if p < |before| <= q {
          assert (before + block)[p] in before && (before + block)[q] in block;
        }
      }
    }
  }

  /** No row event between `j` and `i` ends its statement. */
  predicate NoEndBetween(evs: seq<Event>, j: nat, i: nat)
    requires i <= |evs|
  {
    forall k :: j < k < i ==> !(evs[k].Rows? && evs[k].stmtEnd)
  }

  /** Between the Annotate event at `a` and `j` there is no other one, no end of a statement and no visible map. */
  predicate StillHeld(evs: seq<Event>, a: nat, j: nat)
    requires j <= |evs|
  {
    forall k :: a < k < j ==>
      !evs[k].Annotate? && !(evs[k].Rows? && evs[k].stmtEnd) && !(evs[k].TableMap? && !evs[k].filtered)
  }

  /** If they are kept, the Annotate event at `a` is printed exactly with the first visible map that it waits for. */
  lemma AnnotateRule(evs: seq<Event>, keep: bool, n: nat, a: nat)
    requires n <= |evs| && a < |evs| && evs[a].Annotate?
    ensures a in Blocks(evs, keep, n) <==>
            keep && exists j :: a < j < n && evs[j].TableMap? && !evs[j].filtered && StillHeld(evs, a, j)
  {
    AnnotateShown(evs, keep, n, a);
    forall j | a < j < n ensures Kept(evs, j, a) <==> StillHeld(evs, a, j) {
    }
    if SettledByMap(evs, n, a) {
      var j :| a < j < n && Kept(evs, j, a) && VisibleMap(evs[j]);
      assert StillHeld(evs, a, j);
    }
    if exists j :: a < j < n && evs[j].TableMap? && !evs[j].filtered && StillHeld(evs, a, j) {
      var j :| a < j < n && evs[j].TableMap? && !evs[j].filtered && StillHeld(evs, a, j);
      assert Kept(evs, j, a);
    }
  }

  /**
   Before event `i`, exactly these objects must still exist: a kept Annotate event that nothing has settled, and a
   filtered table map of the statement that no map for the same table has replaced.
   */
  lemma LiveRule(evs: seq<Event>, keep: bool, i: nat, j: nat)
    requires i <= |evs| && j < i
    ensures Live(evs, keep, i, j) <==>
            || (keep && evs[j].Annotate? && StillHeld(evs, j, i))
            || (evs[j].TableMap? && evs[j].filtered && NoEndBetween(evs, j, i) &&
                forall k :: j < k < i ==> evs[k] != TableMap(evs[j].id, true))
  {
  }

  /** Whether an event is printed at its own place. */
  ghost predicate Shown(evs: seq<Event>, i: nat)
    requires i < |evs|
  {
    match evs[i]
    case Annotate => false
    case TableMap(_, filtered) => !filtered
    case Rows(id, _) => !exists j: nat :: j < i && evs[j] == TableMap(id, true) && NoEndBetween(evs, j, i)
    case Other => true
  }

  lemma ShownInBlock(evs: seq<Event>, keep: bool, i: nat, k: nat)
    requires i < |evs| && k < |evs| && !evs[k].Annotate?
    ensures k in Block(evs, keep, i) <==> k == i && Shown(evs, i)
  {
    BlockContents(evs, keep, i);
    if evs[i].Rows? {
      HiddenRule(evs, i, evs[i].id);
    }
  }

  lemma HiddenRule(evs: seq<Event>, i: nat, id: nat)
    requires i <= |evs|
    ensures Hidden(evs, i, id) <==> exists j: nat :: j < i && evs[j] == TableMap(id, true) && NoEndBetween(evs, j, i)
  {
    if Hidden(evs, i, id) {
      var j: nat :| j < i && evs[j] == TableMap(id, true) && SameStatement(evs, j, i);
      assert NoEndBetween(evs, j, i);
    }
    if exists j: nat :: j < i && evs[j] == TableMap(id, true) && NoEndBetween(evs, j, i) {
      var j: nat :| j < i && evs[j] == TableMap(id, true) && NoEndBetween(evs, j, i);
      assert SameStatement(evs, j, i);
    }
  }

  /**
   A row event is printed if and only if its statement has no filtered table map for its table before it, a table map
   if and only if it is not filtered, and any other event always.
   */
  lemma {:induction false} EventShown(evs: seq<Event>, keep: bool, n: nat, i: nat)
    requires i < n <= |evs| && !evs[i].Annotate?
    ensures i in Blocks(evs, keep, n) <==> Shown(evs, i)
    decreases n
  {
    ShownInBlock(evs, keep, n - 1, i);
    InBlocks(evs, keep, n, i);
    if i < n - 1 {
      EventShown(evs, keep, n - 1, i);
    } else {
      PrintedOnce(evs, keep, n - 1);
    }
  }

  /** In the output `b`, what is at `p` and `q` stands in the order of the log. */
  predicate InOrder(evs: seq<Event>, b: seq<nat>, p: nat, q: nat) {
    p < q < |b| && b[p] < |evs| && b[q] < |evs| && !evs[b[p]].Annotate? && !evs[b[q]].Annotate? ==> b[p] < b[q]
  }

  /** An Annotate event stands directly before the table map that it is printed with. */
  predicate BeforeItsMap(evs: seq<Event>, b: seq<nat>, p: nat) {
    p < |b| && b[p] < |evs| && evs[b[p]].Annotate? ==>
      p + 1 < |b| && b[p + 1] < |evs| && VisibleMap(evs[b[p + 1]]) && Kept(evs, b[p + 1], b[p])
  }

  /** The output is in the order of the log, but for the Annotate events. */
  lemma {:induction false} PrintedInOrder(evs: seq<Event>, keep: bool, n: nat, p: nat, q: nat)
    requires n <= |evs|
    ensures InOrder(evs, Blocks(evs, keep, n), p, q)
    decreases n
  {
    if n > 0 && p < q < |Blocks(evs, keep, n)| {
      PrintedInOrder(evs, keep, n - 1, p, q);
      BlockContents(evs, keep, n - 1);
      var before, block := Blocks(evs, keep, n - 1), Block(evs, keep, n - 1);
      if q >= |before| {
        assert (before + block)[q] in block;
        if p < |before| {
          PrintedOnce(evs, keep, n - 1);
          assert (before + block)[p] in before;
        } else {
          assert (before + block)[p] in block;
        }
      }
    }
  }

  /** And each of these comes with its table map. */
  lemma {:induction false} AnnotateBeforeMap(evs: seq<Event>, keep: bool, n: nat, p: nat)
    requires n <= |evs|
    ensures BeforeItsMap(evs, Blocks(evs, keep, n), p)
    decreases n
  {
    if n > 0 && p < |Blocks(evs, keep, n)| {
      AnnotateBeforeMap(evs, keep, n - 1, p);
      BlockContents(evs, keep, n - 1);
      var before, block := Blocks(evs, keep, n - 1), Block(evs, keep, n - 1);
      if p >= |before| {
        assert (before + block)[p] in block;
      }
    }
  }

  /** The printer's variables. */
  datatype State = State(ignored: map<nat, nat>, annotate: Option<nat>, printed: seq<nat>, freed: set<nat>)

  function Held(annotate: Option<nat>): set<nat> {
    if annotate.Some? then {annotate.value} else {}
  }

  /** One event, with the object of every event that is done with deleted. */
  function Step(keep: bool, s: State, e: Event, i: nat): State {
    match e
    case Annotate =>
      if keep then s.(annotate := Some(i), freed := s.freed + Held(s.annotate)) else s.(freed := s.freed + {i})
    case TableMap(id, true) =>
      s.(ignored := s.ignored[id := i], freed := s.freed + (if id in s.ignored then {s.ignored[id]} else {}))
    case TableMap(_, false) =>
      s.(annotate := None, freed := s.freed + Held(s.annotate) + {i},
         printed := s.printed + (if s.annotate.Some? then [s.annotate.value] else []) + [i])
    case Rows(id, stmtEnd) =>
      var shown := s.(printed := s.printed + if id in s.ignored then [] else [i]);
      if stmtEnd then
        shown.(ignored := map[], annotate := None, freed := s.freed + s.ignored.Values + Held(s.annotate) + {i})
      else
        shown.(freed := s.freed + {i})
    case Other => s.(printed := s.printed + [i], freed := s.freed + {i})
  }

  ghost predicate AnnotateAt(evs: seq<Event>, keep: bool, i: nat, annotate: Option<nat>)
    requires i <= |evs|
  {
    forall a: nat :: annotate == Some(a) <==> keep && Kept(evs, i, a)
  }

  ghost predicate MapsAt(evs: seq<Event>, i: nat, ignored: map<nat, nat>)
    requires i <= |evs|
  {
    && (forall id: nat :: id in ignored <==> Hidden(evs, i, id))
    && (forall id: nat :: id in ignored ==> Needed(evs, i, ignored[id]) && evs[ignored[id]].id == id)
    && (forall j: nat :: Needed(evs, i, j) ==> evs[j].id in ignored && ignored[evs[j].id] == j)
  }

  ghost predicate FreedAt(evs: seq<Event>, keep: bool, i: nat, freed: set<nat>)
    requires i <= |evs|
  {
    forall j: nat :: j in freed <==> j < i && !Live(evs, keep, i, j)
  }

  /** The state before event `i`, told from the log alone. */
  ghost predicate Sound(evs: seq<Event>, keep: bool, i: nat, s: State)
    requires i <= |evs|
  {
    && s.printed == Blocks(evs, keep, i)
    && AnnotateAt(evs, keep, i, s.annotate)
    && MapsAt(evs, i, s.ignored)
    && FreedAt(evs, keep, i, s.freed)
  }

  lemma AnnotateStep(evs: seq<Event>, keep: bool, i: nat, s: State)
    requires i < |evs| && AnnotateAt(evs, keep, i, s.annotate)
    ensures AnnotateAt(evs, keep, i + 1, Step(keep, s, evs[i], i).annotate)
  {
    forall a: nat ensures Step(keep, s, evs[i], i).annotate == Some(a) <==> keep && Kept(evs, i + 1, a) {
      KeptStep(evs, i, a);
      assert s.annotate == Some(a) <==> keep && Kept(evs, i, a);
    }
  }

  /** Whether the filtered map at `j` is the one recorded for its table, before and after event `i`. */
  lemma RecordedStep(evs: seq<Event>, keep: bool, i: nat, s: State, j: nat)
    requires i < |evs| && j < |evs| && evs[j].TableMap? && MapsAt(evs, i, s.ignored)
    ensures var next, id := Step(keep, s, evs[i], i).ignored, evs[j].id;
            id in next && next[id] == j <==> Needed(evs, i + 1, j)
  {
    NeededStep(evs, i, j);
    var id := evs[j].id;
    assert id in s.ignored && s.ignored[id] == j <==> Needed(evs, i, j);
  }

  lemma HiddenIdsStep(evs: seq<Event>, keep: bool, i: nat, s: State, id: nat)
    requires i < |evs| && MapsAt(evs, i, s.ignored)
    ensures id in Step(keep, s, evs[i], i).ignored <==> Hidden(evs, i + 1, id)
  {
    HiddenStep(evs, i, id);
    assert id in s.ignored <==> Hidden(evs, i, id);
  }

  lemma RecordedMap(evs: seq<Event>, keep: bool, i: nat, s: State, id: nat)
    requires i < |evs| && MapsAt(evs, i, s.ignored) && id in Step(keep, s, evs[i], i).ignored
    ensures var j := Step(keep, s, evs[i], i).ignored[id]; Needed(evs, i + 1, j) && evs[j].id == id
  {
    var next := Step(keep, s, evs[i], i).ignored;
    assert next[id] != i ==> id in s.ignored && s.ignored[id] == next[id];
    RecordedStep(evs, keep, i, s, next[id]);
  }

  lemma MapsStep(evs: seq<Event>, keep: bool, i: nat, s: State)
    requires i < |evs| && MapsAt(evs, i, s.ignored)
    ensures MapsAt(evs, i + 1, Step(keep, s, evs[i], i).ignored)
  {
    var next := Step(keep, s, evs[i], i).ignored;
    forall id: nat ensures id in next <==> Hidden(evs, i + 1, id) {
      HiddenIdsStep(evs, keep, i, s, id);
    }
    forall id: nat | id in next ensures Needed(evs, i + 1, next[id]) && evs[next[id]].id == id {
      RecordedMap(evs, keep, i, s, id);
    }
    forall j: nat | Needed(evs, i + 1, j) ensures evs[j].id in next && next[evs[j].id] == j {
      RecordedStep(evs, keep, i, s, j);
    }
  }

  /** What stops being live with event `i` is exactly what it deletes. */
  lemma FreedStep(evs: seq<Event>, keep: bool, i: nat, s: State, j: nat)
    requires i < |evs| && Sound(evs, keep, i, s)
    ensures j in Step(keep, s, evs[i], i).freed <==> j < i + 1 && !Live(evs, keep, i + 1, j)
  {
    KeptStep(evs, i, j);
    NeededStep(evs, i, j);
    assert j in s.freed <==> j < i && !Live(evs, keep, i, j);
    assert s.annotate == Some(j) <==> keep && Kept(evs, i, j);
    if Needed(evs, i, j) {
      assert s.ignored[evs[j].id] == j;
    }
    if evs[i].TableMap? && evs[i].id in s.ignored {
      assert Needed(evs, i, s.ignored[evs[i].id]);
    }
    if j in s.ignored.Values {
      var id :| id in s.ignored && s.ignored[id] == j;
      assert Needed(evs, i, s.ignored[id]);
    }
  }

  lemma PrintedStep(evs: seq<Event>, keep: bool, i: nat, s: State)
    requires i < |evs| && Sound(evs, keep, i, s)
    ensures Step(keep, s, evs[i], i).printed == s.printed + Block(evs, keep, i)
  {
    if evs[i].TableMap? && !evs[i].filtered && keep && exists a: nat :: Kept(evs, i, a) {
      var a: nat :| Kept(evs, i, a);
      assert s.annotate == Some(a);
    }
  }

  lemma StepKeepsSound(evs: seq<Event>, keep: bool, i: nat, s: State)
    requires i < |evs| && Sound(evs, keep, i, s)
    ensures Sound(evs, keep, i + 1, Step(keep, s, evs[i], i))
  {
    PrintedStep(evs, keep, i, s);
    AnnotateStep(evs, keep, i, s);
    MapsStep(evs, keep, i, s);
    forall j: nat ensures j in Step(keep, s, evs[i], i).freed <==> j < i + 1 && !Live(evs, keep, i + 1, j) {
      FreedStep(evs, keep, i, s, j);
    }
  }

  /** Nothing the state still refers to has been deleted, and no event object is referred to twice. */
  ghost predicate Unfreed(s: State, i: nat) {
    && i !in s.freed
    && Held(s.annotate) !! s.freed && i !in Held(s.annotate)
    && (forall id :: id in s.ignored ==> s.ignored[id] !in s.freed + Held(s.annotate) + {i})
    && (forall a, b :: a in s.ignored && b in s.ignored && s.ignored[a] == s.ignored[b] ==> a == b)
  }

  lemma SoundIsUnfreed(evs: seq<Event>, keep: bool, i: nat, s: State)
    requires i < |evs| && Sound(evs, keep, i, s)
    ensures Unfreed(s, i)
  {
    if s.annotate.Some? {
      assert Kept(evs, i, s.annotate.value);
    }
    forall id | id in s.ignored ensures s.ignored[id] !in s.freed + Held(s.annotate) + {i} {
      assert Needed(evs, i, s.ignored[id]);
    }
  }

  class Printer {
    const keep: bool                      // --skip-annotate-row-events is off
    var ignored: map<nat, nat>            // m_table_map_ignored: table id to table map event
    var annotate: Option<nat>             // annotate_event
    var printed: seq<nat>
    ghost var freed: set<nat>

    constructor (keep: bool)
      ensures this.keep == keep && ignored == map[] && annotate == None && printed == [] && freed == {}
    {
      this.keep, ignored, annotate, printed, freed := keep, map[], None, [], {};
    }

    /** Deleting an event object; deleting it twice is an error. */
    ghost method Free(j: nat)
      requires j !in freed
      modifies this`freed
      ensures freed == old(freed) + {j}
    {
      freed := freed + {j};
    }

    method FreeAnnotate()
      requires annotate.Some? ==> annotate.value !in freed
      modifies this`annotate, this`freed
      ensures annotate == None
      ensures freed == old(freed) + (if old(annotate).Some? then {old(annotate).value} else {})
    {
      if annotate.Some? {
        Free(annotate.value);
        annotate := None;
      }
    }

    method KeepAnnotate(i: nat)
      requires annotate.Some? ==> annotate.value !in freed
      modifies this`annotate, this`freed
      ensures annotate == Some(i)
      ensures freed == old(freed) + (if old(annotate).Some? then {old(annotate).value} else {})
    {
      FreeAnnotate();
      annotate := Some(i);
    }

    method PrintAnnotate()
      requires annotate.Some? ==> annotate.value !in freed
      modifies this`annotate, this`freed, this`printed
      ensures annotate == None
      ensures printed == old(printed) + (if old(annotate).Some? then [old(annotate).value] else [])
      ensures freed == old(freed) + (if old(annotate).Some? then {old(annotate).value} else {})
    {
      if annotate.Some? {
        printed := printed + [annotate.value];
        FreeAnnotate();
      }
    }

    /** The hash of ignored table maps: a map with the same table id is replaced, and the replaced event deleted. */
    method SetTable(id: nat, i: nat)
      requires id in ignored ==> ignored[id] !in freed
      modifies this`ignored, this`freed
      ensures ignored == old(ignored)[id := i]
      ensures freed == old(freed) + (if id in old(ignored) then {old(ignored)[id]} else {})
    {
      if id in ignored {
        Free(ignored[id]);
      }
      ignored := ignored[id := i];
    }

    method ClearTables()
      requires forall id: nat :: id in ignored ==> ignored[id] !in freed
      requires forall a, b :: a in ignored && b in ignored && ignored[a] == ignored[b] ==> a == b
      modifies this`ignored, this`freed
      ensures ignored == map[]
      ensures freed == old(freed) + old(ignored).Values
    {
      var ids := ignored.Keys;
      while ids != {}
        invariant ids <= ignored.Keys && ignored == old(ignored)
        invariant forall id: nat :: id in ids ==> ignored[id] !in freed
        invariant forall j: nat :: j in freed <==>
                    j in old(freed) || exists id :: id in ignored.Keys - ids && ignored[id] == j
        decreases ids
      {
        var id :| id in ids;
        Free(ignored[id]);
        ids := ids - {id};
      }
      ignored := map[];
    }

    ghost function Now(): State
      reads this
    {
      State(ignored, annotate, printed, freed)
    }

    /** The branches of `process_event` for these events; what it does not keep it deletes. */
    method ProcessEvent(i: nat, e: Event)
      requires Unfreed(Now(), i)
      modifies this
      ensures Now() == Step(keep, old(Now()), e, i)
    {
      match e {
        case Annotate =>
          if keep {
            KeepAnnotate(i);
            return;
          }
        case TableMap(id, filtered) =>
          if filtered {
            SetTable(id, i);
            return;
          }
          PrintAnnotate();
          printed := printed + [i];
        case Rows(id, stmtEnd) =>
          var skip := id in ignored;
          if stmtEnd {
            ClearTables();
            FreeAnnotate();
          }
          if !skip {
            printed := printed + [i];
          }
        case Other =>
          printed := printed + [i];
      }
      Free(i);
    }

    /** Goes through a whole log. */
    method Process(evs: seq<Event>)
      requires ignored == map[] && annotate == None && printed == [] && freed == {}
      modifies this
      ensures printed == Blocks(evs, keep, |evs|)
      ensures forall j: nat :: j in freed <==> j < |evs| && !Live(evs, keep, |evs|, j)
    {
      for i := 0 to |evs|
        invariant Sound(evs, keep, i, Now())
      {
        SoundIsUnfreed(evs, keep, i, Now());
        StepKeepsSound(evs, keep, i, Now());
        ProcessEvent(i, evs[i]);
      }
    }
  }
}
