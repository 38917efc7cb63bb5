/** Row changes, how they act on tables, and their inverses. */
module RowChanges {
  import opened Optional

  type Row = string

  /** The tables of a server, by table id. */
  type Tables = map<nat, multiset<Row>>

  datatype Change = Insert(row: Row) | Remove(row: Row) | Replace(before: Row, after: Row) {
    function Inverse(): Change {
      match this
      case Insert(r) => Remove(r)
      case Remove(r) => Insert(r)
      case Replace(a, b) => Replace(b, a)
    }
  }

  /** A change to one table. */
  datatype Edit = Edit(table: nat, change: Change) {
    function Inverse(): Edit { Edit(table, change.Inverse()) }
  }

  /** Fails when the row to be removed does not exist. */
  function ChangeRows(rows: multiset<Row>, c: Change): Option<multiset<Row>> {
    match c
    case Insert(r) => Some(rows + multiset{r})
    case Remove(r) => if r in rows then Some(rows - multiset{r}) else None
    case Replace(a, b) => if a in rows then Some(rows - multiset{a} + multiset{b}) else None
  }

  /** Fails also when the table does not exist. */
  function Apply(db: Tables, e: Edit): Option<Tables> {
    if e.table !in db then None
    else
      var r := ChangeRows(db[e.table], e.change);
      if r.None? then None else Some(db[e.table := r.value])
  }

  function ApplyAll(db: Tables, es: seq<Edit>): Option<Tables> {
    if es == [] then Some(db)
    else
      var r := Apply(db, es[0]);
      if r.None? then None else ApplyAll(r.value, es[1..])
  }

  function Reverse<T>(s: seq<T>): seq<T> {
    if s == [] then [] else Reverse(s[1..]) + [s[0]]
  }

  /** The inverse edits, last one first. */
  function Undo(es: seq<Edit>): seq<Edit> {
    if es == [] then [] else Undo(es[1..]) + [es[0].Inverse()]
  }

  lemma {:induction false} ReverseConcat<T>(a: seq<T>, b: seq<T>)
    ensures Reverse(a + b) == Reverse(b) + Reverse(a)
    decreases |a|
  {
    if a == [] {
      assert a + b == b;
    } else {
      ReverseConcat(a[1..], b);
      assert (a + b)[1..] == a[1..] + b;
    }
  }

  lemma {:induction false} ReverseLength<T>(s: seq<T>)
    ensures |Reverse(s)| == |s|
  {
    if s != [] {
      ReverseLength(s[1..]);
    }
  }

  /** What stands at `k` comes out after everything behind it. */
  lemma ReverseAround<T>(s: seq<T>, k: nat)
    requires k < |s|
    ensures |Reverse(s)| == |s| && Reverse(s)[|s| - 1 - k] == s[k]
  {
    var front, back := s[..k + 1], s[k + 1..];
    assert s == front + back && front == s[..k] + [s[k]];
    ReverseConcat(front, back);
    ReverseConcat(s[..k], [s[k]]);
    assert Reverse([s[k]]) == [s[k]];
    ReverseLength(s);
    ReverseLength(back);
  }

  lemma {:induction false} UndoConcat(a: seq<Edit>, b: seq<Edit>)
    ensures Undo(a + b) == Undo(b) + Undo(a)
    decreases |a|
  {
    if a == [] {
      assert a + b == b;
    } else {
      UndoConcat(a[1..], b);
      assert (a + b)[1..] == a[1..] + b;
    }
  }

  lemma {:induction false} UndoLength(es: seq<Edit>)
    ensures |Undo(es)| == |es|
  {
    if es != [] {
      UndoLength(es[1..]);
    }
  }

  /** The edit at `k` is undone after everything behind it. */
  lemma UndoAround(es: seq<Edit>, k: nat)
    requires k < |es|
    ensures |Undo(es)| == |es| && Undo(es)[|es| - 1 - k] == es[k].Inverse()
  {
    var front, back := es[..k + 1], es[k + 1..];
    assert es == front + back && front == es[..k] + [es[k]];
    UndoConcat(front, back);
    UndoConcat(es[..k], [es[k]]);
    assert Undo([es[k]]) == [es[k].Inverse()];
    UndoLength(es);
    UndoLength(back);
  }

  lemma {:induction false} ApplyConcat(db: Tables, a: seq<Edit>, b: seq<Edit>)
    ensures ApplyAll(db, a + b) ==
            var r := ApplyAll(db, a); if r.None? then None else ApplyAll(r.value, b)
    decreases |a|
  {
    if a == [] {
      assert a + b == b;
    } else {
      assert (a + b)[1..] == a[1..] + b;
      var r := Apply(db, a[0]);
      if r.Some? {
        ApplyConcat(r.value, a[1..], b);
      }
    }
  }

  lemma InverseRestoresRows(rows: multiset<Row>, c: Change)
    requires ChangeRows(rows, c).Some?
    ensures ChangeRows(ChangeRows(rows, c).value, c.Inverse()) == Some(rows)
  {
    match c
    case Insert(r) => AddThenTake(rows, r);
    case Remove(r) => TakeThenAdd(rows, r);
    case Replace(a, b) =>
      AddThenTake(rows - multiset{a}, b);
      TakeThenAdd(rows, a);
  }

  lemma AddThenTake(rows: multiset<Row>, r: Row)
    ensures r in rows + multiset{r} && rows + multiset{r} - multiset{r} == rows
  {
  }

  lemma TakeThenAdd(rows: multiset<Row>, r: Row)
    requires r in rows
    ensures rows - multiset{r} + multiset{r} == rows
  {
  }

  lemma InverseUndoes(db: Tables, e: Edit)
    requires Apply(db, e).Some?
    ensures Apply(Apply(db, e).value, e.Inverse()) == Some(db)
  {
    InverseRestoresRows(db[e.table], e.change);
    var after := Apply(db, e).value;
    assert after[e.table := db[e.table]] == db;
  }

  /** Edits that succeeded are undone by the inverse edits in reverse order. */
  lemma {:induction false} UndoRestores(db: Tables, es: seq<Edit>)
    requires ApplyAll(db, es).Some?
    ensures ApplyAll(ApplyAll(db, es).value, Undo(es)) == Some(db)
    decreases |es|
  {
    if es != [] {
      var mid, last := Apply(db, es[0]).value, ApplyAll(db, es).value;
      UndoRestores(mid, es[1..]);
      InverseUndoes(db, es[0]);
      ApplyConcat(last, Undo(es[1..]), [es[0].Inverse()]);
      assert ApplyAll(mid, [es[0].Inverse()]) == Some(db);
    }
  }
}
