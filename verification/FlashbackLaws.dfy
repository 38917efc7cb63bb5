/** What a flashback output is worth: it undoes the log it was made from. */
module FlashbackLaws {
  import opened Optional
  import opened RowChanges
  import opened Flashback

  /** A log as the server writes it: transaction marks, and row statements that map their tables first. */
  datatype Unit =
    | Opening
    | Closing
    | RowStatement(maps: seq<nat>, rows: seq<RowsEvent>)

  /** Row events end their statement with the last one, and every table they touch is mapped. */
  predicate WellFormed(u: Unit) {
    u.RowStatement? ==>
      && u.rows != []
      && (forall i :: 0 <= i < |u.rows| ==> (u.rows[i].stmtEnd <==> i == |u.rows| - 1))
      && (forall i :: 0 <= i < |u.rows| ==> u.rows[i].table in u.maps)
  }

  predicate AllWellFormed(us: seq<Unit>) {
    forall u :: u in us ==> WellFormed(u)
  }

  function AsSet(maps: seq<nat>): set<nat> {
    set t | t in maps
  }

  function MapEvents(maps: seq<nat>): seq<Event> {
    seq(|maps|, i requires 0 <= i < |maps| => TableMap(maps[i], false))
  }

  function RowEvents(rows: seq<RowsEvent>): seq<Event> {
    seq(|rows|, i requires 0 <= i < |rows| => Rows(rows[i]))
  }

  function UnitEvents(u: Unit): seq<Event> {
    match u
    case Opening => [Begin]
    case Closing => [Commit]
    case RowStatement(maps, rows) => MapEvents(maps) + RowEvents(rows)
  }

  /** The events of an unfiltered log. */
  function Events(us: seq<Unit>): seq<Event> {
    if us == [] then [] else UnitEvents(us[0]) + Events(us[1..])
  }

  function MapItems(maps: seq<nat>): seq<Item> {
    seq(|maps|, i requires 0 <= i < |maps| => MapItem(maps[i]))
  }

  /** The events of a statement with the end flag on the first one only. */
  function Reflagged(rows: seq<RowsEvent>): seq<RowsEvent> {
    seq(|rows|, i requires 0 <= i < |rows| => rows[i].(stmtEnd := i == 0))
  }

  /** The chunk a unit is turned into. */
  function ChunkOf(u: Unit): Chunk {
    match u
    case Opening => CommitTransaction
    case Closing => StartTransaction
    case RowStatement(maps, rows) => Statement(MapItems(maps) + Reverse(InvertedAll(Reflagged(rows))))
  }

  function ChunksOf(us: seq<Unit>): seq<Chunk> {
    seq(|us|, i requires 0 <= i < |us| => ChunkOf(us[i]))
  }

  lemma {:induction false} RunConcat(s: State, a: seq<Event>, b: seq<Event>)
    ensures Run(s, a + b) == Run(Run(s, a), b)
    decreases |a|
  {
    if a == [] {
      assert a + b == b;
    } else {
      assert (a + b)[1..] == a[1..] + b;
      RunConcat(Step(s, a[0]), a[1..], b);
    }
  }

  lemma {:induction false} RunMaps(s: State, maps: seq<nat>)
    ensures Run(s, MapEvents(maps)) ==
            s.(known := s.known + AsSet(maps), body := s.body + MapItems(maps),
               inStmt := if maps == [] then s.inStmt else [])
    decreases |maps|
  {
    if maps == [] {
      assert s.body + MapItems(maps) == s.body && s.known + AsSet(maps) == s.known;
    } else {
      var t := Step(s, TableMap(maps[0], false));
      assert MapEvents(maps)[0] == TableMap(maps[0], false) && MapEvents(maps)[1..] == MapEvents(maps[1..]);
      RunMaps(t, maps[1..]);
      assert t.body + MapItems(maps[1..]) == s.body + MapItems(maps);
      assert maps == [maps[0]] + maps[1..];
      assert t.known + AsSet(maps[1..]) == s.known + AsSet(maps);
    }
  }

  /** Row events before the end of the statement are only collected. */
  lemma {:induction false} RunCollects(s: State, rows: seq<RowsEvent>, n: nat)
    requires s.inStmt == [] && n <= |rows| && forall i :: 0 <= i < n ==> !rows[i].stmtEnd
    ensures Run(s, RowEvents(rows[..n])) == s.(inStmt := Reflagged(rows[..n]))
    decreases n
  {
    if n == 0 {
      assert RowEvents(rows[..0]) == [] && Reflagged(rows[..0]) == [];
    } else {
      RunCollects(s, rows, n - 1);
      var front, e := RowEvents(rows[..n - 1]), rows[n - 1];
      assert RowEvents(rows[..n]) == front + [Rows(e)];
      RunConcat(s, front, [Rows(e)]);
      var t := Run(s, front);
      assert Run(t, [Rows(e)]) == Step(t, Rows(e));
      assert Reflagged(rows[..n]) == Reflagged(rows[..n - 1]) + [e.(stmtEnd := n == 1)];
    }
  }

  /** With the table maps of all its tables known, a rows event is printed inverted. */
  lemma KnownAreInverted(known: set<nat>, es: seq<RowsEvent>)
    requires forall i :: 0 <= i < |es| ==> es[i].table in known
    ensures PrintedAll(known, es) == InvertedAll(es)
  {
  }

  /** The state after a statement whose rows have all been read up to the last one. */
  lemma RunRows(t: State, rows: seq<RowsEvent>)
    requires rows != [] && t.inStmt == [] && forall i :: 0 <= i < |rows| ==> (rows[i].stmtEnd <==> i == |rows| - 1)
    ensures Run(t, RowEvents(rows)) ==
            OnStatementEnd(t.(inStmt := Reflagged(rows)), rows[|rows| - 1].table in t.ignored)
  {
    var n := |rows| - 1;
    var e := rows[n];
    RunCollects(t, rows, n);
    assert RowEvents(rows) == RowEvents(rows[..n]) + [Rows(e)];
    RunConcat(t, RowEvents(rows[..n]), [Rows(e)]);
    var v := t.(inStmt := Reflagged(rows[..n]));
    assert Reflagged(rows[..n]) + [e.(stmtEnd := n == 0)] == Reflagged(rows);
    assert Run(v, [Rows(e)]) == Step(v, Rows(e));
  }

  lemma RunStatement(s: State, u: Unit)
    requires u.RowStatement? && WellFormed(u) && s.ignored == {} && s.body == []
    ensures Run(s, MapEvents(u.maps) + RowEvents(u.rows)) ==
            s.(known := s.known + AsSet(u.maps), inStmt := [], chunks := s.chunks + [ChunkOf(u)])
  {
    var maps, rows := u.maps, u.rows;
    RunConcat(s, MapEvents(maps), RowEvents(rows));
    RunMaps(s, maps);
    assert maps != [] by { assert rows[0].table in maps; }
    var t := Run(s, MapEvents(maps));
    assert t.body == MapItems(maps);
    RunRows(t, rows);
    KnownAreInverted(t.known, Reflagged(rows));
  }

  /** One unit adds its chunk to the stored ones and writes nothing. */
  lemma RunUnit(s: State, u: Unit)
    requires WellFormed(u) && s.ignored == {} && s.body == []
    ensures var r := Run(s, UnitEvents(u));
            r.chunks == s.chunks + [ChunkOf(u)] && r.file == s.file && r.ignored == {} && r.body == []
  {
    if u.RowStatement? {
      RunStatement(s, u);
    } else {
      assert Run(s, UnitEvents(u)) == Step(s, UnitEvents(u)[0]);
    }
  }

  lemma ChunksJoin(before: seq<Chunk>, us: seq<Unit>)
    requires us != []
    ensures before + [ChunkOf(us[0])] + ChunksOf(us[1..]) == before + ChunksOf(us)
  {
  }

  lemma {:induction false} RunUnits(s: State, us: seq<Unit>)
    requires AllWellFormed(us) && s.ignored == {} && s.body == []
    ensures var r := Run(s, Events(us)); r.chunks == s.chunks + ChunksOf(us) && r.file == s.file
    decreases |us|
  {
    if us == [] {
      assert s.chunks + ChunksOf(us) == s.chunks;
    } else {
      RunConcat(s, UnitEvents(us[0]), Events(us[1..]));
      RunUnit(s, us[0]);
      RunUnits(Run(s, UnitEvents(us[0])), us[1..]);
      ChunksJoin(s.chunks, us);
    }
  }

  /** An unfiltered log comes out as one chunk per unit, the last unit first. */
  lemma OutputIsReversed(us: seq<Unit>)
    requires AllWellFormed(us)
    ensures Output(Events(us)) == Reverse(ChunksOf(us)) + [CommitTransaction]
  {
    RunUnits(Start(), us);
    assert [] + ChunksOf(us) == ChunksOf(us);
    assert [] + Reverse(ChunksOf(us)) == Reverse(ChunksOf(us));
  }

  // ---------------------------------------------------------------- meaning

  /** The row changes of an operation, in the order the server makes them. */
  function OpEdits(t: nat, op: Op): seq<Edit> {
    match op
    case Write(rows) => seq(|rows|, i requires 0 <= i < |rows| => Edit(t, Insert(rows[i])))
    case Delete(rows) => seq(|rows|, i requires 0 <= i < |rows| => Edit(t, Remove(rows[i])))
    case Update(pairs) => seq(|pairs|, i requires 0 <= i < |pairs| => Edit(t, Replace(pairs[i].0, pairs[i].1)))
  }

  function RowsEdits(rows: seq<RowsEvent>): seq<Edit> {
    if rows == [] then [] else OpEdits(rows[0].table, rows[0].op) + RowsEdits(rows[1..])
  }

  /** All row changes recorded in a log. */
  function LogEdits(us: seq<Unit>): seq<Edit> {
    if us == [] then [] else (if us[0].RowStatement? then RowsEdits(us[0].rows) else []) + LogEdits(us[1..])
  }

  /** A BINLOG statement on a server: rows of unmapped tables are passed over, and the end flag closes the maps. */
  function Replay(db: Tables, mapped: set<nat>, items: seq<Item>): Option<Tables>
    decreases |items|
  {
    if items == [] then Some(db)
    else match items[0]
      case MapItem(t) => Replay(db, mapped + {t}, items[1..])
      case RowsItem(e) =>
        var r := if e.table in mapped then ApplyAll(db, OpEdits(e.table, e.op)) else Some(db);
        if r.None? then None else Replay(r.value, if e.stmtEnd then {} else mapped, items[1..])
  }

  /** A fragment is not SQL, and stops the replay. */
  function ReplayChunk(db: Tables, c: Chunk): Option<Tables> {
    match c
    case Statement(items) => Replay(db, {}, items)
    case Fragment(_) => None
    case _ => Some(db)
  }

  function ReplayAll(db: Tables, chunks: seq<Chunk>): Option<Tables>
    decreases |chunks|
  {
    if chunks == [] then Some(db)
    else
      var r := ReplayChunk(db, chunks[0]);
      if r.None? then None else ReplayAll(r.value, chunks[1..])
  }

  lemma InvertedRowsAt(t: nat, op: Op, i: nat)
    requires !op.Update? && i < |op.rows|
    ensures var es, inv := OpEdits(t, op), OpEdits(t, InvertOp(op));
            |inv| == |es| && inv[i] == es[|es| - 1 - i].Inverse()
  {
    ReverseAround(op.rows, |op.rows| - 1 - i);
  }

  lemma InvertedPairsAt(t: nat, op: Op, i: nat)
    requires op.Update? && i < |op.pairs|
    ensures var es, inv := OpEdits(t, op), OpEdits(t, InvertOp(op));
            |inv| == |es| && inv[i] == es[|es| - 1 - i].Inverse()
  {
    ReverseAround(Swapped(op.pairs), |op.pairs| - 1 - i);
  }

  lemma InvertedOpAt(t: nat, op: Op, i: nat)
    requires i < |OpEdits(t, op)|
    ensures var es, inv := OpEdits(t, op), OpEdits(t, InvertOp(op));
            |inv| == |es| == |Undo(es)| && inv[i] == Undo(es)[i]
  {
    var es := OpEdits(t, op);
    UndoAround(es, |es| - 1 - i);
    if op.Update? {
      InvertedPairsAt(t, op, i);
    } else {
      InvertedRowsAt(t, op, i);
    }
  }

  /** The inverted operation makes the inverse changes in reverse order. */
  lemma InvertedOpUndoes(t: nat, op: Op)
    ensures OpEdits(t, InvertOp(op)) == Undo(OpEdits(t, op))
  {
    var es, inv := OpEdits(t, op), OpEdits(t, InvertOp(op));
    if es == [] {
      assert inv == [];
    } else {
      InvertedOpAt(t, op, 0);
      forall i | 0 <= i < |es|
        ensures inv[i] == Undo(es)[i]
      {
        InvertedOpAt(t, op, i);
      }
    }
  }

  /** The events of the given tables. */
  function InTables(tables: set<nat>, es: seq<RowsEvent>): seq<RowsEvent> {
    if es == [] then [] else (if es[0].table in tables then [es[0]] else []) + InTables(tables, es[1..])
  }

  lemma {:induction false} AllInTables(tables: set<nat>, es: seq<RowsEvent>)
    requires forall i :: 0 <= i < |es| ==> es[i].table in tables
    ensures InTables(tables, es) == es
  {
    if es != [] {
      AllInTables(tables, es[1..]);
    }
  }

  function Inverses(es: seq<Edit>): seq<Edit> {
    seq(|es|, i requires 0 <= i < |es| => es[i].Inverse())
  }

  /** Without a table map an inserting or deleting event makes the inverse changes in the old order, others stay. */
  lemma UnmappedEvent(known: set<nat>, e: RowsEvent)
    requires e.table !in known
    ensures var item := Printed(known, e);
            && item.RowsItem? && item.e.table == e.table && item.e.stmtEnd == e.stmtEnd
            && OpEdits(e.table, item.e.op) == if e.op.Update? then OpEdits(e.table, e.op)
                                              else Inverses(OpEdits(e.table, e.op))
  {
  }

  /** The printed form of one event undoes it, if its table is mapped, and is passed over otherwise. */
  lemma ReplayOne(db: Tables, known: set<nat>, mapped: set<nat>, e: RowsEvent, tail: seq<Item>)
    requires mapped <= known
    ensures Replay(db, mapped, [Printed(known, e)] + tail) ==
            var r := ApplyAll(db, Undo(if e.table in mapped then OpEdits(e.table, e.op) else []));
            if r.None? then None else Replay(r.value, if e.stmtEnd then {} else mapped, tail)
  {
    assert ([Printed(known, e)] + tail)[1..] == tail;
    InvertedOpUndoes(e.table, e.op);
  }

  lemma UndoRows(db: Tables, mapped: set<nat>, e: RowsEvent, rest: seq<RowsEvent>)
    ensures var first := Undo(if e.table in mapped then OpEdits(e.table, e.op) else []);
            var r := ApplyAll(db, Undo(RowsEdits(InTables(mapped, rest))));
            ApplyAll(db, Undo(RowsEdits(InTables(mapped, [e] + rest)))) ==
            if r.None? then None else ApplyAll(r.value, first)
  {
    var later := InTables(mapped, rest);
    assert ([e] + rest)[1..] == rest;
    if e.table in mapped {
      var es := [e] + later;
      assert es[1..] == later;
      UndoConcat(OpEdits(e.table, e.op), RowsEdits(later));
      ApplyConcat(db, Undo(RowsEdits(later)), Undo(OpEdits(e.table, e.op)));
    } else {
      assert [] + later == later;
    }
  }

  lemma PrintedReversed(known: set<nat>, e: RowsEvent, rest: seq<RowsEvent>, tail: seq<Item>)
    ensures Reverse(PrintedAll(known, [e] + rest)) + tail ==
            Reverse(PrintedAll(known, rest)) + ([Printed(known, e)] + tail)
  {
    var all := PrintedAll(known, [e] + rest);
    assert all[0] == Printed(known, e) && all[1..] == PrintedAll(known, rest);
  }

  /** Events without the end flag, printed backwards, undo their changes to mapped tables and leave these mapped. */
  lemma {:induction false} ReplayBackwards(db: Tables, known: set<nat>, mapped: set<nat>, es: seq<RowsEvent>,
                                           tail: seq<Item>)
    requires mapped <= known && forall i :: 0 <= i < |es| ==> !es[i].stmtEnd
    ensures Replay(db, mapped, Reverse(PrintedAll(known, es)) + tail) ==
            var r := ApplyAll(db, Undo(RowsEdits(InTables(mapped, es))));
            if r.None? then None else Replay(r.value, mapped, tail)
    decreases |es|
  {
    if es == [] {
      assert Reverse(PrintedAll(known, es)) + tail == tail;
    } else {
      var e, rest := es[0], es[1..];
      assert es == [e] + rest;
      PrintedReversed(known, e, rest, tail);
      ReplayBackwards(db, known, mapped, rest, [Printed(known, e)] + tail);
      UndoRows(db, mapped, e, rest);
      var r := ApplyAll(db, Undo(RowsEdits(InTables(mapped, rest))));
      if r.Some? {
        ReplayOne(r.value, known, mapped, e, tail);
      }
    }
  }

  lemma {:induction false} ReplayMaps(db: Tables, mapped: set<nat>, maps: seq<nat>, tail: seq<Item>)
    ensures Replay(db, mapped, MapItems(maps) + tail) == Replay(db, mapped + AsSet(maps), tail)
    decreases |maps|
  {
    if maps == [] {
      assert MapItems(maps) + tail == tail;
      assert mapped + AsSet(maps) == mapped;
    } else {
      var items := MapItems(maps) + tail;
      assert items[0] == MapItem(maps[0]) && items[1..] == MapItems(maps[1..]) + tail;
      ReplayMaps(db, mapped + {maps[0]}, maps[1..], tail);
      assert maps == [maps[0]] + maps[1..];
      assert mapped + {maps[0]} + AsSet(maps[1..]) == mapped + AsSet(maps);
    }
  }

  /** Events of which only the first has the end flag, printed backwards, undo their changes to mapped tables. */
  lemma ReplayRows(db: Tables, known: set<nat>, mapped: set<nat>, rows: seq<RowsEvent>)
    requires mapped <= known && rows != [] && forall i :: 0 <= i < |rows| ==> (rows[i].stmtEnd <==> i == 0)
    ensures Replay(db, mapped, Reverse(PrintedAll(known, rows))) ==
            ApplyAll(db, Undo(RowsEdits(InTables(mapped, rows))))
  {
    var e, rest := rows[0], rows[1..];
    assert rows == [e] + rest;
    PrintedReversed(known, e, rest, []);
    assert Reverse(PrintedAll(known, rows)) + [] == Reverse(PrintedAll(known, rows));
    ReplayBackwards(db, known, mapped, rest, [Printed(known, e)] + []);
    UndoRows(db, mapped, e, rest);
    var r := ApplyAll(db, Undo(RowsEdits(InTables(mapped, rest))));
    if r.Some? {
      ReplayOne(r.value, known, mapped, e, []);
    }
  }

  /** Replaying what is printed for a statement undoes its changes to the tables it maps. */
  lemma ReplayPrinted(db: Tables, known: set<nat>, maps: seq<nat>, rows: seq<RowsEvent>)
    requires rows != [] && AsSet(maps) <= known
    ensures Replay(db, {}, MapItems(maps) + Reverse(PrintedAll(known, Reflagged(rows)))) ==
            ApplyAll(db, Undo(RowsEdits(InTables(AsSet(maps), rows))))
  {
    var mapped := AsSet(maps);
    ReplayMaps(db, {}, maps, Reverse(PrintedAll(known, Reflagged(rows))));
    assert {} + mapped == mapped;
    ReplayRows(db, known, mapped, Reflagged(rows));
    SameEdits(mapped, rows, Reflagged(rows));
  }

  /** Replaying the chunk of a statement undoes the statement. */
  lemma ReplayStatement(db: Tables, u: Unit)
    requires u.RowStatement? && WellFormed(u)
    ensures Replay(db, {}, ChunkOf(u).items) == ApplyAll(db, Undo(RowsEdits(u.rows)))
  {
    var mapped := AsSet(u.maps);
    KnownAreInverted(mapped, Reflagged(u.rows));
    ReplayPrinted(db, mapped, u.maps, u.rows);
    AllInTables(mapped, u.rows);
  }

  /** The end flags make no difference to the changes. */
  lemma {:induction false} SameEdits(tables: set<nat>, a: seq<RowsEvent>, b: seq<RowsEvent>)
    requires |a| == |b| && forall i :: 0 <= i < |a| ==> a[i].table == b[i].table && a[i].op == b[i].op
    ensures RowsEdits(InTables(tables, a)) == RowsEdits(InTables(tables, b))
    decreases |a|
  {
    if a != [] {
      SameEdits(tables, a[1..], b[1..]);
      var x, y := InTables(tables, a[1..]), InTables(tables, b[1..]);
      assert ([a[0]] + x)[1..] == x && ([b[0]] + y)[1..] == y;
      assert [] + x == x && [] + y == y;
    }
  }

  lemma {:induction false} ReplayConcat(db: Tables, a: seq<Chunk>, b: seq<Chunk>)
    ensures ReplayAll(db, a + b) == var r := ReplayAll(db, a); if r.None? then None else ReplayAll(r.value, b)
    decreases |a|
  {
    if a == [] {
      assert a + b == b;
    } else {
      assert (a + b)[1..] == a[1..] + b;
      var r := ReplayChunk(db, a[0]);
      if r.Some? {
        ReplayConcat(r.value, a[1..], b);
      }
    }
  }

  /** The reversed chunks make the inverse changes of the whole log, in reverse order. */
  lemma {:induction false} ReplayReversed(db: Tables, us: seq<Unit>)
    requires AllWellFormed(us)
    ensures ReplayAll(db, Reverse(ChunksOf(us))) == ApplyAll(db, Undo(LogEdits(us)))
    decreases |us|
  {
    if us != [] {
      var u, rest := us[0], us[1..];
      assert ChunksOf(us)[0] == ChunkOf(u) && ChunksOf(us)[1..] == ChunksOf(rest);
      ReplayReversed(db, rest);
      ReplayConcat(db, Reverse(ChunksOf(rest)), [ChunkOf(u)]);
      var edits := if u.RowStatement? then RowsEdits(u.rows) else [];
      UndoConcat(edits, LogEdits(rest));
      ApplyConcat(db, Undo(LogEdits(rest)), Undo(edits));
      var mid := ApplyAll(db, Undo(LogEdits(rest)));
      if mid.Some? {
        OneChunk(mid.value, u);
      }
    }
  }

  lemma OneChunk(db: Tables, u: Unit)
    requires WellFormed(u)
    ensures ReplayAll(db, [ChunkOf(u)]) == ApplyAll(db, Undo(if u.RowStatement? then RowsEdits(u.rows) else []))
  {
    if u.RowStatement? {
      ReplayStatement(db, u);
    }
  }

  /** Flashback: replaying the output on the state the log led to gives back the state it started from. */
  lemma FlashbackUndoesLog(db: Tables, us: seq<Unit>)
    requires AllWellFormed(us) && ApplyAll(db, LogEdits(us)).Some?
    ensures ReplayAll(ApplyAll(db, LogEdits(us)).value, Output(Events(us))) == Some(db)
  {
    var after := ApplyAll(db, LogEdits(us)).value;
    OutputIsReversed(us);
    ReplayConcat(after, Reverse(ChunksOf(us)), [CommitTransaction]);
    ReplayReversed(after, us);
    UndoRestores(db, LogEdits(us));
    assert ReplayAll(db, [CommitTransaction]) == Some(db);
  }

  // ---------------------------------------------------------------- transactions

  /** Follows the transaction marks of a log: whether a transaction is open, or None after a mark out of place. */
  function OpenAfter(open: bool, us: seq<Unit>): Option<bool>
    decreases |us|
  {
    if us == [] then Some(open)
    else match us[0]
      case Opening => if open then None else OpenAfter(true, us[1..])
      case Closing => if open then OpenAfter(false, us[1..]) else None
      case RowStatement(_, _) => if open then OpenAfter(open, us[1..]) else None
  }

  /** The same for an output. */
  function OpenAfterReplay(open: bool, cs: seq<Chunk>): Option<bool>
    decreases |cs|
  {
    if cs == [] then Some(open)
    else match cs[0]
      case StartTransaction => if open then None else OpenAfterReplay(true, cs[1..])
      case CommitTransaction => if open then OpenAfterReplay(false, cs[1..]) else None
      case _ => if open then OpenAfterReplay(open, cs[1..]) else None
  }

  lemma {:induction false} OpenConcat(open: bool, a: seq<Chunk>, b: seq<Chunk>)
    ensures OpenAfterReplay(open, a + b) ==
            var r := OpenAfterReplay(open, a); if r.None? then None else OpenAfterReplay(r.value, b)
    decreases |a|
  {
    if a == [] {
      assert a + b == b;
    } else {
      assert (a + b)[1..] == a[1..] + b;
      OpenConcat(true, a[1..], b);
      OpenConcat(false, a[1..], b);
    }
  }

  /** The marks exchange their roles: read backwards, the units open and close transactions in turn again. */
  lemma {:induction false} MarksReverse(open: bool, us: seq<Unit>)
    requires OpenAfter(open, us).Some?
    ensures OpenAfterReplay(OpenAfter(open, us).value, Reverse(ChunksOf(us))) == Some(open)
    decreases |us|
  {
    if us != [] {
      var u, rest, last := us[0], us[1..], OpenAfter(open, us).value;
      var mid := if u.Opening? then true else if u.Closing? then false else open;
      MarksReverse(mid, rest);
      assert ChunksOf(us)[0] == ChunkOf(u) && ChunksOf(us)[1..] == ChunksOf(rest);
      OpenConcat(last, Reverse(ChunksOf(rest)), [ChunkOf(u)]);
    }
  }

  /**
   Started where the log ended, the output opens and closes transactions in turn up to its last COMMIT. That one
   closes a transaction if the log began inside one, and is out of place otherwise.
   */
  lemma TransactionsStayWhole(open: bool, us: seq<Unit>)
    requires AllWellFormed(us) && OpenAfter(open, us).Some?
    ensures OpenAfterReplay(OpenAfter(open, us).value, Output(Events(us))) == if open then Some(false) else None
    ensures Output(Events(us)) == Reverse(ChunksOf(us)) + [CommitTransaction]
    ensures OpenAfterReplay(OpenAfter(open, us).value, Reverse(ChunksOf(us))) == Some(open)
  {
    OutputIsReversed(us);
    MarksReverse(open, us);
    OpenConcat(OpenAfter(open, us).value, Reverse(ChunksOf(us)), [CommitTransaction]);
    assert OpenAfterReplay(false, [CommitTransaction]) == None;
    assert OpenAfterReplay(true, [CommitTransaction]) == Some(false);
  }

  // ---------------------------------------------------------------- with --database or --table

  /** A row statement of a log read with a filter that hides some tables. */
  datatype Filtered = Filtered(maps: seq<nat>, hidden: set<nat>, rows: seq<RowsEvent>) {
    predicate Valid() { WellFormed(RowStatement(maps, rows)) }

    function Last(): RowsEvent
      requires Valid()
    {
      rows[|rows| - 1]
    }

    predicate Drops(e: RowsEvent) { e.table in hidden }

    /** Some row events are of hidden tables and some are not. */
    predicate Mixed() {
      && (exists i :: 0 <= i < |rows| && Drops(rows[i]))
      && (exists i :: 0 <= i < |rows| && !Drops(rows[i]))
    }

    function Events(): seq<Event> {
      FilteredMaps(maps, hidden) + RowEvents(rows)
    }
  }

  function FilteredMaps(maps: seq<nat>, hidden: set<nat>): seq<Event> {
    seq(|maps|, i requires 0 <= i < |maps| => TableMap(maps[i], maps[i] in hidden))
  }

  function KeptMaps(maps: seq<nat>, hidden: set<nat>): seq<nat> {
    if maps == [] then [] else (if maps[0] in hidden then [] else [maps[0]]) + KeptMaps(maps[1..], hidden)
  }

  function KeptRows(f: Filtered, rows: seq<RowsEvent>): seq<RowsEvent> {
    if rows == [] then [] else (if f.Drops(rows[0]) then [] else [rows[0]]) + KeptRows(f, rows[1..])
  }

  /** What the same statement gives when the log does not mention the hidden tables at all. */
  function Promised(f: Filtered): seq<Chunk> {
    var rows := KeptRows(f, f.rows);
    if rows == [] then [] else [ChunkOf(RowStatement(KeptMaps(f.maps, f.hidden), rows))]
  }

  lemma {:induction false} KeptRowsCount(f: Filtered, rows: seq<RowsEvent>)
    ensures |KeptRows(f, rows)| <= |rows|
    ensures (forall i :: 0 <= i < |rows| ==> !f.Drops(rows[i])) ==> KeptRows(f, rows) == rows
    ensures (exists i :: 0 <= i < |rows| && !f.Drops(rows[i])) <==> KeptRows(f, rows) != []
    ensures (exists i :: 0 <= i < |rows| && f.Drops(rows[i])) <==> |KeptRows(f, rows)| < |rows|
    decreases |rows|
  {
    if rows != [] {
      KeptRowsCount(f, rows[1..]);
      assert rows == [rows[0]] + rows[1..];
      assert forall i :: 0 <= i < |rows[1..]| ==> rows[1..][i] == rows[i + 1];
    }
  }

  lemma {:induction false} RunFilteredMaps(s: State, maps: seq<nat>, hidden: set<nat>)
    ensures Run(s, FilteredMaps(maps, hidden)) ==
            s.(ignored := s.ignored + (set t | t in maps && t in hidden),
               known := s.known + AsSet(KeptMaps(maps, hidden)),
               body := s.body + MapItems(KeptMaps(maps, hidden)),
               inStmt := if KeptMaps(maps, hidden) == [] then s.inStmt else [])
    decreases |maps|
  {
    var evs := FilteredMaps(maps, hidden);
    if maps == [] {
      assert s.ignored + (set t | t in maps && t in hidden) == s.ignored;
      assert s.body + MapItems(KeptMaps(maps, hidden)) == s.body;
      assert s.known + AsSet(KeptMaps(maps, hidden)) == s.known;
    } else {
      var u := Step(s, evs[0]);
      assert evs[1..] == FilteredMaps(maps[1..], hidden);
      RunFilteredMaps(u, maps[1..], hidden);
      HiddenJoin(maps, hidden);
      ItemsJoin(maps, hidden);
      var m, items := maps[0], MapItems(KeptMaps(maps[1..], hidden));
      if m in hidden {
        assert u == s.(ignored := s.ignored + {m});
        assert [] + items == items;
      } else {
        assert u == s.(known := s.known + {m}, body := s.body + [MapItem(m)], inStmt := []);
        assert s.body + [MapItem(m)] + items == s.body + ([MapItem(m)] + items);
        KnownJoin(s.known, m, KeptMaps(maps[1..], hidden));
      }
    }
  }

  lemma HiddenJoin(maps: seq<nat>, hidden: set<nat>)
    requires maps != []
    ensures (set t | t in maps && t in hidden) ==
            (if maps[0] in hidden then {maps[0]} else {}) + (set t | t in maps[1..] && t in hidden)
  {
    assert maps == [maps[0]] + maps[1..];
  }

  lemma KnownJoin(known: set<nat>, m: nat, rest: seq<nat>)
    ensures known + {m} + AsSet(rest) == known + AsSet([m] + rest)
  {
  }

  lemma ItemsJoin(maps: seq<nat>, hidden: set<nat>)
    requires maps != []
    ensures MapItems(KeptMaps(maps, hidden)) ==
            (if maps[0] in hidden then [] else [MapItem(maps[0])]) + MapItems(KeptMaps(maps[1..], hidden))
  {
  }

  lemma {:induction false} KeptMap(maps: seq<nat>, hidden: set<nat>, t: nat)
    ensures t in KeptMaps(maps, hidden) <==> t in maps && t !in hidden
    decreases |maps|
  {
    if maps != [] {
      KeptMap(maps[1..], hidden, t);
      assert maps == [maps[0]] + maps[1..];
    }
  }

  /** Before the statement ends, row events change nothing but the list of collected ones. */
  lemma {:induction false} RunOnlyCollects(s: State, rows: seq<RowsEvent>)
    requires forall i :: 0 <= i < |rows| ==> !rows[i].stmtEnd
    ensures Run(s, RowEvents(rows)) == s.(inStmt := Run(s, RowEvents(rows)).inStmt)
    decreases |rows|
  {
    if rows != [] {
      assert RowEvents(rows)[1..] == RowEvents(rows[1..]);
      RunOnlyCollects(Step(s, Rows(rows[0])), rows[1..]);
    }
  }

  /** A statement whose last row event is hidden: nothing is stored, and the table maps go to the file. */
  lemma RunDropped(t: State, rows: seq<RowsEvent>)
    requires rows != [] && (forall i :: 0 <= i < |rows| ==> (rows[i].stmtEnd <==> i == |rows| - 1))
    requires rows[|rows| - 1].table in t.ignored
    ensures var r := Run(t, RowEvents(rows));
            && r.chunks == t.chunks && (r.file == if t.body == [] then t.file else t.file + [Fragment(t.body)])
            && r.ignored == {} && r.body == []
  {
    var n := |rows| - 1;
    var front, e := RowEvents(rows[..n]), rows[n];
    assert RowEvents(rows) == front + [Rows(e)];
    RunConcat(t, front, [Rows(e)]);
    RunOnlyCollects(t, rows[..n]);
    var v := Run(t, front);
    assert Run(v, [Rows(e)]) == Step(v, Rows(e));
  }

  /** What is stored for a filtered statement: nothing if its last row event is hidden, else all of its row events. */
  function Stored(known: set<nat>, f: Filtered): seq<Chunk>
    requires f.Valid()
  {
    if f.Drops(f.Last()) then []
    else
      var maps := KeptMaps(f.maps, f.hidden);
      [Statement(MapItems(maps) + Reverse(PrintedAll(known + AsSet(maps), Reflagged(f.rows))))]
  }

  /** What is written at once: the visible table maps of a statement whose last row event is hidden. */
  function Spilled(f: Filtered): seq<Chunk>
    requires f.Valid()
  {
    var maps := KeptMaps(f.maps, f.hidden);
    if f.Drops(f.Last()) && maps != [] then [Fragment(MapItems(maps))] else []
  }

  /** A filtered statement is dropped but for its table maps if its last row event is, and otherwise printed whole. */
  lemma FilteredStatement(s: State, f: Filtered)
    requires f.Valid() && s.ignored == {} && s.body == []
    ensures var r := Run(s, f.Events());
            && r.chunks == s.chunks + Stored(s.known, f) && r.file == s.file + Spilled(f)
            && r.ignored == {} && r.body == []
  {
    RunConcat(s, FilteredMaps(f.maps, f.hidden), RowEvents(f.rows));
    RunFilteredMaps(s, f.maps, f.hidden);
    var t := Run(s, FilteredMaps(f.maps, f.hidden));
    var items := MapItems(KeptMaps(f.maps, f.hidden));
    assert t.body == items && t.ignored == set x | x in f.maps && x in f.hidden;
    assert f.Last().table in t.ignored <==> f.Drops(f.Last());
    if f.Drops(f.Last()) {
      RunDropped(t, f.rows);
    } else {
      KeptMap(f.maps, f.hidden, f.Last().table);
      RunRows(t, f.rows);
    }
  }

  lemma ItemCount(known: set<nat>, maps: seq<nat>, rows: seq<RowsEvent>)
    ensures |MapItems(maps) + Reverse(PrintedAll(known, Reflagged(rows)))| == |maps| + |rows|
    ensures |ChunkOf(RowStatement(maps, rows)).items| == |maps| + |rows|
  {
    ReverseLength(PrintedAll(known, Reflagged(rows)));
    ReverseLength(InvertedAll(Reflagged(rows)));
  }

  /** What is stored is what was promised exactly if the statement is hidden as a whole or not at all. */
  lemma StoredAsPromised(known: set<nat>, f: Filtered)
    requires f.Valid()
    ensures Stored(known, f) == Promised(f) <==> !f.Mixed()
  {
    var rows, maps, kept := f.rows, KeptMaps(f.maps, f.hidden), KeptRows(f, f.rows);
    KeptRowsCount(f, rows);
    if !f.Drops(f.Last()) {
      var all := known + AsSet(maps);
      ItemCount(all, maps, rows);
      ItemCount(all, maps, kept);
      if kept == rows {
        forall i | 0 <= i < |rows| ensures rows[i].table in all {
          KeptMap(f.maps, f.hidden, rows[i].table);
        }
        KnownAreInverted(all, Reflagged(rows));
      }
    }
  }

  /**
   Filtering keeps its promise, in what is stored and in what is written, exactly for the statements that are not
   hidden at all and for those that are hidden as a whole and map no visible table.
   */
  lemma FilterKeepsPromise(s: State, f: Filtered)
    requires f.Valid() && s.ignored == {} && s.body == []
    ensures var r := Run(s, f.Events());
            r.chunks == s.chunks + Promised(f) && r.file == s.file <==>
            !f.Mixed() && (f.Drops(f.Last()) ==> KeptMaps(f.maps, f.hidden) == [])
  {
    FilteredStatement(s, f);
    StoredAsPromised(s.known, f);
    assert s.chunks + Stored(s.known, f) == s.chunks + Promised(f) ==> Stored(s.known, f) == Promised(f) by {
      AppendedSame(s.chunks, Stored(s.known, f), Promised(f));
    }
    AppendedSame(s.file, Spilled(f), []);
    assert s.file + [] == s.file;
  }

  lemma AppendedSame(a: seq<Chunk>, b: seq<Chunk>, c: seq<Chunk>)
    ensures a + b == a + c <==> b == c
  {
    if a + b == a + c {
      assert b == (a + b)[|a|..] == (a + c)[|a|..] == c;
    }
  }

  /** For instance, a visible row is lost when a hidden one ends its statement. */
  lemma HiddenLastRowLosesStatement(r: Row)
    ensures var f := Filtered([1, 2], {2}, [RowsEvent(1, Write([r]), false), RowsEvent(2, Write([r]), true)]);
            f.Valid() && Run(Start(), f.Events()).chunks == [] && |Promised(f)| == 1
  {
    var f := Filtered([1, 2], {2}, [RowsEvent(1, Write([r]), false), RowsEvent(2, Write([r]), true)]);
    assert f.rows[0].table in f.maps && f.rows[1].table in f.maps;
    FilteredStatement(Start(), f);
    KeptRowsCount(f, f.rows);
    assert !f.Drops(f.rows[0]);
  }

  /** And a statement that maps a visible table but changes a hidden one only leaves a fragment in the file. */
  lemma HiddenStatementLeavesFragment(r: Row)
    ensures var f := Filtered([1, 2], {2}, [RowsEvent(2, Write([r]), true)]);
            && f.Valid() && !f.Mixed() && Promised(f) == []
            && Run(Start(), f.Events()).file == [Fragment([MapItem(1)])]
  {
    var f := Filtered([1, 2], {2}, [RowsEvent(2, Write([r]), true)]);
    assert f.rows[0].table in f.maps && f.Drops(f.rows[0]);
    FilteredStatement(Start(), f);
    assert f.maps[1..][1..] == [] && KeptMaps(f.maps[1..], f.hidden) == [];
    assert KeptMaps(f.maps, f.hidden) == [1];
    assert MapItems([1]) == [MapItem(1)];
    KeptRowsCount(f, f.rows);
  }

  lemma {:induction false} KeptRowsAreMapped(f: Filtered, rows: seq<RowsEvent>)
    requires forall i :: 0 <= i < |rows| ==> rows[i].table in f.maps
    ensures InTables(AsSet(KeptMaps(f.maps, f.hidden)), rows) == KeptRows(f, rows)
    decreases |rows|
  {
    if rows != [] {
      KeptRowsAreMapped(f, rows[1..]);
      KeptMap(f.maps, f.hidden, rows[0].table);
    }
  }

  lemma OneReplayed(db: Tables, items: seq<Item>)
    ensures ReplayAll(db, [Statement(items)]) == Replay(db, {}, items)
  {
    assert [Statement(items)][1..] == [];
  }

  /** What is promised undoes the visible rows. */
  lemma PromisedUndoesVisible(db: Tables, f: Filtered)
    requires f.Valid() && KeptRows(f, f.rows) != []
    ensures ReplayAll(db, Promised(f)) == ApplyAll(db, Undo(RowsEdits(KeptRows(f, f.rows))))
  {
    var maps, kept := KeptMaps(f.maps, f.hidden), KeptRows(f, f.rows);
    KeptInTables(f, f.rows);
    KnownAreInverted(AsSet(maps), Reflagged(kept));
    ReplayPrinted(db, AsSet(maps), maps, kept);
    AllInTables(AsSet(maps), kept);
    OneReplayed(db, ChunkOf(RowStatement(maps, kept)).items);
  }

  /**
   The hidden row events that a printed statement holds do no harm: their tables are not mapped, so that a server
   passes them over and undoes exactly the visible rows, as promised.
   */
  lemma PrintedWholeUndoesVisible(db: Tables, known: set<nat>, f: Filtered)
    requires f.Valid() && !f.Drops(f.Last())
    ensures ReplayAll(db, Stored(known, f)) == ApplyAll(db, Undo(RowsEdits(KeptRows(f, f.rows))))
    ensures ReplayAll(db, Stored(known, f)) == ReplayAll(db, Promised(f))
  {
    var maps := KeptMaps(f.maps, f.hidden);
    var all := known + AsSet(maps);
    ReplayPrinted(db, all, maps, f.rows);
    OneReplayed(db, MapItems(maps) + Reverse(PrintedAll(all, Reflagged(f.rows))));
    KeptRowsAreMapped(f, f.rows);
    KeptRowsCount(f, f.rows);
    PromisedUndoesVisible(db, f);
  }

  lemma {:induction false} KeptInTables(f: Filtered, rows: seq<RowsEvent>)
    requires forall i :: 0 <= i < |rows| ==> rows[i].table in f.maps
    ensures forall i :: 0 <= i < |KeptRows(f, rows)| ==> KeptRows(f, rows)[i].table in KeptMaps(f.maps, f.hidden)
    decreases |rows|
  {
    if rows != [] {
      KeptInTables(f, rows[1..]);
      KeptMap(f.maps, f.hidden, rows[0].table);
    }
  }
}
