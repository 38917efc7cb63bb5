/** Flashback of a whole log that is read with --database or --table: when exactly it undoes the visible rows. */
module FilteredLog {
  import opened Optional
  import opened Sequences
  import opened RowChanges
  import opened Flashback
  import opened FlashbackLaws

  function UnitShown(hidden: set<nat>, u: Unit): seq<Event> {
    if u.RowStatement? then Filtered(u.maps, hidden, u.rows).Events() else UnitEvents(u)
  }

  /** The events of a log with the table maps of the hidden tables marked as such. */
  function EventsShown(hidden: set<nat>, us: seq<Unit>): seq<Event> {
    if us == [] then [] else UnitShown(hidden, us[0]) + EventsShown(hidden, us[1..])
  }

  /** The edits of tables that are not hidden. */
  function Visible(hidden: set<nat>, es: seq<Edit>): seq<Edit> {
    if es == [] then [] else (if es[0].table in hidden then [] else [es[0]]) + Visible(hidden, es[1..])
  }

  /** The statement ends in a visible row event, or maps no visible table. */
  predicate Harmless(hidden: set<nat>, u: Unit) {
    u.RowStatement? && u.rows != [] && u.rows[|u.rows| - 1].table in hidden ==> AsSet(u.maps) <= hidden
  }

  predicate AllHarmless(hidden: set<nat>, us: seq<Unit>) {
    forall u :: u in us ==> Harmless(hidden, u)
  }

  function UnitEdits(u: Unit): seq<Edit> {
    if u.RowStatement? then RowsEdits(u.rows) else []
  }

  lemma {:induction false} VisibleConcat(hidden: set<nat>, a: seq<Edit>, b: seq<Edit>)
    ensures Visible(hidden, a + b) == Visible(hidden, a) + Visible(hidden, b)
    decreases |a|
  {
    if a == [] {
      assert a + b == b;
    } else {
      VisibleConcat(hidden, a[1..], b);
      assert (a + b)[1..] == a[1..] + b && (a + b)[0] == a[0];
      Associate(if a[0].table in hidden then [] else [a[0]], Visible(hidden, a[1..]), Visible(hidden, b));
    }
  }

  /** The edits of one table are visible together. */
  lemma {:induction false} VisibleTable(hidden: set<nat>, t: nat, es: seq<Edit>)
    requires forall i :: 0 <= i < |es| ==> es[i].table == t
    ensures Visible(hidden, es) == if t in hidden then [] else es
  {
    if es != [] {
      VisibleTable(hidden, t, es[1..]);
      assert es == [es[0]] + es[1..];
    }
  }

  lemma {:induction false} VisibleRows(f: Filtered, rows: seq<RowsEvent>)
    ensures RowsEdits(KeptRows(f, rows)) == Visible(f.hidden, RowsEdits(rows))
    decreases |rows|
  {
    if rows != [] {
      VisibleRows(f, rows[1..]);
      var first, kept := OpEdits(rows[0].table, rows[0].op), KeptRows(f, rows[1..]);
      VisibleConcat(f.hidden, first, RowsEdits(rows[1..]));
      VisibleTable(f.hidden, rows[0].table, first);
      assert ([rows[0]] + kept)[1..] == kept;
      assert [] + kept == kept;
    }
  }

  lemma NothingKept(f: Filtered, rows: seq<RowsEvent>)
    requires forall i :: 0 <= i < |rows| ==> f.Drops(rows[i])
    ensures KeptRows(f, rows) == []
  {
    KeptRowsCount(f, rows);
  }

  /** What is written at once for a unit. */
  function UnitSpilled(hidden: set<nat>, u: Unit): seq<Chunk>
    requires WellFormed(u)
  {
    if u.RowStatement? then Spilled(Filtered(u.maps, hidden, u.rows)) else []
  }

  lemma {:induction false} NoMapsKept(maps: seq<nat>, hidden: set<nat>)
    ensures KeptMaps(maps, hidden) == [] <==> AsSet(maps) <= hidden
  {
    if maps != [] {
      NoMapsKept(maps[1..], hidden);
      assert maps == [maps[0]] + maps[1..];
      assert AsSet(maps) == {maps[0]} + AsSet(maps[1..]);
    }
  }

  lemma SpilledUnlessHarmless(hidden: set<nat>, u: Unit)
    requires WellFormed(u)
    ensures if Harmless(hidden, u) then UnitSpilled(hidden, u) == []
            else |UnitSpilled(hidden, u)| == 1 && UnitSpilled(hidden, u)[0].Fragment?
  {
    if u.RowStatement? {
      NoMapsKept(u.maps, hidden);
    }
  }

  /** What a unit stores. */
  function UnitStored(known: set<nat>, hidden: set<nat>, u: Unit): seq<Chunk>
    requires WellFormed(u)
  {
    if u.RowStatement? then Stored(known, Filtered(u.maps, hidden, u.rows)) else [ChunkOf(u)]
  }

  /** One unit: what it adds to the stored chunks undoes its visible rows, unless it spills. */
  lemma RunShown(s: State, hidden: set<nat>, u: Unit) returns (cs: seq<Chunk>)
    requires WellFormed(u) && s.ignored == {} && s.body == []
    ensures var r := Run(s, UnitShown(hidden, u));
            && r.chunks == s.chunks + cs && r.file == s.file + UnitSpilled(hidden, u)
            && r.ignored == {} && r.body == []
    ensures cs == UnitStored(s.known, hidden, u)
  {
    if u.RowStatement? {
      var f := Filtered(u.maps, hidden, u.rows);
      FilteredStatement(s, f);
      cs := Stored(s.known, f);
    } else {
      RunUnit(s, u);
      cs := [ChunkOf(u)];
      assert s.file + [] == s.file;
    }
  }

  lemma OneReversed(c: Chunk)
    ensures Reverse([c]) == [c]
  {
    assert [c][1..] == [];
  }

  lemma StoredUndoes(db: Tables, known: set<nat>, f: Filtered)
    requires f.Valid() && Harmless(f.hidden, RowStatement(f.maps, f.rows))
    ensures ReplayAll(db, Reverse(Stored(known, f))) == ApplyAll(db, Undo(Visible(f.hidden, RowsEdits(f.rows))))
  {
    VisibleRows(f, f.rows);
    if f.Drops(f.Last()) {
      assert forall i :: 0 <= i < |f.rows| ==> f.rows[i].table in AsSet(f.maps);
      NothingKept(f, f.rows);
    } else {
      PrintedWholeUndoesVisible(db, known, f);
      OneReversed(Stored(known, f)[0]);
    }
  }

  function SpilledAll(hidden: set<nat>, us: seq<Unit>): seq<Chunk>
    requires AllWellFormed(us)
  {
    if us == [] then [] else UnitSpilled(hidden, us[0]) + SpilledAll(hidden, us[1..])
  }

  lemma {:induction false} AllSpilled(hidden: set<nat>, us: seq<Unit>)
    requires AllWellFormed(us)
    ensures if AllHarmless(hidden, us) then SpilledAll(hidden, us) == []
            else SpilledAll(hidden, us) != [] && SpilledAll(hidden, us)[0].Fragment?
  {
    if us != [] {
      SpilledUnlessHarmless(hidden, us[0]);
      AllSpilled(hidden, us[1..]);
      assert us == [us[0]] + us[1..];
      assert AllHarmless(hidden, us) <==> Harmless(hidden, us[0]) && AllHarmless(hidden, us[1..]);
    }
  }

  /** The edits of a unit, then those of the rest, visible and undone. */
  lemma UndoSplit(db: Tables, hidden: set<nat>, u: Unit, rest: seq<Unit>)
    ensures ApplyAll(db, Undo(Visible(hidden, LogEdits([u] + rest)))) ==
            var r := ApplyAll(db, Undo(Visible(hidden, LogEdits(rest))));
            if r.None? then None else ApplyAll(r.value, Undo(Visible(hidden, UnitEdits(u))))
  {
    assert ([u] + rest)[1..] == rest;
    var a, b := Visible(hidden, UnitEdits(u)), Visible(hidden, LogEdits(rest));
    VisibleConcat(hidden, UnitEdits(u), LogEdits(rest));
    UndoConcat(a, b);
    ApplyConcat(db, Undo(b), Undo(a));
  }

  lemma UnitUndone(db: Tables, known: set<nat>, hidden: set<nat>, u: Unit)
    requires WellFormed(u) && Harmless(hidden, u)
    ensures ReplayAll(db, Reverse(UnitStored(known, hidden, u))) ==
            ApplyAll(db, Undo(Visible(hidden, UnitEdits(u))))
  {
    if u.RowStatement? {
      StoredUndoes(db, known, Filtered(u.maps, hidden, u.rows));
    } else {
      OneReversed(ChunkOf(u));
      assert ReplayAll(db, [ChunkOf(u)]) == Some(db);
    }
  }

  lemma UndoneTogether(db: Tables, known: set<nat>, hidden: set<nat>, u: Unit, rest: seq<Unit>, first: seq<Chunk>,
                       later: seq<Chunk>)
    requires WellFormed(u) && Harmless(hidden, u) && first == UnitStored(known, hidden, u)
    requires ReplayAll(db, Reverse(later)) == ApplyAll(db, Undo(Visible(hidden, LogEdits(rest))))
    ensures ReplayAll(db, Reverse(first + later)) == ApplyAll(db, Undo(Visible(hidden, LogEdits([u] + rest))))
  {
    ReverseConcat(first, later);
    ReplayConcat(db, Reverse(later), Reverse(first));
    UndoSplit(db, hidden, u, rest);
    var mid := ReplayAll(db, Reverse(later));
    if mid.Some? {
      UnitUndone(mid.value, known, hidden, u);
    }
  }

  /** The whole log: what is stored undoes the visible rows, and what is written at once is told by `SpilledAll`. */
  lemma {:induction false} RunShownAll(s: State, hidden: set<nat>, us: seq<Unit>, db: Tables) returns (cs: seq<Chunk>)
    requires AllWellFormed(us) && s.ignored == {} && s.body == []
    ensures var r := Run(s, EventsShown(hidden, us));
            r.chunks == s.chunks + cs && r.file == s.file + SpilledAll(hidden, us)
    ensures AllHarmless(hidden, us) ==>
              ReplayAll(db, Reverse(cs)) == ApplyAll(db, Undo(Visible(hidden, LogEdits(us))))
    decreases |us|
  {
    if us == [] {
      cs := [];
      assert s.chunks + cs == s.chunks && s.file + [] == s.file;
    } else {
      var u, rest := us[0], us[1..];
      assert us == [u] + rest;
      RunConcat(s, UnitShown(hidden, u), EventsShown(hidden, rest));
      var first := RunShown(s, hidden, u);
      var later := RunShownAll(Run(s, UnitShown(hidden, u)), hidden, rest, db);
      cs := first + later;
      Associate(s.chunks, first, later);
      Associate(s.file, UnitSpilled(hidden, u), SpilledAll(hidden, rest));
      if AllHarmless(hidden, us) {
        UndoneTogether(db, s.known, hidden, u, rest, first, later);
      }
    }
  }

  lemma FragmentStops(db: Tables, cs: seq<Chunk>)
    requires cs != [] && cs[0].Fragment?
    ensures ReplayAll(db, cs) == None
  {
  }

  /** Replaying the output makes the inverse changes of the visible rows, or stops at a fragment. */
  lemma OutputReplayed(db: Tables, hidden: set<nat>, us: seq<Unit>)
    requires AllWellFormed(us)
    ensures ReplayAll(db, Output(EventsShown(hidden, us))) ==
            if AllHarmless(hidden, us) then ApplyAll(db, Undo(Visible(hidden, LogEdits(us)))) else None
  {
    var cs := RunShownAll(Start(), hidden, us, db);
    AllSpilled(hidden, us);
    assert [] + cs == cs;
    assert [] + SpilledAll(hidden, us) == SpilledAll(hidden, us);
    var out := SpilledAll(hidden, us) + Reverse(cs) + [CommitTransaction];
    assert Output(EventsShown(hidden, us)) == out;
    if AllHarmless(hidden, us) {
      assert [] + Reverse(cs) == Reverse(cs);
      ReplayConcat(db, Reverse(cs), [CommitTransaction]);
      var r := ReplayAll(db, Reverse(cs));
      assert r.Some? ==> ReplayAll(r.value, [CommitTransaction]) == r;
    } else {
      assert out[0] == SpilledAll(hidden, us)[0];
      FragmentStops(db, out);
    }
  }

  /** The visible tables of one server and the hidden ones of another. */
  function Blend(hidden: set<nat>, db: Tables, other: Tables): Tables
    requires db.Keys == other.Keys
  {
    map t | t in db :: if t in hidden then other[t] else db[t]
  }

  lemma {:induction false} SameTables(db: Tables, es: seq<Edit>)
    requires ApplyAll(db, es).Some?
    ensures ApplyAll(db, es).value.Keys == db.Keys
    decreases |es|
  {
    if es != [] {
      SameTables(Apply(db, es[0]).value, es[1..]);
    }
  }

  lemma BlendUpdate(hidden: set<nat>, db: Tables, other: Tables, t: nat, rows: multiset<Row>)
    requires db.Keys == other.Keys && t in db
    ensures db[t := rows].Keys == other.Keys
    ensures Blend(hidden, db[t := rows], other) ==
            if t in hidden then Blend(hidden, db, other) else Blend(hidden, db, other)[t := rows]
    ensures t !in hidden ==> Blend(hidden, db, other)[t] == db[t]
  {
    assert db[t := rows].Keys == db.Keys;
  }

  lemma BlendStep(hidden: set<nat>, db: Tables, other: Tables, e: Edit)
    requires db.Keys == other.Keys && Apply(db, e).Some?
    ensures Apply(db, e).value.Keys == other.Keys
    ensures var later := Blend(hidden, Apply(db, e).value, other);
            if e.table in hidden then later == Blend(hidden, db, other)
            else Apply(Blend(hidden, db, other), e) == Some(later)
  {
    var rows := ChangeRows(db[e.table], e.change).value;
    BlendUpdate(hidden, db, other, e.table, rows);
  }

  /** The visible edits do to the visible tables what all edits do, whatever is in the hidden ones. */
  lemma {:induction false} VisibleApplied(hidden: set<nat>, db: Tables, other: Tables, es: seq<Edit>)
    requires db.Keys == other.Keys && ApplyAll(db, es).Some?
    ensures ApplyAll(db, es).value.Keys == other.Keys
    ensures ApplyAll(Blend(hidden, db, other), Visible(hidden, es)) ==
            Some(Blend(hidden, ApplyAll(db, es).value, other))
    decreases |es|
  {
    if es != [] {
      var e, rest := es[0], es[1..];
      BlendStep(hidden, db, other, e);
      VisibleApplied(hidden, Apply(db, e).value, other, rest);
      var later := Visible(hidden, rest);
      assert ([e] + later)[1..] == later && [] + later == later;
    }
  }

  /**
   Flashback with a filter: replayed on the state the log led to, the output takes the visible tables back to where
   the log started and leaves the hidden ones as they are, if and only if no statement ends in a hidden row event and
   maps a visible table; otherwise the replay stops.
   */
  lemma FilteredFlashback(db: Tables, hidden: set<nat>, us: seq<Unit>)
    requires AllWellFormed(us) && ApplyAll(db, LogEdits(us)).Some?
    ensures ApplyAll(db, LogEdits(us)).value.Keys == db.Keys
    ensures var after := ApplyAll(db, LogEdits(us)).value;
            ReplayAll(after, Output(EventsShown(hidden, us))) ==
            if AllHarmless(hidden, us) then Some(Blend(hidden, db, after)) else None
  {
    var es := LogEdits(us);
    var after := ApplyAll(db, es).value;
    SameTables(db, es);
    OutputReplayed(after, hidden, us);
    VisibleApplied(hidden, db, after, es);
    assert Blend(hidden, after, after) == after;
    UndoRestores(Blend(hidden, db, after), Visible(hidden, es));
  }
}
