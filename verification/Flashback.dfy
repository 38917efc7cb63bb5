/** `mysqlbinlog --flashback`: row events printed inverted and backwards, so that the output undoes the log. */
module Flashback {
  import opened RowChanges

  datatype Op = Write(rows: seq<Row>) | Delete(rows: seq<Row>) | Update(pairs: seq<(Row, Row)>)

  /** A rows event; `stmtEnd` is its STMT_END_F flag. */
  datatype RowsEvent = RowsEvent(table: nat, op: Op, stmtEnd: bool)

  datatype Event =
    | Begin                                       // a BEGIN query, or a GTID event that opens a transaction
    | Commit                                      // a COMMIT query or an XID event
    | TableMap(table: nat, filtered: bool)        // `filtered` by --database or --table
    | Rows(e: RowsEvent)

  /** What goes into a BINLOG statement. */
  datatype Item = MapItem(table: nat) | RowsItem(e: RowsEvent)

  /** A piece of output; a fragment is a cache that was written without the BINLOG statement around it. */
  datatype Chunk = StartTransaction | CommitTransaction | Statement(items: seq<Item>) | Fragment(items: seq<Item>)

  function Swapped(pairs: seq<(Row, Row)>): seq<(Row, Row)> {
    seq(|pairs|, i requires 0 <= i < |pairs| => (pairs[i].1, pairs[i].0))
  }

  /** `change_to_flashback_event`: rows from last to first, updates with their images exchanged. */
  function InvertOp(op: Op): Op {
    match op
    case Write(rows) => Delete(Reverse(rows))
    case Delete(rows) => Write(Reverse(rows))
    case Update(pairs) => Update(Reverse(Swapped(pairs)))
  }

  function Inverted(e: RowsEvent): Item {
    RowsItem(e.(op := InvertOp(e.op)))
  }

  function InvertedAll(es: seq<RowsEvent>): seq<Item> {
    seq(|es|, i requires 0 <= i < |es| => Inverted(es[i]))
  }

  /** The event type is changed, but without a table map the rows cannot be told apart and stay as they are. */
  function Retyped(op: Op): Op {
    match op
    case Write(rows) => Delete(rows)
    case Delete(rows) => Write(rows)
    case Update(pairs) => Update(pairs)
  }

  /** What is printed for a rows event when the table maps of `known` have been printed. */
  function Printed(known: set<nat>, e: RowsEvent): Item {
    if e.table in known then Inverted(e) else RowsItem(e.(op := Retyped(e.op)))
  }

  function PrintedAll(known: set<nat>, es: seq<RowsEvent>): seq<Item> {
    seq(|es|, i requires 0 <= i < |es| => Printed(known, es[i]))
  }

  datatype State = State(
    ignored: set<nat>,            // m_table_map_ignored
    known: set<nat>,              // m_table_map
    inStmt: seq<RowsEvent>,       // events_in_stmt
    body: seq<Item>,              // the body cache
    chunks: seq<Chunk>,           // binlog_events
    file: seq<Chunk>)             // result_file

  /** The end of a statement: without its last event it is dropped, otherwise it is printed backwards. */
  function OnStatementEnd(s: State, skip: bool): State {
    var t := s.(ignored := {}, body := []);
    if skip then t.(file := if s.body == [] then s.file else s.file + [Fragment(s.body)])
    else t.(inStmt := [], chunks := s.chunks + [Statement(s.body + Reverse(PrintedAll(s.known, s.inStmt)))])
  }

  /** A rows event is kept until its statement ends. */
  function OnRows(s: State, e: RowsEvent): State {
    var t := s.(inStmt := s.inStmt + [e.(stmtEnd := s.inStmt == [])]);
    if e.stmtEnd then OnStatementEnd(t, e.table in s.ignored) else t
  }

  function Step(s: State, ev: Event): State {
    match ev
    case Begin => s.(chunks := s.chunks + [CommitTransaction])
    case Commit => s.(chunks := s.chunks + [StartTransaction])
    case TableMap(t, filtered) =>
      if filtered then s.(ignored := s.ignored + {t})
      else s.(known := s.known + {t}, body := s.body + [MapItem(t)], inStmt := [])
    case Rows(e) => OnRows(s, e)
  }

  function Run(s: State, evs: seq<Event>): State
    decreases |evs|
  {
    if evs == [] then s else Run(Step(s, evs[0]), evs[1..])
  }

  function Start(): State { State({}, {}, [], [], [], []) }

  /** Everything written, after the final loop over the stored chunks. */
  function Output(evs: seq<Event>): seq<Chunk> {
    var s := Run(Start(), evs);
    s.file + Reverse(s.chunks) + [CommitTransaction]
  }

  lemma BackwardsStep(known: set<nat>, es: seq<RowsEvent>, i: nat, before: seq<Item>)
    requires i < |es|
    ensures before + Reverse(PrintedAll(known, es[i + 1..])) + [Printed(known, es[i])] ==
            before + Reverse(PrintedAll(known, es[i..]))
  {
    var all := PrintedAll(known, es[i..]);
    assert all[0] == Printed(known, es[i]) && all[1..] == PrintedAll(known, es[i + 1..]);
  }

  class Printer {
    var ignored: set<nat>
    var known: set<nat>
    var inStmt: seq<RowsEvent>
    var body: seq<Item>
    var chunks: seq<Chunk>
    var file: seq<Chunk>

    function Current(): State
      reads this
    {
      State(ignored, known, inStmt, body, chunks, file)
    }

    constructor ()
      ensures Current() == Start()
    {
      ignored, known, inStmt, body, chunks, file := {}, {}, [], [], [], [];
    }

    /** Prints one event into the body; an event with the end flag turns the body into output. */
    method PrintItem(e: RowsEvent) returns (output: seq<Chunk>)
      modifies this`body
      ensures if e.stmtEnd then body == [] && output == [Statement(old(body) + [Printed(known, e)])]
              else body == old(body) + [Printed(known, e)] && output == []
    {
      body := body + [Printed(known, e)];
      if e.stmtEnd {
        output := [Statement(body)];
        body := [];
      } else {
        output := [];
      }
    }

    /** Only the first event of the statement carries the end flag, and it is printed last. */
    ghost predicate Flagged()
      reads this
    {
      forall i :: 0 <= i < |inStmt| ==> (inStmt[i].stmtEnd <==> i == 0)
    }

    method PrintBackwards()
      requires Flagged() && inStmt != []
      modifies this`body, this`chunks, this`inStmt
      ensures inStmt == [] && body == []
      ensures chunks == old(chunks) + [Statement(old(body) + Reverse(PrintedAll(known, old(inStmt))))]
    {
      var i := |inStmt|;
      var output: seq<Chunk> := [];
      assert old(body) + Reverse(PrintedAll(known, inStmt[i..])) == old(body);
      while i > 0
        invariant 0 <= i <= |inStmt| && inStmt == old(inStmt) && chunks == old(chunks)
        invariant i > 0 ==> output == [] && body == old(body) + Reverse(PrintedAll(known, inStmt[i..]))
        invariant i == 0 ==> body == [] && output == [Statement(old(body) + Reverse(PrintedAll(known, inStmt)))]
      {
        i := i - 1;
        BackwardsStep(known, inStmt, i, old(body));
        output := PrintItem(inStmt[i]);
        assert inStmt[0..] == inStmt;
      }
      chunks := chunks + output;
      inStmt := [];
    }

    method PrintRowEvent(e: RowsEvent)
      requires Flagged()
      modifies this
      ensures Flagged() && Current() == OnRows(old(Current()), e)
    {
      var skip := e.table in ignored;
      inStmt := inStmt + [e.(stmtEnd := |inStmt| == 0)];
      if e.stmtEnd {
        ignored := {};
        if skip {
          if body != [] {
            file := file + [Fragment(body)];
          }
          body := [];
        } else {
          PrintBackwards();
        }
      }
    }

    method ProcessEvent(ev: Event)
      requires Flagged()
      modifies this
      ensures Flagged() && Current() == Step(old(Current()), ev)
    {
      match ev
      case Begin => chunks := chunks + [CommitTransaction];
      case Commit => chunks := chunks + [StartTransaction];
      case TableMap(t, filtered) =>
        if filtered {
          ignored := ignored + {t};
        } else {
          known := known + {t};
          body := body + [MapItem(t)];
          inStmt := [];
        }
      case Rows(e) => PrintRowEvent(e);
    }

    /** The program: all events, then the stored chunks from last to first. */
    method Process(evs: seq<Event>)
      requires Current() == Start()
      modifies this
      ensures file == Output(evs)
    {
      for i := 0 to |evs|
        invariant Flagged() && Run(Current(), evs[i..]) == Run(Start(), evs)
      {
        assert evs[i..][1..] == evs[i + 1..];
        ProcessEvent(evs[i]);
      }
      ghost var written := file;
      var i := |chunks|;
      while i > 0
        invariant 0 <= i <= |chunks| && chunks == Run(Start(), evs).chunks
        invariant file == written + Reverse(chunks[i..])
      {
        i := i - 1;
        assert chunks[i..][1..] == chunks[i + 1..];
        file := file + [chunks[i]];
      }
      assert chunks[0..] == chunks;
      file := file + [CommitTransaction];
    }
  }
}
