/** `Load_log_processor`: the temporary files that hold the data of LOAD DATA statements found in a binary log. */
module LoadFiles {
  import opened Optional

  type Bytes = seq<char>

  /** Who may take a file: Exec_load for Create_file, Execute_load_query for Begin_load_query. */
  datatype Kind = OldStyle | QueryStyle

  datatype Event =
    | Register(id: nat, kind: Kind, block: Bytes)      // Create_file or Begin_load_query
    | Append(id: nat, block: Bytes)
    | Execute(id: nat, kind: Kind)

  /** An entry of `file_names`; the kind tells whether it also holds the Create_file event. */
  datatype Record = Empty | Record(fname: nat, kind: Kind)

  // ---------------------------------------------------------------- what the events promise

  /** Position `r` is the registration that an execute event at `n` would be served from. */
  predicate Serves(h: seq<Event>, r: nat, n: nat, id: nat, kind: Kind) {
    && r < n <= |h| && h[r].Register? && h[r].id == id && h[r].kind == kind
    && (forall k :: r < k < n ==> !(h[k].Register? && h[k].id == id))
    && (forall k :: r < k < n ==> !(h[k].Execute? && h[k].id == id && h[k].kind == kind))
  }

  /** The blocks appended under an id between two positions, in order. */
  function Appended(h: seq<Event>, id: nat, from: nat, end: nat): Bytes
    requires from <= end <= |h|
    decreases end
  {
    if from == end then []
    else
      Appended(h, id, from, end - 1) +
      (if h[end - 1].Append? && h[end - 1].id == id then h[end - 1].block else [])
  }

  /** The data that an execute event at `n` is to find in its file. */
  ghost predicate ServedWith(h: seq<Event>, n: nat, id: nat, kind: Kind, data: Bytes) {
    exists r: nat :: Serves(h, r, n, id, kind) && data == h[r].block + Appended(h, id, r + 1, n)
  }

  // ---------------------------------------------------------------- the same, event by event

  datatype Pending = Pending(kind: Kind, content: Bytes)

  /** The registration waiting under an id after the first `n` events, with the data collected so far. */
  function Waiting(h: seq<Event>, n: nat, id: nat): Option<Pending>
    requires n <= |h|
  {
    if n == 0 then None
    else
      var w, e := Waiting(h, n - 1, id), h[n - 1];
      if e.id != id then w
      else if e.Register? then Some(Pending(e.kind, e.block))
      else if e.Append? then if w.Some? then Some(Pending(w.value.kind, w.value.content + e.block)) else None
      else if w.Some? && w.value.kind == e.kind then None
      else w
  }

  predicate WaitsFor(w: Option<Pending>, kind: Kind) {
    w.Some? && w.value.kind == kind
  }

  /** A registration that serves an execute event leaves exactly its own data and what was appended to it. */
  lemma {:induction false} ServedData(h: seq<Event>, r: nat, n: nat, id: nat, kind: Kind)
    requires Serves(h, r, n, id, kind)
    ensures Waiting(h, n, id) == Some(Pending(kind, h[r].block + Appended(h, id, r + 1, n)))
    decreases n
  {
    if r == n - 1 {
      assert h[r].block + [] == h[r].block;
    } else {
      ServedData(h, r, n - 1, id, kind);
      var before, e := Appended(h, id, r + 1, n - 1), h[n - 1];
      assert before + [] == before;
      assert e.Append? ==> h[r].block + before + e.block == h[r].block + (before + e.block);
    }
  }

  /** A waiting file comes from a registration that serves it. */
  lemma {:induction false} WaitingIsServed(h: seq<Event>, n: nat, id: nat, kind: Kind) returns (r: nat)
    requires n <= |h| && WaitsFor(Waiting(h, n, id), kind)
    ensures Serves(h, r, n, id, kind)
    decreases n
  {
    var e := h[n - 1];
    if e.id == id && e.Register? {
      r := n - 1;
    } else {
      r := WaitingIsServed(h, n - 1, id, kind);
    }
  }

  lemma {:induction false} WaitingPrefix(h: seq<Event>, e: Event, n: nat, id: nat)
    requires n <= |h|
    ensures Waiting(h + [e], n, id) == Waiting(h, n, id)
    decreases n
  {
    if n > 0 {
      WaitingPrefix(h, e, n - 1, id);
    }
  }

  /** What waits under an id after one more event. */
  lemma WaitingAfter(h: seq<Event>, e: Event, id: nat)
    ensures var w := Waiting(h, |h|, id);
            Waiting(h + [e], |h| + 1, id) ==
            if e.id != id then w
            else if e.Register? then Some(Pending(e.kind, e.block))
            else if e.Append? then if w.Some? then Some(Pending(w.value.kind, w.value.content + e.block)) else None
            else if WaitsFor(w, e.kind) then None
            else w
  {
    WaitingPrefix(h, e, |h|, id);
  }

  class Processor {
    var records: seq<Record>           // file_names
    var files: map<nat, Bytes>         // the temporary files, by name
    ghost var h: seq<Event>            // the events processed so far
    ghost var given: map<nat, Bytes>   // the files handed out, with the data they had then

    ghost function RecordAt(id: nat): Record
      reads this`records
    {
      if id < |records| then records[id] else Empty
    }

    /** The record of an id is what its events promise. */
    ghost predicate Kept(id: nat)
      reads this
    {
      match RecordAt(id)
      case Empty => Waiting(h, |h|, id) == None
      case Record(f, k) => f in files && f !in given && Waiting(h, |h|, id) == Some(Pending(k, files[f]))
    }

    ghost predicate Valid()
      reads this
    {
      && (forall id: nat :: Kept(id))
      && (forall a: nat, b: nat ::
            a != b && RecordAt(a).Record? && RecordAt(b).Record? ==> RecordAt(a).fname != RecordAt(b).fname)
      && (forall f :: f in given ==> f in files && files[f] == given[f])
    }

    constructor ()
      ensures Valid() && h == [] && given == map[] && files == map[]
    {
      records, files, h, given := [], map[], [], map[];
    }

    /** Stores a record, growing the array with empty ones where needed. */
    method SetRecord(id: nat, r: Record)
      modifies this`records
      ensures forall k: nat :: RecordAt(k) == if k == id then r else old(RecordAt(k))
    {
      while |records| <= id
        invariant forall k: nat :: RecordAt(k) == old(RecordAt(k))
      {
        records := records + [Empty];
      }
      records := records[id := r];
    }

    /** First event of a LOAD DATA: `name` is the file that could be created exclusively, if any could. */
    method ProcessFirst(id: nat, kind: Kind, block: Bytes, name: Option<nat>) returns (ok: bool)
      requires Valid() && (name.Some? ==> name.value !in files)
      modifies this
      ensures ok == name.Some? && (ok ==> Valid())
      ensures ok ==> h == old(h) + [Register(id, kind, block)] && given == old(given)
      ensures ok ==> files == old(files)[name.value := block]
    {
      if name.None? {
        return false;
      }
      ghost var e := Register(id, kind, block);
      files := files[name.value := block];
      SetRecord(id, Record(name.value, kind));
      h := h + [e];
      forall k: nat
        ensures Kept(k) && (k != id && RecordAt(k).Record? ==> RecordAt(k).fname in old(files))
      {
        WaitingAfter(old(h), e, k);
        assert old(Kept(k));
      }
      return true;
    }

    /** A further block goes to the file registered for its id; without one it is ignored with a warning. */
    method ProcessAppend(id: nat, block: Bytes)
      requires Valid()
      modifies this
      ensures Valid() && h == old(h) + [Append(id, block)] && given == old(given)
      ensures var r := old(RecordAt(id));
              files == if r.Record? && r.fname in old(files) then old(files)[r.fname := old(files)[r.fname] + block]
                       else old(files)
    {
      ghost var e := Append(id, block);
      assert Kept(id);
      if id < |records| && records[id].Record? {
        var f := records[id].fname;
        files := files[f := files[f] + block];
      }
      h := h + [e];
      forall k: nat
        ensures Kept(k)
      {
        WaitingAfter(old(h), e, k);
        assert old(Kept(k) && Kept(id));
      }
    }

    /** `grab_event` and `grab_fname`: takes the record of an id if it is of the executor's own kind. */
    method Grab(id: nat, kind: Kind) returns (fname: Option<nat>)
      modifies this`records
      ensures var r := old(RecordAt(id));
              if r.Record? && r.kind == kind
              then fname == Some(r.fname) && forall k: nat :: RecordAt(k) == if k == id then Empty else old(RecordAt(k))
              else fname == None && records == old(records)
    {
      if id >= |records| {
        return None;
      }
      var r := records[id];
      if r.Record? && r.kind == kind {
        records := records[id := Empty];
        return Some(r.fname);
      }
      return None;
    }

    /**
     An execute event is given a file exactly when a registration of its own kind is still to be served, and that
     file holds the first block followed by every block appended since. A file that was given is never changed.
     */
    method ProcessExecute(id: nat, kind: Kind) returns (fname: Option<nat>)
      requires Valid()
      modifies this
      ensures Valid() && h == old(h) + [Execute(id, kind)] && files == old(files)
      ensures fname.None? ==> given == old(given) && forall r: nat :: !Serves(old(h), r, |old(h)|, id, kind)
      ensures fname.Some? ==> fname.value in files && given == old(given)[fname.value := files[fname.value]]
      ensures fname.Some? ==> fname.value !in old(given) && ServedWith(old(h), |old(h)|, id, kind, files[fname.value])
    {
      ghost var e := Execute(id, kind);
      assert Kept(id);
      fname := Grab(id, kind);
      h := h + [e];
      if fname.Some? {
        given := given[fname.value := files[fname.value]];
        ghost var r := WaitingIsServed(old(h), |old(h)|, id, kind);
        ServedData(old(h), r, |old(h)|, id, kind);
      } else {
        forall r: nat | Serves(old(h), r, |old(h)|, id, kind)
          ensures false
        {
          ServedData(old(h), r, |old(h)|, id, kind);
        }
      }
      forall k: nat
        ensures Kept(k)
      {
        WaitingAfter(old(h), e, k);
        assert old(Kept(k));
      }
    }
  }
}
