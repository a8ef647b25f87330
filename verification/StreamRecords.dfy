/**
 The table of live streams behind the RPC dispatcher: the three operations on it
 and the critical section of the write loop, each of which holds the mutex for its
 whole duration and is therefore one atomic step.
 */
module StreamRecords {
  import opened Wrappers
  import opened Sequences

  type Id = nat           // stream id, a u32 handed out by a counter
  type Half = nat         // identity of a WriteHalf; owning one is owning the right to write and close
  type Segment = seq<byte>

  datatype StreamRec = StreamRec(write: Option<Half>, q: seq<Segment>, ended: bool)

  type Records = map<Id, StreamRec>

  // What the critical section of the write loop tells the loop to do next.
  datatype LoopNext = Drain(items: seq<Segment>) | HandedBack | Close

  function AfterInsert(m: Records, id: Id, w: Half): Records {
    m[id := StreamRec(Some(w), [], false)]
  }

  // There is one table like that: the new record looked up under id, and all others as they were.
  lemma AfterInsertIs(m: Records, id: Id, w: Half, m': Records)
    requires Look(m', id) == Some(StreamRec(Some(w), [], false)) && forall j :: j != id ==> Look(m', j) == Look(m, j)
    ensures m' == AfterInsert(m, id, w)
  {
    var a := AfterInsert(m, id, w);
    forall j ensures Look(a, j) == Look(m', j) {}
    assert forall j :: j in a <==> Look(a, j).Some?;
    assert forall j :: j in m' <==> Look(m', j).Some?;
    forall j | j in a ensures j in m' && a[j] == m'[j] {
      assert Look(a, j) == Look(m', j);
    }
  }

  // The second component is the write half taken out for a new write loop, if any.
  function AfterWrite(m: Records, id: Id, buf: Segment): (Records, Option<Half>) {
    if id !in m then (m, None)
    else (m[id := StreamRec(None, m[id].q + [buf], m[id].ended)], m[id].write)
  }

  // The second component is the write half the caller must shut down, if any.
  function AfterRemove(m: Records, id: Id): (Records, Option<Half>) {
    if id !in m then (m, None)
    else if m[id].write.Some? then (m - {id}, m[id].write)
    else (m[id := m[id].(ended := true)], None)
  }

  function AfterTurn(m: Records, id: Id, w: Half, items: seq<Segment>): (Records, LoopNext) {
    if id !in m then (m, Close)
    else if m[id].q != [] then (m[id := m[id].(q := items)], Drain(m[id].q))
    else if m[id].ended then (m - {id}, Close)
    else (m[id := m[id].(write := Some(w))], HandedBack)
  }

  class Streams {
    var records: Records

    constructor ()
      ensures records == map[]
    {
      records := map[];
    }

    method Insert(id: Id, w: Half)
      modifies this
      ensures Look(records, id) == Some(StreamRec(Some(w), [], false))
      ensures forall j :: j != id ==> Look(records, j) == Look(old(records), j)
    {
      records := records[id := StreamRec(Some(w), [], false)];
    }

    method Write(id: Id, buf: Segment) returns (spawned: Option<Half>)
      modifies this
      ensures (records, spawned) == AfterWrite(old(records), id, buf)
    {
      spawned := None;
      if id in records {
        var rec := records[id];
        rec := rec.(q := rec.q + [buf]);
        if rec.write.Some? {
          spawned := rec.write;
          rec := rec.(write := None);
        }
        records := records[id := rec];
      }
    }

    method Remove(id: Id) returns (toShutDown: Option<Half>)
      modifies this
      ensures (records, toShutDown) == AfterRemove(old(records), id)
    {
      toShutDown := None;
      if id in records {
        var rec := records[id];
        if rec.write.Some? {
          toShutDown := rec.write;
          records := records - {id};
        } else {
          records := records[id := rec.(ended := true)];
        }
      }
    }

    // The locked part of one turn of the write loop; `items` is the loop's own vector.
    method LoopTurn(id: Id, w: Half, items: seq<Segment>) returns (next: LoopNext)
      modifies this
      ensures (records, next) == AfterTurn(old(records), id, w, items)
    {
      if id !in records {
        return Close;
      }
      var rec := records[id];
      if rec.q == [] {
        if rec.ended {
          records := records - {id};
          return Close;
        }
        records := records[id := rec.(write := Some(w))];
        return HandedBack;
      }
      next := Drain(rec.q);
      records := records[id := rec.(q := items)];
    }
  }
}
