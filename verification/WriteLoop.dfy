/**
 The write loop as sequential code: two nested loops over the shared table, with the other
 tasks running at each await. One write loop of `StreamProtocol`, seen from the inside.
 */
module WriteLoop {
  import opened Wrappers
  import opened Sequences
  import opened StreamRecords
  import opened StreamLedger

  // What another task does to the table while this one is suspended.
  datatype Meanwhile = Push(id: Id, buf: Segment) | End(id: Id)

  // One await: what happens meanwhile, and the point at which the write breaks off (if it does).
  datatype Await = Await(moves: seq<Meanwhile>, fail: Option<nat>)

  class WriteHalf {
    var bytes: seq<byte>
    var shutdowns: nat

    method WriteAll(item: Segment, fail: Option<nat>) returns (ok: bool)
      modifies this
      ensures ok <==> fail.None? || fail.value >= |item|
      ensures bytes == old(bytes) + (if ok then item else item[..fail.value])
      ensures shutdowns == old(shutdowns)
    {
      ok := fail.None? || fail.value >= |item|;
      bytes := bytes + (if ok then item else item[..fail.value]);
    }

    method Shutdown()
      modifies this
      ensures bytes == old(bytes) && shutdowns == old(shutdowns) + 1
    {
      shutdowns := shutdowns + 1;
    }
  }

  function Pushed(moves: seq<Meanwhile>, id: Id): seq<Segment> {
    if moves == [] then []
    else
      var n := |moves| - 1;
      Pushed(moves[..n], id) + (if moves[n].Push? && moves[n].id == id then [moves[n].buf] else [])
  }

  // Everything pushed to the stream over a number of awaits.
  function PushedIn(awaits: seq<Await>, id: Id): seq<Segment> {
    if awaits == [] then [] else Pushed(awaits[0].moves, id) + PushedIn(awaits[1..], id)
  }

  // Whether the stream is told to end during one of the first n awaits.
  predicate EndedIn(awaits: seq<Await>, n: nat, id: Id)
    requires n <= |awaits|
  {
    exists i :: 0 <= i < n && End(id) in awaits[i].moves
  }

  // `rest` is what is left of the awaits once the first ones are over.
  predicate IsRest(awaits: seq<Await>, rest: seq<Await>) {
    |rest| <= |awaits| && rest == awaits[|awaits| - |rest|..]
  }

  // The next await, and the ones after it; once none are listed, nothing else happens or fails.
  function Next(awaits: seq<Await>): Await {
    if awaits == [] then Await([], None) else awaits[0]
  }

  function Later(awaits: seq<Await>): seq<Await> {
    if awaits == [] then [] else awaits[1..]
  }

  lemma PushedNext(accepted: seq<Segment>, awaits: seq<Await>, id: Id)
    ensures accepted + Pushed(Next(awaits).moves, id) + PushedIn(Later(awaits), id) == accepted + PushedIn(awaits, id)
  {
    var now, later := Pushed(Next(awaits).moves, id), PushedIn(Later(awaits), id);
    assert accepted + now + later == accepted + (now + later);
  }

  lemma EndedNext(awaits: seq<Await>, rest: seq<Await>, id: Id)
    requires IsRest(awaits, rest)
    ensures IsRest(awaits, Later(rest))
    ensures EndedIn(awaits, |awaits| - |Later(rest)|, id) <==>
            EndedIn(awaits, |awaits| - |rest|, id) || End(id) in Next(rest).moves
  {
    var n := |awaits| - |rest|;
    if rest != [] {
      assert awaits[n] == rest[0];
      assert Later(rest) == awaits[n + 1..];
      if End(id) in awaits[n].moves {
        assert EndedIn(awaits, n + 1, id);
      }
    }
  }

  // Two stretches of awaits, one after the other.
  lemma EndedTwice(awaits: seq<Await>, mid: seq<Await>, rest: seq<Await>, id: Id)
    requires IsRest(awaits, mid) && IsRest(mid, rest)
    ensures IsRest(awaits, rest)
    ensures EndedIn(awaits, |awaits| - |rest|, id) <==>
            EndedIn(awaits, |awaits| - |mid|, id) || EndedIn(mid, |mid| - |rest|, id)
  {
    var n, m := |awaits| - |mid|, |mid| - |rest|;
    assert rest == awaits[n + m..];
    assert forall i :: 0 <= i < |mid| ==> mid[i] == awaits[n + i];
    if EndedIn(awaits, n + m, id) {
      var i :| 0 <= i < n + m && End(id) in awaits[i].moves;
      assert i >= n ==> End(id) in mid[i - n].moves;
    }
  }

  ghost predicate Owned(streams: Streams, id: Id)
    reads streams
  {
    id in streams.records && streams.records[id].write.None?
  }

  // One critical section of another task never touches the write half of a record whose loop is running.
  method Interfere(streams: Streams, id: Id, move: Meanwhile)
    requires Owned(streams, id)
    modifies streams
    ensures Owned(streams, id)
    ensures streams.records[id].q == old(streams.records[id].q) +
            (if move.Push? && move.id == id then [move.buf] else [])
    ensures streams.records[id].ended <==> old(streams.records[id].ended) || move == End(id)
  {
    match move {
      case Push(j, buf) => var _ := streams.Write(j, buf);
      case End(j) => var _ := streams.Remove(j);
    }
  }

  lemma PushedSnoc(moves: seq<Meanwhile>, move: Meanwhile, id: Id)
    ensures Pushed(moves + [move], id) == Pushed(moves, id) + (if move.Push? && move.id == id then [move.buf] else [])
  {
    assert (moves + [move])[..|moves|] == moves;
  }

  // Nor do any number of them: the record stays, its queue grows at the end, and it may be marked ended.
  method Suspend(streams: Streams, id: Id, moves: seq<Meanwhile>)
    requires Owned(streams, id)
    modifies streams
    ensures Owned(streams, id)
    ensures streams.records[id].q == old(streams.records[id].q) + Pushed(moves, id)
    ensures streams.records[id].ended <==> old(streams.records[id].ended) || End(id) in moves
  {
    for i := 0 to |moves|
      invariant Owned(streams, id)
      invariant streams.records[id].q == old(streams.records[id].q) + Pushed(moves[..i], id)
      invariant streams.records[id].ended <==> old(streams.records[id].ended) || End(id) in moves[..i]
    {
      assert moves[..i + 1] == moves[..i] + [moves[i]];
      PushedSnoc(moves[..i], moves[i], id);
      Interfere(streams, id, moves[i]);
    }
    assert moves[..|moves|] == moves;
  }

  ghost predicate ErrorFree(awaits: seq<Await>) {
    forall a :: a in awaits ==> a.fail.None?
  }

  // One `write_all(..).await` on the first item of the batch, other tasks included.
  method AwaitWrite(streams: Streams, id: Id, out: WriteHalf, items: seq<Segment>, await: Await,
                    ghost l0: Ledger, ghost errorFree: bool, ghost base: seq<byte>)
      returns (ok: bool, ghost l: Ledger)
    requires Owned(streams, id) && items != [] && out.bytes == base + l0.sent
    requires Balanced(l0, errorFree, items + streams.records[id].q)
    requires errorFree ==> await.fail.None?
    modifies streams, out
    ensures Owned(streams, id) && l.accepted == l0.accepted + Pushed(await.moves, id)
    ensures await.moves == [] ==> streams.records[id].q == old(streams.records[id].q)
    ensures streams.records[id].ended <==> old(streams.records[id].ended) || End(id) in await.moves
    ensures out.bytes == base + l.sent && out.shutdowns == old(out.shutdowns)
    ensures Balanced(l, errorFree, (if ok then items[1..] else []) + streams.records[id].q)
  {
    ghost var q, pushed := streams.records[id].q, Pushed(await.moves, id);
    Suspend(streams, id, await.moves);
    Queued(l0, errorFree, items, q, pushed);
    l := l0.(accepted := l0.accepted + pushed);
    ok := out.WriteAll(items[0], await.fail);
    if ok {
      ItemSent(l, errorFree, items, q + pushed);
      l := l.(fates := l.fates + [Sent(|items[0]|)], sent := l.sent + items[0]);
    } else {
      ItemFailed(l, items, q + pushed, await.fail.value);
      l := l.(fates := l.fates + ([Sent(await.fail.value)] + seq(|items| - 1, _ => Dropped)),
              sent := l.sent + items[0][..await.fail.value]);
    }
  }

  // The inner loop: write the batch, giving up on the rest of it at the first error.
  method DrainItems(streams: Streams, id: Id, out: WriteHalf, batch: seq<Segment>, awaits: seq<Await>,
                    ghost l0: Ledger, ghost errorFree: bool, ghost base: seq<byte>)
      returns (rest: seq<Await>, ghost l: Ledger)
    requires Owned(streams, id) && batch != [] && out.bytes == base + l0.sent
    requires Balanced(l0, errorFree, batch + streams.records[id].q)
    requires errorFree ==> ErrorFree(awaits)
    modifies streams, out
    ensures Owned(streams, id) && Balanced(l, errorFree, streams.records[id].q)
    ensures l.accepted + PushedIn(rest, id) == l0.accepted + PushedIn(awaits, id) && l0.accepted <= l.accepted
    ensures out.bytes == base + l.sent && out.shutdowns == old(out.shutdowns)
    ensures |rest| < |awaits| || (rest == awaits == [] && streams.records[id].q == old(streams.records[id].q))
    ensures errorFree ==> ErrorFree(rest)
    ensures IsRest(awaits, rest)
    ensures streams.records[id].ended <==> old(streams.records[id].ended) || EndedIn(awaits, |awaits| - |rest|, id)
  {
    var items := batch;
    rest, l := awaits, l0;
    while items != []
      invariant Owned(streams, id) && Balanced(l, errorFree, items + streams.records[id].q)
      invariant l.accepted + PushedIn(rest, id) == l0.accepted + PushedIn(awaits, id) && l0.accepted <= l.accepted
      invariant out.bytes == base + l.sent && out.shutdowns == old(out.shutdowns)
      invariant |rest| < |awaits| || (rest == awaits && (items == batch || rest == []))
      invariant rest == awaits ==> streams.records[id].q == old(streams.records[id].q)
      invariant errorFree ==> ErrorFree(rest)
      invariant IsRest(awaits, rest)
      invariant streams.records[id].ended <==> old(streams.records[id].ended) || EndedIn(awaits, |awaits| - |rest|, id)
      decreases |items|
    {
      var ok;
      PushedNext(l.accepted, rest, id);
      ok, l := AwaitWrite(streams, id, out, items, Next(rest), l, errorFree, base);
      EndedNext(awaits, rest, id);
      rest := Later(rest);
      items := if ok then items[1..] else [];
    }
    assert [] + streams.records[id].q == streams.records[id].q;
  }

  // However the other tasks interleave, the loop writes what was queued before it started and what
  // was pushed while it ran (all but the `rest` of the awaits), in order, and ends by closing the write
  // half if the stream had been told to end by then, and by handing it back otherwise.
  method Run(streams: Streams, id: Id, w: Half, out: WriteHalf, awaits: seq<Await>)
      returns (closed: bool, rest: seq<Await>, ghost l: Ledger)
    requires Owned(streams, id)
    modifies streams, out
    ensures closed ==> id !in streams.records && out.shutdowns == old(out.shutdowns) + 1
    ensures !closed ==> Look(streams.records, id) == Some(StreamRec(Some(w), [], false)) &&
                        out.shutdowns == old(out.shutdowns)
    ensures Accounted(l, ErrorFree(awaits)) && |l.fates| == |l.accepted|
    ensures IsRest(awaits, rest)
    ensures closed <==> old(streams.records[id].ended) || EndedIn(awaits, |awaits| - |rest|, id)
    ensures old(streams.records[id].q) <= l.accepted
    ensures l.accepted + PushedIn(rest, id) == old(streams.records[id].q) + PushedIn(awaits, id)
    ensures out.bytes == old(out.bytes) + l.sent
    ensures ErrorFree(awaits) ==> out.bytes == old(out.bytes) + Flatten(l.accepted)
  {
    var items: seq<Segment> := [];
    rest := awaits;
    l, closed := Ledger(streams.records[id].q, [], []), true;
    while true
      invariant Owned(streams, id) && items == [] && closed
      invariant Balanced(l, ErrorFree(awaits), streams.records[id].q)
      invariant old(streams.records[id].q) <= l.accepted
      invariant l.accepted + PushedIn(rest, id) == old(streams.records[id].q) + PushedIn(awaits, id)
      invariant out.bytes == old(out.bytes) + l.sent && out.shutdowns == old(out.shutdowns)
      invariant ErrorFree(awaits) ==> ErrorFree(rest)
      invariant IsRest(awaits, rest)
      invariant streams.records[id].ended <==> old(streams.records[id].ended) || EndedIn(awaits, |awaits| - |rest|, id)
      decreases |rest|, |streams.records[id].q|
    {
      var next := streams.LoopTurn(id, w, items);
      match next {
        case Close => break;
        case HandedBack => closed := false; break;
        case Drain(batch) =>
          assert batch + [] == batch;
          ghost var mid := rest;
          rest, l := DrainItems(streams, id, out, batch, rest, l, ErrorFree(awaits), old(out.bytes));
          EndedTwice(awaits, mid, rest, id);
          assert Balanced(l, ErrorFree(awaits), streams.records[id].q);
      }
    }
    if ErrorFree(awaits) {
      WireWhole(l.accepted, l.fates);
      assert l.accepted[..|l.fates|] == l.accepted;
    }
    if closed {
      out.Shutdown();
    }
  }
}
