/**
 One turn of the MessagePack receive loop and the bounded channel it shares with the tasks it
 spawned. While the loop handles the messages of one read it does not take from the channel.
 */
module ReplyChannel {
  import opened Wrappers
  import opened Dispatch

  const CAPACITY := 8

  // Whether the loop itself sends on handling this message: the reply of a synchronous method (or
  // to an unknown one), or the announcement of the streams of a duplex call.
  predicate SendsItself(methods: map<string, Kind>, msg: Incoming, h: Handling) {
    if msg.name.None? then false
    else if msg.name.value in methods && !methods[msg.name.value].SyncMethod? then
      methods[msg.name.value].DuplexMethod? && !h.BadParams?
    else msg.id.Some?
  }

  // How many sends the messages decoded from one read take.
  function OwnSends(methods: map<string, Kind>, read: seq<(Incoming, Handling)>): nat {
    if read == [] then 0
    else
      var n := |read| - 1;
      OwnSends(methods, read[..n]) + (if SendsItself(methods, read[n].0, read[n].1) then 1 else 0)
  }

  // The handling of one read: the loop sends the replies of synchronous methods and the announcements of
  // streams itself, and spawns the rest. A message with neither method nor id panics.
  method HandleRead(d: Dispatcher, read: seq<(Incoming, Handling)>) returns (panicked: bool, sends: nat, spawned: nat)
    modifies d
    ensures panicked <==> exists i :: 0 <= i < |read| && read[i].0.name.None? && read[i].0.id.None?
    ensures !panicked ==> sends == OwnSends(d.methods, read)
    ensures !panicked ==> spawned == |Spawning(d.methods, read)|
  {
    panicked, sends, spawned := false, 0, 0;
    for i := 0 to |read|
      invariant forall k :: 0 <= k < i ==> read[k].0.name.Some? || read[k].0.id.Some?
      invariant sends == OwnSends(d.methods, read[..i]) && spawned == |Spawning(d.methods, read[..i])|
    {
      assert read[..i + 1] == read[..i] + [read[i]];
      SpawningSnoc(d.methods, read[..i], read[i]);
      assert read[..i + 1][..i] == read[..i];
      var r := d.DispatchWithPartial(read[i].0, read[i].1);
      match r {
        case Panicked => panicked := true; return;
        case Sync(reply) => if reply.Some? { sends := sends + 1; }
        case Future(_) => spawned := spawned + 1;
        case Stream(streams, _) =>
          if streams.Some? { sends := sends + 1; }
          spawned := spawned + 1;
      }
    }
    assert read[..|read|] == read;
  }

  // The messages whose reply is left to a task of its own.
  ghost function Spawning(methods: map<string, Kind>, read: seq<(Incoming, Handling)>): set<nat> {
    set i: nat | i < |read| && read[i].0.name.Some? && read[i].0.name.value in methods &&
                 methods[read[i].0.name.value] != SyncMethod
  }

  lemma SpawningSnoc(methods: map<string, Kind>, read: seq<(Incoming, Handling)>, last: (Incoming, Handling))
    ensures |Spawning(methods, read + [last])| ==
            |Spawning(methods, read)| +
            (if last.0.name.Some? && last.0.name.value in methods && methods[last.0.name.value] != SyncMethod
             then 1 else 0)
  {
    var before, now, n := Spawning(methods, read), Spawning(methods, read + [last]), |read|;
    forall i ensures i in now <==> i in before || (i == n && n in now) {
      if 0 <= i < n { assert (read + [last])[i] == read[i]; }
    }
    assert (read + [last])[n] == last;
    assert now == if n in now then before + {n} else before;
  }

  // `own`: the sends left in the turn, 0 when the loop is back at its select. `others`: the tasks
  // that have a message to send.
  datatype State = State(queued: nat, others: nat, own: nat)

  datatype Action = Handle(sends: nat) | SendOwn | SendOther | Receive | Arrive

  predicate Enabled(s: State, a: Action) {
    match a
    case Handle(_) => s.own == 0
    case SendOwn => s.own > 0 && s.queued < CAPACITY
    case SendOther => s.others > 0 && s.queued < CAPACITY
    case Receive => s.own == 0 && s.queued > 0
    case Arrive => true
  }

  function Apply(s: State, a: Action): State
    requires Enabled(s, a)
  {
    match a
    case Handle(sends) => s.(own := sends)
    case SendOwn => s.(own := s.own - 1, queued := s.queued + 1)
    case SendOther => s.(others := s.others - 1, queued := s.queued + 1)
    case Receive => s.(queued := s.queued - 1)
    case Arrive => s.(others := s.others + 1)
  }

  predicate Runs(s: State, acts: seq<Action>)
    decreases |acts|
  {
    acts == [] || (Enabled(s, acts[0]) && Runs(Apply(s, acts[0]), acts[1..]))
  }

  function After(s: State, acts: seq<Action>): State
    requires Runs(s, acts)
    decreases |acts|
  {
    if acts == [] then s else After(Apply(s, acts[0]), acts[1..])
  }

  // The loop has something to send and no room to send it.
  predicate Stuck(s: State) {
    s.own > 0 && s.queued >= CAPACITY
  }

  // Some way on ends the turn.
  ghost predicate CanEnd(s: State) {
    exists acts :: Runs(s, acts) && After(s, acts).own == 0
  }

  // No task that could make room is left running: a turn that is stuck stays so for good.
  lemma {:induction false} StuckForever(s: State, acts: seq<Action>)
    requires Stuck(s) && Runs(s, acts)
    ensures Stuck(After(s, acts)) && forall a :: a in acts ==> a == Action.Arrive
    decreases |acts|
  {
    if acts != [] {
      StuckForever(Apply(s, acts[0]), acts[1..]);
      assert acts == [acts[0]] + acts[1..];
    }
  }

  // Inside a turn, what is queued and what the loop has yet to queue never becomes less.
  lemma {:induction false} TooMany(s: State, acts: seq<Action>)
    requires s.own > 0 && s.queued <= CAPACITY < s.queued + s.own && Runs(s, acts)
    ensures var t := After(s, acts); t.own > 0 && t.queued <= CAPACITY < t.queued + t.own
    decreases |acts|
  {
    if acts != [] {
      TooMany(Apply(s, acts[0]), acts[1..]);
    }
  }

  lemma {:induction false} SendAll(s: State, a: Action, n: nat)
    requires s.queued + n <= CAPACITY && ((a == SendOwn && n <= s.own) || (a == SendOther && n <= s.others))
    ensures var acts := seq(n, _ => a);
            Runs(s, acts) && After(s, acts) ==
            State.State(s.queued + n, if a.SendOther? then s.others - n else s.others, if a.SendOwn? then s.own - n
                else s.own)
    decreases n
  {
    if n > 0 {
      SendAll(Apply(s, a), a, n - 1);
      assert seq(n, _ => a)[1..] == seq(n - 1, _ => a);
    }
  }

  // A turn can end if and only if its own sends fit into what room there is: no schedule of the
  // other tasks helps.
  lemma CanEndIff(s: State)
    requires s.own > 0 && s.queued <= CAPACITY
    ensures CanEnd(s) <==> s.queued + s.own <= 8
  {
    if s.queued + s.own <= CAPACITY {
      SendAll(s, SendOwn, s.own);
    } else {
      forall acts | Runs(s, acts) ensures After(s, acts).own > 0 {
        TooMany(s, acts);
      }
    }
  }

  // The turn goes on: the loop and other tasks send, and more tasks come to have something to send
  // (a future resolves, a pump has read).
  ghost predicate InTurn(acts: seq<Action>) {
    forall a :: a in acts ==> a == SendOwn || a == SendOther || a == Action.Arrive
  }

  function Arrivals(acts: seq<Action>): nat
    decreases |acts|
  {
    if acts == [] then 0 else (if acts[0].Arrive? then 1 else 0) + Arrivals(acts[1..])
  }

  // Some schedule of the turn with at most so many arrivals leaves it stuck.
  ghost predicate MayGetStuck(s: State, arrivals: nat) {
    exists acts :: InTurn(acts) && Runs(s, acts) && Arrivals(acts) <= arrivals && Stuck(After(s, acts))
  }

  lemma {:induction false} SendsAddUp(s: State, acts: seq<Action>)
    requires InTurn(acts) && Runs(s, acts)
    ensures var t := After(s, acts); t.queued + t.others + t.own == s.queued + s.others + s.own + Arrivals(acts)
    decreases |acts|
  {
    if acts != [] {
      assert acts[0] in acts && forall a :: a in acts[1..] ==> a in acts;
      SendsAddUp(Apply(s, acts[0]), acts[1..]);
    }
  }

  lemma {:induction false} ArriveAll(s: State, n: nat)
    ensures var acts := seq(n, _ => Action.Arrive);
            Runs(s, acts) && After(s, acts) == s.(others := s.others + n) && Arrivals(acts) == n
    decreases n
  {
    if n > 0 {
      ArriveAll(s.(others := s.others + 1), n - 1);
      assert seq(n, _ => Action.Arrive)[1..] == seq(n - 1, _ => Action.Arrive);
    }
  }

  lemma {:induction false} ArrivalsConcat(a: seq<Action>, b: seq<Action>)
    ensures Arrivals(a + b) == Arrivals(a) + Arrivals(b)
    decreases |a|
  {
    if a == [] {
      assert a + b == b;
    } else {
      ArrivalsConcat(a[1..], b);
      assert (a + b)[1..] == a[1..] + b;
    }
  }

  lemma {:induction false} NoArrivals(acts: seq<Action>)
    requires forall a :: a in acts ==> !a.Arrive?
    ensures Arrivals(acts) == 0
    decreases |acts|
  {
    if acts != [] {
      NoArrivals(acts[1..]);
    }
  }

  lemma {:induction false} RunConcat(s: State, a: seq<Action>, b: seq<Action>)
    requires Runs(s, a) && Runs(After(s, a), b)
    ensures Runs(s, a + b) && After(s, a + b) == After(After(s, a), b)
    decreases |a|
  {
    if a == [] {
      assert a + b == b;
    } else {
      RunConcat(Apply(s, a[0]), a[1..], b);
      assert (a + b)[1..] == a[1..] + b;
    }
  }

  // With what there is to send exceeding the room, sending it all but for some of the loop's own fills
  // the channel.
  lemma FillUp(s: State) returns (acts: seq<Action>)
    requires s.own > 0 && s.queued <= CAPACITY < s.queued + s.others + s.own
    ensures InTurn(acts) && Arrivals(acts) == 0 && Runs(s, acts) && Stuck(After(s, acts))
  {
    var room := CAPACITY - s.queued;
    var k := if s.others < room then s.others else room;
    var before, own := seq(k, _ => SendOther), seq(room - k, _ => SendOwn);
    SendAll(s, SendOther, k);
    SendAll(After(s, before), SendOwn, room - k);
    RunConcat(s, before, own);
    acts := before + own;
    NoArrivals(acts);
  }

  // However the tasks interleave, and with at most so many of them coming to have something to send
  // while it lasts, a turn cannot get stuck if and only if all there is to send fits.
  lemma MayGetStuckIff(s: State, arrivals: nat)
    requires s.own > 0 && s.queued <= CAPACITY
    ensures MayGetStuck(s, arrivals) <==> s.queued + s.others + arrivals + s.own > 8
  {
    if s.queued + s.others + arrivals + s.own > CAPACITY {
      var first := seq(arrivals, _ => Action.Arrive);
      ArriveAll(s, arrivals);
      var last := FillUp(After(s, first));
      RunConcat(s, first, last);
      ArrivalsConcat(first, last);
      assert InTurn(first + last);
    } else {
      forall acts | InTurn(acts) && Runs(s, acts) && Arrivals(acts) <= arrivals ensures !Stuck(After(s, acts)) {
        SendsAddUp(s, acts);
      }
    }
  }

  // With no bound on the arrivals, every turn that has anything to send may get stuck, and no other.
  lemma AnySendMayGetStuck(s: State)
    requires s.queued <= CAPACITY
    ensures (exists arrivals :: MayGetStuck(s, arrivals)) <==> s.own > 0
  {
    if s.own > 0 {
      MayGetStuckIff(s, CAPACITY);
    } else {
      forall acts | InTurn(acts) && Runs(s, acts) ensures !Stuck(After(s, acts)) {
        NothingOwn(s, acts);
      }
    }
  }

  lemma {:induction false} NothingOwn(s: State, acts: seq<Action>)
    requires InTurn(acts) && Runs(s, acts) && s.own == 0
    ensures After(s, acts).own == 0
    decreases |acts|
  {
    if acts != [] {
      assert acts[0] in acts && forall a :: a in acts[1..] ==> a in acts;
      NothingOwn(Apply(s, acts[0]), acts[1..]);
    }
  }

  // In particular a read that calls for more sends than there is room for is never dealt with.
  lemma {:induction false} LongReadNeverEnds(methods: map<string, Kind>, read: seq<(Incoming, Handling)>, s: State,
                                             acts: seq<Action>)
    requires s.own == 0 && s.queued <= CAPACITY && OwnSends(methods, read) > CAPACITY - s.queued
    requires acts != [] && acts[0] == Handle(OwnSends(methods, read)) && Runs(s, acts)
    ensures After(s, acts).own > 0 && Receive !in acts
  {
    var s1 := Apply(s, acts[0]);
    TooMany(s1, acts[1..]);
    NoReceive(s1, acts[1..]);
    assert acts == [acts[0]] + acts[1..];
  }

  lemma {:induction false} NoReceive(s: State, acts: seq<Action>)
    requires s.own > 0 && s.queued <= CAPACITY < s.queued + s.own && Runs(s, acts)
    ensures Receive !in acts
    decreases |acts|
  {
    if acts != [] {
      NoReceive(Apply(s, acts[0]), acts[1..]);
      assert acts == [acts[0]] + acts[1..];
    }
  }

  // Nine requests for a synchronous method in one read, on an empty channel, are such a read.
  lemma NineRequestsNeverEnd(acts: seq<Action>)
    requires acts != [] && Runs(State.State(0, 0, 0), acts)
    requires acts[0] == Handle(OwnSends(map["ping" := SyncMethod],
        seq(9, _ => (Incoming(Some(1), Some("ping"), false), Succeeds))))
    ensures After(State.State(0, 0, 0), acts).own > 0 && Receive !in acts
  {
    var methods, msg := map["ping" := SyncMethod], Incoming(Some(1), Some("ping"), false);
    AllSend(methods, msg, 9);
    LongReadNeverEnds(methods, seq(9, _ => (msg, Succeeds)), State.State(0, 0, 0), acts);
  }

  lemma {:induction false} AllSend(methods: map<string, Kind>, msg: Incoming, n: nat)
    requires SendsItself(methods, msg, Succeeds)
    ensures OwnSends(methods, seq(n, _ => (msg, Succeeds))) == n
    decreases n
  {
    if n > 0 {
      AllSend(methods, msg, n - 1);
      assert seq(n, _ => (msg, Succeeds))[..n - 1] == seq(n - 1, _ => (msg, Succeeds));
    }
  }
}
