/**
 Incoming messages: requests and the replies they lead to, responses and the callbacks
 of the pending calls they resolve.
 */
module Dispatch {
  import opened Wrappers

  type CallId = nat       // a u32 handed out by a counter
  type Callback = nat     // identity of a boxed callback

  datatype Kind = SyncMethod | AsyncMethod | DuplexMethod(streams: nat)

  // The part of a message that is decoded first; `error` is whether it carries an error.
  datatype Incoming = Incoming(id: Option<CallId>, name: Option<string>, error: bool)

  // How the registered callback fares on the request.
  datatype Handling = BadParams | Succeeds | Fails

  datatype Reply = Success(id: CallId) | Error(id: CallId, code: int)

  datatype Outcome = GotResult | GotError

  datatype Firing = Firing(id: CallId, cb: Callback, outcome: Outcome)

  datatype MaybeSync =
    | Sync(reply: Option<Reply>)
    | Future(reply: Option<Reply>)
    | Stream(streams: Option<nat>, reply: Option<Reply>)
    | Panicked

  // ---------- one message ----------

  // The reply each request must get, whatever kind of method it names.
  function ReplyTo(methods: map<string, Kind>, msg: Incoming, h: Handling): Option<Reply> {
    if msg.name.None? || msg.id.None? then None
    else if msg.name.value !in methods then Some(Error(msg.id.value, -1))
    else match h
      case BadParams => Some(Error(msg.id.value, 0))
      case Fails => Some(Error(msg.id.value, -1))
      case Succeeds => Some(Success(msg.id.value))
  }

  function OutcomeOf(msg: Incoming): Outcome {
    if msg.error then GotError else GotResult
  }

  // The dispatcher unwraps the id of a message that names no method.
  predicate Acceptable(msg: Incoming) {
    msg.name.None? ==> msg.id.Some?
  }

  class Dispatcher {
    const methods: map<string, Kind>
    var calls: map<CallId, Callback>
    var fired: seq<Firing>

    constructor (methods: map<string, Kind>)
      ensures this.methods == methods && calls == map[] && fired == []
    {
      this.methods := methods;
      calls, fired := map[], [];
    }

    // `call`, once the request has been sent.
    method Await(id: CallId, cb: Callback)
      modifies this
      ensures calls == old(calls)[id := cb] && fired == old(fired)
    {
      calls := calls[id := cb];
    }

    method RunSync(id: Option<CallId>, h: Handling) returns (reply: Option<Reply>)
      ensures id.None? ==> reply == None
      ensures id.Some? ==>
        reply == Some(if h.Succeeds? then Success(id.value) else Error(id.value, if h.BadParams? then 0 else -1))
    {
      if h.BadParams? {
        return if id.Some? then Some(Error(id.value, 0)) else None;
      }
      match h {
        case Succeeds => reply := if id.Some? then Some(Success(id.value)) else None;
        case Fails => reply := if id.Some? then Some(Error(id.value, -1)) else None;
      }
    }

    method Resolve(id: CallId, outcome: Outcome)
      modifies this
      ensures id !in old(calls) ==> calls == old(calls) && fired == old(fired)
      ensures id in old(calls) ==>
        calls == old(calls) - {id} && fired == old(fired) + [Firing(id, old(calls)[id], outcome)]
    {
      if id in calls {
        var cb := calls[id];
        calls := calls - {id};
        fired := fired + [Firing(id, cb, outcome)];
      }
    }

    method DispatchWithPartial(msg: Incoming, h: Handling) returns (r: MaybeSync)
      modifies this
      // a message that names no method
      ensures msg.name.None? ==> r == if msg.id.None? then Panicked else Sync(None)
      // a method nobody registered
      ensures msg.name.Some? && msg.name.value !in methods ==>
        r == Sync(if msg.id.None? then None else Some(Error(msg.id.value, -1)))
      // one that was: by its kind, and by how the request fares
      ensures msg.name.Some? && msg.name.value in methods ==>
        (match methods[msg.name.value]
         case SyncMethod => r.Sync?
         case AsyncMethod => r.Future?
         case DuplexMethod(n) => r.Stream? && r.streams == if h.BadParams? then None else Some(n))
      ensures msg.name.Some? && msg.name.value in methods ==>
        !r.Panicked? &&
        r.reply == (if msg.id.None? then None
                    else match h
                         case BadParams => Some(Error(msg.id.value, 0))
                         case Fails => Some(Error(msg.id.value, -1))
                         case Succeeds => Some(Success(msg.id.value)))
      // a response takes its callback out and fires it with what it carries; nothing else touches them
      ensures msg.name.None? && msg.id.Some? && msg.id.value in old(calls) ==>
        calls == old(calls) - {msg.id.value} &&
        fired == old(fired) +
                 [Firing(msg.id.value, old(calls)[msg.id.value], if msg.error then GotError else GotResult)]
      ensures !(msg.name.None? && msg.id.Some? && msg.id.value in old(calls)) ==>
        calls == old(calls) && fired == old(fired)
    {
      if msg.name.Some? {
        var name := msg.name.value;
        if name !in methods {
          return Sync(if msg.id.Some? then Some(Error(msg.id.value, -1)) else None);
        }
        match methods[name] {
          case SyncMethod =>
            var reply := RunSync(msg.id, h);
            return Sync(reply);
          case AsyncMethod =>
            var reply := RunSync(msg.id, h);
            return Future(reply);
          case DuplexMethod(n) =>
            var reply := RunSync(msg.id, h);
            return Stream(if h.BadParams? then None else Some(n), reply);
        }
      } else if msg.id.None? {
        return Panicked;
      } else if msg.error {
        Resolve(msg.id.value, GotError);
        return Sync(None);
      } else {
        Resolve(msg.id.value, GotResult);
        return Sync(None);
      }
    }
  }

  function AfterResponse(calls: map<CallId, Callback>, fired: seq<Firing>, id: CallId, o: Outcome)
    : (map<CallId, Callback>, seq<Firing>)
  {
    if id in calls then (calls - {id}, fired + [Firing(id, calls[id], o)]) else (calls, fired)
  }

  // ---------- every run ----------

  datatype State = State(
    calls: map<CallId, Callback>,
    fired: seq<Firing>,
    futures: multiset<Option<Reply>>,   // spawned, each with what it will resolve to
    wire: seq<Reply>,
    alive: bool)                        // false once the dispatcher has panicked holding the lock on the calls

  datatype Action =
    | Arrive(msg: Incoming, handling: Handling)
    | Finish(reply: Option<Reply>)
    | Register(id: CallId, cb: Callback)

  const START := State(map[], [], multiset{}, [], true)

  function Sent(s: State, reply: Option<Reply>): State {
    if reply.Some? then s.(wire := s.wire + [reply.value]) else s
  }

  predicate Deferred(methods: map<string, Kind>, msg: Incoming) {
    msg.name.Some? && msg.name.value in methods && !methods[msg.name.value].SyncMethod?
  }

  predicate Enabled(s: State, a: Action) {
    match a
    case Arrive(_, _) => s.alive
    case Finish(reply) => reply in s.futures
    case Register(_, _) => s.alive
  }

  function AfterArrival(methods: map<string, Kind>, s: State, msg: Incoming, h: Handling): State {
    if !Acceptable(msg) then s.(alive := false)
    else if msg.name.None? then
      var (calls, fired) := AfterResponse(s.calls, s.fired, msg.id.value, OutcomeOf(msg));
      s.(calls := calls, fired := fired)
    else
      var reply := ReplyTo(methods, msg, h);
      if Deferred(methods, msg) then s.(futures := s.futures + multiset{reply}) else Sent(s, reply)
  }

  function Apply(methods: map<string, Kind>, s: State, a: Action): State
    requires Enabled(s, a)
  {
    match a
    case Arrive(msg, h) => AfterArrival(methods, s, msg, h)
    case Finish(reply) => Sent(s.(futures := s.futures - multiset{reply}), reply)
    case Register(id, cb) => s.(calls := s.calls[id := cb])
  }

  ghost predicate Runs(methods: map<string, Kind>, acts: seq<Action>)
    decreases |acts|, 0
  {
    acts == [] ||
    var n := |acts| - 1;
    Runs(methods, acts[..n]) && Enabled(After(methods, acts[..n]), acts[n])
  }

  ghost function After(methods: map<string, Kind>, acts: seq<Action>): State
    requires Runs(methods, acts)
    decreases |acts|, 1
  {
    if acts == [] then START
    else
      var n := |acts| - 1;
      Apply(methods, After(methods, acts[..n]), acts[n])
  }

  // The replies owed for the requests of a run, in order of arrival.
  function Owed(methods: map<string, Kind>, acts: seq<Action>): seq<Reply> {
    if acts == [] then []
    else
      var n := |acts| - 1;
      var r := if acts[n].Arrive? then ReplyTo(methods, acts[n].msg, acts[n].handling) else None;
      Owed(methods, acts[..n]) + (if r.Some? then [r.value] else [])
  }

  lemma SentOne(s: State, reply: Option<Reply>, r: Reply)
    ensures multiset(Sent(s, reply).wire)[r] == multiset(s.wire)[r] + (if reply == Some(r) then 1 else 0)
  {
  }

  // The replies of kind r that have been sent or are still to come.
  ghost function Due(s: State, r: Reply): nat {
    multiset(s.wire)[r] + s.futures[Some(r)]
  }

  lemma ArrivalStep(methods: map<string, Kind>, s: State, msg: Incoming, h: Handling, r: Reply)
    ensures Due(AfterArrival(methods, s, msg, h), r) ==
            Due(s, r) + (if ReplyTo(methods, msg, h) == Some(r) then 1 else 0)
  {
    var reply := ReplyTo(methods, msg, h);
    SentOne(s, reply, r);
    if Acceptable(msg) && Deferred(methods, msg) {
      assert (s.futures + multiset{reply})[Some(r)] == s.futures[Some(r)] + (if reply == Some(r) then 1 else 0);
    }
  }

  lemma ReplyStep(methods: map<string, Kind>, s: State, a: Action, r: Reply)
    requires Enabled(s, a)
    ensures Due(Apply(methods, s, a), r) ==
            Due(s, r) + (if a.Arrive? && ReplyTo(methods, a.msg, a.handling) == Some(r) then 1 else 0)
  {
    if a.Arrive? {
      ArrivalStep(methods, s, a.msg, a.handling, r);
    } else if a.Finish? {
      SentOne(s.(futures := s.futures - multiset{a.reply}), a.reply, r);
    }
  }

  lemma {:induction false} RepliesBalance(methods: map<string, Kind>, acts: seq<Action>, r: Reply)
    requires Runs(methods, acts)
    ensures Due(After(methods, acts), r) == multiset(Owed(methods, acts))[r]
  {
    if acts != [] {
      var n := |acts| - 1;
      RepliesBalance(methods, acts[..n], r);
      ReplyStep(methods, After(methods, acts[..n]), acts[n], r);
    }
  }

  function IdsOf(replies: seq<Reply>): seq<CallId> {
    seq(|replies|, i requires 0 <= i < |replies| => replies[i].id)
  }

  // The ids of the requests of a run that carry one.
  function RequestIds(acts: seq<Action>): seq<CallId> {
    if acts == [] then []
    else
      var n := |acts| - 1;
      RequestIds(acts[..n]) +
      (if acts[n].Arrive? && acts[n].msg.name.Some? && acts[n].msg.id.Some? then [acts[n].msg.id.value] else [])
  }

  lemma {:induction false} OwedIds(methods: map<string, Kind>, acts: seq<Action>)
    ensures IdsOf(Owed(methods, acts)) == RequestIds(acts)
  {
    if acts != [] {
      var n := |acts| - 1;
      OwedIds(methods, acts[..n]);
      var before := Owed(methods, acts[..n]);
      var r := if acts[n].Arrive? then ReplyTo(methods, acts[n].msg, acts[n].handling) else None;
      assert r.Some? ==> IdsOf(before + [r.value]) == IdsOf(before) + [r.value.id];
    }
  }

  lemma TakeOut<T>(b: seq<T>, i: nat)
    requires i < |b|
    ensures multiset(b) == multiset(b[..i] + b[i + 1..]) + multiset{b[i]}
  {
    assert b == b[..i] + ([b[i]] + b[i + 1..]);
  }

  lemma IdsWithout(b: seq<Reply>, i: nat)
    requires i < |b|
    ensures multiset(IdsOf(b)) == multiset(IdsOf(b[..i] + b[i + 1..])) + multiset{b[i].id}
  {
    TakeOut(IdsOf(b), i);
    assert IdsOf(b)[..i] + IdsOf(b)[i + 1..] == IdsOf(b[..i] + b[i + 1..]);
  }

  lemma {:induction false} SameRepliesSameIds(a: seq<Reply>, b: seq<Reply>)
    requires multiset(a) == multiset(b)
    ensures multiset(IdsOf(a)) == multiset(IdsOf(b))
    decreases |a|
  {
    if a == [] {
      assert |multiset(b)| == 0;
    } else {
      assert a[0] in multiset(b);
      var i :| 0 <= i < |b| && b[i] == a[0];
      SameRest(a, b, i);
      IdsWithout(a, 0);
      IdsWithout(b, i);
      assert a[..0] + a[1..] == a[1..];
      SameRepliesSameIds(a[1..], b[..i] + b[i + 1..]);
    }
  }

  lemma SameRest<T>(a: seq<T>, b: seq<T>, i: nat)
    requires multiset(a) == multiset(b) && a != [] && i < |b| && b[i] == a[0]
    ensures multiset(a[1..]) == multiset(b[..i] + b[i + 1..])
  {
    var bs := b[..i] + b[i + 1..];
    assert multiset(a) == multiset(a[1..]) + multiset{a[0]} by {
      assert a == [a[0]] + a[1..];
    }
    assert multiset(b) == multiset(bs) + multiset{a[0]} by {
      TakeOut(b, i);
    }
    forall x: T ensures multiset(a[1..])[x] == multiset(bs)[x] {
      assert multiset(a)[x] == multiset(b)[x];
    }
  }

  // Once every future has resolved, the replies on the wire are exactly the ones owed: each request
  // with an id has had one reply, with that id, and each request without an id none.
  lemma OneReplyPerRequest(methods: map<string, Kind>, acts: seq<Action>)
    requires Runs(methods, acts) && After(methods, acts).futures == multiset{}
    ensures var s := After(methods, acts);
            && multiset(s.wire) == multiset(Owed(methods, acts))
            && multiset(IdsOf(s.wire)) == multiset(RequestIds(acts))
  {
    var s := After(methods, acts);
    forall r: Reply ensures multiset(s.wire)[r] == multiset(Owed(methods, acts))[r] {
      RepliesBalance(methods, acts, r);
    }
    SameRepliesSameIds(s.wire, Owed(methods, acts));
    OwedIds(methods, acts);
  }

  // ---------- which reply ----------

  // Position n of the run is a request with this id.
  predicate RequestAt(acts: seq<Action>, n: int, id: CallId) {
    0 <= n < |acts| && acts[n].Arrive? && acts[n].msg.name.Some? && acts[n].msg.id == Some(id)
  }

  // The method it names is registered.
  predicate KnownAt(methods: map<string, Kind>, acts: seq<Action>, n: int)
    requires 0 <= n < |acts| && acts[n].Arrive? && acts[n].msg.name.Some?
  {
    acts[n].msg.name.value in methods
  }

  // The step brings a request that is owed r.
  predicate Owes(methods: map<string, Kind>, a: Action, r: Reply) {
    a.Arrive? && ReplyTo(methods, a.msg, a.handling) == Some(r)
  }

  ghost function OwedAt(methods: map<string, Kind>, acts: seq<Action>, r: Reply): set<nat> {
    set n: nat | n < |acts| && Owes(methods, acts[n], r)
  }

  lemma {:induction false} OwedCount(methods: map<string, Kind>, acts: seq<Action>, r: Reply)
    ensures multiset(Owed(methods, acts))[r] == |OwedAt(methods, acts, r)|
  {
    if acts == [] {
      assert OwedAt(methods, acts, r) == {};
    } else {
      var n := |acts| - 1;
      OwedCount(methods, acts[..n], r);
      assert acts == acts[..n] + [acts[n]];
      OwedAtSnoc(methods, acts[..n], acts[n], r);
      OwedSnoc(methods, acts[..n], acts[n], r);
    }
  }

  lemma OwedAtSnoc(methods: map<string, Kind>, acts: seq<Action>, a: Action, r: Reply)
    ensures |OwedAt(methods, acts + [a], r)| == |OwedAt(methods, acts, r)| + (if Owes(methods, a, r) then 1 else 0)
  {
    var n, before, now := |acts|, OwedAt(methods, acts, r), OwedAt(methods, acts + [a], r);
    forall i ensures i in now <==> i in before || (i == n && Owes(methods, a, r)) {
      if 0 <= i < n { assert (acts + [a])[i] == acts[i]; }
    }
    assert now == if Owes(methods, a, r) then before + {n} else before;
  }

  lemma OwedSnoc(methods: map<string, Kind>, acts: seq<Action>, a: Action, r: Reply)
    ensures multiset(Owed(methods, acts + [a]))[r] ==
            multiset(Owed(methods, acts))[r] + (if Owes(methods, a, r) then 1 else 0)
  {
    assert (acts + [a])[..|acts|] == acts;
    var reply := if a.Arrive? then ReplyTo(methods, a.msg, a.handling) else None;
    CountOne(Owed(methods, acts), reply, r);
  }

  lemma CountOne(sent: seq<Reply>, reply: Option<Reply>, r: Reply)
    ensures multiset(sent + (if reply.Some? then [reply.value] else []))[r] ==
            multiset(sent)[r] + (if reply == Some(r) then 1 else 0)
  {
  }

  // The requests with this id of which p holds, given whether their method is registered and how they fare.
  ghost function Requests(methods: map<string, Kind>, acts: seq<Action>, id: CallId, p: (bool, Handling) -> bool)
    : set<nat>
  {
    set n: nat | n < |acts| && RequestAt(acts, n, id) && p(KnownAt(methods, acts, n), acts[n].handling)
  }

  // Once all futures have resolved, there is a success for each request for a registered method that
  // succeeded, an error 0 for each one with bad parameters, and an error -1 for each one that failed or
  // named an unknown method, each with its id; and nothing else.
  lemma RepliesByOutcome(methods: map<string, Kind>, acts: seq<Action>, id: CallId)
    requires Runs(methods, acts) && After(methods, acts).futures == multiset{}
    ensures var sent := multiset(After(methods, acts).wire);
            && sent[Success(id)] == |Requests(methods, acts, id, (known, h: Handling) => known && h.Succeeds?)|
            && sent[Error(id, 0)] == |Requests(methods, acts, id, (known, h: Handling) => known && h.BadParams?)|
            && sent[Error(id, -1)] == |Requests(methods, acts, id, (known, h: Handling) => !known || h.Fails?)|
            && forall code :: code != 0 && code != -1 ==> sent[Error(id, code)] == 0
  {
    SentIs(methods, acts, Success(id), (known, h: Handling) => known && h.Succeeds?);
    SentIs(methods, acts, Error(id, 0), (known, h: Handling) => known && h.BadParams?);
    SentIs(methods, acts, Error(id, -1), (known, h: Handling) => !known || h.Fails?);
    forall code | code != 0 && code != -1 ensures multiset(After(methods, acts).wire)[Error(id, code)] == 0 {
      SentIsOwed(methods, acts, Error(id, code));
      assert OwedAt(methods, acts, Error(id, code)) == {};
    }
  }

  lemma SentIs(methods: map<string, Kind>, acts: seq<Action>, r: Reply, p: (bool, Handling) -> bool)
    requires Runs(methods, acts) && After(methods, acts).futures == multiset{}
    requires forall name: string, h :: p(name in methods, h) <==>
                                      ReplyTo(methods, Incoming(Some(r.id), Some(name), false), h) == Some(r)
    ensures multiset(After(methods, acts).wire)[r] == |Requests(methods, acts, r.id, p)|
  {
    SentIsOwed(methods, acts, r);
    var owed, requests := OwedAt(methods, acts, r), Requests(methods, acts, r.id, p);
    forall n: nat ensures n in owed <==> n in requests {
      if n < |acts| && acts[n].Arrive? && acts[n].msg.name.Some? {
        var name := acts[n].msg.name.value;
        assert ReplyTo(methods, Incoming(Some(r.id), Some(name), false), acts[n].handling) == Some(r) <==>
               p(name in methods, acts[n].handling);
      }
    }
    assert owed == requests;
  }

  lemma SentIsOwed(methods: map<string, Kind>, acts: seq<Action>, r: Reply)
    requires Runs(methods, acts) && After(methods, acts).futures == multiset{}
    ensures multiset(After(methods, acts).wire)[r] == |OwedAt(methods, acts, r)|
  {
    RepliesBalance(methods, acts, r);
    OwedCount(methods, acts, r);
  }

  // ---------- pending calls ----------

  // Position n of the run registers a callback for id.
  predicate RegistersAt(acts: seq<Action>, n: int, id: CallId) {
    0 <= n < |acts| && acts[n].Register? && acts[n].id == id
  }

  // Position n of the run is a response to id.
  predicate RespondsAt(acts: seq<Action>, n: int, id: CallId) {
    0 <= n < |acts| && acts[n].Arrive? && acts[n].msg.name.None? && acts[n].msg.id == Some(id)
  }

  ghost predicate FreshCalls(acts: seq<Action>) {
    forall i, j, id :: RegistersAt(acts, i, id) && RegistersAt(acts, j, id) ==> i == j
  }

  ghost predicate Registered(acts: seq<Action>, id: CallId) {
    exists n :: RegistersAt(acts, n, id)
  }

  // A response to id comes after its registration.
  ghost predicate Answered(acts: seq<Action>, id: CallId) {
    exists i, j :: RegistersAt(acts, i, id) && RespondsAt(acts, j, id) && i < j
  }

  // Position j is the first response to id after its registration at i.
  ghost predicate AnswersAt(acts: seq<Action>, i: int, j: int, id: CallId) {
    RegistersAt(acts, i, id) && RespondsAt(acts, j, id) && i < j && forall k :: i < k < j ==> !RespondsAt(acts, k, id)
  }

  // Some firing of this outcome is owed to the first response after the registration.
  ghost predicate OutcomeOk(acts: seq<Action>, id: CallId, outcome: Outcome) {
    exists i, j :: AnswersAt(acts, i, j, id) && (outcome.GotError? <==> acts[j].msg.error)
  }

  ghost predicate FiredFor(fired: seq<Firing>, id: CallId) {
    exists k :: 0 <= k < |fired| && fired[k].id == id
  }

  ghost predicate CallOk(s: State, acts: seq<Action>, id: CallId) {
    && (FiredFor(s.fired, id) <==> Answered(acts, id))
    && (id in s.calls <==> Registered(acts, id) && !Answered(acts, id))
    && (id in s.calls ==> exists n :: RegistersAt(acts, n, id) && acts[n].cb == s.calls[id])
    && (forall k :: 0 <= k < |s.fired| && s.fired[k].id == id ==>
          exists n :: RegistersAt(acts, n, id) && acts[n].cb == s.fired[k].cb)
    && (forall k, l :: 0 <= k < |s.fired| && 0 <= l < |s.fired| && s.fired[k].id == id && s.fired[l].id == id ==>
          k == l)
  }

  lemma Prefixes(acts: seq<Action>, id: CallId)
    requires acts != []
    ensures forall k :: RegistersAt(acts[..|acts| - 1], k, id) <==> RegistersAt(acts, k, id) && k < |acts| - 1
    ensures forall k :: RespondsAt(acts[..|acts| - 1], k, id) <==> RespondsAt(acts, k, id) && k < |acts| - 1
  {
    var before := acts[..|acts| - 1];
    assert forall k :: 0 <= k < |before| ==> before[k] == acts[k];
    forall k ensures RegistersAt(before, k, id) <==> RegistersAt(acts, k, id) && k < |acts| - 1 {}
    forall k ensures RespondsAt(before, k, id) <==> RespondsAt(acts, k, id) && k < |acts| - 1 {}
  }

  // With fresh ids: a callback fires if and only if a response to its id is dispatched after it was
  // registered; it fires at most once; and until then it is pending. So the callbacks registered are
  // the disjoint union of the pending and the fired ones, each still the one that was registered.
  lemma {:induction false} CallbacksFireOnce(methods: map<string, Kind>, acts: seq<Action>, id: CallId)
    requires Runs(methods, acts) && FreshCalls(acts)
    ensures CallOk(After(methods, acts), acts, id)
  {
    if acts != [] {
      var n := |acts| - 1;
      var before := acts[..n];
      assert FreshCalls(before) by {
        assert forall i, j :: RegistersAt(before, i, j) ==> RegistersAt(acts, i, j);
      }
      CallbacksFireOnce(methods, before, id);
      CallStep(methods, acts, id);
    }
  }

  lemma CallStep(methods: map<string, Kind>, acts: seq<Action>, id: CallId)
    requires acts != [] && Runs(methods, acts) && FreshCalls(acts)
    requires CallOk(After(methods, acts[..|acts| - 1]), acts[..|acts| - 1], id)
    ensures CallOk(After(methods, acts), acts, id)
  {
    var n := |acts| - 1;
    var before := acts[..n];
    var s0, s := After(methods, before), After(methods, acts);
    Prefixes(acts, id);
    if RegistersAt(acts, n, id) {
      forall i ensures !RegistersAt(before, i, id) {
        assert RegistersAt(before, i, id) ==> RegistersAt(acts, i, id);
      }
      assert !Answered(acts, id);
    } else if RespondsAt(acts, n, id) {
      RespondStep(s0, s, acts, id);
    } else {
      forall i ensures RegistersAt(acts, i, id) <==> RegistersAt(before, i, id) {}
      forall i ensures RespondsAt(acts, i, id) <==> RespondsAt(before, i, id) {}
      OtherStep(methods, s0, acts[n], id);
    }
  }

  // A step that neither registers id nor responds to it leaves its callback alone.
  lemma OtherStep(methods: map<string, Kind>, s: State, a: Action, id: CallId)
    requires Enabled(s, a) && !RegistersAt([a], 0, id) && !RespondsAt([a], 0, id)
    ensures var s' := Apply(methods, s, a);
            && Look(s'.calls, id) == Look(s.calls, id)
            && s.fired <= s'.fired && forall k :: |s.fired| <= k < |s'.fired| ==> s'.fired[k].id != id
  {
  }

  lemma RespondStep(s0: State, s: State, acts: seq<Action>, id: CallId)
    requires acts != [] && RespondsAt(acts, |acts| - 1, id) && CallOk(s0, acts[..|acts| - 1], id)
    requires (s.calls, s.fired) == AfterResponse(s0.calls, s0.fired, id, OutcomeOf(acts[|acts| - 1].msg))
    ensures CallOk(s, acts, id)
  {
    var n := |acts| - 1;
    var before := acts[..n];
    Prefixes(acts, id);
    forall i ensures RegistersAt(acts, i, id) <==> RegistersAt(before, i, id) {}
    assert Answered(acts, id) <==> Registered(before, id) by {
      if Registered(before, id) {
        var i :| RegistersAt(before, i, id);
        assert RegistersAt(acts, i, id) && RespondsAt(acts, n, id);
      }
    }
    if id in s0.calls {
      assert s.fired[|s0.fired|].id == id;
    } else if Registered(before, id) {
      assert FiredFor(s0.fired, id);
    }
  }

  lemma OutcomeStays(before: seq<Action>, a: Action, id: CallId, outcome: Outcome)
    requires OutcomeOk(before, id, outcome)
    ensures OutcomeOk(before + [a], id, outcome)
  {
    var acts := before + [a];
    var i, j :| AnswersAt(before, i, j, id) && (outcome.GotError? <==> before[j].msg.error);
    assert forall k :: 0 <= k < |before| ==> acts[k] == before[k];
    forall k | i < k < j ensures !RespondsAt(acts, k, id) {
      assert !RespondsAt(before, k, id);
    }
    assert AnswersAt(acts, i, j, id);
  }

  // A step fires nothing, or the callback of the response it is.
  lemma FiredStep(methods: map<string, Kind>, s: State, a: Action)
    requires Enabled(s, a)
    ensures var s' := Apply(methods, s, a);
            || s'.fired == s.fired
            || (RespondsAt([a], 0, s'.fired[|s'.fired| - 1].id) && s'.fired[|s'.fired| - 1].id in s.calls &&
                s'.fired == s.fired + [Firing(a.msg.id.value, s.calls[a.msg.id.value], OutcomeOf(a.msg))])
  {
  }

  // A callback fires with what the first response after its registration carries: an error if and only
  // if that response is one.
  lemma {:induction false} OutcomeIsAnswer(methods: map<string, Kind>, acts: seq<Action>, id: CallId, k: nat)
    requires Runs(methods, acts) && FreshCalls(acts)
    requires k < |After(methods, acts).fired| && After(methods, acts).fired[k].id == id
    ensures OutcomeOk(acts, id, After(methods, acts).fired[k].outcome)
  {
    var n := |acts| - 1;
    var before := acts[..n];
    assert acts == before + [acts[n]];
    assert FreshCalls(before) by {
      assert forall i, j :: RegistersAt(before, i, j) ==> RegistersAt(acts, i, j);
    }
    FiredStep(methods, After(methods, before), acts[n]);
    if k < |After(methods, before).fired| {
      OutcomeIsAnswer(methods, before, id, k);
      OutcomeStays(before, acts[n], id, After(methods, acts).fired[k].outcome);
    } else {
      CallbacksFireOnce(methods, before, id);
      NewAnswer(methods, acts, id);
    }
  }

  lemma NewAnswer(methods: map<string, Kind>, acts: seq<Action>, id: CallId)
    requires acts != [] && RespondsAt(acts, |acts| - 1, id)
    requires Registered(acts[..|acts| - 1], id) && !Answered(acts[..|acts| - 1], id)
    ensures OutcomeOk(acts, id, OutcomeOf(acts[|acts| - 1].msg))
  {
    var n := |acts| - 1;
    var before := acts[..n];
    Prefixes(acts, id);
    var i :| RegistersAt(before, i, id);
    forall k | i < k < n ensures !RespondsAt(acts, k, id) {
      assert RespondsAt(before, k, id) <==> RespondsAt(acts, k, id);
      assert !(RegistersAt(before, i, id) && RespondsAt(before, k, id));
    }
    assert AnswersAt(acts, i, n, id);
  }
}
