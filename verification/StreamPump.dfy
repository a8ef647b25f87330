/**
 The outgoing half of a stream call: the announcement, and one pump task per stream
 that copies what it chunks to the shared channel until end of file.
 */
module StreamPump {
  import opened Wrappers
  import opened Sequences
  import opened StreamRecords

  const BUFFER := 4096

  datatype Msg =
    | Started(request: nat, ids: seq<Id>)
    | Data(id: Id, segment: seq<byte>)
    | Ended(id: Id)

  datatype Phase = Reading | Holding(chunk: seq<byte>) | AtEof | Finished | Aborted

  // `read` is the history of all bytes taken from the stream.
  datatype Pump = Pump(read: seq<byte>, phase: Phase)

  datatype State = State(
    open: bool,                // whether the receiving end of the channel still exists
    out: seq<Msg>,             // everything accepted by the channel
    announced: set<Id>,        // registered, its pump not spawned yet
    pumps: map<Id, Pump>)

  datatype Action =
    | Register(request: nat, ids: seq<Id>)
    | Spawn(id: Id)
    | Read(id: Id, chunk: seq<byte>)
    | ReadEof(id: Id)          // zero bytes or an error
    | Send(id: Id)             // the send that follows a read, or the final one
    | CloseChannel

  const START := State(true, [], {}, map[])

  ghost predicate Enabled(s: State, a: Action) {
    match a
    case Register(_, ids) =>
      (forall id :: id in ids ==> id !in s.announced && id !in s.pumps &&      // counter ids: assumed fresh
                                  forall m :: m in s.out && m.Started? ==> id !in m.ids) &&
      (forall i, j :: 0 <= i < j < |ids| ==> ids[i] != ids[j])
    case Spawn(id) => id in s.announced
    case Read(id, chunk) => id in s.pumps && s.pumps[id].phase.Reading? && 1 <= |chunk| <= BUFFER
    case ReadEof(id) => id in s.pumps && s.pumps[id].phase.Reading?
    case Send(id) => id in s.pumps && (s.pumps[id].phase.Holding? || s.pumps[id].phase.AtEof?)
    case CloseChannel => true
  }

  function SetPhase(s: State, id: Id, p: Phase): State
    requires id in s.pumps
  {
    s.(pumps := s.pumps[id := s.pumps[id].(phase := p)])
  }

  ghost function Apply(s: State, a: Action): State
    requires Enabled(s, a)
  {
    match a
    case Register(request, ids) =>
      if s.open then s.(out := s.out + [Started(request, ids)], announced := s.announced + set id | id in ids) else s
    case Spawn(id) => s.(announced := s.announced - {id}, pumps := s.pumps[id := Pump([], Reading)])
    case Read(id, chunk) => s.(pumps := s.pumps[id := Pump(s.pumps[id].read + chunk, Holding(chunk))])
    case ReadEof(id) => SetPhase(s, id, AtEof)
    case Send(id) =>
      var p := s.pumps[id].phase;
      if p.AtEof? then SetPhase(if s.open then s.(out := s.out + [Ended(id)]) else s, id, Finished)
      else if s.open then SetPhase(s.(out := s.out + [Data(id, p.chunk)]), id, Reading)
      else SetPhase(s, id, Aborted)
    case CloseChannel => s.(open := false)
  }

  ghost predicate Runs(s: State, acts: seq<Action>)
    decreases |acts|
  {
    acts == [] || (Enabled(s, acts[0]) && Runs(Apply(s, acts[0]), acts[1..]))
  }

  ghost function After(s: State, acts: seq<Action>): State
    requires Runs(s, acts)
    decreases |acts|
  {
    if acts == [] then s else After(Apply(s, acts[0]), acts[1..])
  }

  // The messages that concern one stream.
  predicate Concerns(m: Msg, id: Id) {
    match m
    case Started(_, ids) => id in ids
    case Data(j, _) => j == id
    case Ended(j) => j == id
  }

  function Project(out: seq<Msg>, id: Id): seq<Msg> {
    if out == [] then []
    else
      var n := |out| - 1;
      Project(out[..n], id) + (if Concerns(out[n], id) then [out[n]] else [])
  }

  lemma ProjectSnoc(out: seq<Msg>, m: Msg, id: Id)
    ensures Project(out + [m], id) == if Concerns(m, id) then Project(out, id) + [m] else Project(out, id)
  {
    assert (out + [m])[..|out|] == out;
  }

  ghost predicate Chunked(segments: seq<seq<byte>>, bytes: seq<byte>) {
    Flatten(segments) == bytes && forall i :: 0 <= i < |segments| ==> 1 <= |segments[i]| <= 4096
  }

  // The whole output for one stream: its announcement, the bytes in chunks, and perhaps its end.
  ghost predicate WellFormed(p: seq<Msg>, id: Id, bytes: seq<byte>, ended: bool) {
    exists request, ids, segments :: Tells(p, id, bytes, ended, request, ids, segments)
  }

  ghost predicate Tells(p: seq<Msg>, id: Id, bytes: seq<byte>, ended: bool, request: nat, ids: seq<Id>,
                        segments: seq<seq<byte>>) {
    && id in ids && Chunked(segments, bytes)
    && |p| == 1 + |segments| + (if ended then 1 else 0)
    && p[0] == Started(request, ids)
    && (forall i :: 0 <= i < |segments| ==> p[1 + i] == Data(id, segments[i]))
    && (ended ==> p[|p| - 1] == Ended(id))
  }

  // The bytes of a pump that have been sent: all it has read, but for the chunk in hand or lost.
  ghost predicate PumpOk(s: State, id: Id)
    requires id in s.pumps
  {
    var p := s.pumps[id];
    var out := Project(s.out, id);
    match p.phase
    case Reading => WellFormed(out, id, p.read, false)
    case AtEof => WellFormed(out, id, p.read, false)
    case Holding(chunk) =>
      1 <= |chunk| <= BUFFER && chunk <= p.read[if |chunk| <= |p.read| then |p.read| - |chunk| else 0..] &&
      |chunk| <= |p.read| && WellFormed(out, id, p.read[..|p.read| - |chunk|], false)
    case Finished => WellFormed(out, id, p.read, true) || (!s.open && WellFormed(out, id, p.read, false))
    case Aborted => !s.open && exists k :: 0 <= k <= |p.read| && WellFormed(out, id, p.read[..k], false)
  }

  ghost predicate NeverNamed(s: State, id: Id) {
    id !in s.announced && id !in s.pumps && forall m :: m in s.out && m.Started? ==> id !in m.ids
  }

  ghost predicate IdOk(s: State, id: Id) {
    && (id in s.announced ==> id !in s.pumps && WellFormed(Project(s.out, id), id, [], false))
    && (id in s.pumps ==> PumpOk(s, id))
    && (NeverNamed(s, id) ==> Project(s.out, id) == [])
    && (forall m :: m in s.out && m.Started? && id in m.ids ==> id in s.announced || id in s.pumps)
  }

  ghost predicate Inv(s: State) {
    forall id :: IdOk(s, id)
  }

  lemma Announce(id: Id, request: nat, ids: seq<Id>)
    requires id in ids
    ensures WellFormed([Started(request, ids)], id, [], false)
  {
    assert Tells([Started(request, ids)], id, [], false, request, ids, []);
  }

  lemma OneMore(p: seq<Msg>, id: Id, bytes: seq<byte>, chunk: seq<byte>)
    requires WellFormed(p, id, bytes, false) && 1 <= |chunk| <= BUFFER
    ensures WellFormed(p + [Data(id, chunk)], id, bytes + chunk, false)
  {
    var request, ids, segments :| Tells(p, id, bytes, false, request, ids, segments);
    var more := segments + [chunk];
    assert more[..|segments|] == segments;
    assert Tells(p + [Data(id, chunk)], id, bytes + chunk, false, request, ids, more);
  }

  lemma TheEnd(p: seq<Msg>, id: Id, bytes: seq<byte>)
    requires WellFormed(p, id, bytes, false)
    ensures WellFormed(p + [Ended(id)], id, bytes, true)
  {
    var request, ids, segments :| Tells(p, id, bytes, false, request, ids, segments);
    assert Tells(p + [Ended(id)], id, bytes, true, request, ids, segments);
  }

  lemma RegisterKeeps(s: State, request: nat, ids: seq<Id>, id: Id)
    requires IdOk(s, id) && Enabled(s, Register(request, ids)) && s.open
    ensures IdOk(Apply(s, Register(request, ids)), id)
  {
    var s', m := Apply(s, Register(request, ids)), Started(request, ids);
    ProjectSnoc(s.out, m, id);
    assert m in s'.out;
    if id in ids {
      Announce(id, request, ids);
      assert NeverNamed(s, id);
      assert [] + [m] == [m];
    } else {
      assert NeverNamed(s', id) ==> NeverNamed(s, id) by { assert forall x :: x in s.out ==> x in s'.out; }
      assert id in s.pumps ==> PumpOk(s', id);
    }
  }

  lemma SendKeeps(s: State, id: Id)
    requires IdOk(s, id) && Enabled(s, Send(id))
    ensures IdOk(Apply(s, Send(id)), id)
  {
    var s' := Apply(s, Send(id));
    if s.open {
      ProjectSnoc(s.out, s'.out[|s.out|], id);
    }
    if s.pumps[id].phase.AtEof? {
      TheEnd(Project(s.out, id), id, s.pumps[id].read);
      assert PumpOk(s', id);
    } else {
      SendChunk(s, id);
    }
  }

  lemma SendChunk(s: State, id: Id)
    requires id in s.pumps && PumpOk(s, id) && s.pumps[id].phase.Holding?
    ensures PumpOk(Apply(s, Send(id)), id)
  {
    var p, s' := s.pumps[id], Apply(s, Send(id));
    var k := |p.read| - |p.phase.chunk|;
    if s.open {
      ProjectSnoc(s.out, Data(id, p.phase.chunk), id);
      OneMore(Project(s.out, id), id, p.read[..k], p.phase.chunk);
      assert p.read[..k] + p.phase.chunk == p.read;
    } else {
      assert WellFormed(Project(s'.out, id), id, p.read[..k], false);
    }
  }

  lemma SendKeepsOther(s: State, j: Id, id: Id)
    requires IdOk(s, id) && Enabled(s, Send(j)) && j != id
    ensures IdOk(Apply(s, Send(j)), id)
  {
    var s' := Apply(s, Send(j));
    if s.open {
      ProjectSnoc(s.out, s'.out[|s.out|], id);
    }
    assert NeverNamed(s', id) ==> NeverNamed(s, id) by { assert forall x :: x in s.out ==> x in s'.out; }
    assert id in s.pumps ==> PumpOk(s', id);
  }

  lemma ReadKeeps(s: State, id: Id, chunk: seq<byte>)
    requires IdOk(s, id) && Enabled(s, Read(id, chunk))
    ensures IdOk(Apply(s, Read(id, chunk)), id)
  {
    var p := Apply(s, Read(id, chunk)).pumps[id];
    assert p.read[..|p.read| - |chunk|] == s.pumps[id].read;
    assert p.read[|p.read| - |chunk|..] == chunk;
  }

  lemma StepKeepsId(s: State, a: Action, id: Id)
    requires IdOk(s, id) && Enabled(s, a)
    ensures IdOk(Apply(s, a), id)
  {
    match a
    case Register(request, ids) => if s.open { RegisterKeeps(s, request, ids, id); }
    case Send(j) => if j == id { SendKeeps(s, id); } else { SendKeepsOther(s, j, id); }
    case Read(j, chunk) => if j == id { ReadKeeps(s, id, chunk); }
    case Spawn(_) =>
    case ReadEof(_) =>
    case CloseChannel =>
  }

  lemma {:induction false} RunKeeps(s: State, acts: seq<Action>)
    requires Runs(s, acts) && Inv(s)
    ensures Inv(After(s, acts))
    ensures s.open && CloseChannel !in acts ==> After(s, acts).open
    decreases |acts|
  {
    if acts != [] {
      var s1 := Apply(s, acts[0]);
      forall id ensures IdOk(s1, id) {
        StepKeepsId(s, acts[0], id);
      }
      assert CloseChannel !in acts ==> CloseChannel !in acts[1..] && acts[0] != CloseChannel;
      RunKeeps(s1, acts[1..]);
    }
  }

  // In every interleaving with the channel open, the output for one stream is its announcement, then
  // chunks of 1 to 4096 bytes that concatenate to the bytes read (but for the chunk in hand), then,
  // once the pump is done, one end message; and a stream that was never announced has no output.
  lemma PumpedExactly(acts: seq<Action>, id: Id)
    requires Runs(START, acts) && CloseChannel !in acts
    ensures var s := After(START, acts); id in s.pumps ==>
      var p := s.pumps[id];
      && !p.phase.Aborted?
      && (p.phase.Finished? ==> WellFormed(Project(s.out, id), id, p.read, true))
      && (p.phase.Reading? || p.phase.AtEof? ==> WellFormed(Project(s.out, id), id, p.read, false))
      && (p.phase.Holding? ==>
            exists sent :: p.read == sent + p.phase.chunk && WellFormed(Project(s.out, id), id, sent, false))
    ensures var s := After(START, acts); NeverNamed(s, id) ==> Project(s.out, id) == []
  {
    var s := After(START, acts);
    RunKeeps(START, acts);
    assert IdOk(s, id);
    if id in s.pumps && s.pumps[id].phase.Holding? {
      var p := s.pumps[id];
      var k := |p.read| - |p.phase.chunk|;
      assert p.read == p.read[..k] + p.phase.chunk;
    }
  }

  // Every stream that was announced has a pump, or will get one as soon as it is spawned.
  lemma AnnouncedArePumped(acts: seq<Action>, m: Msg, id: Id)
    requires Runs(START, acts) && m in After(START, acts).out && m.Started? && id in m.ids
    ensures id in After(START, acts).pumps || Enabled(After(START, acts), Spawn(id))
  {
    RunKeeps(START, acts);
    assert IdOk(After(START, acts), id);
  }

  // With the channel closing at any time, what got out is still a prefix of the bytes read, in order,
  // and the end message never comes before all of them.
  lemma PumpedPrefix(acts: seq<Action>, id: Id)
    requires Runs(START, acts) && id in After(START, acts).pumps
    ensures var s := After(START, acts);
            exists k, ended :: 0 <= k <= |s.pumps[id].read| && (ended ==> k == |s.pumps[id].read|) &&
                               WellFormed(Project(s.out, id), id, s.pumps[id].read[..k], ended)
  {
    var s := After(START, acts);
    RunKeeps(START, acts);
    assert IdOk(s, id);
    var p := s.pumps[id];
    assert p.read[..|p.read|] == p.read;
    match p.phase
    case Finished =>
      var ended := WellFormed(Project(s.out, id), id, p.read, true);
      assert WellFormed(Project(s.out, id), id, p.read[..|p.read|], ended);
    case Aborted =>
    case Holding(chunk) =>
      assert WellFormed(Project(s.out, id), id, p.read[..|p.read| - |chunk|], false);
    case Reading =>
      assert WellFormed(Project(s.out, id), id, p.read[..|p.read|], false);
    case AtEof =>
      assert WellFormed(Project(s.out, id), id, p.read[..|p.read|], false);
  }

  // ---------- the code of one registration and of one pump ----------

  // Position i of a call's streams is the last one with its id.
  predicate LastWithId(dto: seq<(Id, Half)>, i: nat, n: nat)
    requires i < n <= |dto|
  {
    forall j :: i < j < n ==> dto[j].0 != dto[i].0
  }

  // Every stream of the call is registered, announced and pumped, in order; if the announcement cannot be
  // sent, none is. (The ids of a call come from a counter and are distinct; if they were not, the last
  // stream with an id would be the one registered.)
  method RegisterStream(streams: Streams, open: bool, request: nat, dto: seq<(Id, Half)>)
      returns (sent: seq<Msg>, spawned: seq<Id>)
    modifies streams
    ensures !open ==> sent == [] && spawned == [] && streams.records == old(streams.records)
    ensures open ==> |sent| == 1 && sent[0].Started? && sent[0].request == request
    ensures open ==> |sent[0].ids| == |spawned| == |dto|
    ensures open ==> forall i :: 0 <= i < |dto| ==> sent[0].ids[i] == spawned[i] == dto[i].0
    ensures open ==> forall i :: 0 <= i < |dto| && LastWithId(dto, i, |dto|) ==>
                       Look(streams.records, dto[i].0) == Some(StreamRec(Some(dto[i].1), [], false))
    ensures open ==> forall id :: (forall i :: 0 <= i < |dto| ==> dto[i].0 != id) ==>
                       Look(streams.records, id) == Look(old(streams.records), id)
  {
    sent, spawned := [], [];
    if !open {
      return;
    }
    sent := [Started(request, seq(|dto|, i requires 0 <= i < |dto| => dto[i].0))];
    for i := 0 to |dto|
      invariant |spawned| == i && forall k :: 0 <= k < i ==> spawned[k] == dto[k].0
      invariant forall k :: 0 <= k < i && LastWithId(dto, k, i) ==>
                  Look(streams.records, dto[k].0) == Some(StreamRec(Some(dto[k].1), [], false))
      invariant forall id :: (forall k :: 0 <= k < i ==> dto[k].0 != id) ==>
                  Look(streams.records, id) == Look(old(streams.records), id)
    {
      ghost var before := streams.records;
      streams.Insert(dto[i].0, dto[i].1);
      forall k | 0 <= k < i + 1 && LastWithId(dto, k, i + 1)
        ensures Look(streams.records, dto[k].0) == Some(StreamRec(Some(dto[k].1), [], false))
      {
        assert k < i ==> LastWithId(dto, k, i) && dto[i].0 != dto[k].0;
      }
      spawned := spawned + [dto[i].0];
    }
  }

  // With distinct ids every stream is the last one with its id.
  lemma DistinctIds(dto: seq<(Id, Half)>)
    requires forall i, j :: 0 <= i < j < |dto| ==> dto[i].0 != dto[j].0
    ensures forall i :: 0 <= i < |dto| ==> LastWithId(dto, i, |dto|)
  {
  }

  // `chunks` are the results of the successive reads before end of file; the channel takes
  // `capacity` more messages before it closes.
  method PumpOne(id: Id, chunks: seq<seq<byte>>, capacity: nat) returns (sent: seq<Msg>)
    ensures |sent| == if capacity <= |chunks| then capacity else |chunks| + 1
    ensures forall i :: 0 <= i < |sent| ==> sent[i] == if i < |chunks| then Data(id, chunks[i]) else Ended(id)
  {
    sent := [];
    for i := 0 to |chunks|
      invariant |sent| == i <= capacity && forall k :: 0 <= k < i ==> sent[k] == Data(id, chunks[k])
    {
      if i >= capacity {
        return;
      }
      sent := sent + [Data(id, chunks[i])];
    }
    if |chunks| < capacity {
      sent := sent + [Ended(id)];
    }
  }
}
