/**
 Every interleaving of the stream operations: the dispatcher applying incoming
 frames, the spawned removals, and any number of write loops. An atomic step is
 either one critical section of the table or one completed await.
 */
module StreamProtocol {
  import opened Wrappers
  import opened Sequences
  import opened StreamLedger
  import opened StreamRecords

  datatype Frame = Data(id: Id, segment: Segment) | Ended(id: Id)

  // Where a task stands: about to take the lock, inside the drain loop, or at its final shutdown.
  datatype Pc = AtLock | Writing | Closing

  datatype Task = Task(id: Id, w: Half, items: seq<Segment>, pc: Pc)

  // The far end of a write half: the bytes that reached it and how often it was shut down.
  datatype Pipe = Pipe(bytes: seq<byte>, shutdowns: nat)

  datatype Place = InRecord | InTask(t: nat) | IsShutDown

  // History of one inserted stream. No step consults it.
  // `drained` is the batch its write loop took last.
  datatype Hist = Hist(half: Half, place: Place, accepted: seq<Segment>, fates: seq<Fate>,
                       drained: seq<Segment>, frames: seq<Frame>, clean: bool)

  datatype State = State(
    records: Records,
    tasks: map<nat, Task>,
    nextTask: nat,
    removals: multiset<Id>,       // spawned `stream_ended` futures that have not run yet
    pipes: map<Half, Pipe>,
    hist: map<Id, Hist>)

  datatype Action =
    | Insert(id: Id, w: Half)
    | Receive(frame: Frame)
    | RunRemoval(id: Id)
    | Lock(t: nat)
    | WriteOk(t: nat)
    | WriteErr(t: nat, n: nat)    // n bytes went out before the error
    | Shutdown(t: nat)

  const START := State(map[], map[], 0, multiset{}, map[], map[])

  // ---------- the steps ----------

  ghost predicate Enabled(s: State, a: Action) {
    match a
    case Insert(id, w) => id !in s.hist && w !in s.pipes   // ids come from a counter: assumed fresh
    case Receive(_) => true
    case RunRemoval(id) => id in s.removals
    case Lock(t) => t in s.tasks && s.tasks[t].pc == AtLock
    case WriteOk(t) => t in s.tasks && s.tasks[t].pc == Writing && s.tasks[t].items != []
    case WriteErr(t, n) =>
      t in s.tasks && s.tasks[t].pc == Writing && s.tasks[t].items != [] && n < |s.tasks[t].items[0]|
    case Shutdown(t) => t in s.tasks && s.tasks[t].pc == Closing
  }

  function Moved(hist: map<Id, Hist>, id: Id, p: Place): map<Id, Hist> {
    if id in hist then hist[id := hist[id].(place := p)] else hist
  }

  function Fated(hist: map<Id, Hist>, id: Id, fates: seq<Fate>): map<Id, Hist> {
    if id in hist then hist[id := hist[id].(fates := hist[id].fates + fates)] else hist
  }

  function Drained(hist: map<Id, Hist>, id: Id, batch: seq<Segment>): map<Id, Hist> {
    if id in hist then hist[id := hist[id].(drained := batch)] else hist
  }

  function Seen(s: State, f: Frame): State {
    if f.id in s.hist then s.(hist := s.hist[f.id := s.hist[f.id].(frames := s.hist[f.id].frames + [f])]) else s
  }

  function Spawn(s: State, task: Task): State {
    s.(tasks := s.tasks[s.nextTask := task], nextTask := s.nextTask + 1,
       hist := Moved(s.hist, task.id, InTask(s.nextTask)))
  }

  function ApplyInsert(s: State, id: Id, w: Half): State {
    s.(records := AfterInsert(s.records, id, w),
       pipes := s.pipes[w := Pipe([], 0)],
       hist := s.hist[id := Hist(w, InRecord, [], [], [], [], id !in s.removals)])
  }

  function ApplyWrite(s: State, id: Id, buf: Segment): State {
    var (m, spawned) := AfterWrite(s.records, id, buf);
    var s1 := s.(records := m,
                 hist := if id in s.records && id in s.hist
                         then s.hist[id := s.hist[id].(accepted := s.hist[id].accepted + [buf])]
                         else s.hist);
    if spawned.Some? then Spawn(s1, Task(id, spawned.value, [], AtLock)) else s1
  }

  function ApplyReceive(s: State, f: Frame): State {
    match f
    case Data(id, segment) => ApplyWrite(Seen(s, f), id, segment)
    case Ended(id) => var s1 := Seen(s, f); s1.(removals := s1.removals + multiset{id})
  }

  function ApplyRemoval(s: State, id: Id): State {
    var (m, taken) := AfterRemove(s.records, id);
    var s1 := s.(records := m, removals := s.removals - multiset{id});
    if taken.Some? then Spawn(s1, Task(id, taken.value, [], Closing)) else s1
  }

  function ApplyLock(s: State, t: nat): State
    requires t in s.tasks
  {
    var task := s.tasks[t];
    var (m, next) := AfterTurn(s.records, task.id, task.w, task.items);
    var s1 := s.(records := m);
    match next
    case Drain(items) =>
      s1.(tasks := s.tasks[t := task.(items := items, pc := Writing)], hist := Drained(s.hist, task.id, items))
    case HandedBack => s1.(tasks := s.tasks - {t}, hist := Moved(s.hist, task.id, InRecord))
    case Close => s1.(tasks := s.tasks[t := task.(pc := Closing)])
  }

  // `drain(..)` empties the vector even when the loop over it breaks.
  function AfterItems(task: Task, rest: seq<Segment>): Task {
    task.(items := rest, pc := if rest == [] then AtLock else Writing)
  }

  function Put(pipes: map<Half, Pipe>, w: Half, bytes: seq<byte>): map<Half, Pipe> {
    if w in pipes then pipes[w := pipes[w].(bytes := pipes[w].bytes + bytes)] else pipes
  }

  function ApplyWriteOk(s: State, t: nat): State
    requires t in s.tasks && s.tasks[t].items != []
  {
    var task := s.tasks[t];
    s.(tasks := s.tasks[t := AfterItems(task, task.items[1..])],
       pipes := Put(s.pipes, task.w, task.items[0]),
       hist := Fated(s.hist, task.id, [Sent(|task.items[0]|)]))
  }

  function ApplyWriteErr(s: State, t: nat, n: nat): State
    requires t in s.tasks && s.tasks[t].items != [] && n < |s.tasks[t].items[0]|
  {
    var task := s.tasks[t];
    s.(tasks := s.tasks[t := AfterItems(task, [])],
       pipes := Put(s.pipes, task.w, task.items[0][..n]),
       hist := Fated(s.hist, task.id, [Sent(n)] + seq(|task.items| - 1, _ => Dropped)))
  }

  function ApplyShutdown(s: State, t: nat): State
    requires t in s.tasks
  {
    var task := s.tasks[t];
    s.(tasks := s.tasks - {t},
       pipes := if task.w in s.pipes
                then s.pipes[task.w := s.pipes[task.w].(shutdowns := s.pipes[task.w].shutdowns + 1)] else s.pipes,
       hist := Moved(s.hist, task.id, IsShutDown))
  }

  ghost function Apply(s: State, a: Action): State
    requires Enabled(s, a)
  {
    match a
    case Insert(id, w) => ApplyInsert(s, id, w)
    case Receive(f) => ApplyReceive(s, f)
    case RunRemoval(id) => ApplyRemoval(s, id)
    case Lock(t) => ApplyLock(s, t)
    case WriteOk(t) => ApplyWriteOk(s, t)
    case WriteErr(t, n) => ApplyWriteErr(s, t, n)
    case Shutdown(t) => ApplyShutdown(s, t)
  }

  ghost predicate Runs(s: State, acts: seq<Action>)
    decreases |acts|
  {
    acts == [] || (Enabled(s, acts[0]) && Runs(Apply(s, acts[0]), acts[1..]))
  }

  ghost function After(s: State, acts: seq<Action>): State
    requires Runs(s, acts)
    decreases |acts|
  {
    if acts == [] then s else After(Apply(s, acts[0]), acts[1..])
  }

  // ---------- what the histories mean ----------

  ghost predicate NoWriteError(h: Hist)
    requires |h.fates| <= |h.accepted|
  {
    forall i :: 0 <= i < |h.fates| ==> Whole(h.accepted, h.fates, i)
  }

  ghost predicate HasEnd(frames: seq<Frame>) {
    exists f :: f in frames && f.Ended?
  }

  // The segments of the data frames that precede the first end frame.
  ghost function BeforeEnd(frames: seq<Frame>): seq<Segment> {
    if frames == [] then []
    else
      var n := |frames| - 1;
      if HasEnd(frames) then BeforeEnd(frames[..n]) else BeforeEnd(frames[..n]) + [frames[n].segment]
  }

  // ---------- the invariant ----------

  // While items of a batch are left, every segment of it before them was written in full.
  ghost predicate BatchOk(h: Hist, items: seq<Segment>) {
    |items| <= |h.drained| &&
    var done := |h.drained| - |items|;
    && items == h.drained[done..]
    && done <= |h.fates| && forall j :: 0 <= j < done ==> h.fates[|h.fates| - done + j] == Sent(|h.drained[j]|)
  }

  ghost predicate PlaceOk(id: Id, h: Hist, rec: Option<StreamRec>, task: Option<Task>, shutdowns: nat)
    requires |h.fates| <= |h.accepted|
  {
    match h.place
    case InRecord =>
      rec == Some(StreamRec(Some(h.half), [], false)) && |h.fates| == |h.accepted| && shutdowns == 0
    case InTask(_) =>
      task.Some? && task.value.id == id && task.value.w == h.half && shutdowns == 0 &&
      (if task.value.pc.Closing? then rec.None? && |h.fates| == |h.accepted| && task.value.items == []
       else rec.Some? && rec.value.write.None? &&
            h.accepted[|h.fates|..] == task.value.items + rec.value.q &&
            (task.value.pc.AtLock? <==> task.value.items == []) &&
            (task.value.pc.Writing? ==> BatchOk(h, task.value.items)))
    case IsShutDown => rec.None? && shutdowns == 1 && |h.fates| == |h.accepted|
  }

  // As long as no end frame was seen, the record is live and has taken every data frame.
  ghost predicate FramesOk(h: Hist, rec: Option<StreamRec>, removals: nat) {
    && BeforeEnd(h.frames) <= h.accepted
    && (!HasEnd(h.frames) ==> rec.Some? && !rec.value.ended && removals == 0 && BeforeEnd(h.frames) == h.accepted)
  }

  ghost predicate StreamOk(id: Id, h: Hist, rec: Option<StreamRec>, task: Option<Task>, pipe: Option<Pipe>,
                           removals: nat) {
    && |h.fates| <= |h.accepted|
    && DropsFollowFailures(h.accepted, h.fates)
    && pipe.Some? && pipe.value.bytes == Wire(h.accepted, h.fates)
    && PlaceOk(id, h, rec, task, pipe.value.shutdowns)
    && (h.clean ==> FramesOk(h, rec, removals))
    && (HasEnd(h.frames) ==> removals > 0 || IsEnding(h, rec))
  }

  // The stream has been told to end (or is past that point).
  predicate IsEnding(h: Hist, rec: Option<StreamRec>) {
    !h.place.InRecord? && (rec.Some? ==> rec.value.ended)
  }

  function TaskAt(s: State, p: Place): Option<Task> {
    if p.InTask? then Look(s.tasks, p.t) else None
  }

  ghost predicate StreamOkAt(s: State, id: Id)
    requires id in s.hist
  {
    var h := s.hist[id];
    StreamOk(id, h, Look(s.records, id), TaskAt(s, h.place), Look(s.pipes, h.half), s.removals[id])
  }

  ghost predicate TaskOk(s: State, t: nat)
    requires t in s.tasks
  {
    t < s.nextTask && s.tasks[t].id in s.hist && s.hist[s.tasks[t].id].place == InTask(t)
  }

  ghost predicate Inv(s: State) {
    && s.records.Keys <= s.hist.Keys
    && (forall t :: t in s.tasks ==> TaskOk(s, t))
    && (forall id :: id in s.hist ==> StreamOkAt(s, id))
    && (forall i, j :: i in s.hist && j in s.hist && s.hist[i].half == s.hist[j].half ==> i == j)
  }

  // ---------- lemmas about the histories ----------

  lemma BeforeEndGrows(frames: seq<Frame>, f: Frame)
    ensures HasEnd(frames + [f]) <==> HasEnd(frames) || f.Ended?
    ensures BeforeEnd(frames + [f]) ==
            if HasEnd(frames) || f.Ended? then BeforeEnd(frames) else BeforeEnd(frames) + [f.segment]
  {
    assert (frames + [f])[..|frames|] == frames;
    assert f in frames + [f];
  }
}
