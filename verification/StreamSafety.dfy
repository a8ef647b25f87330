/** Safety of the stream protocol over every run. */
module StreamSafety {
  import opened Wrappers
  import opened Sequences
  import opened StreamLedger
  import opened StreamRecords
  import opened StreamProtocol

  // ---------- one stream at a time ----------

  lemma WrittenOk(id: Id, h: Hist, rec: StreamRec, task: Option<Task>, pipe: Option<Pipe>, removals: nat,
                  buf: Segment, h': Hist, task': Option<Task>)
    requires StreamOk(id, h, Some(rec), task, pipe, removals)
    requires h' == h.(accepted := h.accepted + [buf], frames := h.frames + [Data(id, buf)], place := h'.place)
    requires if rec.write.Some? then h'.place.InTask? && task' == Some(Task(id, rec.write.value, [], AtLock))
             else h'.place == h.place && task' == task
    ensures StreamOk(id, h', Some(StreamRec(None, rec.q + [buf], rec.ended)), task', pipe, removals)
  {
    BeforeEndGrows(h.frames, Data(id, buf));
    AcceptMore(LedgerOf(h, pipe.value), false, h.accepted[|h.fates|..], [buf]);
    if rec.write.None? {
      assert task.value.items + rec.q + [buf] == task.value.items + (rec.q + [buf]);
    }
  }

  function LedgerOf(h: Hist, pipe: Pipe): Ledger {
    Ledger(h.accepted, h.fates, pipe.bytes)
  }

  lemma SeenOk(id: Id, h: Hist, rec: Option<StreamRec>, task: Option<Task>, pipe: Option<Pipe>, removals: nat,
               f: Frame, removals': nat)
    requires StreamOk(id, h, rec, task, pipe, removals)
    requires if f.Ended? then removals' == removals + 1 else removals' == removals && rec.None?
    ensures StreamOk(id, h.(frames := h.frames + [f]), rec, task, pipe, removals')
  {
    BeforeEndGrows(h.frames, f);
  }

  lemma ItemSentOk(id: Id, h: Hist, rec: Option<StreamRec>, task: Task, pipe: Pipe, removals: nat)
    requires StreamOk(id, h, rec, Some(task), Some(pipe), removals)
    requires h.place.InTask? && task.pc == Writing && task.items != []
    ensures StreamOk(id, h.(fates := h.fates + [Sent(|task.items[0]|)]), rec, Some(AfterItems(task, task.items[1..])),
                     Some(pipe.(bytes := pipe.bytes + task.items[0])), removals)
  {
    ItemSent(LedgerOf(h, pipe), false, task.items, rec.value.q);
  }

  lemma ItemFailedOk(id: Id, h: Hist, rec: Option<StreamRec>, task: Task, pipe: Pipe, removals: nat, n: nat)
    requires StreamOk(id, h, rec, Some(task), Some(pipe), removals)
    requires h.place.InTask? && task.pc == Writing && task.items != [] && n < |task.items[0]|
    ensures StreamOk(id, h.(fates := h.fates + ([Sent(n)] + seq(|task.items| - 1, _ => Dropped))), rec,
                     Some(AfterItems(task, [])), Some(pipe.(bytes := pipe.bytes + task.items[0][..n])), removals)
  {
    ItemFailed(LedgerOf(h, pipe), task.items, rec.value.q, n);
  }

  // A removal that runs, in each of its outcomes; t is the task it goes on as.
  lemma RemovedOk(id: Id, h: Hist, rec: Option<StreamRec>, task: Option<Task>, pipe: Option<Pipe>,
                  removals: nat, t: nat)
    requires StreamOk(id, h, rec, task, pipe, removals) && removals > 0
    ensures rec.None? ==> StreamOk(id, h, None, task, pipe, removals - 1)
    ensures rec.Some? && rec.value.write.Some? ==>
              StreamOk(id, h.(place := InTask(t)), None, Some(Task(id, rec.value.write.value, [], Closing)), pipe,
                       removals - 1)
    ensures rec.Some? && rec.value.write.None? ==>
              StreamOk(id, h, Some(rec.value.(ended := true)), task, pipe, removals - 1)
  {
  }

  // The locked part of a turn of the write loop, in each of its outcomes.
  lemma LockedOk(id: Id, h: Hist, rec: StreamRec, task: Task, pipe: Option<Pipe>, removals: nat)
    requires StreamOk(id, h, Some(rec), Some(task), pipe, removals) && h.place.InTask? && task.pc == AtLock
    ensures rec.q != [] ==> StreamOk(id, h.(drained := rec.q), Some(rec.(q := task.items)),
                                     Some(task.(items := rec.q, pc := Writing)), pipe, removals)
    ensures rec.q == [] && rec.ended ==> StreamOk(id, h, None, Some(task.(pc := Closing)), pipe, removals)
    ensures rec.q == [] && !rec.ended ==>
              StreamOk(id, h.(place := InRecord), Some(rec.(write := Some(task.w))), None, pipe, removals)
  {
    assert rec.q[0..] == rec.q;
  }

  // ---------- every step keeps the invariant ----------

  // What the invariant says about stream id alone.
  ghost predicate Facts(s: State, id: Id) {
    && (forall t :: t in s.tasks ==> t < s.nextTask)
    && (forall t :: t in s.tasks && s.tasks[t].id == id ==> id in s.hist && s.hist[id].place == InTask(t))
    && (id in s.records ==> id in s.hist)
    && (id in s.hist ==> StreamOkAt(s, id))
  }

  // The step leaves the tasks of every other stream as they were.
  ghost predicate TasksLocal(s: State, s': State, id: Id) {
    && (forall t :: t in s.tasks && s.tasks[t].id != id ==> t in s'.tasks && s'.tasks[t] == s.tasks[t])
    && (forall t :: t in s'.tasks && s'.tasks[t].id != id ==> t in s.tasks && s'.tasks[t] == s.tasks[t])
    && s.nextTask <= s'.nextTask
  }

  // The step concerns stream id only.
  ghost predicate Local(s: State, s': State, id: Id) {
    && s'.hist.Keys == s.hist.Keys
    && (forall j :: j in s.hist && j != id ==> s'.hist[j] == s.hist[j])
    && (forall j :: j != id ==> Look(s'.records, j) == Look(s.records, j))
    && (forall j :: j != id ==> s'.removals[j] == s.removals[j])
    && TasksLocal(s, s', id)
    && (forall w :: (id in s.hist ==> w != s.hist[id].half) ==> Look(s'.pipes, w) == Look(s.pipes, w))
    && (id in s.hist ==> s'.hist[id].half == s.hist[id].half && s'.hist[id].clean == s.hist[id].clean)
  }

  lemma InvFacts(s: State, id: Id)
    requires Inv(s)
    ensures Facts(s, id)
  {
    forall t | t in s.tasks
      ensures t < s.nextTask && (s.tasks[t].id == id ==> id in s.hist && s.hist[id].place == InTask(t))
    {
      assert TaskOk(s, t);
    }
  }

  lemma LocalKeeps(s: State, s': State, id: Id)
    requires Inv(s) && Local(s, s', id) && Facts(s', id)
    ensures Inv(s')
  {
    forall j | j in s'.records ensures j in s'.hist {
      assert j != id ==> Look(s.records, j).Some?;
    }
    forall t | t in s'.tasks ensures TaskOk(s', t) {
      if s'.tasks[t].id != id { assert TaskOk(s, t); }
    }
    forall j | j in s'.hist && j != id ensures StreamOkAt(s', j) {
      var h := s.hist[j];
      assert StreamOkAt(s, j);
      assert id in s.hist ==> h.half != s.hist[id].half;
      SameTask(s, s', id, j);
      SameStream(s, s', j);
    }
  }

  // The owner of a stream's write half, if it is a task, is a task of that stream.
  lemma OwnerTask(s: State, j: Id)
    requires j in s.hist && StreamOkAt(s, j) && s.hist[j].place.InTask?
    ensures s.hist[j].place.t in s.tasks && s.tasks[s.hist[j].place.t].id == j
  {
  }

  lemma SameTask(s: State, s': State, id: Id, j: Id)
    requires j in s.hist && StreamOkAt(s, j) && Local(s, s', id) && j != id
    ensures TaskAt(s', s.hist[j].place) == TaskAt(s, s.hist[j].place)
  {
    if s.hist[j].place.InTask? {
      OwnerTask(s, j);
    }
  }

  // What is true of a stream depends on its own history, record, task, pipe and removals only.
  lemma SameStream(s: State, s': State, j: Id)
    requires j in s.hist && StreamOkAt(s, j) && j in s'.hist && s'.hist[j] == s.hist[j]
    requires Look(s'.records, j) == Look(s.records, j) && TaskAt(s', s.hist[j].place) == TaskAt(s, s.hist[j].place)
    requires Look(s'.pipes, s.hist[j].half) == Look(s.pipes, s.hist[j].half) && s'.removals[j] == s.removals[j]
    ensures StreamOkAt(s', j)
  {
  }

  lemma InsertKeeps(s: State, id: Id, w: Half)
    requires Inv(s) && Enabled(s, Insert(id, w))
    ensures Inv(ApplyInsert(s, id, w))
  {
    var s' := ApplyInsert(s, id, w);
    forall t | t in s'.tasks ensures TaskOk(s', t) { assert TaskOk(s, t); }
    forall j | j in s.hist ensures s.hist[j].half != w && StreamOkAt(s', j) {
      HalfInUse(s, j);
      SameStream(s, s', j);
    }
    NewStream(s, id, w);
  }

  lemma HalfInUse(s: State, j: Id)
    requires Inv(s) && j in s.hist
    ensures s.hist[j].half in s.pipes && StreamOkAt(s, j)
  {
    assert StreamOkAt(s, j);
  }

  lemma NewStream(s: State, id: Id, w: Half)
    requires Enabled(s, Insert(id, w))
    ensures StreamOkAt(ApplyInsert(s, id, w), id)
  {
  }

  lemma WriteIsLocal(s: State, id: Id, buf: Segment)
    requires Facts(s, id)
    ensures var s' := ApplyReceive(s, Data(id, buf)); Local(s, s', id) && Facts(s', id)
  {
    var s' := ApplyReceive(s, Data(id, buf));
    if id in s.hist {
      var h, h' := s.hist[id], s'.hist[id];
      var task, pipe := TaskAt(s, h.place), Look(s.pipes, h.half);
      if id in s.records {
        WrittenOk(id, h, s.records[id], task, pipe, s.removals[id], buf, h', TaskAt(s', h'.place));
      } else {
        SeenOk(id, h, None, task, pipe, s.removals[id], Data(id, buf), s'.removals[id]);
      }
      assert StreamOkAt(s', id);
    }
  }

  lemma EndIsLocal(s: State, id: Id)
    requires Facts(s, id)
    ensures var s' := ApplyReceive(s, Ended(id)); Local(s, s', id) && Facts(s', id)
  {
    var s' := ApplyReceive(s, Ended(id));
    if id in s.hist {
      var h := s.hist[id];
      SeenOk(id, h, Look(s.records, id), TaskAt(s, h.place), Look(s.pipes, h.half), s.removals[id], Ended(id),
             s'.removals[id]);
      assert StreamOkAt(s', id);
    }
  }

  lemma RemovalIsLocal(s: State, id: Id)
    requires Facts(s, id) && Enabled(s, RunRemoval(id))
    ensures Local(s, ApplyRemoval(s, id), id) && Facts(ApplyRemoval(s, id), id)
  {
    if id in s.hist {
      var h, s' := s.hist[id], ApplyRemoval(s, id);
      assert StreamOkAt(s, id);
      RemovedOk(id, h, Look(s.records, id), TaskAt(s, h.place), Look(s.pipes, h.half), s.removals[id], s.nextTask);
      assert StreamOkAt(s', id);
    }
  }

  lemma LockIsLocal(s: State, t: nat)
    requires Enabled(s, Lock(t)) && Facts(s, s.tasks[t].id)
    ensures Local(s, ApplyLock(s, t), s.tasks[t].id) && Facts(ApplyLock(s, t), s.tasks[t].id)
  {
    var task := s.tasks[t];
    var id := task.id;
    var h, rec := s.hist[id], Look(s.records, id);
    assert rec.Some?;
    LockedOk(id, h, rec.value, task, Look(s.pipes, h.half), s.removals[id]);
    var s' := ApplyLock(s, t);
    var next := AfterTurn(s.records, id, task.w, task.items).1;
    assert s'.hist[id] ==
           match next
           case Drain(q) => h.(drained := q)
           case HandedBack => h.(place := InRecord)
           case Close => h;
    assert StreamOkAt(s', id);
  }

  lemma WriteOkIsLocal(s: State, t: nat)
    requires Enabled(s, WriteOk(t)) && Facts(s, s.tasks[t].id)
    ensures Local(s, ApplyWriteOk(s, t), s.tasks[t].id) && Facts(ApplyWriteOk(s, t), s.tasks[t].id)
  {
    var id := s.tasks[t].id;
    var h := s.hist[id];
    ItemSentOk(id, h, Look(s.records, id), s.tasks[t], s.pipes[h.half], s.removals[id]);
    assert StreamOkAt(ApplyWriteOk(s, t), id);
  }

  lemma WriteErrIsLocal(s: State, t: nat, n: nat)
    requires Enabled(s, WriteErr(t, n)) && Facts(s, s.tasks[t].id)
    ensures Local(s, ApplyWriteErr(s, t, n), s.tasks[t].id) && Facts(ApplyWriteErr(s, t, n), s.tasks[t].id)
  {
    var id := s.tasks[t].id;
    var h := s.hist[id];
    ItemFailedOk(id, h, Look(s.records, id), s.tasks[t], s.pipes[h.half], s.removals[id], n);
    assert StreamOkAt(ApplyWriteErr(s, t, n), id);
  }

  lemma ShutdownIsLocal(s: State, t: nat)
    requires Enabled(s, Shutdown(t)) && Facts(s, s.tasks[t].id)
    ensures Local(s, ApplyShutdown(s, t), s.tasks[t].id) && Facts(ApplyShutdown(s, t), s.tasks[t].id)
  {
    assert StreamOkAt(ApplyShutdown(s, t), s.tasks[t].id);
  }

  // The stream an action is about.
  ghost function Subject(s: State, a: Action): Id
    requires Enabled(s, a)
  {
    match a
    case Insert(id, _) => id
    case Receive(f) => f.id
    case RunRemoval(id) => id
    case Lock(t) => s.tasks[t].id
    case WriteOk(t) => s.tasks[t].id
    case WriteErr(t, _) => s.tasks[t].id
    case Shutdown(t) => s.tasks[t].id
  }

  lemma StepIsLocal(s: State, a: Action)
    requires Enabled(s, a) && !a.Insert? && Facts(s, Subject(s, a))
    ensures Local(s, Apply(s, a), Subject(s, a)) && Facts(Apply(s, a), Subject(s, a))
  {
    match a
    case Receive(Data(id, segment)) => WriteIsLocal(s, id, segment);
    case Receive(Ended(id)) => EndIsLocal(s, id);
    case RunRemoval(id) => RemovalIsLocal(s, id);
    case Lock(t) => LockIsLocal(s, t);
    case WriteOk(t) => WriteOkIsLocal(s, t);
    case WriteErr(t, n) => WriteErrIsLocal(s, t, n);
    case Shutdown(t) => ShutdownIsLocal(s, t);
    case Insert(_, _) => assert false;
  }

  lemma StepKeeps(s: State, a: Action)
    requires Inv(s) && Enabled(s, a)
    ensures Inv(Apply(s, a))
  {
    if a.Insert? {
      InsertKeeps(s, a.id, a.w);
    } else {
      var id := Subject(s, a);
      InvFacts(s, id);
      StepIsLocal(s, a);
      LocalKeeps(s, Apply(s, a), id);
    }
  }

  lemma {:induction false} RunKeeps(s: State, acts: seq<Action>)
    requires Inv(s) && Runs(s, acts)
    ensures Inv(After(s, acts))
    decreases |acts|
  {
    if acts != [] {
      StepKeeps(s, acts[0]);
      RunKeeps(Apply(s, acts[0]), acts[1..]);
    }
  }

  ghost predicate Reachable(s: State) {
    exists acts :: Runs(START, acts) && After(START, acts) == s
  }

  lemma ReachableInv(s: State)
    requires Reachable(s)
    ensures Inv(s)
  {
    var acts :| Runs(START, acts) && After(START, acts) == s;
    RunKeeps(START, acts);
  }

  // ---------- the main results ----------

  // The segments of a stream that were accepted but not yet attempted: the batch its
  // write loop holds, then the queue in its record.
  function Pending(s: State, id: Id): seq<Segment>
    requires id in s.hist
  {
    var task := TaskAt(s, s.hist[id].place);
    (if task.Some? then task.value.items else []) + (if id in s.records then s.records[id].q else [])
  }

  lemma PendingIsTheRest(s: State, id: Id)
    requires Inv(s) && id in s.hist
    ensures var h := s.hist[id]; |h.fates| <= |h.accepted| && h.accepted[|h.fates|..] == Pending(s, id)
  {
    assert StreamOkAt(s, id);
  }

  // Delivered ++ batch in hand ++ queue is everything accepted, in order; and with write
  // errors, what reached the far end is exactly what the fates of the accepted segments say.
  lemma OrderedDelivery(s: State, id: Id)
    requires Reachable(s) && id in s.hist
    ensures var h := s.hist[id];
            && h.half in s.pipes && |h.fates| <= |h.accepted|
            && h.accepted == h.accepted[..|h.fates|] + Pending(s, id)
            && s.pipes[h.half].bytes == Wire(h.accepted, h.fates)
            && DropsFollowFailures(h.accepted, h.fates)
            && (NoWriteError(h) ==> s.pipes[h.half].bytes + Flatten(Pending(s, id)) == Flatten(h.accepted))
  {
    ReachableInv(s);
    assert StreamOkAt(s, id);
    var h := s.hist[id];
    PendingIsTheRest(s, id);
    assert h.accepted == h.accepted[..|h.fates|] + Pending(s, id);
    if NoWriteError(h) {
      SentPlusPending(LedgerOf(h, s.pipes[h.half]), Pending(s, id));
    }
  }

  // A write that breaks off after n bytes loses the rest of its segment and of its batch, and nothing of
  // the queue: the loop goes back to the lock with empty hands.
  lemma FailedWriteDropsBatch(s: State, t: nat, n: nat)
    requires Inv(s) && Enabled(s, WriteErr(t, n))
    ensures var id, items, s' := s.tasks[t].id, s.tasks[t].items, Apply(s, WriteErr(t, n));
            && id in s.hist && id in s'.hist && s'.records == s.records
            && t in s'.tasks && s'.tasks[t].pc == AtLock && s'.tasks[t].items == []
            && Pending(s', id) == (if id in s.records then s.records[id].q else [])
            && var k, fates := |s.hist[id].fates|, s'.hist[id].fates;
               && |fates| == k + |items| && fates[..k] == s.hist[id].fates && fates[k] == Sent(n)
               && forall i :: k < i < |fates| ==> fates[i] == Dropped
  {
    var id := s.tasks[t].id;
    InvFacts(s, id);
    assert TaskOk(s, t) && StreamOkAt(s, id);
    var items := s.tasks[t].items;
    var q := if id in s.records then s.records[id].q else [];
    assert [] + q == q;
    var news := [Sent(n)] + seq(|items| - 1, _ => Dropped);
    assert Apply(s, WriteErr(t, n)).hist[id].fates == s.hist[id].fates + news;
  }

  // The batch on record is what the loop took from the queue when it last held the lock.
  lemma DrainedIsTheBatch(s: State, a: Action, id: Id)
    requires Enabled(s, a) && id in s.hist
    ensures id in Apply(s, a).hist
    ensures Apply(s, a).hist[id].drained ==
            if a.Lock? && s.tasks[a.t].id == id && id in s.records && s.records[id].q != [] then s.records[id].q
            else s.hist[id].drained
  {
    match a
    case Insert(_, _) =>
    case Receive(f) => KeptByReceive(s, f, id);
    case RunRemoval(j) => KeptByRemoval(s, j, id);
    case Lock(t) => SetByLock(s, t, id);
    case WriteOk(t) => KeptByWriteOk(s, t, id);
    case WriteErr(t, n) => KeptByWriteErr(s, t, n, id);
    case Shutdown(t) => KeptByShutdown(s, t, id);
  }

  ghost predicate KeepsDrained(s: State, s': State, id: Id) {
    id in s.hist && id in s'.hist && s'.hist[id].drained == s.hist[id].drained
  }

  lemma KeptByReceive(s: State, f: Frame, id: Id)
    requires id in s.hist
    ensures KeepsDrained(s, ApplyReceive(s, f), id)
  {
  }

  lemma KeptByRemoval(s: State, j: Id, id: Id)
    requires id in s.hist
    ensures KeepsDrained(s, ApplyRemoval(s, j), id)
  {
  }

  lemma SetByLock(s: State, t: nat, id: Id)
    requires id in s.hist && t in s.tasks
    ensures id in ApplyLock(s, t).hist
    ensures ApplyLock(s, t).hist[id].drained ==
            if s.tasks[t].id == id && id in s.records && s.records[id].q != [] then s.records[id].q
            else s.hist[id].drained
  {
  }

  lemma KeptByWriteOk(s: State, t: nat, id: Id)
    requires id in s.hist && t in s.tasks && s.tasks[t].items != []
    ensures KeepsDrained(s, ApplyWriteOk(s, t), id)
  {
  }

  lemma KeptByWriteErr(s: State, t: nat, n: nat, id: Id)
    requires id in s.hist && t in s.tasks && s.tasks[t].items != [] && n < |s.tasks[t].items[0]|
    ensures KeepsDrained(s, ApplyWriteErr(s, t, n), id)
  {
  }

  lemma KeptByShutdown(s: State, t: nat, id: Id)
    requires id in s.hist && t in s.tasks
    ensures KeepsDrained(s, ApplyShutdown(s, t), id)
  {
  }

  // So over all runs, no segment of a batch is attempted behind one that was cut short: while a loop
  // still has items of a batch, those before them were each written in full.
  lemma NothingBehindACut(s: State, t: nat)
    requires Reachable(s) && t in s.tasks && s.tasks[t].pc == Writing
    ensures var id, items := s.tasks[t].id, s.tasks[t].items;
            && id in s.hist && |items| <= |s.hist[id].drained|
            && var h, done := s.hist[id], |s.hist[id].drained| - |items|;
               && h.drained[done..] == items && done <= |h.fates|
               && forall j :: 0 <= j < done ==> h.fates[|h.fates| - done + j] == Sent(|h.drained[j]|)
  {
    ReachableInv(s);
    assert TaskOk(s, t) && StreamOkAt(s, s.tasks[t].id);
  }

  ghost predicate ErrorFree(s: State) {
    forall id :: id in s.hist ==> |s.hist[id].fates| <= |s.hist[id].accepted| && NoWriteError(s.hist[id])
  }

  // Any new fate of h' is that of a segment written in full.
  ghost predicate GrowsWhole(h: Hist, h': Hist) {
    && h.accepted <= h'.accepted && h.fates <= h'.fates && |h.fates| <= |h.accepted|
    && (|h'.fates| > |h.fates| ==>
          |h.fates| < |h.accepted| && h'.fates == h.fates + [Sent(|h.accepted[|h.fates|]|)])
  }

  lemma WholeStep(s: State, a: Action)
    requires Enabled(s, a) && !a.Insert? && !a.WriteErr? && Facts(s, Subject(s, a)) && Subject(s, a) in s.hist
    ensures GrowsWhole(s.hist[Subject(s, a)], Apply(s, a).hist[Subject(s, a)])
  {
    var h := s.hist[Subject(s, a)];
    assert StreamOkAt(s, Subject(s, a));
    if a.WriteOk? {
      assert h.accepted[|h.fates|..][0] == s.tasks[a.t].items[0];
    }
  }

  lemma StaysErrorFree(s: State, s': State, id: Id)
    requires ErrorFree(s) && Local(s, s', id) && (id in s.hist ==> GrowsWhole(s.hist[id], s'.hist[id]))
    ensures ErrorFree(s')
  {
    forall j | j in s'.hist ensures |s'.hist[j].fates| <= |s'.hist[j].accepted| && NoWriteError(s'.hist[j]) {
      var h, h' := s.hist[j], s'.hist[j];
      assert NoWriteError(h);
      forall i | 0 <= i < |h'.fates| ensures Whole(h'.accepted, h'.fates, i) {
        assert i < |h.fates| ==> Whole(h.accepted, h.fates, i);
      }
    }
  }

  lemma ErrorFreeStep(s: State, a: Action)
    requires Inv(s) && Enabled(s, a) && ErrorFree(s) && !a.WriteErr?
    ensures ErrorFree(Apply(s, a))
  {
    var id := Subject(s, a);
    if !a.Insert? {
      InvFacts(s, id);
      StepIsLocal(s, a);
      if id in s.hist {
        WholeStep(s, a);
      }
      StaysErrorFree(s, Apply(s, a), id);
    }
  }

  // Only a failing write ever makes a stream lose data.
  lemma {:induction false} RunWithoutErrors(s: State, acts: seq<Action>)
    requires Inv(s) && Runs(s, acts) && ErrorFree(s) && forall a :: a in acts ==> !a.WriteErr?
    ensures ErrorFree(After(s, acts))
    decreases |acts|
  {
    if acts != [] {
      ErrorFreeStep(s, acts[0]);
      StepKeeps(s, acts[0]);
      RunWithoutErrors(Apply(s, acts[0]), acts[1..]);
    }
  }

  datatype Holder = RecordOf(id: Id) | TaskOf(t: nat) | Gone

  // Everywhere a write half currently is.
  ghost function Holders(s: State, w: Half): set<Holder> {
    (set id | id in s.records && s.records[id].write == Some(w) :: RecordOf(id)) +
    (set t | t in s.tasks && s.tasks[t].w == w :: TaskOf(t)) +
    (if w in s.pipes && s.pipes[w].shutdowns > 0 then {Gone} else {})
  }

  function HolderOf(id: Id, p: Place): Holder {
    match p case InRecord => RecordOf(id) case InTask(t) => TaskOf(t) case IsShutDown => Gone
  }

  lemma HolderIsPlace(s: State, id: Id, x: Holder)
    requires Inv(s) && id in s.hist
    ensures x in Holders(s, s.hist[id].half) <==> x == HolderOf(id, s.hist[id].place)
  {
    assert StreamOkAt(s, id);
    match x
    case RecordOf(j) => if j in s.records { assert j in s.hist.Keys && StreamOkAt(s, j); }
    case TaskOf(t) => if t in s.tasks { assert TaskOk(s, t) && StreamOkAt(s, s.tasks[t].id); }
    case Gone =>
  }

  // The write half of every inserted stream is in exactly one place and is shut down at most once.
  lemma OneHolder(s: State, id: Id)
    requires Reachable(s) && id in s.hist
    ensures exists p :: Holders(s, s.hist[id].half) == {p}
    ensures s.hist[id].half in s.pipes && s.pipes[s.hist[id].half].shutdowns <= 1
  {
    ReachableInv(s);
    assert StreamOkAt(s, id);
    forall x ensures x in Holders(s, s.hist[id].half) <==> x == HolderOf(id, s.hist[id].place) {
      HolderIsPlace(s, id, x);
    }
    assert Holders(s, s.hist[id].half) == {HolderOf(id, s.hist[id].place)};
  }

  // A record that holds its write half has nothing queued and is not ended, so the
  // immediate shutdown in `remove` discards nothing.
  lemma IdleRecordIsDrained(s: State, id: Id)
    requires Reachable(s) && id in s.records && s.records[id].write.Some?
    ensures id in s.hist && s.records[id] == StreamRec(Some(s.hist[id].half), [], false)
    ensures |s.hist[id].fates| == |s.hist[id].accepted|
  {
    ReachableInv(s);
    assert id in s.hist.Keys;
    assert StreamOkAt(s, id);
  }

  // A write loop that takes the lock always finds its record, still without a write half.
  lemma LoopFindsItsRecord(s: State, t: nat)
    requires Reachable(s) && t in s.tasks && !s.tasks[t].pc.Closing?
    ensures s.tasks[t].id in s.records && s.records[s.tasks[t].id].write == None
    ensures s.tasks[t].pc.AtLock? ==> s.tasks[t].items == []
  {
    ReachableInv(s);
    assert TaskOk(s, t) && StreamOkAt(s, s.tasks[t].id);
  }

  // Once a stream is closing or shut down, the data frames that preceded its end frame have all
  // been accepted and attempted, in order; without write errors they have all been delivered.
  lemma DataBeforeEndIsDelivered(s: State, id: Id)
    requires Reachable(s) && id in s.hist && s.hist[id].clean
    requires id !in s.records
    ensures var h := s.hist[id];
            && HasEnd(h.frames)
            && BeforeEnd(h.frames) <= h.accepted && |h.fates| == |h.accepted|
            && h.half in s.pipes
            && (NoWriteError(h) ==> s.pipes[h.half].bytes == Flatten(h.accepted) &&
                                    Flatten(BeforeEnd(h.frames)) <= s.pipes[h.half].bytes)
  {
    ReachableInv(s);
    assert StreamOkAt(s, id);
    var h := s.hist[id];
    if NoWriteError(h) {
      WireWhole(h.accepted, h.fates);
      assert h.accepted[..|h.fates|] == h.accepted;
      var k := |BeforeEnd(h.frames)|;
      assert h.accepted == BeforeEnd(h.frames) + h.accepted[k..];
      FlattenConcat(BeforeEnd(h.frames), h.accepted[k..]);
    }
  }

  // Why `clean` is asked for: an end frame for an id that is not yet in use leaves a removal
  // behind that can close the stream under data that precedes any end frame sent to it.
  lemma StrayEndLosesData()
    ensures exists s :: Reachable(s) && 7 in s.hist && 7 !in s.records && !HasEnd(s.hist[7].frames) &&
                        BeforeEnd(s.hist[7].frames) == [[1]] && s.hist[7].accepted == []
  {
    var acts, s3 := StrayEndClosesStream();
    var s4 := StepFrom(s3, acts, Receive(Data(7, [1])));
    assert s4.records == map[];
    assert s4.hist[7].frames == [] + [Data(7, [1])];
    BeforeEndGrows([], Data(7, [1]));
  }

  lemma StrayEndClosesStream() returns (acts: seq<Action>, s: State)
    ensures Runs(START, acts) && After(START, acts) == s
    ensures s.records == map[] && 7 in s.hist && s.hist[7].frames == [] && s.hist[7].accepted == []
  {
    var s1 := StepFrom(START, [], Receive(Ended(7)));
    assert s1 == State(map[], map[], 0, multiset{7}, map[], map[]);
    var s2 := StepFrom(s1, [] + [Receive(Ended(7))], Insert(7, 0));
    acts := [] + [Receive(Ended(7))] + [Insert(7, 0)];
    s := StepFrom(s2, acts, RunRemoval(7));
    acts := acts + [RunRemoval(7)];
  }

  // The frames of a stream went where they should: it takes every data frame before its first end
  // frame, in order, and is not closed before that end frame.
  ghost predicate TakesItsFrames(s: State, id: Id) {
    id in s.hist && BeforeEnd(s.hist[id].frames) <= s.hist[id].accepted &&
    (!HasEnd(s.hist[id].frames) ==> id in s.records && BeforeEnd(s.hist[id].frames) == s.hist[id].accepted)
  }

  lemma {:induction false} CleanStays(s: State, acts: seq<Action>, id: Id)
    requires Inv(s) && Runs(s, acts) && id in s.hist
    ensures id in After(s, acts).hist && After(s, acts).hist[id].clean == s.hist[id].clean
    decreases |acts|
  {
    if acts != [] {
      if !acts[0].Insert? {
        InvFacts(s, Subject(s, acts[0]));
        StepIsLocal(s, acts[0]);
      }
      StepKeeps(s, acts[0]);
      CleanStays(Apply(s, acts[0]), acts[1..], id);
    }
  }

  // A removal left over when the stream is inserted: it can run first and close the stream.
  lemma StrayEndRun(s: State, id: Id, w: Half) returns (acts: seq<Action>)
    requires Inv(s) && Enabled(s, Insert(id, w)) && id in s.removals
    ensures Runs(Apply(s, Insert(id, w)), acts) && !TakesItsFrames(After(Apply(s, Insert(id, w)), acts), id)
  {
    var s1 := Apply(s, Insert(id, w));
    acts := [RunRemoval(id)];
    var s2 := Apply(s1, acts[0]);
    assert acts[1..] == [] && Runs(s2, []) && After(s2, []) == s2;
    assert s2.hist[id].frames == [] && id !in s2.records;
  }

  // Whatever happens after a stream was inserted, it takes its frames, if and only if no removal
  // for its id was pending when it was inserted.
  lemma TakesItsFramesIff(s: State, id: Id, w: Half)
    requires Reachable(s) && Enabled(s, Insert(id, w))
    ensures (forall acts :: Runs(Apply(s, Insert(id, w)), acts) ==>
               TakesItsFrames(After(Apply(s, Insert(id, w)), acts), id))
            <==> id !in s.removals
  {
    ReachableInv(s);
    var s1 := Apply(s, Insert(id, w));
    InsertKeeps(s, id, w);
    if id in s.removals {
      var acts := StrayEndRun(s, id, w);
    } else {
      forall acts | Runs(s1, acts) ensures TakesItsFrames(After(s1, acts), id) {
        RunKeeps(s1, acts);
        CleanStays(s1, acts, id);
        assert StreamOkAt(After(s1, acts), id);
      }
    }
  }

  // The state one action later, still reachable.
  lemma StepFrom(s: State, acts: seq<Action>, a: Action) returns (s': State)
    requires Runs(START, acts) && After(START, acts) == s && Enabled(s, a)
    ensures s' == Apply(s, a) && Runs(START, acts + [a]) && After(START, acts + [a]) == s' && Reachable(s')
  {
    RunSnoc(START, acts, a);
    s' := Apply(s, a);
  }

  lemma {:induction false} RunSnoc(s: State, acts: seq<Action>, a: Action)
    requires Runs(s, acts) && Enabled(After(s, acts), a)
    ensures Runs(s, acts + [a]) && After(s, acts + [a]) == Apply(After(s, acts), a)
    decreases |acts|
  {
    if acts == [] {
      assert [a][1..] == [];
      var s' := Apply(s, a);
      assert Runs(s', []) && After(s', []) == s';
      assert acts + [a] == [a];
    } else {
      RunSnoc(Apply(s, acts[0]), acts[1..], a);
      assert (acts + [a])[1..] == acts[1..] + [a];
    }
  }

  // ---------- shutting down in bounded time ----------

  ghost predicate Ending(s: State, id: Id) {
    id in s.hist && IsEnding(s.hist[id], Look(s.records, id))
  }

  // No end frame is forgotten: once one was seen, the stream is ending, or a removal is still to run
  // that will make it so.
  lemma EndIsNotForgotten(s: State, id: Id)
    requires Reachable(s) && id in s.hist && HasEnd(s.hist[id].frames)
    ensures Ending(s, id) || (Enabled(s, RunRemoval(id)) && Ending(Apply(s, RunRemoval(id)), id))
  {
    ReachableInv(s);
    InvFacts(s, id);
    assert StreamOkAt(s, id);
    if Enabled(s, RunRemoval(id)) {
      RemovalEnds(s, id);
    }
  }

  lemma RemovalEnds(s: State, id: Id)
    requires Enabled(s, RunRemoval(id)) && Facts(s, id) && id in s.hist
    ensures Ending(Apply(s, RunRemoval(id)), id)
  {
    assert StreamOkAt(s, id);
  }

  // An upper bound on the steps the owner of the write half still takes.
  ghost function Owed(s: State, id: Id): nat
    requires id in s.hist
  {
    var task := TaskAt(s, s.hist[id].place);
    if task.None? then 0
    else if task.value.pc.Closing? || id !in s.records then 1
    else
      var q := s.records[id].q;
      |task.value.items| + (if q == [] then 0 else 1 + |q|) + 2
  }

  // Whether the action is a step of whichever task owns the stream's write half.
  ghost predicate IsOwn(s: State, a: Action, id: Id) {
    (a.Lock? || a.WriteOk? || a.WriteErr? || a.Shutdown?) && id in s.hist && s.hist[id].place == InTask(a.t)
  }

  ghost function OwnSteps(s: State, acts: seq<Action>, id: Id): nat
    requires Runs(s, acts)
    decreases |acts|
  {
    if acts == [] then 0
    else (if IsOwn(s, acts[0], id) then 1 else 0) + OwnSteps(Apply(s, acts[0]), acts[1..], id)
  }

  ghost predicate NoData(acts: seq<Action>, id: Id) {
    forall a :: a in acts && a.Receive? && a.frame.Data? ==> a.frame.id != id
  }

  ghost predicate EndingStepOk(s: State, a: Action, id: Id)
    requires Enabled(s, a) && Ending(s, id)
  {
    var s' := Apply(s, a);
    Ending(s', id) && Owed(s', id) + (if IsOwn(s, a, id) then 1 else 0) <= Owed(s, id)
  }

  // A step on another stream changes nothing for this one, and is not its owner's.
  lemma EndingElsewhere(s: State, s': State, j: Id, id: Id)
    requires Local(s, s', j) && j != id && Ending(s, id) && StreamOkAt(s, id)
    ensures Ending(s', id) && Owed(s', id) == Owed(s, id)
  {
    SameTask(s, s', j, id);
    assert Look(s'.records, id) == Look(s.records, id) && s'.hist[id] == s.hist[id];
  }

  lemma EndingInsert(s: State, j: Id, w: Half, id: Id)
    requires Enabled(s, Insert(j, w)) && Ending(s, id)
    ensures Ending(ApplyInsert(s, j, w), id) && Owed(ApplyInsert(s, j, w), id) == Owed(s, id)
  {
    assert Look(AfterInsert(s.records, j, w), id) == Look(s.records, id);
  }

  lemma NotOwn(s: State, a: Action, id: Id)
    requires Enabled(s, a) && id in s.hist && StreamOkAt(s, id) && Subject(s, a) != id
    ensures !IsOwn(s, a, id)
  {
    if s.hist[id].place.InTask? {
      OwnerTask(s, id);
    }
  }

  lemma EndingHere(s: State, a: Action, id: Id)
    requires Enabled(s, a) && Ending(s, id) && Facts(s, id) && Subject(s, a) == id
    requires a.Receive? ==> a.frame.Ended?
    ensures EndingStepOk(s, a, id)
  {
    assert StreamOkAt(s, id);
    match a
    case Receive(_) => EndingEnd(s, id);
    case RunRemoval(_) => EndingRemoval(s, id);
    case Lock(t) => EndingLock(s, t);
    case WriteOk(t) => EndingWriteOk(s, t);
    case WriteErr(t, n) => EndingWriteErr(s, t, n);
    case Shutdown(t) => EndingShutdown(s, t);
  }

  // From s to s' the stream stays ending, and its owner owes fewer steps by those it took.
  ghost predicate Progresses(s: State, s': State, id: Id, own: nat)
    requires id in s.hist
  {
    Ending(s', id) && Owed(s', id) + own <= Owed(s, id)
  }

  lemma EndingEnd(s: State, id: Id)
    requires Ending(s, id)
    ensures Progresses(s, ApplyReceive(s, Ended(id)), id, 0)
  {
    assert Look(ApplyReceive(s, Ended(id)).records, id) == Look(s.records, id);
  }

  lemma EndingRemoval(s: State, id: Id)
    requires Ending(s, id) && StreamOkAt(s, id)
    ensures Progresses(s, ApplyRemoval(s, id), id, 0)
  {
  }

  lemma EndingLock(s: State, t: nat)
    requires Enabled(s, Lock(t)) && Ending(s, s.tasks[t].id) && Facts(s, s.tasks[t].id)
    ensures Progresses(s, ApplyLock(s, t), s.tasks[t].id, 1)
  {
    assert StreamOkAt(s, s.tasks[t].id);
  }

  lemma EndingWriteOk(s: State, t: nat)
    requires Enabled(s, WriteOk(t)) && Ending(s, s.tasks[t].id) && Facts(s, s.tasks[t].id)
    ensures Progresses(s, ApplyWriteOk(s, t), s.tasks[t].id, 1)
  {
    assert StreamOkAt(s, s.tasks[t].id);
  }

  lemma EndingWriteErr(s: State, t: nat, n: nat)
    requires Enabled(s, WriteErr(t, n)) && Ending(s, s.tasks[t].id) && Facts(s, s.tasks[t].id)
    ensures Progresses(s, ApplyWriteErr(s, t, n), s.tasks[t].id, 1)
  {
    assert StreamOkAt(s, s.tasks[t].id);
  }

  lemma EndingShutdown(s: State, t: nat)
    requires Enabled(s, Shutdown(t)) && Ending(s, s.tasks[t].id) && Facts(s, s.tasks[t].id)
    ensures Progresses(s, ApplyShutdown(s, t), s.tasks[t].id, 1)
  {
    assert StreamOkAt(s, s.tasks[t].id);
  }

  lemma EndingStep(s: State, a: Action, id: Id)
    requires Inv(s) && Enabled(s, a) && Ending(s, id)
    requires a.Receive? && a.frame.Data? ==> a.frame.id != id
    ensures EndingStepOk(s, a, id)
  {
    InvFacts(s, id);
    if Subject(s, a) == id {
      EndingHere(s, a, id);
    } else {
      assert StreamOkAt(s, id);
      NotOwn(s, a, id);
      if a.Insert? {
        EndingInsert(s, a.id, a.w, id);
      } else {
        InvFacts(s, Subject(s, a));
        StepIsLocal(s, a);
        EndingElsewhere(s, Apply(s, a), Subject(s, a), id);
      }
    }
  }

  lemma {:induction false} EndingRun(s: State, acts: seq<Action>, id: Id)
    requires Inv(s) && Runs(s, acts) && Ending(s, id) && NoData(acts, id)
    ensures var s' := After(s, acts);
            Ending(s', id) && Owed(s', id) + OwnSteps(s, acts, id) <= Owed(s, id)
    decreases |acts|
  {
    if acts != [] {
      EndingStep(s, acts[0], id);
      StepKeeps(s, acts[0]);
      EndingRun(Apply(s, acts[0]), acts[1..], id);
    }
  }

  // From any reachable state in which the stream was told to end, if no more data comes for it,
  // its owner takes at most batch + queue + 3 further steps; it can always take the next one until
  // the write half is shut down; and once it has taken them all the write half is shut down.
  lemma BoundedShutdown(s: State, acts: seq<Action>, id: Id)
    requires Reachable(s) && Runs(s, acts) && Ending(s, id) && NoData(acts, id)
    ensures OwnSteps(s, acts, id) <= |Pending(s, id)| + 3
    ensures OwnSteps(s, acts, id) <= Owed(s, id)
    ensures var s' := After(s, acts);
            && Ending(s', id)
            && (OwnSteps(s, acts, id) == Owed(s, id) ==> s'.hist[id].place.IsShutDown?)
            && (s'.hist[id].place.IsShutDown? || exists a :: Enabled(s', a) && IsOwn(s', a, id))
  {
    ReachableInv(s);
    assert StreamOkAt(s, id);
    EndingRun(s, acts, id);
    RunKeeps(s, acts);
    var s' := After(s, acts);
    assert StreamOkAt(s', id);
    if s'.hist[id].place.InTask? {
      var t := s'.hist[id].place.t;
      var a := match s'.tasks[t].pc case AtLock => Lock(t) case Writing => WriteOk(t) case Closing => Shutdown(t);
      assert Enabled(s', a) && IsOwn(s', a, id);
    }
  }
}
