/**
 The credential store behind `Auth`: a keyring that is abandoned for a file at the first failed
 store, and a cached copy that every read is answered from.
 */
module Auth {
  import opened Wrappers
  import opened PersistedState
  import opened Keyring

  datatype Backend = InKeyring | InFile

  // The last value read or stored, or the error the first read gave.
  datatype Cached<+C> = Known(cred: Option<C>) | ReadError

  // How credentials become strings and back; encryption and serialization are left abstract.
  datatype Codec<!C> = Codec(seal: C -> string, unseal: string -> Option<C>)

  ghost predicate RoundTrips<C(!new)>(codec: Codec<C>) {
    forall c :: codec.unseal(codec.seal(c)) == Some(c)
  }

  function Unsealed<C>(codec: Codec<C>, s: Option<string>): Option<C> {
    if s.None? then None else codec.unseal(s.value)
  }

  // ---------- the state and its operations ----------

  // `file` is what is on disk, `memory` what the file container caches.
  datatype Store<+C> = Store(
    ring: Ring,
    file: File<Option<string>>,
    memory: Option<Option<string>>,
    active: Backend,
    fallback: bool,           // whether the file is still held in reserve
    cached: Cached<C>)

  // How the backends answer one store or clear. `ringAfter` is the ring as a clear or a failed
  // store leaves it.
  datatype Io = Io(keyringOk: bool, ringAfter: Ring, write: WriteOutcome<Option<string>>)

  function SaveFile<C>(s: Store<C>, v: Option<string>, w: WriteOutcome<Option<string>>): Store<C> {
    s.(memory := Some(v), file := AfterWrite(s.file, v, w))
  }

  // Whether the active backend takes the operation.
  predicate Takes<C>(s: Store<C>, io: Io) {
    if s.active.InKeyring? then io.keyringOk else io.write.Written?
  }

  function StoreActive<C>(codec: Codec<C>, step: nat, s: Store<C>, c: C, io: Io): Store<C>
    requires step > 0
  {
    if s.active.InFile? then SaveFile(s, Some(codec.seal(c)), io.write)
    else s.(ring := if io.keyringOk then Overlay(s.ring, 0, Pieces(codec.seal(c), step)) else io.ringAfter)
  }

  function AfterStore<C>(codec: Codec<C>, step: nat, s: Store<C>, c: C, io: Io): Store<C>
    requires step > 0
  {
    var s1 := StoreActive(codec, step, s, c, io);
    var s2 :=
      if !Takes(s, io) && s.fallback then StoreActive(codec, step, s1.(active := InFile, fallback := false), c, io)
      else s1;
    s2.(cached := Known(Some(c)))
  }

  function AfterClear<C>(s: Store<C>, io: Io): Store<C> {
    var s1 := if s.active.InFile? then SaveFile(s, None, io.write) else s.(ring := io.ringAfter);
    if Takes(s, io) then s1.(cached := Known(None)) else s1
  }

  // What a process finds at its first use: whether its environment asks for the file, and whether
  // the keyring can be read.
  datatype Env = Env(prefersFile: bool, keyringReads: bool)

  // The first use: the keyring if it can be read, unless the user asks for the file or there is one.
  predicate UsesFile(file: File<Option<string>>, env: Env) {
    env.prefersFile || !file.Missing? || !env.keyringReads
  }

  function Init<C>(codec: Codec<C>, ring: Ring, file: File<Option<string>>, env: Env): Store<C> {
    if UsesFile(file, env) then
      var v := Reload(file, None);
      Store(ring, file, Some(v), InFile, false, Known(Unsealed(codec, v)))
    else
      Store(ring, file, None, InKeyring, true, Known(Unsealed(codec, ReadFrom(ring, 0))))
  }

  datatype Op<+C> = StoreOp(c: C, io: Io) | ClearOp(io: Io) | GetOp

  // A clear that succeeds has deleted the first entry.
  predicate Plausible<C>(op: Op<C>) {
    op.ClearOp? && op.io.keyringOk ==> 0 !in op.io.ringAfter
  }

  function Apply<C>(codec: Codec<C>, step: nat, s: Store<C>, op: Op<C>): Store<C>
    requires step > 0
  {
    match op
    case StoreOp(c, io) => AfterStore(codec, step, s, c, io)
    case ClearOp(io) => AfterClear(s, io)
    case GetOp => s
  }

  function After<C>(codec: Codec<C>, step: nat, s: Store<C>, ops: seq<Op<C>>): Store<C>
    requires step > 0
  {
    if ops == [] then s else Apply(codec, step, After(codec, step, s, ops[..|ops| - 1]), ops[|ops| - 1])
  }

  // ---------- every run ----------

  // The operation at position k changes the cached credential.
  ghost predicate Effective<C>(codec: Codec<C>, step: nat, s: Store<C>, ops: seq<Op<C>>, k: int)
    requires step > 0
  {
    0 <= k < |ops| && (ops[k].StoreOp? || (ops[k].ClearOp? && Takes(After(codec, step, s, ops[..k]), ops[k].io)))
  }

  // The cached credential is the last one stored, or none after a later successful clear.
  lemma {:induction false} CachedIsLast<C>(codec: Codec<C>, step: nat, s: Store<C>, ops: seq<Op<C>>, k: int)
    requires step > 0
    requires k == -1 || Effective(codec, step, s, ops, k)
    requires forall j :: k < j < |ops| ==> !Effective(codec, step, s, ops, j)
    ensures After(codec, step, s, ops).cached ==
            if k == -1 then s.cached else if ops[k].StoreOp? then Known(Some(ops[k].c)) else Known(None)
  {
    if ops != [] {
      var n := |ops| - 1;
      var before := ops[..n];
      assert forall j :: 0 <= j < n ==> before[..j] == ops[..j];
      if k == n {
        assert Effective(codec, step, s, ops, n);
      } else {
        assert !Effective(codec, step, s, ops, n);
        forall j | k < j < n ensures !Effective(codec, step, s, before, j) {
          assert !Effective(codec, step, s, ops, j);
        }
        CachedIsLast(codec, step, s, before, k);
      }
    }
  }

  function Switches<C>(codec: Codec<C>, step: nat, s: Store<C>, ops: seq<Op<C>>): nat
    requires step > 0
  {
    if ops == [] then 0
    else
      var before := ops[..|ops| - 1];
      Switches(codec, step, s, before) +
      (if After(codec, step, s, ops).active != After(codec, step, s, before).active then 1 else 0)
  }

  // Only a keyring has a fallback, and it is in use only while there is no file.
  predicate Coherent<C>(s: Store<C>) {
    && (s.fallback <==> s.active.InKeyring?)
    && (s.active.InKeyring? ==> s.file.Missing?)
  }

  // The backend changes at most once, and then from the keyring to the file.
  lemma {:induction false} SwitchesOnce<C>(codec: Codec<C>, step: nat, s: Store<C>, ops: seq<Op<C>>)
    requires step > 0 && Coherent(s)
    ensures var t := After(codec, step, s, ops);
            && Coherent(t)
            && Switches(codec, step, s, ops) == (if t.active == s.active then 0 else 1)
            && (t.active != s.active ==> s.active.InKeyring? && t.active.InFile?)
  {
    if ops != [] {
      SwitchesOnce(codec, step, s, ops[..|ops| - 1]);
    }
  }

  // What the active backend holds.
  function Durable<C>(codec: Codec<C>, s: Store<C>): Option<C> {
    Unsealed(codec, if s.active.InKeyring? then ReadFrom(s.ring, 0) else Reload(s.file, None))
  }

  ghost predicate Agrees<C>(codec: Codec<C>, s: Store<C>) {
    s.cached == Known(Durable(codec, s))
  }

  // The backend in use after the operation took it; a keyring can only hold what reassembles.
  ghost predicate Lands<C>(codec: Codec<C>, step: nat, s: Store<C>, op: Op<C>)
    requires step > 0 && !op.GetOp?
  {
    if op.ClearOp? then Takes(s, op.io)
    else if Takes(s, op.io) then s.active.InKeyring? ==> Reassembles(codec.seal(op.c), step)
    else s.fallback && op.io.write.Written?
  }

  lemma InitAgrees<C>(codec: Codec<C>, ring: Ring, file: File<Option<string>>, env: Env)
    ensures var s := Init(codec, ring, file, env); Agrees(codec, s) && Coherent(s)
  {
  }

  lemma LandingAgrees<C(!new)>(codec: Codec<C>, step: nat, s: Store<C>, op: Op<C>)
    requires step > 0 && RoundTrips(codec) && Coherent(s) && !op.GetOp? && Plausible(op) && Lands(codec, step, s, op)
    ensures Agrees(codec, Apply(codec, step, s, op))
  {
    if op.StoreOp? {
      assert codec.unseal(codec.seal(op.c)) == Some(op.c);
      if s.active.InKeyring? && op.io.keyringOk {
        ReadAfterStore(s.ring, codec.seal(op.c), step);
      }
    }
  }

  // The active backend holds the cached credential as long as nothing has been stored or cleared,
  // and after that whenever the last store or clear landed, whatever failed before.
  lemma {:induction false} AgreesUnlessLastFailed<C(!new)>(codec: Codec<C>, step: nat, s: Store<C>, ops: seq<Op<C>>,
                                                          k: int)
    requires step > 0 && RoundTrips(codec) && Coherent(s) && Agrees(codec, s)
    requires -1 <= k < |ops| && (forall j :: k < j < |ops| ==> ops[j].GetOp?)
    requires forall op :: op in ops ==> Plausible(op)
    requires k >= 0 ==> !ops[k].GetOp? && Lands(codec, step, After(codec, step, s, ops[..k]), ops[k])
    ensures Agrees(codec, After(codec, step, s, ops))
  {
    if ops != [] {
      var n := |ops| - 1;
      if k == n {
        SwitchesOnce(codec, step, s, ops[..n]);
        LandingAgrees(codec, step, After(codec, step, s, ops[..n]), ops[n]);
      } else {
        assert k >= 0 ==> ops[..n][..k] == ops[..k];
        AgreesUnlessLastFailed(codec, step, s, ops[..n], k);
      }
    }
  }

  // So over the whole life of a process, from the first use on, the backend in use holds what is
  // cached, unless the last store or clear did not land.
  lemma AgreesFromFirstUse<C(!new)>(codec: Codec<C>, step: nat, ring: Ring, file: File<Option<string>>, env: Env,
                                    ops: seq<Op<C>>, k: int)
    requires step > 0 && RoundTrips(codec) && forall op :: op in ops ==> Plausible(op)
    requires -1 <= k < |ops| && (forall j :: k < j < |ops| ==> ops[j].GetOp?)
    requires k >= 0 ==> !ops[k].GetOp? &&
                        Lands(codec, step, After(codec, step, Init(codec, ring, file, env), ops[..k]), ops[k])
    ensures var t := After(codec, step, Init(codec, ring, file, env), ops); t.cached == Known(Durable(codec, t))
  {
    InitAgrees(codec, ring, file, env);
    AgreesUnlessLastFailed(codec, step, Init(codec, ring, file, env), ops, k);
  }

  // ---------- the next process ----------

  // What a process started now would cache.
  function Restarted<C>(codec: Codec<C>, s: Store<C>, env: Env): Cached<C> {
    Init(codec, s.ring, s.file, env).cached
  }

  // A store or clear that lands in the file makes it exist, and every later process use it.
  lemma LandingMakesFile<C>(codec: Codec<C>, step: nat, s: Store<C>, op: Op<C>)
    requires step > 0 && Coherent(s) && !op.GetOp? && Lands(codec, step, s, op)
    ensures var t := Apply(codec, step, s, op); Coherent(t) && (t.active.InFile? <==> t.file.Holds?)
  {
  }

  lemma {:induction false} GetsChangeNothing<C>(codec: Codec<C>, step: nat, s: Store<C>, ops: seq<Op<C>>, n: nat)
    requires step > 0 && n <= |ops| && forall j :: n <= j < |ops| ==> ops[j].GetOp?
    ensures After(codec, step, s, ops) == After(codec, step, s, ops[..n])
    decreases |ops| - n
  {
    if n == |ops| {
      assert ops[..n] == ops;
    } else {
      GetsChangeNothing(codec, step, s, ops, n + 1);
      assert ops[..n + 1][..n] == ops[..n];
    }
  }

  // After a last store or clear that landed, a new process finds what this one has cached, whatever
  // failed before, if and only if the file is in use here, or it too uses the keyring, or there is
  // nothing to find.
  lemma RestartIff<C(!new)>(codec: Codec<C>, step: nat, ring: Ring, file: File<Option<string>>, env: Env,
                            ops: seq<Op<C>>, k: nat, env': Env)
    requires step > 0 && RoundTrips(codec) && forall op :: op in ops ==> Plausible(op)
    requires k < |ops| && (forall j :: k < j < |ops| ==> ops[j].GetOp?)
    requires !ops[k].GetOp? && Lands(codec, step, After(codec, step, Init(codec, ring, file, env), ops[..k]), ops[k])
    ensures var t := After(codec, step, Init(codec, ring, file, env), ops);
            Restarted(codec, t, env') == t.cached <==>
            t.active.InFile? || !(env'.prefersFile || !env'.keyringReads) || t.cached == Known(None)
  {
    var s := Init(codec, ring, file, env);
    InitAgrees(codec, ring, file, env);
    SwitchesOnce(codec, step, s, ops[..k]);
    LandingMakesFile(codec, step, After(codec, step, s, ops[..k]), ops[k]);
    GetsChangeNothing(codec, step, s, ops, k + 1);
    assert ops[..k + 1][..k] == ops[..k];
    AgreesFromFirstUse(codec, step, ring, file, env, ops, k);
  }

  // While nothing was stored or cleared, a new process finds the same if and only if there is a file,
  // or it chooses the same backend, or the keyring has nothing for the one that can read it.
  lemma RestartUnused<C>(codec: Codec<C>, ring: Ring, file: File<Option<string>>, env: Env, env': Env)
    ensures var s := Init(codec, ring, file, env);
            Restarted(codec, s, env') == s.cached <==>
            !file.Missing? || UsesFile(file, env) == UsesFile(file, env') || Unsealed(codec, ReadFrom(ring, 0)) == None
  {
  }

  // On an empty keyring the condition for landing is exact: a stored credential is there to be read
  // again if and only if its sealed form reassembles (and a process that finds nothing logs in anew).
  lemma KeyringKeepsIff<C(!new)>(codec: Codec<C>, step: nat, s: Store<C>, c: C, io: Io)
    requires step > 0 && RoundTrips(codec) && s.active.InKeyring? && s.ring == map[] && io.keyringOk
    ensures Agrees(codec, AfterStore(codec, step, s, c, io)) <==> Reassembles(codec.seal(c), step)
  {
    assert codec.unseal(codec.seal(c)) == Some(c);
    ReadAfterStoreOnEmpty(codec.seal(c), step);
  }

  // ---------- the class ----------

  class Auth<C(!new)> {
    const codec: Codec<C>
    const keyring: KeyringStorage
    const file: Container<Option<string>>
    var active: Backend
    var fallback: bool
    var cached: Cached<C>

    ghost predicate Valid()
      reads this
    {
      keyring.limit > |CONTINUE_MARKER| && file.default == None
    }

    ghost function View(): Store<C>
      reads this, keyring, file
    {
      Store(keyring.ring, file.file, file.state, active, fallback, cached)
    }

    // `broken` is what the keyring refuses during the first read.
    constructor (codec: Codec<C>, keyring: KeyringStorage, file: Container<Option<string>>, prefersFile: bool,
                 broken: set<nat>)
      requires keyring.limit > |CONTINUE_MARKER| && file.default == None && file.state == None
      modifies keyring, file
      ensures Valid() && this.codec == codec && this.keyring == keyring && this.file == file
      ensures exists env: Env :: View() == Init(codec, old(keyring.ring), old(file.file), env) &&
                                 env.prefersFile == prefersFile && (broken == {} ==> env.keyringReads)
      ensures prefersFile || !old(file.file).Missing? ==> active.InFile?
    {
      this.codec, this.keyring, this.file := codec, keyring, file;
      active, fallback, cached := InFile, false, ReadError;
      new;
      var r := Failed;
      if !prefersFile && file.file.Missing? {
        r := keyring.Read(broken);
      }
      if r.Failed? {
        var v := file.LoadOrGet();
        cached := Known(Unsealed(codec, v));
      } else {
        active, fallback := InKeyring, true;
        cached := Known(Unsealed(codec, if r.Got? then Some(r.s) else None));
      }
      assert View() == Init(codec, old(keyring.ring), old(file.file), Env(prefersFile, !r.Failed? || broken == {}));
    }

    method GetCurrentCredential() returns (r: Cached<C>)
      ensures r == cached
    {
      r := cached;
    }

    method StoreCredentials(c: C, broken: set<nat>, w: WriteOutcome<Option<string>>) returns (ghost io: Io)
      requires Valid()
      modifies this, keyring, file
      ensures Valid() && io.write == w
      ensures View() == AfterStore(codec, keyring.limit - |CONTINUE_MARKER|, old(View()), c, io)
      ensures broken == {} ==> io.keyringOk
    {
      var ok;
      if active.InKeyring? {
        ok := keyring.Store(codec.seal(c), broken);
        io := Io(ok, keyring.ring, w);
      } else {
        ok := file.Save(Some(codec.seal(c)), w);
        io := Io(broken == {}, keyring.ring, w);
      }
      if !ok && fallback {
        fallback, active := false, InFile;
        var _ := file.Save(Some(codec.seal(c)), w);
      }
      cached := Known(Some(c));
    }

    method ClearCredentials(broken: set<nat>, w: WriteOutcome<Option<string>>) returns (ok: bool, ghost io: Io)
      requires Valid()
      modifies this, keyring, file
      ensures Valid() && io.write == w && (io.keyringOk ==> 0 !in io.ringAfter)
      ensures View() == AfterClear(old(View()), io) && ok == Takes(old(View()), io)
    {
      if active.InKeyring? {
        ok := keyring.Clear(broken);
        io := Io(ok, keyring.ring, w);
      } else {
        ok := file.Save(None, w);
        io := Io(false, keyring.ring, w);
      }
      if ok {
        cached := Known(None);
      }
    }
  }
}
