/**
 * What every interleaving keeps: the pool loses and invents nothing, a pool VM
 * goes to one caller per warm round, every handle is cached or closed once, and
 * each locked provider call changes the registry exactly as it would alone.
 */
module AllocatorState {
  import opened Basics
  import opened RuntimeRegistry
  import opened SandboxProvider
  import opened Allocator
  import opened AllocatorProgress

  // --- Registry calls inside the provider lock ------------------------------

  predicate NoneChecking(popped: seq<Popped>) {
    forall i | 0 <= i < |popped| :: popped[i].fate != Checking
  }

  /** `runtime` is the pool VM taken last, and it was found running. */
  predicate JustGiven(sh: Shared, runtime: string) {
    sh.popped != [] && sh.popped[|sh.popped| - 1].fate == Given && sh.popped[|sh.popped| - 1].entry.name == runtime
  }

  /** The registry file after the keys mapped to `id`, except those still in `keys`, were removed. */
  function Pruned(start: FileState, id: string, keys: seq<string>): FileState {
    var gone := KeysFor(Loaded(start), id) - set k | k in keys;
    if gone == {} then start else Json(Loaded(start) - gone)
  }

  predicate Pending(start: FileState, id: string, keys: seq<string>) {
    && (forall i, j | 0 <= i < j < |keys| :: keys[i] != keys[j])
    && (forall k | k in keys :: k in KeysFor(Loaded(start), id))
  }

  /** The registry effect of a finished call, relative to the file its critical section found. */
  predicate Finished(sh: Shared, result: Option<string>, pooled: bool) {
    match sh.call
    case CallAcquire(tid) =>
      var own := Resolve(Loaded(sh.start), tid);
      if pooled then result.Some? && JustGiven(sh, result.value) && sh.file == Record(sh.start, tid, result.value)
      else if result.Some? then result.value == own && sh.file == Record(sh.start, tid, own)
      else sh.file == sh.start || sh.file == Record(sh.start, tid, own)
    case CallGet(_) => sh.file == sh.start
    case CallRelease(id) => sh.file == Released(sh.start, id)
    case CallWarm => false
    case CallShutdown => sh.file == sh.start
  }

  predicate Saved(stage: Stage) {
    stage.SaveLeave? || stage.Leave?
  }

  /** A set() in progress turns `start` into `start` with the key recorded. */
  predicate Setting(sh: Shared, key: string, runtime: string, stage: Stage) {
    && sh.call.CallAcquire? && Truthy(sh.call.tid) && key == sh.call.tid.value
    && sh.file == (if Saved(stage) then Json(Loaded(sh.start)[key := runtime]) else sh.start)
    && (stage.LoadLeave? || stage.Work? ==> sh.cache == Loaded(sh.start))
    && (stage.SaveEnter? || stage.Write? ==> sh.cache == Loaded(sh.start)[key := runtime])
  }

  predicate RegistryFits(sh: Shared, op: RegistryOp, stage: Stage, after: After) {
    match op
    case LoadOp =>
      && after.AfterLoad? && sh.call == CallRelease(after.id) && sh.file == sh.start
      && (stage.LoadEnter? || stage.Read? || (stage.LoadLeave? && sh.cache == Loaded(sh.start)))
    case GetOp(tid) =>
      && after.AfterGet? && after.tid == tid && sh.call == CallAcquire(tid) && sh.file == sh.start
      && !stage.SaveEnter? && !stage.Write? && !stage.SaveLeave?
      && (stage.LoadLeave? || stage.Work? ==> sh.cache == Loaded(sh.start))
      && (stage.Leave? ==> after.found == Resolve(Loaded(sh.start), tid))
    case SetOp(k, v) =>
      && Setting(sh, k, v, stage)
      && (match after
          case AfterPooled(r) => v == r && JustGiven(sh, r)
          case AfterCold(r) => v == r && r == Resolve(Loaded(sh.start), sh.call.tid)
          case _ => false)
    case RemoveOp(k) =>
      && after.AfterRemove? && sh.call == CallRelease(after.id)
      && Pending(sh.start, after.id, [k] + after.keys)
      && sh.file == Pruned(sh.start, after.id, if Saved(stage) then after.keys else [k] + after.keys)
      && (stage.LoadLeave? || stage.Work? ==> sh.cache == Loaded(sh.file))
      && (stage.SaveEnter? || stage.Write? ==> sh.cache == Loaded(sh.file) - {k})
  }

  /** What a thread inside the provider lock knows about the shared state. */
  predicate Fits(pc: Pc, sh: Shared) {
    match pc
    case PoolEnter(tid) => sh.call == CallAcquire(tid) && sh.file == sh.start && NoneChecking(sh.popped)
    case PoolPop(tid) => sh.call == CallAcquire(tid) && sh.file == sh.start && NoneChecking(sh.popped)
    case PoolProbe(tid, e) =>
      && sh.call == CallAcquire(tid) && sh.file == sh.start
      && sh.popped != [] && sh.popped[|sh.popped| - 1] == Popped(e, Checking)
      && NoneChecking(sh.popped[..|sh.popped| - 1])
    case PoolLeave(tid, got) =>
      && sh.call == CallAcquire(tid) && sh.file == sh.start && NoneChecking(sh.popped)
      && (got.Some? ==> JustGiven(sh, got.value.name))
    case InRegistry(op, stage, after) => RegistryFits(sh, op, stage, after) && NoneChecking(sh.popped)
    case StatusCheck(tid, r) =>
      && sh.call == CallAcquire(tid) && sh.file == sh.start
      && r == Resolve(Loaded(sh.start), tid) && NoneChecking(sh.popped)
    case StartVm(tid, r) =>
      && sh.call == CallAcquire(tid) && sh.file == sh.start
      && r == Resolve(Loaded(sh.start), tid) && NoneChecking(sh.popped)
    case SshWait(r) =>
      && sh.call.CallAcquire? && r == Resolve(Loaded(sh.start), sh.call.tid)
      && sh.file == Record(sh.start, sh.call.tid, r) && NoneChecking(sh.popped)
    case GetLookup(id) => sh.call == CallGet(id) && sh.file == sh.start && NoneChecking(sh.popped)
    case GetTopology(id) =>
      sh.call == CallGet(id) && sh.file == sh.start && id !in sh.handles && NoneChecking(sh.popped)
    case GetStatus(id) => sh.call == CallGet(id) && sh.file == sh.start && id !in sh.handles && NoneChecking(sh.popped)
    case GetConnect(id) => sh.call == CallGet(id) && sh.file == sh.start && id !in sh.handles && NoneChecking(sh.popped)
    case ReleaseClose(id) => sh.call == CallRelease(id) && sh.file == sh.start && NoneChecking(sh.popped)
    case ReleaseStop(id) => sh.call == CallRelease(id) && sh.file == sh.start && NoneChecking(sh.popped)
    case ReleaseScan(id) =>
      sh.call == CallRelease(id) && sh.file == sh.start && sh.cache == Loaded(sh.start) && NoneChecking(sh.popped)
    case ReleaseNext(id, keys) =>
      && sh.call == CallRelease(id) && Pending(sh.start, id, keys) && sh.file == Pruned(sh.start, id, keys)
      && NoneChecking(sh.popped)
    case ProviderLeave(result, pooled) => Finished(sh, result, pooled) && NoneChecking(sh.popped)
    case ShutdownScan => sh.call == CallShutdown && sh.file == sh.start && NoneChecking(sh.popped)
    case ShutdownRelease => sh.call == CallShutdown && sh.file == sh.start && NoneChecking(sh.popped)
    case _ => true
  }

  /** Removing one pending key: the file moves from one pruned state to the next. */
  lemma PruneOne(start: FileState, id: string, k: string, keys: seq<string>)
    requires Pending(start, id, [k] + keys)
    ensures Json(Loaded(Pruned(start, id, [k] + keys)) - {k}) == Pruned(start, id, keys)
    ensures Pending(start, id, keys)
  {
    var all := KeysFor(Loaded(start), id);
    var kept := set x | x in keys;
    var more := set x | x in [k] + keys;
    assert k in [k] + keys && k in all;
    forall j | 0 <= j < |keys|
      ensures keys[j] != k && keys[j] in all
    {
      assert ([k] + keys)[j + 1] == keys[j] && ([k] + keys)[0] == k;
    }
    forall i, j | 0 <= i < j < |keys|
      ensures keys[i] != keys[j]
    {
      assert ([k] + keys)[i + 1] == keys[i] && ([k] + keys)[j + 1] == keys[j];
    }
    assert k !in kept;
    assert more == kept + {k};
    assert all - kept == (all - more) + {k};
    assert k in all - kept;
    assert Loaded(start) - (all - more) - {k} == Loaded(start) - (all - kept);
  }

  lemma RegistryStepFits(sh: Shared, op: RegistryOp, stage: Stage, after: After)
    requires Fits(InRegistry(op, stage, after), sh)
    ensures var (pc, sh') := RegistryStep(sh, op, stage, after); Fits(pc, sh')
  {
    match op
    case RemoveOp(k) =>
      PruneOne(sh.start, after.id, k, after.keys);
    case SetOp(k, v) =>
    case LoadOp =>
    case GetOp(tid) =>
  }

  lemma AcquireStepFits(sh: Shared, pc: Pc, r: Reply)
    requires Fits(pc, sh) && IsAcquire(pc)
    requires pc.AcquireEnter? ==> NoneChecking(sh.popped)
    ensures var (pc', sh') := AcquireStep(sh, pc, r); Fits(pc', sh')
  {
    match pc
    case PoolPop(tid) =>
      if sh.pool != [] {
        var sh' := AcquireStep(sh, pc, r).1;
        assert sh'.popped[..|sh'.popped| - 1] == sh.popped;
      }
    case PoolProbe(tid, e) =>
      var sh' := AcquireStep(sh, pc, r).1;
      var last := |sh.popped| - 1;
      forall i | 0 <= i < |sh'.popped|
        ensures sh'.popped[i].fate != Checking
      {
        if i < last {
          assert sh.popped[..last][i] == sh.popped[i];
        }
      }
      assert sh'.popped[last].entry.name == e.name;
    case _ =>
  }

  lemma HandleStepFits(sh: Shared, pc: Pc, r: Reply)
    requires Fits(pc, sh) && !IsAcquire(pc) && !IsWarm(pc) && !pc.InRegistry?
    requires Wants(pc) == Some(ProviderLock) ==> NoneChecking(sh.popped)
    requires pc.ReleaseScan? ==> Lists(r.order, KeysFor(sh.cache, pc.id))
    ensures var (pc', sh') := HandleStep(sh, pc, r); Fits(pc', sh')
  {
    match pc
    case ReleaseScan(id) =>
      forall k | k in r.order
        ensures k in KeysFor(Loaded(sh.start), id)
      {
        assert k in (set x | x in r.order);
      }
    case ReleaseNext(id, keys) =>
      if keys != [] {
        assert [keys[0]] + keys[1..] == keys;
      } else {
        assert (set k | k in keys) == {};
      }
    case _ =>
  }

  // --- Pool and handles -----------------------------------------------------

  function Entries(popped: seq<Popped>): seq<Entry> {
    seq(|popped|, i requires 0 <= i < |popped| => popped[i].entry)
  }

  /** How often a runtime name was appended. */
  function Count(name: string, es: seq<Entry>): nat {
    if es == [] then 0 else Count(name, es[..|es| - 1]) + if es[|es| - 1].name == name then 1 else 0
  }

  /** The first index the current warm round has not appended yet. */
  function WarmingFrom(pc: Pc): Option<nat> {
    match pc
    case WarmLoop(i) => Some(i)
    case WarmUp(i) => Some(i)
    case WarmAddress(i) => Some(i)
    case WarmPoolEnter(i, _) => Some(i)
    case WarmAppend(i, _) => Some(i)
    case WarmPoolLeave(i) => Some(i + 1)
    case _ => None
  }

  ghost predicate Unwarmed(pc: Pc, sh: Shared) {
    WarmingFrom(pc).Some? ==> forall i: nat | i >= WarmingFrom(pc).value :: Count(PoolName(i), sh.appended) < sh.rounds
  }

  ghost predicate PoolKept(sh: Shared) {
    && sh.appended == Entries(sh.popped) + sh.pool
    && (forall name :: Count(name, sh.appended) <= sh.rounds)
  }

  /** Every handle is the cached one for its id and open, or was closed exactly once. */
  predicate HandlesKept(sh: Shared) {
    && |sh.closes| == |sh.made|
    && (forall id | id in sh.handles :: sh.handles[id] < |sh.made| && sh.made[sh.handles[id]] == id)
    && (forall h | 0 <= h < |sh.made| ::
          sh.closes[h] == if sh.made[h] in sh.handles && sh.handles[sh.made[h]] == h then 0 else 1)
  }

  ghost predicate Inv(w: World) {
    && Exclusive(w)
    && PoolKept(w.shared)
    && HandlesKept(w.shared)
    && (forall t | 0 <= t < |w.pcs| :: Fits(w.pcs[t], w.shared) && Unwarmed(w.pcs[t], w.shared))
    && ((forall t | 0 <= t < |w.pcs| :: !w.pcs[t].PoolProbe?) ==> NoneChecking(w.shared.popped))
  }

  /** The parts of the shared state a provider call relies on. */
  predicate SameForProvider(a: Shared, b: Shared) {
    && a.file == b.file && a.cache == b.cache && a.popped == b.popped && a.handles == b.handles
    && a.call == b.call && a.start == b.start
  }

  lemma FitsCarries(pc: Pc, a: Shared, b: Shared)
    requires Fits(pc, a) && (SameForProvider(a, b) || !Holds(pc, ProviderLock))
    ensures Fits(pc, b)
  {
    if Holds(pc, ProviderLock) {
      match pc
      case InRegistry(op, stage, after) => assert RegistryFits(b, op, stage, after);
      case ProviderLeave(result, pooled) => assert Finished(b, result, pooled);
      case _ =>
    }
  }

  /** Only a thread that holds or takes the provider lock touches what provider calls rely on. */
  lemma OutsidersTouchNothing(size: int, warmFree: bool, sh: Shared, pc: Pc, r: Reply)
    requires !Holds(pc, ProviderLock) && Wants(pc) != Some(ProviderLock)
    ensures SameForProvider(sh, Step(size, warmFree, sh, pc, r).1)
  {
  }

  lemma CountAppend(name: string, es: seq<Entry>, e: Entry)
    ensures Count(name, es + [e]) == Count(name, es) + if e.name == name then 1 else 0
  {
    assert (es + [e])[..|es + [e]| - 1] == es;
  }

  lemma AppendKeepsCounts(es: seq<Entry>, rounds: nat, i: nat, a: string)
    requires forall name :: Count(name, es) <= rounds
    requires forall k: nat | k >= i :: Count(PoolName(k), es) < rounds
    ensures forall name :: Count(name, es + [Entry(PoolName(i), a)]) <= rounds
    ensures forall k: nat | k >= i + 1 :: Count(PoolName(k), es + [Entry(PoolName(i), a)]) < rounds
  {
    var e := Entry(PoolName(i), a);
    forall name
      ensures Count(name, es + [e]) <= rounds
    {
      CountAppend(name, es, e);
      assert name == PoolName(i) ==> Count(PoolName(i), es) < rounds;
    }
    forall k: nat | k >= i + 1
      ensures Count(PoolName(k), es + [e]) < rounds
    {
      CountAppend(PoolName(k), es, e);
      if PoolName(k) == PoolName(i) {
        PoolNameInjective(k, i);
      }
    }
  }

  lemma WarmStepKept(size: int, warmFree: bool, sh: Shared, pc: Pc, r: Reply)
    requires PoolKept(sh) && Unwarmed(pc, sh) && IsWarm(pc)
    ensures var (pc', sh') := WarmStep(size, warmFree, sh, pc, r);
            PoolKept(sh') && Unwarmed(pc', sh')
  {
    if pc.WarmAppend? {
      AppendKeepsCounts(sh.appended, sh.rounds, pc.i, pc.address);
      var e := Entry(PoolName(pc.i), pc.address);
      assert sh.appended + [e] == Entries(sh.popped) + (sh.pool + [e]);
    }
  }

  lemma AcquireStepKept(sh: Shared, pc: Pc, r: Reply)
    requires PoolKept(sh) && IsAcquire(pc)
    ensures PoolKept(AcquireStep(sh, pc, r).1)
  {
    match pc
    case PoolPop(tid) =>
      if sh.pool != [] {
        assert Entries(sh.popped + [Popped(sh.pool[0], Checking)]) == Entries(sh.popped) + [sh.pool[0]];
      }
    case PoolProbe(tid, e) =>
      assert Entries(Settle(sh.popped, Given)) == Entries(sh.popped) == Entries(Settle(sh.popped, Dropped));
    case _ =>
  }

  predicate SamePool(a: Shared, b: Shared) {
    a.pool == b.pool && a.rounds == b.rounds && a.appended == b.appended && a.popped == b.popped
  }

  lemma PoolStepKept(size: int, warmFree: bool, sh: Shared, pc: Pc, r: Reply)
    requires PoolKept(sh) && Unwarmed(pc, sh)
    ensures var (pc', sh') := Step(size, warmFree, sh, pc, r);
            && PoolKept(sh') && Unwarmed(pc', sh')
            && (!pc.WarmAppend? ==> sh'.appended == sh.appended && sh'.rounds >= sh.rounds)
  {
    var (pc', sh') := Step(size, warmFree, sh, pc, r);
    if IsWarm(pc) {
      WarmStepKept(size, warmFree, sh, pc, r);
    } else {
      assert WarmingFrom(pc').None?;
      if IsAcquire(pc) {
        AcquireStepKept(sh, pc, r);
      } else {
        assert SamePool(sh, sh');
      }
    }
  }

  predicate SameHandles(a: Shared, b: Shared) {
    a.handles == b.handles && a.made == b.made && a.closes == b.closes
  }

  lemma HandlesElsewhere(size: int, warmFree: bool, sh: Shared, pc: Pc, r: Reply)
    requires pc.InRegistry? || IsAcquire(pc) || IsWarm(pc)
    ensures SameHandles(sh, Step(size, warmFree, sh, pc, r).1)
  {
  }

  lemma HandleStepKept(sh: Shared, pc: Pc, r: Reply)
    requires HandlesKept(sh) && Fits(pc, sh)
    ensures HandlesKept(HandleStep(sh, pc, r).1)
  {
    if pc.GetConnect? {
      assert HandlesKept(HandleStep(sh, pc, r).1);
    } else if pc.ReleaseClose? {
      assert HandlesKept(HandleStep(sh, pc, r).1);
    } else {
      assert SameHandles(sh, HandleStep(sh, pc, r).1);
    }
  }

  // --- The invariant holds in every run -------------------------------------

  lemma InitialInv(size: int, threads: nat, file: FileState)
    ensures Inv(Initial(size, threads, file))
  {
  }

  lemma StepFits(w: World, t: nat, r: Reply)
    requires Inv(w) && Possible(w, Go(t, r))
    ensures var (pc, sh) := Step(w.size, WarmFree(w), w.shared, w.pcs[t], r); Fits(pc, sh)
  {
    var pc := w.pcs[t];
    if Wants(pc) == Some(ProviderLock) {
      forall u | 0 <= u < |w.pcs|
        ensures !w.pcs[u].PoolProbe?
      {
        assert w.pcs[u].PoolProbe? ==> Holds(w.pcs[u], ProviderLock);
      }
    }
    if pc.InRegistry? {
      RegistryStepFits(w.shared, pc.op, pc.stage, pc.after);
    } else if IsAcquire(pc) {
      AcquireStepFits(w.shared, pc, r);
    } else if !IsWarm(pc) {
      HandleStepFits(w.shared, pc, r);
    }
  }

  /** What another thread knows survives the step of thread `t`. */
  lemma OthersKeep(w: World, t: nat, r: Reply, u: nat)
    requires Inv(w) && Possible(w, Go(t, r)) && u < |w.pcs| && u != t
    ensures var sh := Step(w.size, WarmFree(w), w.shared, w.pcs[t], r).1;
            Fits(w.pcs[u], sh) && Unwarmed(w.pcs[u], sh)
  {
    var sh := Step(w.size, WarmFree(w), w.shared, w.pcs[t], r).1;
    if Holds(w.pcs[u], ProviderLock) {
      assert !Holds(w.pcs[t], ProviderLock);
      OutsidersTouchNothing(w.size, WarmFree(w), w.shared, w.pcs[t], r);
    }
    FitsCarries(w.pcs[u], w.shared, sh);
    PoolStepKept(w.size, WarmFree(w), w.shared, w.pcs[t], r);
    if WarmingFrom(w.pcs[u]).Some? {
      assert Holds(w.pcs[u], WarmLock);
      assert !Holds(w.pcs[t], WarmLock);
    }
  }

  lemma InvKept(w: World, e: Event)
    requires Inv(w) && Possible(w, e)
    ensures Inv(Happen(w, e))
  {
    ExclusiveKept(w, e);
    var w' := Happen(w, e);
    match e
    case Start(t, call) =>
      assert !w.pcs[t].PoolProbe?;
      if forall u | 0 <= u < |w'.pcs| :: !w'.pcs[u].PoolProbe? {
        forall u | 0 <= u < |w.pcs|
          ensures !w.pcs[u].PoolProbe?
        {
          assert u != t ==> w'.pcs[u] == w.pcs[u];
        }
      }
    case Go(t, r) =>
      StepFits(w, t, r);
      PoolStepKept(w.size, WarmFree(w), w.shared, w.pcs[t], r);
      if w.pcs[t].InRegistry? || IsAcquire(w.pcs[t]) || IsWarm(w.pcs[t]) {
        HandlesElsewhere(w.size, WarmFree(w), w.shared, w.pcs[t], r);
      } else {
        HandleStepKept(w.shared, w.pcs[t], r);
      }
      forall u | 0 <= u < |w.pcs|
        ensures Fits(w'.pcs[u], w'.shared) && Unwarmed(w'.pcs[u], w'.shared)
      {
        if u != t {
          OthersKeep(w, t, r, u);
        }
      }
      ProbesKept(w, t, r);
  }

  lemma OutsideNoPops(size: int, warmFree: bool, sh: Shared, pc: Pc, r: Reply)
    requires !pc.PoolPop? && !pc.PoolProbe?
    ensures Step(size, warmFree, sh, pc, r).1.popped == sh.popped
  {
  }

  lemma LeavingNeverProbes(size: int, warmFree: bool, sh: Shared, pc: Pc, r: Reply)
    requires !Holds(Step(size, warmFree, sh, pc, r).0, ProviderLock)
    ensures !pc.PoolProbe? && !pc.PoolPop?
  {
  }

  lemma ProbesKept(w: World, t: nat, r: Reply)
    requires Inv(w) && Possible(w, Go(t, r))
    requires Fits(Happen(w, Go(t, r)).pcs[t], Happen(w, Go(t, r)).shared)
    ensures var w' := Happen(w, Go(t, r));
            (forall u | 0 <= u < |w'.pcs| :: !w'.pcs[u].PoolProbe?) ==> NoneChecking(w'.shared.popped)
  {
    var w' := Happen(w, Go(t, r));
    if forall u | 0 <= u < |w'.pcs| :: !w'.pcs[u].PoolProbe? {
      if Holds(w'.pcs[t], ProviderLock) {
        assert !w'.pcs[t].PoolProbe?;
      } else {
        LeavingNeverProbes(w.size, WarmFree(w), w.shared, w.pcs[t], r);
        forall u | 0 <= u < |w.pcs|
          ensures !w.pcs[u].PoolProbe?
        {
          assert u != t ==> w'.pcs[u] == w.pcs[u];
        }
        OutsideNoPops(w.size, WarmFree(w), w.shared, w.pcs[t], r);
      }
    }
  }

  lemma {:induction false} RunKeepsInv(w: World, events: seq<Event>)
    requires Inv(w) && IsRun(w, events)
    ensures Inv(Final(w, events))
    decreases |events|
  {
    if events != [] {
      InvKept(w, events[0]);
      RunKeepsInv(Happen(w, events[0]), events[1..]);
    }
  }
}
