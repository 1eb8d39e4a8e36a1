/**
 * The sandbox allocator as a concurrent state machine: any number of threads
 * run provider acquire/get/release/shutdown and pool warm, one step at a time
 * between lock operations (extensions/deer_flow/registry.py:43-187,
 * deerflow_adp_sandbox.py:111-257). Where a thread stands determines the locks
 * it holds.
 */
module Allocator {
  import opened Basics
  import opened RuntimeRegistry
  import opened SandboxProvider

  // --- Threads --------------------------------------------------------------

  datatype Lock = ProviderLock | WarmLock | PoolLock | RegistryLock

  datatype Invocation =
    | CallAcquire(tid: Option<string>)
    | CallGet(id: string)
    | CallRelease(id: string)
    | CallWarm
    | CallShutdown

  datatype RegistryOp =
    | LoadOp
    | GetOp(tid: Option<string>)
    | SetOp(key: string, runtime: string)
    | RemoveOp(key: string)

  /** Inside a registry call; load() and save() take the re-entrant lock again. */
  datatype Stage = Enter | LoadEnter | Read | LoadLeave | Work | SaveEnter | Write | SaveLeave | Leave

  /** Where a thread continues when its registry call returns. */
  datatype After =
    | AfterGet(tid: Option<string>, found: string)
    | AfterPooled(runtime: string)
    | AfterCold(runtime: string)
    | AfterLoad(id: string)
    | AfterRemove(id: string, keys: seq<string>)

  datatype Pc =
    | Idle
    // provider.acquire, with pool.acquire inside
    | AcquireEnter(tid: Option<string>)
    | PoolEnter(tid: Option<string>)
    | PoolPop(tid: Option<string>)
    | PoolProbe(tid: Option<string>, entry: Entry)
    | PoolLeave(tid: Option<string>, got: Option<Entry>)
    | InRegistry(op: RegistryOp, stage: Stage, after: After)
    | StatusCheck(tid: Option<string>, runtime: string)
    | StartVm(tid: Option<string>, runtime: string)
    | SshWait(runtime: string)
    // provider.get
    | GetEnter(id: string)
    | GetLookup(id: string)
    | GetTopology(id: string)
    | GetStatus(id: string)
    | GetConnect(id: string)
    // provider.release
    | ReleaseEnter(id: string)
    | ReleaseClose(id: string)
    | ReleaseStop(id: string)
    | ReleaseScan(id: string)
    | ReleaseNext(id: string, keys: seq<string>)
    // leaving the provider lock, with the id acquire returns (None when it raised) and whether it is a pool VM
    | ProviderLeave(result: Option<string>, pooled: bool)
    // pool.warm
    | WarmTry
    | WarmLoop(i: nat)
    | WarmUp(i: nat)
    | WarmAddress(i: nat)
    | WarmPoolEnter(i: nat, address: string)
    | WarmAppend(i: nat, address: string)
    | WarmPoolLeave(i: nat)
    | WarmLeave
    // provider.shutdown; ShutdownRelease is release() called with the lock held
    | ShutdownEnter
    | ShutdownScan
    | ShutdownRelease

  /** How often the registry lock is held inside a registry call. */
  function Depth(op: RegistryOp, stage: Stage): nat {
    var base := if op.LoadOp? then 0 else 1;
    match stage
    case Enter => 0
    case LoadEnter => base
    case Read => base + 1
    case LoadLeave => base + 1
    case Write => 2
    case SaveLeave => 2
    case _ => 1
  }

  predicate InProvider(pc: Pc) {
    match pc
    case Idle | AcquireEnter(_) | GetEnter(_) | ReleaseEnter(_) | ShutdownEnter => false
    case WarmTry | WarmLoop(_) | WarmUp(_) | WarmAddress(_) => false
    case WarmPoolEnter(_, _) | WarmAppend(_, _) | WarmPoolLeave(_) | WarmLeave => false
    case _ => true
  }

  predicate InWarm(pc: Pc) {
    || pc.WarmLoop? || pc.WarmUp? || pc.WarmAddress?
    || pc.WarmPoolEnter? || pc.WarmAppend? || pc.WarmPoolLeave? || pc.WarmLeave?
  }

  predicate InPool(pc: Pc) {
    pc.PoolPop? || pc.PoolProbe? || pc.PoolLeave? || pc.WarmAppend? || pc.WarmPoolLeave?
  }

  predicate Holds(pc: Pc, l: Lock) {
    match l
    case ProviderLock => InProvider(pc)
    case WarmLock => InWarm(pc)
    case PoolLock => InPool(pc)
    case RegistryLock => pc.InRegistry? && Depth(pc.op, pc.stage) > 0
  }

  /** The lock a thread at `pc` blocks on until it gets it. */
  function Wants(pc: Pc): Option<Lock> {
    match pc
    case AcquireEnter(_) | GetEnter(_) | ReleaseEnter(_) | ShutdownEnter | ShutdownRelease => Some(ProviderLock)
    case PoolEnter(_) | WarmPoolEnter(_, _) => Some(PoolLock)
    case InRegistry(_, stage, _) =>
      if stage.Enter? || stage.LoadEnter? || stage.SaveEnter? then Some(RegistryLock) else None
    case _ => None
  }

  // --- Shared state ---------------------------------------------------------

  datatype Fate = Checking | Given | Dropped

  datatype Popped = Popped(entry: Entry, fate: Fate)

  /**
   * `rounds` counts the warm rounds begun; `appended` and `popped` log the pool's
   * history; handle number h was made for id `made[h]` and closed `closes[h]`
   * times. `call` and `start` are the last call that took the provider lock and
   * the registry file it found.
   */
  datatype Shared = Shared(
    file: FileState, cache: Mapping,
    pool: seq<Entry>, rounds: nat, appended: seq<Entry>, popped: seq<Popped>,
    handles: map<string, nat>, made: seq<string>, closes: seq<nat>,
    call: Invocation, start: FileState)

  datatype World = World(size: int, pcs: seq<Pc>, shared: Shared)

  /** What the outside answers a step: success, an address, the order a dictionary lists its keys. */
  datatype Reply = Reply(ok: bool, address: string, order: seq<string>)

  function EntryOf(call: Invocation): Pc {
    match call
    case CallAcquire(tid) => AcquireEnter(tid)
    case CallGet(id) => GetEnter(id)
    case CallRelease(id) => ReleaseEnter(id)
    case CallWarm => WarmTry
    case CallShutdown => ShutdownEnter
  }

  function Recording(tid: Option<string>, runtime: string, after: After, otherwise: Pc): Pc {
    if Truthy(tid) then InRegistry(SetOp(tid.value, runtime), Enter, after) else otherwise
  }

  function Resume(after: After): Pc {
    match after
    case AfterGet(tid, found) => StatusCheck(tid, found)
    case AfterPooled(runtime) => ProviderLeave(Some(runtime), true)
    case AfterCold(runtime) => SshWait(runtime)
    case AfterLoad(id) => ReleaseScan(id)
    case AfterRemove(id, keys) => ReleaseNext(id, keys)
  }

  function RegistryStep(sh: Shared, op: RegistryOp, stage: Stage, after: After): (Pc, Shared) {
    match stage
    case Enter => (InRegistry(op, LoadEnter, after), sh)
    case LoadEnter => (InRegistry(op, Read, after), sh)
    case Read => (InRegistry(op, LoadLeave, after), sh.(cache := Loaded(sh.file)))
    case LoadLeave => (if op.LoadOp? then Resume(after) else InRegistry(op, Work, after), sh)
    case Work =>
      (match op
       case LoadOp => (InRegistry(op, Leave, after), sh)
       case GetOp(tid) =>
         (InRegistry(op, Leave, if after.AfterGet? then after.(found := Resolve(sh.cache, tid)) else after), sh)
       case SetOp(k, v) => (InRegistry(op, SaveEnter, after), sh.(cache := sh.cache[k := v]))
       case RemoveOp(k) => (InRegistry(op, SaveEnter, after), sh.(cache := sh.cache - {k})))
    case SaveEnter => (InRegistry(op, Write, after), sh)
    case Write => (InRegistry(op, SaveLeave, after), sh.(file := Json(sh.cache)))
    case SaveLeave => (InRegistry(op, Leave, after), sh)
    case Leave => (Resume(after), sh)
  }

  function TakeProvider(sh: Shared, call: Invocation): Shared {
    sh.(call := call, start := sh.file)
  }

  function Settle(popped: seq<Popped>, fate: Fate): seq<Popped> {
    if popped == [] then [] else popped[|popped| - 1 := popped[|popped| - 1].(fate := fate)]
  }

  /** provider.acquire(), with the pool's acquire() inside. */
  function AcquireStep(sh: Shared, pc: Pc, r: Reply): (Pc, Shared) {
    match pc
    case AcquireEnter(tid) => (PoolEnter(tid), TakeProvider(sh, CallAcquire(tid)))
    case PoolEnter(tid) => (PoolPop(tid), sh)
    case PoolPop(tid) =>
      if sh.pool == [] then (PoolLeave(tid, None), sh)
      else (PoolProbe(tid, sh.pool[0]), sh.(pool := sh.pool[1..], popped := sh.popped + [Popped(sh.pool[0], Checking)]))
    case PoolProbe(tid, e) =>
      if r.ok then (PoolLeave(tid, Some(e)), sh.(popped := Settle(sh.popped, Given)))
      else (PoolLeave(tid, None), sh.(popped := Settle(sh.popped, Dropped)))
    case PoolLeave(tid, got) =>
      (if got.Some?
       then Recording(tid, got.value.name, AfterPooled(got.value.name), ProviderLeave(Some(got.value.name), true))
       else InRegistry(GetOp(tid), Enter, AfterGet(tid, "")), sh)
    case StatusCheck(tid, runtime) =>
      (if r.ok then Recording(tid, runtime, AfterCold(runtime), SshWait(runtime)) else StartVm(tid, runtime), sh)
    case StartVm(tid, runtime) =>
      (if r.ok then Recording(tid, runtime, AfterCold(runtime), SshWait(runtime)) else ProviderLeave(None, false), sh)
    case SshWait(runtime) => (ProviderLeave(if r.ok then Some(runtime) else None, false), sh)
    case _ => (pc, sh)
  }

  /** provider.get(), release(), shutdown() and the end of every locked call. */
  function HandleStep(sh: Shared, pc: Pc, r: Reply): (Pc, Shared) {
    match pc
    case GetEnter(id) => (GetLookup(id), TakeProvider(sh, CallGet(id)))
    case GetLookup(id) => (if id in sh.handles then ProviderLeave(None, false) else GetTopology(id), sh)
    case GetTopology(id) => (if r.ok then GetConnect(id) else GetStatus(id), sh)
    case GetStatus(id) => (if r.ok then GetConnect(id) else ProviderLeave(None, false), sh)
    case GetConnect(id) =>
      (ProviderLeave(None, false),
       sh.(handles := sh.handles[id := |sh.made|], made := sh.made + [id], closes := sh.closes + [0]))
    case ReleaseEnter(id) => (ReleaseClose(id), TakeProvider(sh, CallRelease(id)))
    case ReleaseClose(id) =>
      (ReleaseStop(id),
       if id in sh.handles && sh.handles[id] < |sh.closes|
       then sh.(handles := sh.handles - {id}, closes := sh.closes[sh.handles[id] := sh.closes[sh.handles[id]] + 1])
       else sh)
    case ReleaseStop(id) => (InRegistry(LoadOp, LoadEnter, AfterLoad(id)), sh)
    case ReleaseScan(id) => (ReleaseNext(id, r.order), sh)
    case ReleaseNext(id, keys) =>
      (if keys == [] then ProviderLeave(None, false)
       else InRegistry(RemoveOp(keys[0]), Enter, AfterRemove(id, keys[1..])), sh)
    case ProviderLeave(_, _) => (Idle, sh)
    case ShutdownEnter => (ShutdownScan, TakeProvider(sh, CallShutdown))
    case ShutdownScan => (if sh.handles == map[] then ProviderLeave(None, false) else ShutdownRelease, sh)
    case _ => (pc, sh)
  }

  /** pool.warm(). */
  function WarmStep(size: int, warmFree: bool, sh: Shared, pc: Pc, r: Reply): (Pc, Shared) {
    match pc
    case WarmTry =>
      if size <= 0 || !warmFree then (Idle, sh) else (WarmLoop(0), sh.(rounds := sh.rounds + 1))
    case WarmLoop(i) => (if i < size then WarmUp(i) else WarmLeave, sh)
    case WarmUp(i) => (if r.ok then WarmAddress(i) else WarmLoop(i + 1), sh)
    case WarmAddress(i) => (if r.address != "" then WarmPoolEnter(i, r.address) else WarmLoop(i + 1), sh)
    case WarmPoolEnter(i, a) => (WarmAppend(i, a), sh)
    case WarmAppend(i, a) =>
      (WarmPoolLeave(i),
       sh.(pool := sh.pool + [Entry(PoolName(i), a)], appended := sh.appended + [Entry(PoolName(i), a)]))
    case WarmPoolLeave(i) => (WarmLoop(i + 1), sh)
    case WarmLeave => (Idle, sh)
    case _ => (pc, sh)
  }

  predicate IsWarm(pc: Pc) {
    pc.WarmTry? || InWarm(pc)
  }

  predicate IsAcquire(pc: Pc) {
    match pc
    case AcquireEnter(_) | PoolEnter(_) | PoolPop(_) | PoolProbe(_, _) | PoolLeave(_, _) => true
    case StatusCheck(_, _) | StartVm(_, _) | SshWait(_) => true
    case _ => false
  }

  /** One step of one thread. `warmFree`: nobody holds the warm lock. */
  function Step(size: int, warmFree: bool, sh: Shared, pc: Pc, r: Reply): (Pc, Shared) {
    if pc.InRegistry? then RegistryStep(sh, pc.op, pc.stage, pc.after)
    else if IsAcquire(pc) then AcquireStep(sh, pc, r)
    else if IsWarm(pc) then WarmStep(size, warmFree, sh, pc, r)
    else HandleStep(sh, pc, r)
  }

  // --- Runs -----------------------------------------------------------------

  predicate NobodyElseHolds(w: World, t: nat, l: Lock) {
    forall u | 0 <= u < |w.pcs| && u != t :: !Holds(w.pcs[u], l)
  }

  /** A thread with an unfinished call that is not blocked on a lock. */
  predicate CanStep(w: World, t: nat) {
    && t < |w.pcs|
    && w.pcs[t] != Idle
    && (match Wants(w.pcs[t])
        case None => true
        case Some(l) => NobodyElseHolds(w, t, l) && (l == RegistryLock || !Holds(w.pcs[t], l)))
  }

  predicate Lists(order: seq<string>, keys: set<string>) {
    && (forall i, j | 0 <= i < j < |order| :: order[i] != order[j])
    && (set k | k in order) == keys
  }

  datatype Event = Start(t: nat, call: Invocation) | Go(t: nat, reply: Reply)

  predicate Possible(w: World, e: Event) {
    match e
    case Start(t, _) => t < |w.pcs| && w.pcs[t] == Idle
    case Go(t, r) => CanStep(w, t) && (w.pcs[t].ReleaseScan? ==> Lists(r.order, KeysFor(w.shared.cache, w.pcs[t].id)))
  }

  predicate WarmFree(w: World) {
    forall u | 0 <= u < |w.pcs| :: !InWarm(w.pcs[u])
  }

  function Happen(w: World, e: Event): World
    requires Possible(w, e)
  {
    match e
    case Start(t, call) => w.(pcs := w.pcs[t := EntryOf(call)])
    case Go(t, r) =>
      var (pc, sh) := Step(w.size, WarmFree(w), w.shared, w.pcs[t], r);
      World(w.size, w.pcs[t := pc], sh)
  }

  predicate IsRun(w: World, events: seq<Event>)
    decreases |events|
  {
    events == [] || (Possible(w, events[0]) && IsRun(Happen(w, events[0]), events[1..]))
  }

  function Final(w: World, events: seq<Event>): World
    requires IsRun(w, events)
    decreases |events|
  {
    if events == [] then w else Final(Happen(w, events[0]), events[1..])
  }

  function Initial(size: int, threads: nat, file: FileState): World {
    World(size, seq(threads, i => Idle), Shared(file, map[], [], 0, [], [], map[], [], [], CallWarm, file))
  }

  // --- Locks exclude --------------------------------------------------------

  ghost predicate Exclusive(w: World) {
    forall l: Lock, t, u | 0 <= t < |w.pcs| && 0 <= u < |w.pcs| && t != u :: !(Holds(w.pcs[t], l) && Holds(w.pcs[u], l))
  }

  /** A step gains only the lock it was waiting for, or the warm lock when nobody had it. */
  lemma StepGains(size: int, warmFree: bool, sh: Shared, pc: Pc, r: Reply, l: Lock)
    requires Holds(Step(size, warmFree, sh, pc, r).0, l)
    ensures Holds(pc, l) || Wants(pc) == Some(l) || (pc.WarmTry? && l == WarmLock && warmFree)
  {
    if pc.InRegistry? {
      assert Holds(RegistryStep(sh, pc.op, pc.stage, pc.after).0, l);
    } else if IsAcquire(pc) {
      assert Holds(AcquireStep(sh, pc, r).0, l);
    } else if IsWarm(pc) {
      assert Holds(WarmStep(size, warmFree, sh, pc, r).0, l);
    } else {
      assert Holds(HandleStep(sh, pc, r).0, l);
    }
  }

  lemma ExclusiveKept(w: World, e: Event)
    requires Exclusive(w) && Possible(w, e)
    ensures Exclusive(Happen(w, e))
  {
    var w' := Happen(w, e);
    forall l: Lock, t, u | 0 <= t < |w.pcs| && 0 <= u < |w.pcs| && t != u && Holds(w'.pcs[t], l)
      ensures !Holds(w'.pcs[u], l)
    {
      if e.Go? && (e.t == t || e.t == u) {
        if Holds(w'.pcs[e.t], l) {
          StepGains(w.size, WarmFree(w), w.shared, w.pcs[e.t], e.reply, l);
        }
      }
    }
  }
}
