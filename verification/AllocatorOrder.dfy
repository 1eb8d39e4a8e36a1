/**
 * Every interleaving is explained by one order of whole calls: what the threads are
 * answered, and what they leave in the registry, the pool and the handle cache, is
 * what acquires, gets, releases and pool additions leave that run one after the other.
 */
module AllocatorOrder {
  import opened Basics
  import opened RuntimeRegistry
  import opened SandboxProvider
  import opened Allocator
  import opened AllocatorState
  import opened AllocatorTheorems

  // --- Answers met and given ------------------------------------------------

  /** The answers of the command-line tool that a call met, None where it did not ask. */
  datatype Met = Met(
    pooledRuns: Option<bool>, statusOk: Option<bool>, upOk: Option<bool>, reachable: Option<bool>,
    topologyOk: Option<bool>, addressOk: Option<bool>)

  const NOTHING := Met(None, None, None, None, None, None)

  /**
   * A returned call: what was answered, whether it is a pool VM, for get() which handle,
   * and the answers it met.
   */
  datatype Returned = Returned(call: Invocation, result: Option<string>, pooled: bool, handle: Option<nat>, met: Met)

  // --- One after the other --------------------------------------------------

  /** The handle cache, the ids handles were made for, and how often each was closed. */
  datatype Desk = Desk(handles: map<string, nat>, made: seq<string>, closes: seq<nat>)

  function Serve(d: Desk, op: Operation): Desk {
    match op
    case ReleaseOp(id) =>
      if id in d.handles && d.handles[id] < |d.closes|
      then Desk(d.handles - {id}, d.made, d.closes[d.handles[id] := d.closes[d.handles[id]] + 1]) else d
    case HandleOp(id, topologyOk, statusOk) =>
      if id in d.handles || !(topologyOk || statusOk) then d
      else Desk(d.handles[id := |d.made|], d.made + [id], d.closes + [0])
    case _ => d
  }

  /** The handles after a run of calls. */
  function Desks(ops: seq<Operation>): Desk {
    if ops == [] then Desk(map[], [], []) else Serve(Desks(ops[..|ops| - 1]), ops[|ops| - 1])
  }

  function HandleFor(d: Desk, id: string): Option<nat> {
    if id in d.handles then Some(d.handles[id]) else None
  }

  /** The answers an acquire asks for that runs alone. */
  function AcquireAsks(p: Platform, a: Answers): Met {
    var pooled := p.pool != [] && a.pooledRuns;
    Met(if p.pool != [] then Some(a.pooledRuns) else None,
        if pooled then None else Some(a.statusOk),
        if pooled || a.statusOk then None else Some(a.upOk),
        if pooled || !(a.statusOk || a.upOk) then None else Some(a.reachable), None, None)
  }

  function HandleAsks(d: Desk, id: string, topologyOk: bool, statusOk: bool): Met {
    if id in d.handles then NOTHING
    else NOTHING.(topologyOk := Some(topologyOk), addressOk := if topologyOk then None else Some(statusOk))
  }

  function ReturnedAlone(p: Platform, d: Desk, op: Operation): seq<Returned> {
    match op
    case AcquireOp(tid, a) =>
      var answer := Acquired(p, tid, a).1;
      var result := if answer.Ok? then Some(answer.value) else None;
      [Returned(CallAcquire(tid), result, TakesPooled(p, a), None, AcquireAsks(p, a))]
    case ReleaseOp(id) => [Returned(CallRelease(id), None, false, None, NOTHING)]
    case HandleOp(id, topologyOk, statusOk) =>
      [Returned(CallGet(id), None, false, HandleFor(Serve(d, op), id), HandleAsks(d, id, topologyOk, statusOk))]
    case WarmOp(_) => []
  }

  function AllReturnedAlone(p: Platform, ops: seq<Operation>): seq<Returned> {
    if ops == [] then []
    else
      var front := ops[..|ops| - 1];
      AllReturnedAlone(p, front) + ReturnedAlone(Replay(p, front), Desks(front), ops[|ops| - 1])
  }

  /** The entries the pool additions bring. */
  function Supplied(ops: seq<Operation>): seq<Entry> {
    if ops == [] then []
    else
      var last := ops[|ops| - 1];
      Supplied(ops[..|ops| - 1]) + if last.WarmOp? then last.entries else []
  }

  lemma OneMore(p: Platform, ops: seq<Operation>, op: Operation)
    ensures Replay(p, ops + [op]) == Apply(Replay(p, ops), op)
    ensures Desks(ops + [op]) == Serve(Desks(ops), op)
    ensures AllReturnedAlone(p, ops + [op]) == AllReturnedAlone(p, ops) + ReturnedAlone(Replay(p, ops), Desks(ops), op)
    ensures Supplied(ops + [op]) == Supplied(ops) + if op.WarmOp? then op.entries else []
  {
    assert (ops + [op])[..|ops + [op]| - 1] == ops;
  }

  // --- Interleaved ----------------------------------------------------------

  function DeskOf(sh: Shared): Desk {
    Desk(sh.handles, sh.made, sh.closes)
  }

  /** What the call that leaves the provider lock returns. */
  function LastReturned(sh: Shared, pc: Pc, met: Met): seq<Returned>
    requires pc.ProviderLeave?
  {
    match sh.call
    case CallAcquire(_) => [Returned(sh.call, pc.result, pc.pooled, None, met)]
    case CallRelease(_) => [Returned(sh.call, None, false, None, met)]
    case CallGet(id) => [Returned(sh.call, None, false, HandleFor(DeskOf(sh), id), met)]
    case _ => []
  }

  /** What the call holding the provider lock has met after one more of its steps. */
  function Meets(pc: Pc, r: Reply, met: Met): Met {
    match pc
    case AcquireEnter(_) | GetEnter(_) | ReleaseEnter(_) | ShutdownEnter => NOTHING
    case PoolProbe(_, _) => met.(pooledRuns := Some(r.ok))
    case StatusCheck(_, _) => met.(statusOk := Some(r.ok))
    case StartVm(_, _) => met.(upOk := Some(r.ok))
    case SshWait(_) => met.(reachable := Some(r.ok))
    case GetTopology(_) => met.(topologyOk := Some(r.ok))
    case GetStatus(_) => met.(addressOk := Some(r.ok))
    case _ => met
  }

  /** The calls returned so far, and what the one holding the lock has met. */
  datatype Past = Past(returned: seq<Returned>, met: Met)

  function Later(w: World, e: Event, past: Past): Past
    requires Possible(w, e)
  {
    if e.Start? then past
    else
      var pc := w.pcs[e.t];
      Past(past.returned + (if pc.ProviderLeave? then LastReturned(w.shared, pc, past.met) else []),
           Meets(pc, e.reply, past.met))
  }

  function PastAfter(w: World, events: seq<Event>, past: Past): Past
    requires IsRun(w, events)
    decreases |events|
  {
    if events == [] then past else PastAfter(Happen(w, events[0]), events[1..], Later(w, events[0], past))
  }

  /** All calls returned in a run, in the order they returned, with the answers their own steps met. */
  function AllReturned(w: World, events: seq<Event>): seq<Returned>
    requires IsRun(w, events)
  {
    PastAfter(w, events, Past([], NOTHING)).returned
  }

  // --- The order that explains a state --------------------------------------

  /**
   * The calls so far, an acquire in progress left out; `late` are the entries added
   * to the pool since that acquire looked at it.
   */
  datatype Story = Story(ops: seq<Operation>, late: seq<Entry>)

  /** Inside an acquire that has looked at the pool. */
  predicate Looked(sh: Shared, pc: Pc) {
    InProvider(pc) && sh.call.CallAcquire? && !pc.PoolEnter? && !pc.PoolPop?
  }

  /** The pool VM a thread is about to answer. */
  function Holding(pc: Pc): Option<string> {
    match pc
    case PoolProbe(_, e) => Some(e.name)
    case PoolLeave(_, got) => if got.Some? then Some(got.value.name) else None
    case InRegistry(_, _, after) => if after.AfterPooled? then Some(after.runtime) else None
    case ProviderLeave(result, pooled) => if pooled then result else None
    case _ => None
  }

  function Rest(pool: seq<Entry>): seq<Entry> {
    if pool == [] then [] else pool[1..]
  }

  /** `q`, where the calls so far lead, is what the call holding the provider lock found. */
  predicate FoundBy(q: Platform, late: seq<Entry>, sh: Shared, pc: Pc) {
    && q.file == sh.start
    && if Looked(sh, pc) then
         sh.pool == Rest(q.pool) + late && (Holding(pc).Some? ==> q.pool != [] && q.pool[0].name == Holding(pc).value)
       else sh.pool == q.pool && late == []
  }

  /** `d`, the handles the calls so far leave, is what the call holding the provider lock found. */
  predicate DeskFoundBy(d: Desk, sh: Shared, pc: Pc) {
    match sh.call
    case CallRelease(id) => DeskOf(sh) == if pc.ReleaseClose? then d else Serve(d, ReleaseOp(id))
    case CallGet(id) => DeskOf(sh) == d || (pc.ProviderLeave? && DeskOf(sh) == Serve(d, HandleOp(id, true, true)))
    case _ => DeskOf(sh) == d
  }

  predicate NotPooled(q: Platform, met: Met) {
    met.pooledRuns == if q.pool == [] then None else Some(false)
  }

  /** The runtime was running, or was started. */
  predicate Ran(met: Met) {
    (met.statusOk == Some(true) && met.upOk == None) || (met.statusOk == Some(false) && met.upOk == Some(true))
  }

  /** Only what the pool VM's status says has been asked for. */
  predicate OnlyPool(met: Met) {
    met == NOTHING.(pooledRuns := met.pooledRuns)
  }

  /** What an acquire has met where it stands. */
  predicate AcquireMet(q: Platform, sh: Shared, pc: Pc, met: Met)
    requires sh.call.CallAcquire?
  {
    && met.topologyOk == met.addressOk == None
    && match pc
       case PoolEnter(_) | PoolPop(_) => met == NOTHING
       case PoolProbe(_, _) => met == NOTHING && q.pool != []
       case PoolLeave(_, got) =>
         OnlyPool(met) && if got.Some? then q.pool != [] && met.pooledRuns == Some(true) else NotPooled(q, met)
       case InRegistry(_, _, AfterPooled(_)) => OnlyPool(met) && q.pool != [] && met.pooledRuns == Some(true)
       case InRegistry(_, _, AfterGet(_, _)) => OnlyPool(met) && NotPooled(q, met)
       case StatusCheck(_, _) => OnlyPool(met) && NotPooled(q, met)
       case StartVm(_, _) => OnlyPool(met.(statusOk := None)) && NotPooled(q, met) && met.statusOk == Some(false)
       case InRegistry(_, _, AfterCold(_)) => NotPooled(q, met) && Ran(met) && met.reachable == None
       case SshWait(_) => NotPooled(q, met) && Ran(met) && met.reachable == None
       case ProviderLeave(result, pooled) =>
         if pooled then OnlyPool(met) && q.pool != [] && met.pooledRuns == Some(true)
         else NotPooled(q, met) && (ColdDone(sh, result, met) || ColdFailed(sh, result, met))
       case _ => false
  }

  /** Recorded and waited for. */
  predicate ColdDone(sh: Shared, result: Option<string>, met: Met)
    requires sh.call.CallAcquire?
  {
    Ran(met) && met.reachable == Some(result.Some?)
    && sh.file == Record(sh.start, sh.call.tid, Resolve(Loaded(sh.start), sh.call.tid))
  }

  /** Neither running nor started. */
  predicate ColdFailed(sh: Shared, result: Option<string>, met: Met) {
    met.statusOk == met.upOk == Some(false) && met.reachable == None && result == None && sh.file == sh.start
  }

  /** What a get has met where it stands. */
  predicate GetMet(d: Desk, sh: Shared, pc: Pc, id: string, met: Met) {
    match pc
    case GetLookup(_) => met == NOTHING && DeskOf(sh) == d
    case GetTopology(_) => met == NOTHING && id !in d.handles && DeskOf(sh) == d
    case GetStatus(_) => met == NOTHING.(topologyOk := Some(false)) && id !in d.handles && DeskOf(sh) == d
    case GetConnect(_) => Addressed(met) && id !in d.handles && DeskOf(sh) == d
    case ProviderLeave(_, pooled) =>
      && !pooled
      && if id in d.handles then met == NOTHING && DeskOf(sh) == d
      else if Addressed(met) then DeskOf(sh) == Serve(d, HandleOp(id, true, true))
      else met == NOTHING.(topologyOk := Some(false), addressOk := Some(false)) && DeskOf(sh) == d
    case _ => false
  }

  predicate Addressed(met: Met) {
    || met == NOTHING.(topologyOk := Some(true))
    || met == NOTHING.(topologyOk := Some(false), addressOk := Some(true))
  }

  predicate MetBy(q: Platform, d: Desk, sh: Shared, pc: Pc, met: Met) {
    match sh.call
    case CallAcquire(_) => AcquireMet(q, sh, pc, met)
    case CallGet(id) => GetMet(d, sh, pc, id, met)
    case _ => met == NOTHING && (pc.ProviderLeave? ==> !pc.pooled)
  }

  /** The names of the pool VMs found running, in order. */
  function GivenNames(popped: seq<Popped>): seq<string> {
    if popped == [] then []
    else
      var last := popped[|popped| - 1];
      GivenNames(popped[..|popped| - 1]) + if last.fate == Given then [last.entry.name] else []
  }

  /** The pool VMs answered, in order. */
  function PooledNames(returned: seq<Returned>): seq<string> {
    if returned == [] then []
    else
      var last := returned[|returned| - 1];
      PooledNames(returned[..|returned| - 1]) + if last.pooled && last.result.Some? then [last.result.value] else []
  }

  /** The pool VM found running that is still to be answered. */
  function Giving(pc: Pc): seq<string> {
    if !pc.PoolProbe? && Holding(pc).Some? then [Holding(pc).value] else []
  }

  predicate GaveBy(returned: seq<Returned>, sh: Shared, pc: Pc) {
    GivenNames(sh.popped) == PooledNames(returned) + Giving(pc)
  }

  predicate Unlocked(w: World) {
    forall t | 0 <= t < |w.pcs| :: !InProvider(w.pcs[t])
  }

  /** All that explains where the call holding the provider lock stands. */
  predicate Known(q: Platform, d: Desk, late: seq<Entry>, past: Past, sh: Shared, pc: Pc) {
    FoundBy(q, late, sh, pc) && DeskFoundBy(d, sh, pc) && MetBy(q, d, sh, pc, past.met) && GaveBy(past.returned, sh, pc)
  }

  function Knows(q: Platform, d: Desk, late: seq<Entry>, past: Past): (Shared, Pc) -> bool {
    (sh: Shared, pc: Pc) => Known(q, d, late, past, sh, pc)
  }

  /** `k` holds where the thread inside the provider lock stands. */
  predicate HolderHas(w: World, k: (Shared, Pc) -> bool) {
    forall t | 0 <= t < |w.pcs| && InProvider(w.pcs[t]) :: k(w.shared, w.pcs[t])
  }

  ghost predicate Explains(p: Platform, w: World, story: Story, past: Past) {
    var q := Replay(p, story.ops);
    && AllReturnedAlone(p, story.ops) == past.returned
    && Supplied(story.ops) + story.late == w.shared.appended
    && HolderHas(w, Knows(q, Desks(story.ops), story.late, past))
    && (Unlocked(w) ==>
          && q == Platform(w.shared.file, w.shared.pool) && Desks(story.ops) == DeskOf(w.shared) && story.late == []
          && GivenNames(w.shared.popped) == PooledNames(past.returned))
  }

  // --- Steps of the thread that holds the provider lock ---------------------

  predicate SameStory(a: Shared, b: Shared) {
    a.call == b.call && a.start == b.start && a.pool == b.pool && a.appended == b.appended
  }

  lemma RegistryInside(sh: Shared, op: RegistryOp, stage: Stage, after: After)
    requires Fits(InRegistry(op, stage, after), sh)
    ensures var (pc, sh') := RegistryStep(sh, op, stage, after);
            InProvider(pc) && SameStory(sh, sh') && !pc.PoolEnter? && !pc.PoolPop?
            && Holding(pc) == Holding(InRegistry(op, stage, after))
  {
  }

  lemma AcquireInside(sh: Shared, pc: Pc, r: Reply)
    requires IsAcquire(pc) && InProvider(pc) && !pc.PoolPop?
    ensures var (pc', sh') := AcquireStep(sh, pc, r);
            InProvider(pc') && SameStory(sh, sh') && (pc.PoolEnter? <==> pc'.PoolPop?) && !pc'.PoolEnter?
            && (Holding(pc').Some? ==> Holding(pc') == Holding(pc))
  {
  }

  lemma HandleInside(sh: Shared, pc: Pc, r: Reply)
    requires InProvider(pc) && !IsAcquire(pc) && !pc.InRegistry? && !pc.ProviderLeave? && !pc.ShutdownRelease?
    ensures var (pc', sh') := HandleStep(sh, pc, r);
            InProvider(pc') && SameStory(sh, sh') && !pc'.PoolEnter? && !pc'.PoolPop? && Holding(pc') == None
  {
  }

  /** Inside a locked call, apart from the look at the pool, the story does not change. */
  lemma InsideStep(size: int, warmFree: bool, sh: Shared, pc: Pc, r: Reply, q: Platform, late: seq<Entry>)
    requires Fits(pc, sh) && InProvider(pc) && FoundBy(q, late, sh, pc)
    requires !pc.PoolPop? && !pc.ProviderLeave? && !pc.ShutdownRelease?
    ensures var (pc', sh') := Step(size, warmFree, sh, pc, r);
            InProvider(pc') && FoundBy(q, late, sh', pc') && sh'.appended == sh.appended
  {
    if pc.InRegistry? {
      RegistryInside(sh, pc.op, pc.stage, pc.after);
    } else if IsAcquire(pc) {
      AcquireInside(sh, pc, r);
    } else {
      HandleInside(sh, pc, r);
    }
  }

  /** The desk of the call holding the lock moves only where it should. */
  lemma DeskStep(size: int, warmFree: bool, sh: Shared, pc: Pc, r: Reply, d: Desk)
    requires Fits(pc, sh) && InProvider(pc) && DeskFoundBy(d, sh, pc) && !pc.ProviderLeave? && !pc.ShutdownRelease?
    ensures var (pc', sh') := Step(size, warmFree, sh, pc, r); DeskFoundBy(d, sh', pc')
  {
    if pc.InRegistry? || IsAcquire(pc) {
      HandlesElsewhere(size, warmFree, sh, pc, r);
      CallStays(size, warmFree, sh, pc, r);
    } else {
      DeskHandleStep(sh, pc, r, d);
    }
  }

  lemma CallStays(size: int, warmFree: bool, sh: Shared, pc: Pc, r: Reply)
    requires Fits(pc, sh) && InProvider(pc) && (pc.InRegistry? || IsAcquire(pc))
    ensures var (pc', sh') := Step(size, warmFree, sh, pc, r);
            sh'.call == sh.call && !sh.call.CallGet? && !pc'.ReleaseClose? && !pc.ReleaseClose?
  {
  }

  lemma DeskHandleStep(sh: Shared, pc: Pc, r: Reply, d: Desk)
    requires Fits(pc, sh) && InProvider(pc) && DeskFoundBy(d, sh, pc) && !pc.ProviderLeave? && !pc.ShutdownRelease?
    requires !pc.InRegistry? && !IsAcquire(pc)
    ensures var (pc', sh') := HandleStep(sh, pc, r); DeskFoundBy(d, sh', pc')
  {
  }

  lemma MetInRegistry(sh: Shared, op: RegistryOp, stage: Stage, after: After, q: Platform, d: Desk, met: Met)
    requires Fits(InRegistry(op, stage, after), sh) && MetBy(q, d, sh, InRegistry(op, stage, after), met)
    ensures var (pc, sh') := RegistryStep(sh, op, stage, after); MetBy(q, d, sh', pc, met)
  {
  }

  lemma MetInAcquire(sh: Shared, pc: Pc, r: Reply, q: Platform, d: Desk, late: seq<Entry>, met: Met)
    requires IsAcquire(pc) && InProvider(pc) && Fits(pc, sh) && MetBy(q, d, sh, pc, met) && FoundBy(q, late, sh, pc)
    ensures var (pc', sh') := AcquireStep(sh, pc, r); MetBy(q, d, sh', pc', Meets(pc, r, met))
  {
  }

  lemma MetInHandle(sh: Shared, pc: Pc, r: Reply, q: Platform, d: Desk, met: Met)
    requires InProvider(pc) && !IsAcquire(pc) && !pc.InRegistry? && !pc.ProviderLeave? && !pc.ShutdownRelease?
    requires Fits(pc, sh) && MetBy(q, d, sh, pc, met)
    ensures var (pc', sh') := HandleStep(sh, pc, r); MetBy(q, d, sh', pc', Meets(pc, r, met))
  {
  }

  /** What the call holding the lock has met is what its steps were answered. */
  lemma MetStep(
    size: int, warmFree: bool, sh: Shared, pc: Pc, r: Reply, q: Platform, d: Desk, late: seq<Entry>, met: Met)
    requires Fits(pc, sh) && InProvider(pc) && MetBy(q, d, sh, pc, met) && FoundBy(q, late, sh, pc)
    requires !pc.ProviderLeave? && !pc.ShutdownRelease?
    ensures var (pc', sh') := Step(size, warmFree, sh, pc, r); MetBy(q, d, sh', pc', Meets(pc, r, met))
  {
    if pc.InRegistry? {
      MetInRegistry(sh, pc.op, pc.stage, pc.after, q, d, met);
    } else if IsAcquire(pc) {
      MetInAcquire(sh, pc, r, q, d, late, met);
    } else {
      MetInHandle(sh, pc, r, q, d, met);
    }
  }

  lemma GivenLast(popped: seq<Popped>, last: Popped)
    ensures GivenNames(popped + [last]) == GivenNames(popped) + if last.fate == Given then [last.entry.name] else []
  {
    assert (popped + [last])[..|popped + [last]| - 1] == popped;
  }

  lemma ProbeSettles(sh: Shared, pc: Pc, r: Reply)
    requires pc.PoolProbe? && Fits(pc, sh)
    ensures var fate := if r.ok then Given else Dropped;
            AcquireStep(sh, pc, r).1.popped == sh.popped[..|sh.popped| - 1] + [Popped(pc.entry, fate)]
            && sh.popped == sh.popped[..|sh.popped| - 1] + [Popped(pc.entry, Checking)]
  {
  }

  lemma ProbeGives(sh: Shared, pc: Pc, r: Reply, returned: seq<Returned>)
    requires pc.PoolProbe? && Fits(pc, sh) && GaveBy(returned, sh, pc)
    ensures var (pc', sh') := AcquireStep(sh, pc, r); GaveBy(returned, sh', pc')
  {
    var front := sh.popped[..|sh.popped| - 1];
    ProbeSettles(sh, pc, r);
    GivenLast(front, Popped(pc.entry, Checking));
    GivenLast(front, Popped(pc.entry, if r.ok then Given else Dropped));
    NamesPlus(PooledNames(returned));
    NamesPlus(GivenNames(front));
  }

  lemma NamesPlus(names: seq<string>)
    ensures names + [] == names
  {
  }

  lemma PopGivesNothing(sh: Shared, pc: Pc, r: Reply, returned: seq<Returned>)
    requires pc.PoolPop? && GaveBy(returned, sh, pc)
    ensures var (pc', sh') := AcquireStep(sh, pc, r); GaveBy(returned, sh', pc')
  {
    if sh.pool != [] {
      GivenLast(sh.popped, Popped(sh.pool[0], Checking));
    }
  }

  /** Elsewhere the list of pops stays, and so does what is to be answered. */
  lemma GivingStays(size: int, warmFree: bool, sh: Shared, pc: Pc, r: Reply)
    requires Fits(pc, sh) && InProvider(pc)
    requires !pc.PoolPop? && !pc.PoolProbe? && !pc.ProviderLeave? && !pc.ShutdownRelease?
    ensures var (pc', sh') := Step(size, warmFree, sh, pc, r); sh'.popped == sh.popped && Giving(pc') == Giving(pc)
  {
    OutsideNoPops(size, warmFree, sh, pc, r);
  }

  lemma GaveStep(size: int, warmFree: bool, sh: Shared, pc: Pc, r: Reply, returned: seq<Returned>)
    requires Fits(pc, sh) && InProvider(pc) && GaveBy(returned, sh, pc) && !pc.ProviderLeave? && !pc.ShutdownRelease?
    ensures var (pc', sh') := Step(size, warmFree, sh, pc, r); GaveBy(returned, sh', pc')
  {
    if pc.PoolPop? {
      PopGivesNothing(sh, pc, r, returned);
    } else if pc.PoolProbe? {
      ProbeGives(sh, pc, r, returned);
    } else {
      GivingStays(size, warmFree, sh, pc, r);
    }
  }

  lemma LookStep(size: int, warmFree: bool, sh: Shared, pc: Pc, r: Reply, q: Platform)
    requires Fits(pc, sh) && pc.PoolPop? && FoundBy(q, [], sh, pc)
    ensures var (pc', sh') := Step(size, warmFree, sh, pc, r);
            InProvider(pc') && FoundBy(q, [], sh', pc') && sh'.appended == sh.appended
  {
    assert Rest(q.pool) + [] == Rest(q.pool);
  }

  lemma EnterStep(size: int, warmFree: bool, sh: Shared, pc: Pc, r: Reply)
    requires Wants(pc) == Some(ProviderLock) && !pc.ShutdownRelease?
    ensures var (pc', sh') := Step(size, warmFree, sh, pc, r);
            && InProvider(pc') && FoundBy(Platform(sh.file, sh.pool), [], sh', pc') && sh'.appended == sh.appended
            && DeskFoundBy(DeskOf(sh), sh', pc') && MetBy(Platform(sh.file, sh.pool), DeskOf(sh), sh', pc', NOTHING)
            && Meets(pc, r, NOTHING) == NOTHING && sh'.popped == sh.popped && Giving(pc') == []
  {
  }

  /** The finished acquire, as the sequential acquire with exactly the answers it met. */
  lemma LeaveAcquire(q: Platform, d: Desk, late: seq<Entry>, sh: Shared, pc: Pc, met: Met) returns (a: Answers)
    requires pc.ProviderLeave? && Fits(pc, sh) && sh.call.CallAcquire?
    requires FoundBy(q, late, sh, pc) && MetBy(q, d, sh, pc, met)
    ensures a == Answers(met.pooledRuns == Some(true), met.statusOk == Some(true), met.upOk == Some(true),
                         met.reachable == Some(true))
    ensures Acquired(q, sh.call.tid, a).0 == Platform(sh.file, Rest(q.pool))
    ensures forall e: Desk :: ReturnedAlone(q, e, AcquireOp(sh.call.tid, a)) == LastReturned(sh, pc, met)
  {
    a := Answers(met.pooledRuns == Some(true), met.statusOk == Some(true), met.upOk == Some(true),
                 met.reachable == Some(true));
  }

  /** The finished get, as the sequential get with exactly the answers it met. */
  lemma LeaveGet(q: Platform, d: Desk, sh: Shared, pc: Pc, met: Met) returns (op: Operation)
    requires pc.ProviderLeave? && sh.call.CallGet? && MetBy(q, d, sh, pc, met)
    ensures op == HandleOp(sh.call.id, met.topologyOk == Some(true), met.addressOk == Some(true))
    ensures Serve(d, op) == DeskOf(sh) && ReturnedAlone(q, d, op) == LastReturned(sh, pc, met)
  {
    op := HandleOp(sh.call.id, met.topologyOk == Some(true), met.addressOk == Some(true));
  }

  // --- Steps of the others --------------------------------------------------

  lemma OutsideStep(size: int, warmFree: bool, sh: Shared, pc: Pc, r: Reply)
    requires !InProvider(pc) && Wants(pc) != Some(ProviderLock) && !pc.WarmAppend?
    ensures var (pc', sh') := Step(size, warmFree, sh, pc, r);
            && !InProvider(pc') && sh'.file == sh.file && sh'.call == sh.call && sh'.start == sh.start
            && sh'.pool == sh.pool && sh'.appended == sh.appended && DeskOf(sh') == DeskOf(sh)
            && sh'.popped == sh.popped
  {
    OutsidersTouchNothing(size, warmFree, sh, pc, r);
    if IsWarm(pc) {
      HandlesElsewhere(size, warmFree, sh, pc, r);
    }
  }

  // --- The story goes on ----------------------------------------------------

  predicate OnlyHolder(w: World, t: nat)
    requires t < |w.pcs|
  {
    forall u | 0 <= u < |w.pcs| && u != t :: !InProvider(w.pcs[u])
  }

  lemma HolderIsOnly(w: World, t: nat)
    requires Exclusive(w) && t < |w.pcs| && InProvider(w.pcs[t])
    ensures OnlyHolder(w, t)
  {
    assert Holds(w.pcs[t], ProviderLock);
    forall u | 0 <= u < |w.pcs| && u != t
      ensures !InProvider(w.pcs[u])
    {
      assert !Holds(w.pcs[u], ProviderLock);
    }
  }

  lemma OnlyOneHas(w: World, t: nat, k: (Shared, Pc) -> bool)
    requires t < |w.pcs| && OnlyHolder(w, t) && k(w.shared, w.pcs[t])
    ensures HolderHas(w, k)
  {
  }

  /** One thread holds the lock, and what it found explains the state. */
  lemma HolderExplains(p: Platform, w: World, t: nat, story: Story, past: Past)
    requires t < |w.pcs| && OnlyHolder(w, t) && InProvider(w.pcs[t])
    requires AllReturnedAlone(p, story.ops) == past.returned && Supplied(story.ops) + story.late == w.shared.appended
    requires Known(Replay(p, story.ops), Desks(story.ops), story.late, past, w.shared, w.pcs[t])
    ensures Explains(p, w, story, past)
  {
    OnlyOneHas(w, t, Knows(Replay(p, story.ops), Desks(story.ops), story.late, past));
  }

  /** What the explanation says of the thread inside the lock. */
  lemma HolderKnows(p: Platform, w: World, t: nat, story: Story, past: Past)
    requires Explains(p, w, story, past) && t < |w.pcs| && InProvider(w.pcs[t])
    ensures Known(Replay(p, story.ops), Desks(story.ops), story.late, past, w.shared, w.pcs[t])
  {
    assert Knows(Replay(p, story.ops), Desks(story.ops), story.late, past)(w.shared, w.pcs[t]);
  }

  /** One step inside a locked call, with all that explains it. */
  lemma KnownStep(
    size: int, warmFree: bool, sh: Shared, pc: Pc, r: Reply, q: Platform, d: Desk, late: seq<Entry>, past: Past)
    requires Fits(pc, sh) && InProvider(pc) && Known(q, d, late, past, sh, pc)
    requires !pc.ProviderLeave? && !pc.ShutdownRelease?
    ensures var (pc', sh') := Step(size, warmFree, sh, pc, r);
            && InProvider(pc') && sh'.appended == sh.appended
            && Known(q, d, late, Past(past.returned, Meets(pc, r, past.met)), sh', pc')
  {
    if pc.PoolPop? {
      LookStep(size, warmFree, sh, pc, r, q);
    } else {
      InsideStep(size, warmFree, sh, pc, r, q, late);
    }
    DeskStep(size, warmFree, sh, pc, r, d);
    MetStep(size, warmFree, sh, pc, r, q, d, late, past.met);
    GaveStep(size, warmFree, sh, pc, r, past.returned);
  }

  lemma LaterInside(w: World, t: nat, r: Reply, past: Past)
    requires Possible(w, Go(t, r)) && !w.pcs[t].ProviderLeave?
    ensures Later(w, Go(t, r), past) == Past(past.returned, Meets(w.pcs[t], r, past.met))
  {
    assert past.returned + [] == past.returned;
  }

  lemma HolderMoves(p: Platform, w: World, t: nat, r: Reply, story: Story, past: Past)
    requires Inv(w) && Possible(w, Go(t, r)) && Explains(p, w, story, past)
    requires InProvider(w.pcs[t]) && !w.pcs[t].ProviderLeave?
    ensures Explains(p, Happen(w, Go(t, r)), story, Later(w, Go(t, r), past))
  {
    HolderIsOnly(w, t);
    HolderKnows(p, w, t, story, past);
    assert Fits(w.pcs[t], w.shared);
    HolderGoesOn(p, w, t, r, story, past);
  }

  lemma HolderGoesOn(p: Platform, w: World, t: nat, r: Reply, story: Story, past: Past)
    requires Possible(w, Go(t, r)) && OnlyHolder(w, t) && InProvider(w.pcs[t]) && !w.pcs[t].ProviderLeave?
    requires Fits(w.pcs[t], w.shared)
    requires AllReturnedAlone(p, story.ops) == past.returned && Supplied(story.ops) + story.late == w.shared.appended
    requires Known(Replay(p, story.ops), Desks(story.ops), story.late, past, w.shared, w.pcs[t])
    ensures Explains(p, Happen(w, Go(t, r)), story, Later(w, Go(t, r), past))
  {
    LaterInside(w, t, r, past);
    OnlyStays(w, t, r);
    KnownGoesOn(w, t, r, Replay(p, story.ops), Desks(story.ops), story.late, past);
    HolderExplains(p, Happen(w, Go(t, r)), t, story, Later(w, Go(t, r), past));
  }

  lemma OnlyStays(w: World, t: nat, r: Reply)
    requires Possible(w, Go(t, r)) && OnlyHolder(w, t)
    ensures t < |Happen(w, Go(t, r)).pcs| && OnlyHolder(Happen(w, Go(t, r)), t)
  {
  }

  lemma KnownGoesOn(w: World, t: nat, r: Reply, q: Platform, d: Desk, late: seq<Entry>, past: Past)
    requires Possible(w, Go(t, r)) && InProvider(w.pcs[t]) && !w.pcs[t].ProviderLeave? && Fits(w.pcs[t], w.shared)
    requires Known(q, d, late, past, w.shared, w.pcs[t])
    ensures var w' := Happen(w, Go(t, r));
            && InProvider(w'.pcs[t]) && w'.shared.appended == w.shared.appended
            && Known(q, d, late, Past(past.returned, Meets(w.pcs[t], r, past.met)), w'.shared, w'.pcs[t])
  {
    KnownStep(w.size, WarmFree(w), w.shared, w.pcs[t], r, q, d, late, past);
  }

  lemma KnownAtEntry(size: int, warmFree: bool, sh: Shared, pc: Pc, r: Reply, past: Past)
    requires Wants(pc) == Some(ProviderLock) && !pc.ShutdownRelease?
    requires GivenNames(sh.popped) == PooledNames(past.returned)
    ensures var (pc', sh') := Step(size, warmFree, sh, pc, r);
            && InProvider(pc') && sh'.appended == sh.appended
            && Known(Platform(sh.file, sh.pool), DeskOf(sh), [], Past(past.returned, Meets(pc, r, past.met)), sh', pc')
  {
    EnterStep(size, warmFree, sh, pc, r);
    assert PooledNames(past.returned) + [] == PooledNames(past.returned);
  }

  lemma HolderEnters(p: Platform, w: World, t: nat, r: Reply, story: Story, past: Past)
    requires Possible(w, Go(t, r)) && Explains(p, w, story, past)
    requires Wants(w.pcs[t]) == Some(ProviderLock)
    ensures Explains(p, Happen(w, Go(t, r)), story, Later(w, Go(t, r), past))
  {
    forall u | 0 <= u < |w.pcs|
      ensures !InProvider(w.pcs[u])
    {
      assert u != t ==> !Holds(w.pcs[u], ProviderLock);
    }
    assert Unlocked(w) && OnlyHolder(w, t);
    KnownAtEntry(w.size, WarmFree(w), w.shared, w.pcs[t], r, past);
    LaterInside(w, t, r, past);
    assert OnlyHolder(Happen(w, Go(t, r)), t);
    HolderExplains(p, Happen(w, Go(t, r)), t, story, Later(w, Go(t, r), past));
  }

  lemma Unlock(p: Platform, w: World, t: nat, ops: seq<Operation>, past: Past)
    requires t < |w.pcs| && OnlyHolder(w, t) && !InProvider(w.pcs[t])
    requires AllReturnedAlone(p, ops) == past.returned && Supplied(ops) == w.shared.appended
    requires GivenNames(w.shared.popped) == PooledNames(past.returned)
    requires Replay(p, ops) == Platform(w.shared.file, w.shared.pool) && Desks(ops) == DeskOf(w.shared)
    ensures Explains(p, w, Story(ops, []), past)
  {
    assert Supplied(ops) + [] == Supplied(ops);
  }

  lemma TwoMore(p: Platform, ops: seq<Operation>, op: Operation, late: seq<Entry>) returns (next: seq<Operation>)
    requires op.AcquireOp?
    ensures Replay(p, next) == Apply(Apply(Replay(p, ops), op), WarmOp(late)) && Desks(next) == Desks(ops)
    ensures AllReturnedAlone(p, next) == AllReturnedAlone(p, ops) + ReturnedAlone(Replay(p, ops), Desks(ops), op)
    ensures Supplied(next) == Supplied(ops) + late
  {
    OneMore(p, ops, op);
    OneMore(p, ops + [op], WarmOp(late));
    next := ops + [op] + [WarmOp(late)];
  }

  /** The finished call joins the calls so far, and with it what was added to the pool meanwhile. */
  lemma CallEnds(p: Platform, ops: seq<Operation>, late: seq<Entry>, sh: Shared, pc: Pc, met: Met)
    returns (next: seq<Operation>)
    requires pc.ProviderLeave? && Fits(pc, sh)
    requires FoundBy(Replay(p, ops), late, sh, pc) && DeskFoundBy(Desks(ops), sh, pc)
    requires MetBy(Replay(p, ops), Desks(ops), sh, pc, met)
    ensures Replay(p, next) == Platform(sh.file, sh.pool) && Desks(next) == DeskOf(sh)
    ensures AllReturnedAlone(p, next) == AllReturnedAlone(p, ops) + LastReturned(sh, pc, met)
    ensures Supplied(next) == Supplied(ops) + late
  {
    match sh.call {
      case CallAcquire(tid) =>
        var a := LeaveAcquire(Replay(p, ops), Desks(ops), late, sh, pc, met);
        next := TwoMore(p, ops, AcquireOp(tid, a), late);
      case CallRelease(id) =>
        OneMore(p, ops, ReleaseOp(id));
        next := ops + [ReleaseOp(id)];
      case CallGet(id) =>
        var op := LeaveGet(Replay(p, ops), Desks(ops), sh, pc, met);
        OneMore(p, ops, op);
        next := ops + [op];
      case _ =>
        next := ops;
    }
  }

  lemma LeavingIsAnswered(sh: Shared, pc: Pc, past: Past)
    requires pc.ProviderLeave? && Fits(pc, sh) && GaveBy(past.returned, sh, pc)
    requires sh.call.CallGet? || sh.call.CallRelease? || sh.call.CallShutdown? ==> !pc.pooled
    ensures GivenNames(sh.popped) == PooledNames(past.returned + LastReturned(sh, pc, past.met))
  {
    var last := LastReturned(sh, pc, past.met);
    if last != [] {
      assert (past.returned + last)[..|past.returned + last| - 1] == past.returned;
    } else {
      assert past.returned + last == past.returned;
    }
  }

  lemma Leave(p: Platform, w: World, t: nat, r: Reply, story: Story, past: Past) returns (next: Story)
    requires Inv(w) && Possible(w, Go(t, r)) && Explains(p, w, story, past) && w.pcs[t].ProviderLeave?
    ensures Explains(p, Happen(w, Go(t, r)), next, Later(w, Go(t, r), past))
  {
    HolderIsOnly(w, t);
    assert Fits(w.pcs[t], w.shared);
    HolderKnows(p, w, t, story, past);
    next := HolderLeaves(p, w, t, r, story, past);
  }

  lemma HolderLeaves(p: Platform, w: World, t: nat, r: Reply, story: Story, past: Past) returns (next: Story)
    requires Possible(w, Go(t, r)) && OnlyHolder(w, t) && w.pcs[t].ProviderLeave? && Fits(w.pcs[t], w.shared)
    requires AllReturnedAlone(p, story.ops) == past.returned && Supplied(story.ops) + story.late == w.shared.appended
    requires Known(Replay(p, story.ops), Desks(story.ops), story.late, past, w.shared, w.pcs[t])
    ensures Explains(p, Happen(w, Go(t, r)), next, Later(w, Go(t, r), past))
  {
    var w' := Happen(w, Go(t, r));
    assert w'.shared == w.shared && w'.pcs[t] == Idle && OnlyHolder(w', t);
    var ops := CallEnds(p, story.ops, story.late, w.shared, w.pcs[t], past.met);
    if !w.shared.call.CallAcquire? {
      NotPooledElsewhere(Replay(p, story.ops), Desks(story.ops), w.shared, w.pcs[t], past.met);
    }
    LeavingIsAnswered(w.shared, w.pcs[t], past);
    next := Story(ops, []);
    Unlock(p, w', t, ops, Later(w, Go(t, r), past));
  }

  lemma NotPooledElsewhere(q: Platform, d: Desk, sh: Shared, pc: Pc, met: Met)
    requires pc.ProviderLeave? && MetBy(q, d, sh, pc, met) && !sh.call.CallAcquire?
    ensures !pc.pooled
  {
  }

  lemma OthersMeetNothing(w: World, t: nat, r: Reply, past: Past)
    requires Possible(w, Go(t, r)) && !InProvider(w.pcs[t]) && Wants(w.pcs[t]) != Some(ProviderLock)
    ensures Later(w, Go(t, r), past) == past
  {
    assert past.returned + [] == past.returned;
  }

  lemma OthersMove(p: Platform, w: World, t: nat, r: Reply, story: Story, past: Past)
    requires Possible(w, Go(t, r)) && Explains(p, w, story, past)
    requires !InProvider(w.pcs[t]) && Wants(w.pcs[t]) != Some(ProviderLock) && !w.pcs[t].WarmAppend?
    ensures Explains(p, Happen(w, Go(t, r)), story, past)
  {
    var k := Knows(Replay(p, story.ops), Desks(story.ops), story.late, past);
    OutsideStep(w.size, WarmFree(w), w.shared, w.pcs[t], r);
    forall pc | k(w.shared, pc)
      ensures k(Happen(w, Go(t, r)).shared, pc)
    {
      KnownElsewhere(
        Replay(p, story.ops), Desks(story.ops), story.late, past, w.shared, Happen(w, Go(t, r)).shared, pc);
    }
    OthersKeep(w, t, r, k, k);
    StillUnlocked(w, t, r);
  }

  /** What holds for the thread inside the lock carries over the step of one outside. */
  lemma OthersKeep(w: World, t: nat, r: Reply, k: (Shared, Pc) -> bool, k': (Shared, Pc) -> bool)
    requires Possible(w, Go(t, r)) && !InProvider(w.pcs[t]) && Wants(w.pcs[t]) != Some(ProviderLock)
    requires HolderHas(w, k)
    requires forall u | 0 <= u < |w.pcs| && InProvider(w.pcs[u]) && k(w.shared, w.pcs[u]) ::
               k'(Happen(w, Go(t, r)).shared, w.pcs[u])
    ensures HolderHas(Happen(w, Go(t, r)), k')
  {
    var w' := Happen(w, Go(t, r));
    OutsidersStayOut(w.size, WarmFree(w), w.shared, w.pcs[t], r);
    forall u | 0 <= u < |w'.pcs| && InProvider(w'.pcs[u])
      ensures k'(w'.shared, w'.pcs[u])
    {
      assert u != t && w'.pcs[u] == w.pcs[u];
    }
  }

  lemma OutsidersStayOut(size: int, warmFree: bool, sh: Shared, pc: Pc, r: Reply)
    requires !InProvider(pc) && Wants(pc) != Some(ProviderLock)
    ensures !InProvider(Step(size, warmFree, sh, pc, r).0)
  {
  }

  lemma KnownElsewhere(q: Platform, d: Desk, late: seq<Entry>, past: Past, sh: Shared, sh': Shared, pc: Pc)
    requires Known(q, d, late, past, sh, pc)
    requires sh'.file == sh.file && sh'.call == sh.call && sh'.start == sh.start && sh'.pool == sh.pool
    requires DeskOf(sh') == DeskOf(sh) && sh'.popped == sh.popped
    ensures Known(q, d, late, past, sh', pc)
  {
  }

  lemma StillUnlocked(w: World, t: nat, r: Reply)
    requires Possible(w, Go(t, r)) && !InProvider(w.pcs[t])
    ensures Unlocked(Happen(w, Go(t, r))) ==> Unlocked(w)
  {
    var w' := Happen(w, Go(t, r));
    if Unlocked(w') {
      forall u | 0 <= u < |w.pcs|
        ensures !InProvider(w.pcs[u])
      {
        assert u != t ==> w'.pcs[u] == w.pcs[u];
      }
    }
  }

  lemma AppendStep(w: World, t: nat, r: Reply)
    requires Possible(w, Go(t, r)) && w.pcs[t].WarmAppend?
    ensures var e := Entry(PoolName(w.pcs[t].i), w.pcs[t].address);
            Happen(w, Go(t, r)) == World(w.size, w.pcs[t := WarmPoolLeave(w.pcs[t].i)],
                                         w.shared.(pool := w.shared.pool + [e], appended := w.shared.appended + [e]))
  {
  }

  /** What a call knows when `e` is added to the pool after it has looked, or before. */
  lemma KnownLate(q: Platform, d: Desk, late: seq<Entry>, past: Past, sh: Shared, pc: Pc, e: Entry)
    requires Looked(sh, pc) && Known(q, d, late, past, sh, pc)
    ensures Known(q, d, late + [e], past, sh.(pool := sh.pool + [e], appended := sh.appended + [e]), pc)
  {
    assert Rest(q.pool) + late + [e] == Rest(q.pool) + (late + [e]);
  }

  lemma KnownNow(q: Platform, d: Desk, past: Past, sh: Shared, pc: Pc, e: Entry)
    requires InProvider(pc) && !Looked(sh, pc) && Known(q, d, [], past, sh, pc)
    ensures Known(q.(pool := q.pool + [e]), d, [], past, sh.(pool := sh.pool + [e], appended := sh.appended + [e]), pc)
  {
  }

  lemma PoolGrowsLate(p: Platform, w: World, t: nat, r: Reply, story: Story, past: Past, u: nat)
    requires Possible(w, Go(t, r)) && Explains(p, w, story, past) && w.pcs[t].WarmAppend?
    requires u < |w.pcs| && Looked(w.shared, w.pcs[u]) && OnlyHolder(w, u)
    ensures var e := Entry(PoolName(w.pcs[t].i), w.pcs[t].address);
            Explains(p, Happen(w, Go(t, r)), Story(story.ops, story.late + [e]), past)
  {
    var w' := Happen(w, Go(t, r));
    var e := Entry(PoolName(w.pcs[t].i), w.pcs[t].address);
    AppendStep(w, t, r);
    HolderKnows(p, w, u, story, past);
    KnownLate(Replay(p, story.ops), Desks(story.ops), story.late, past, w.shared, w.pcs[u], e);
    assert w'.pcs[u] == w.pcs[u] && OnlyHolder(w', u);
    assert Supplied(story.ops) + story.late + [e] == Supplied(story.ops) + (story.late + [e]);
    HolderExplains(p, w', u, Story(story.ops, story.late + [e]), past);
  }

  lemma StoryGrows(p: Platform, ops: seq<Operation>, e: Entry)
    ensures var more := ops + [WarmOp([e])];
            && Replay(p, more) == Replay(p, ops).(pool := Replay(p, ops).pool + [e]) && Desks(more) == Desks(ops)
            && AllReturnedAlone(p, more) == AllReturnedAlone(p, ops) && Supplied(more) == Supplied(ops) + [e]
  {
    OneMore(p, ops, WarmOp([e]));
    assert AllReturnedAlone(p, ops) + [] == AllReturnedAlone(p, ops);
  }

  lemma PoolGrowsNow(p: Platform, w: World, t: nat, r: Reply, story: Story, past: Past)
    requires Possible(w, Go(t, r)) && Explains(p, w, story, past) && w.pcs[t].WarmAppend?
    requires !exists u | 0 <= u < |w.pcs| :: Looked(w.shared, w.pcs[u])
    ensures var e := Entry(PoolName(w.pcs[t].i), w.pcs[t].address);
            Explains(p, Happen(w, Go(t, r)), Story(story.ops + [WarmOp([e])], []), past)
  {
    var e := Entry(PoolName(w.pcs[t].i), w.pcs[t].address);
    LateIsEmpty(p, w, story, past);
    var q, d := Replay(p, story.ops), Desks(story.ops);
    AppendStep(w, t, r);
    forall u | 0 <= u < |w.pcs| && InProvider(w.pcs[u]) && Knows(q, d, [], past)(w.shared, w.pcs[u])
      ensures Knows(q.(pool := q.pool + [e]), d, [], past)(Happen(w, Go(t, r)).shared, w.pcs[u])
    {
      KnownNow(q, d, past, w.shared, w.pcs[u], e);
    }
    OthersKeep(w, t, r, Knows(q, d, [], past), Knows(q.(pool := q.pool + [e]), d, [], past));
    StillUnlocked(w, t, r);
    GrownExplains(p, w, Happen(w, Go(t, r)), story.ops, past, e);
  }

  lemma GrownExplains(p: Platform, w: World, w': World, ops: seq<Operation>, past: Past, e: Entry)
    requires Explains(p, w, Story(ops, []), past) && (Unlocked(w') ==> Unlocked(w))
    requires HolderHas(w', Knows(Replay(p, ops).(pool := Replay(p, ops).pool + [e]), Desks(ops), [], past))
    requires w'.shared == w.shared.(pool := w.shared.pool + [e], appended := w.shared.appended + [e])
    ensures Explains(p, w', Story(ops + [WarmOp([e])], []), past)
  {
    StoryGrows(p, ops, e);
    NothingLate(Supplied(ops), e);
  }

  lemma NothingLate(supplied: seq<Entry>, e: Entry)
    ensures supplied + [] == supplied && supplied + [e] + [] == supplied + [e]
  {
  }

  lemma LateIsEmpty(p: Platform, w: World, story: Story, past: Past)
    requires Explains(p, w, story, past) && !exists t | 0 <= t < |w.pcs| :: Looked(w.shared, w.pcs[t])
    ensures story.late == []
  {
    if !Unlocked(w) {
      var t :| 0 <= t < |w.pcs| && InProvider(w.pcs[t]);
      HolderKnows(p, w, t, story, past);
      assert !Looked(w.shared, w.pcs[t]);
    }
  }

  /** A warming thread's addition goes before a call that has not looked at the pool yet, and after one that has. */
  lemma StoryGoesOn(p: Platform, w: World, e: Event, story: Story, past: Past) returns (next: Story)
    requires Inv(w) && Possible(w, e) && Explains(p, w, story, past)
    ensures Explains(p, Happen(w, e), next, Later(w, e, past))
  {
    next := story;
    if e.Go? && !InProvider(w.pcs[e.t]) && Wants(w.pcs[e.t]) != Some(ProviderLock) {
      OthersMeetNothing(w, e.t, e.reply, past);
    }
    if e.Start? {
      CallStarts(p, w, e, story, past);
    } else if w.pcs[e.t].ProviderLeave? {
      next := Leave(p, w, e.t, e.reply, story, past);
    } else if Wants(w.pcs[e.t]) == Some(ProviderLock) {
      HolderEnters(p, w, e.t, e.reply, story, past);
    } else if InProvider(w.pcs[e.t]) {
      HolderMoves(p, w, e.t, e.reply, story, past);
    } else if !w.pcs[e.t].WarmAppend? {
      OthersMove(p, w, e.t, e.reply, story, past);
    } else if u :| 0 <= u < |w.pcs| && Looked(w.shared, w.pcs[u]) {
      HolderIsOnly(w, u);
      PoolGrowsLate(p, w, e.t, e.reply, story, past, u);
      next := Story(story.ops, story.late + [Entry(PoolName(w.pcs[e.t].i), w.pcs[e.t].address)]);
    } else {
      PoolGrowsNow(p, w, e.t, e.reply, story, past);
      next := Story(story.ops + [WarmOp([Entry(PoolName(w.pcs[e.t].i), w.pcs[e.t].address)])], []);
    }
  }

  lemma CallStarts(p: Platform, w: World, e: Event, story: Story, past: Past)
    requires Possible(w, e) && Explains(p, w, story, past) && e.Start?
    ensures Explains(p, Happen(w, e), story, past)
  {
    StartKeeps(w, e, Knows(Replay(p, story.ops), Desks(story.ops), story.late, past));
  }

  lemma StartKeeps(w: World, e: Event, k: (Shared, Pc) -> bool)
    requires Possible(w, e) && e.Start? && HolderHas(w, k)
    ensures HolderHas(Happen(w, e), k) && (Unlocked(Happen(w, e)) ==> Unlocked(w))
    ensures Happen(w, e).shared == w.shared
  {
    var w' := Happen(w, e);
    assert !InProvider(EntryOf(e.call));
    forall u | 0 <= u < |w.pcs|
      ensures InProvider(w'.pcs[u]) <==> InProvider(w.pcs[u])
      ensures InProvider(w'.pcs[u]) ==> w'.pcs[u] == w.pcs[u]
    {
    }
  }

  lemma {:induction false} StoryOfRun(p: Platform, w: World, events: seq<Event>, story: Story, past: Past)
    returns (last: Story)
    requires Inv(w) && IsRun(w, events) && Explains(p, w, story, past)
    ensures Explains(p, Final(w, events), last, PastAfter(w, events, past))
    decreases |events|
  {
    if events == [] {
      last := story;
    } else {
      var e := events[0];
      var next := StoryGoesOn(p, w, e, story, past);
      InvKept(w, e);
      last := StoryOfRun(p, Happen(w, e), events[1..], next, Later(w, e, past));
    }
  }

  // --- The theorem ----------------------------------------------------------

  /** `ops`, run one after the other from the same registry file, account for the run that led to `w`. */
  ghost predicate Accounts(file: FileState, ops: seq<Operation>, w: World, past: seq<Returned>) {
    && AllReturnedAlone(Platform(file, []), ops) == past
    && Supplied(ops) <= w.shared.appended
    && (Unlocked(w) ==>
          && Replay(Platform(file, []), ops) == Platform(w.shared.file, w.shared.pool)
          && Desks(ops) == DeskOf(w.shared)
          && Supplied(ops) == w.shared.appended
          && GivenNames(w.shared.popped) == PooledNames(past))
  }

  /**
   * For every interleaving there is one order of whole acquires, gets, releases and
   * pool additions that, given exactly the answers of the command-line tool that the
   * calls' own steps met, answers every call as it was answered, with the same handles,
   * in the order they returned, adds to the pool what the warm rounds added, and, when
   * nobody is inside the provider lock, ends in the registry file, the pool and the
   * handle cache there are, each pool VM found running answered to one caller.
   */
  lemma RunsAreSequential(size: int, threads: nat, file: FileState, events: seq<Event>, w: World)
    requires Reaches(size, threads, file, events, w)
    ensures exists ops :: Accounts(file, ops, w, AllReturned(Initial(size, threads, file), events))
  {
    var story := StoryOfReached(size, threads, file, events, w);
    assert Supplied(story.ops) + [] == Supplied(story.ops);
    assert Accounts(file, story.ops, w, AllReturned(Initial(size, threads, file), events));
  }

  lemma StoryOfReached(size: int, threads: nat, file: FileState, events: seq<Event>, w: World) returns (story: Story)
    requires Reaches(size, threads, file, events, w)
    ensures Explains(Platform(file, []), w, story, PastAfter(Initial(size, threads, file), events, Past([], NOTHING)))
  {
    var p, w0 := Platform(file, []), Initial(size, threads, file);
    InitialInv(size, threads, file);
    assert Explains(p, w0, Story([], []), Past([], NOTHING));
    story := StoryOfRun(p, w0, events, Story([], []), Past([], NOTHING));
  }

  /**
   * After `ops`, an acquire that runs alone with answers `a` does and answers what the
   * one leaving in `w` did, and asks for and is answered what that one was.
   */
  predicate RunsAlone(file: FileState, ops: seq<Operation>, a: Answers, sh: Shared, pc: Pc, met: Met)
    requires sh.call.CallAcquire? && pc.ProviderLeave?
  {
    var q := Replay(Platform(file, []), ops);
    && q.file == sh.start
    && Acquired(q, sh.call.tid, a).0.file == sh.file
    && Acquired(q, sh.call.tid, a).0.pool <= sh.pool
    && ReturnedAlone(q, Desks(ops), AcquireOp(sh.call.tid, a)) == LastReturned(sh, pc, met)
  }

  predicate LeavesAlone(file: FileState, ops: seq<Operation>, a: Answers, sh: Shared, pc: Pc, past: Past)
    requires sh.call.CallAcquire? && pc.ProviderLeave?
  {
    AllReturnedAlone(Platform(file, []), ops) == past.returned && RunsAlone(file, ops, a, sh, pc, past.met)
  }

  /** An acquire about to return, among others, answers and leaves what it does alone after the calls before it. */
  lemma LockedAcquireIsSequential(size: int, threads: nat, file: FileState, events: seq<Event>, w: World, t: nat)
    requires Reaches(size, threads, file, events, w) && t < |w.pcs| && w.pcs[t].ProviderLeave?
             && w.shared.call.CallAcquire?
    ensures exists ops, a ::
              LeavesAlone(
                file, ops, a, w.shared, w.pcs[t], PastAfter(Initial(size, threads, file), events, Past([], NOTHING)))
  {
    ReachedInv(size, threads, file, events, w);
    var story := StoryOfReached(size, threads, file, events, w);
    var past := PastAfter(Initial(size, threads, file), events, Past([], NOTHING));
    var q, d := Replay(Platform(file, []), story.ops), Desks(story.ops);
    HolderKnows(Platform(file, []), w, t, story, past);
    var a := LeaveAcquire(q, d, story.late, w.shared, w.pcs[t], past.met);
    assert AllReturnedAlone(Platform(file, []), story.ops) == past.returned;
    assert Rest(q.pool) <= w.shared.pool;
    assert LeavesAlone(file, story.ops, a, w.shared, w.pcs[t], past);
  }

  /** Neither a pool VM for `t`, nor a release of the runtime `id`. */
  predicate Harmless(r: Returned, t: Option<string>, id: string) {
    && r.call != CallRelease(id)
    && !(r.call.CallAcquire? && Truthy(r.call.tid) && Key(r.call.tid) == Key(t) && r.pooled)
  }

  predicate AnswersOwn(r: Returned, t: Option<string>, id: string) {
    r.call == CallAcquire(t) && !r.pooled && r.result.Some? ==> r.result.value == id
  }

  lemma {:induction false} ColdAnswersAgree(p: Platform, ops: seq<Operation>, t: Option<string>)
    requires forall r | r in AllReturnedAlone(p, ops) :: Harmless(r, t, Current(p, t))
    ensures Current(Replay(p, ops), t) == Current(p, t)
    ensures forall r | r in AllReturnedAlone(p, ops) :: AnswersOwn(r, t, Current(p, t))
    decreases |ops|
  {
    if ops != [] {
      var front, op := ops[..|ops| - 1], ops[|ops| - 1];
      var q := Replay(p, front);
      var some, more := AllReturnedAlone(p, front), ReturnedAlone(q, Desks(front), op);
      assert AllReturnedAlone(p, ops) == some + more;
      ColdAnswersAgree(p, front, t);
      HarmlessStep(q, Desks(front), op, t, more);
    }
  }

  lemma HarmlessStep(q: Platform, d: Desk, op: Operation, t: Option<string>, more: seq<Returned>)
    requires more == ReturnedAlone(q, d, op) && forall r | r in more :: Harmless(r, t, Current(q, t))
    ensures Current(Apply(q, op), t) == Current(q, t)
    ensures forall r | r in more :: AnswersOwn(r, t, Current(q, t))
  {
    if more != [] {
      assert more == [more[0]] && Harmless(more[0], t, Current(q, t));
    }
    MovesByOwn(q, op, t);
  }

  /**
   * In every interleaving: until one of a thread's acquires gets a pool VM or its
   * runtime is released, all its acquires that succeed answer the same id, whatever
   * the other threads acquire, release and warm meanwhile.
   */
  lemma ColdAcquiresAgreeInterleaved(
    size: int, threads: nat, file: FileState, events: seq<Event>, w: World, t: Option<string>)
    requires Reaches(size, threads, file, events, w)
    requires forall r | r in AllReturned(Initial(size, threads, file), events) ::
             Harmless(r, t, Resolve(Loaded(file), t))
    ensures forall r | r in AllReturned(Initial(size, threads, file), events) ::
            AnswersOwn(r, t, Resolve(Loaded(file), t))
    ensures Unlocked(w) ==> Resolve(Loaded(w.shared.file), t) == Resolve(Loaded(file), t)
  {
    RunsAreSequential(size, threads, file, events, w);
    var past := AllReturned(Initial(size, threads, file), events);
    var ops :| Accounts(file, ops, w, past);
    ColdAnswersAgree(Platform(file, []), ops, t);
  }

  // --- Handles --------------------------------------------------------------

  predicate SameHandle(r: Returned, d: Desk, id: string) {
    r.call == CallGet(id) && r.handle.Some? ==> r.handle == HandleFor(d, id)
  }

  lemma {:induction false} GetsAgree(p: Platform, ops: seq<Operation>, id: string)
    requires forall r | r in AllReturnedAlone(p, ops) :: r.call != CallRelease(id)
    ensures forall r | r in AllReturnedAlone(p, ops) :: SameHandle(r, Desks(ops), id)
    decreases |ops|
  {
    if ops != [] {
      var front, op := ops[..|ops| - 1], ops[|ops| - 1];
      var d := Desks(front);
      var some, more := AllReturnedAlone(p, front), ReturnedAlone(Replay(p, front), d, op);
      assert AllReturnedAlone(p, ops) == some + more;
      GetsAgree(p, front, id);
      if op.ReleaseOp? {
        assert more[0] in more && op.id != id;
      }
      assert id in d.handles ==> HandleFor(Serve(d, op), id) == HandleFor(d, id);
      forall r | r in AllReturnedAlone(p, ops)
        ensures SameHandle(r, Serve(d, op), id)
      {
        assert r in some ==> SameHandle(r, d, id);
      }
    }
  }

  /** In every interleaving: until an id is released, all get() calls for it that succeed return the same handle. */
  lemma GetsAgreeInterleaved(size: int, threads: nat, file: FileState, events: seq<Event>, w: World, id: string)
    requires Reaches(size, threads, file, events, w)
    requires forall r | r in AllReturned(Initial(size, threads, file), events) :: r.call != CallRelease(id)
    ensures forall r, r' | r in AllReturned(Initial(size, threads, file), events)
                           && r' in AllReturned(Initial(size, threads, file), events)
                           && r.call == r'.call == CallGet(id) && r.handle.Some? && r'.handle.Some? ::
              r.handle == r'.handle
  {
    RunsAreSequential(size, threads, file, events, w);
    var past := AllReturned(Initial(size, threads, file), events);
    var ops :| Accounts(file, ops, w, past);
    GetsAgree(Platform(file, []), ops, id);
    forall r, r' | r in past && r' in past && r.call == r'.call == CallGet(id) && r.handle.Some? && r'.handle.Some?
      ensures r.handle == r'.handle
    {
      assert SameHandle(r, Desks(ops), id) && SameHandle(r', Desks(ops), id);
    }
  }
}
