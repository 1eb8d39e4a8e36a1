/**
 * The pool and the provider as one caller sees them
 * (extensions/deer_flow/registry.py:111-187, deerflow_adp_sandbox.py:108-219).
 * Interleavings of many threads are in module Allocator. Answers of the
 * command-line tool are parameters.
 */
module SandboxProvider {
  import opened Basics
  import opened RuntimeRegistry

  datatype Entry = Entry(name: string, address: string)

  function PoolName(i: nat): string {
    "deerflow-pool-" + Decimal(i)
  }

  lemma PoolNameInjective(i: nat, j: nat)
    requires PoolName(i) == PoolName(j)
    ensures i == j
  {
    assert Decimal(i) == PoolName(i)[14..] == PoolName(j)[14..] == Decimal(j);
    DecimalInjective(i, j);
  }

  /** The entry index `i` of a warm round adds: none unless its VM starts and has an address. */
  function WarmedAt(i: nat, up: nat -> bool, address: nat -> string): seq<Entry> {
    if up(i) && address(i) != "" then [Entry(PoolName(i), address(i))] else []
  }

  /** What a warm round has appended after `n` indices. */
  function Warmed(n: nat, up: nat -> bool, address: nat -> string): seq<Entry> {
    if n == 0 then [] else Warmed(n - 1, up, address) + WarmedAt(n - 1, up, address)
  }

  ghost predicate CameUp(n: nat, up: nat -> bool, address: nat -> string, e: Entry) {
    exists k: nat :: k < n && up(k) && address(k) != "" && e == Entry(PoolName(k), address(k))
  }

  /** A warm round adds exactly the VMs that came up with an address, each once. */
  lemma {:induction false} WarmedExactly(n: nat, up: nat -> bool, address: nat -> string)
    ensures forall e :: e in Warmed(n, up, address) <==> CameUp(n, up, address, e)
    ensures forall a, b | 0 <= a < b < |Warmed(n, up, address)| ::
              Warmed(n, up, address)[a].name != Warmed(n, up, address)[b].name
  {
    if n > 0 {
      WarmedExactly(n - 1, up, address);
      var front := Warmed(n - 1, up, address);
      forall e
        ensures CameUp(n, up, address, e) <==> CameUp(n - 1, up, address, e) || e in WarmedAt(n - 1, up, address)
      {
      }
      forall a | 0 <= a < |front|
        ensures front[a].name != PoolName(n - 1)
      {
        assert CameUp(n - 1, up, address, front[a]);
        var k: nat :| k < n - 1 && up(k) && address(k) != "" && front[a] == Entry(PoolName(k), address(k));
        if PoolName(k) == PoolName(n - 1) {
          PoolNameInjective(k, n - 1);
        }
      }
    }
  }

  predicate Repeats(es: seq<Entry>) {
    exists a, b :: 0 <= a < b < |es| && es[a].name == es[b].name
  }

  ghost predicate CameUpTwice(
    n: nat, up: nat -> bool, address: nat -> string, up2: nat -> bool, address2: nat -> string)
  {
    exists k: nat :: k < n && up(k) && address(k) != "" && up2(k) && address2(k) != ""
  }

  lemma CameUpIsIn(n: nat, up: nat -> bool, address: nat -> string, k: nat) returns (i: nat)
    requires k < n && up(k) && address(k) != ""
    ensures i < |Warmed(n, up, address)| && Warmed(n, up, address)[i].name == PoolName(k)
  {
    WarmedExactly(n, up, address);
    var e := Entry(PoolName(k), address(k));
    assert CameUp(n, up, address, e);
    i :| 0 <= i < |Warmed(n, up, address)| && Warmed(n, up, address)[i] == e;
  }

  lemma InCameUp(n: nat, up: nat -> bool, address: nat -> string, i: nat) returns (k: nat)
    requires i < |Warmed(n, up, address)|
    ensures k < n && up(k) && address(k) != "" && Warmed(n, up, address)[i].name == PoolName(k)
  {
    WarmedExactly(n, up, address);
    var e := Warmed(n, up, address)[i];
    assert CameUp(n, up, address, e);
    k :| k < n && up(k) && address(k) != "" && e == Entry(PoolName(k), address(k));
  }

  lemma RepeatSpansRounds(first: seq<Entry>, second: seq<Entry>, i: nat, j: nat)
    requires !Repeats(first) && !Repeats(second)
    requires i < j < |first + second| && (first + second)[i].name == (first + second)[j].name
    ensures i < |first| <= j && first[i].name == second[j - |first|].name
  {
  }

  /**
   * A second completed round starts from the first name again, with answers of its
   * own: the pool then repeats a VM exactly when some VM came up in both rounds.
   */
  lemma SecondRoundRepeatsIff(
    n: nat, up: nat -> bool, address: nat -> string, up2: nat -> bool, address2: nat -> string)
    ensures !Repeats(Warmed(n, up, address))
    ensures Repeats(Warmed(n, up, address) + Warmed(n, up2, address2)) <==> CameUpTwice(n, up, address, up2, address2)
  {
    WarmedExactly(n, up, address);
    WarmedExactly(n, up2, address2);
    var first, second := Warmed(n, up, address), Warmed(n, up2, address2);
    var both: seq<Entry> := first + second;
    if CameUpTwice(n, up, address, up2, address2) {
      var k: nat :| k < n && up(k) && address(k) != "" && up2(k) && address2(k) != "";
      var i := CameUpIsIn(n, up, address, k);
      var j := CameUpIsIn(n, up2, address2, k);
      assert both[i].name == both[|first| + j].name;
    }
    if Repeats(both) {
      var i, j :| 0 <= i < j < |both| && both[i].name == both[j].name;
      RepeatSpansRounds(first, second, i, j);
      var k := InCameUp(n, up, address, i);
      var l := InCameUp(n, up2, address2, j - |first|);
      PoolNameInjective(k, l);
    }
  }

  class VMPool {
    const size: int
    var pool: seq<Entry>

    constructor (size: int)
      ensures this.size == size && pool == []
    {
      this.size := size;
      pool := [];
    }

    /** `busy`: another thread holds the warm lock, so the non-blocking attempt fails. */
    method Warm(busy: bool, up: nat -> bool, address: nat -> string)
      modifies this`pool
      ensures pool == old(pool) + if busy || size <= 0 then [] else Warmed(size, up, address)
    {
      if size <= 0 || busy {
        return;
      }
      for i := 0 to size
        invariant pool == old(pool) + Warmed(i, up, address)
      {
        if up(i) {
          if address(i) != "" {
            pool := pool + [Entry(PoolName(i), address(i))];
          }
        }
      }
    }

    /** The oldest entry leaves the pool whether or not its VM still runs. */
    method Acquire(running: bool) returns (entry: Option<Entry>)
      modifies this`pool
      ensures old(pool) == [] ==> entry == None && pool == []
      ensures old(pool) != [] ==> pool == old(pool)[1..] && entry == if running then Some(old(pool)[0]) else None
    {
      if pool != [] {
        var first := pool[0];
        pool := pool[1..];
        if !running {
          return None;
        }
        return Some(first);
      }
      return None;
    }
  }

  // --- acquire() and release() on values ------------------------------------

  /** Answers met by one acquire(): pooled VM running, status ok, up ok, SSH reachable in time. */
  datatype Answers = Answers(pooledRuns: bool, statusOk: bool, upOk: bool, reachable: bool)

  datatype Platform = Platform(file: FileState, pool: seq<Entry>)

  predicate Truthy(tid: Option<string>) {
    tid.Some? && tid.value != ""
  }

  function Current(p: Platform, tid: Option<string>): string {
    Resolve(Loaded(p.file), tid)
  }

  function Record(f: FileState, tid: Option<string>, runtime: string): FileState {
    if Truthy(tid) then Json(Loaded(f)[tid.value := runtime]) else f
  }

  predicate TakesPooled(p: Platform, a: Answers) {
    p.pool != [] && a.pooledRuns
  }

  /** What acquire() answers and leaves behind. */
  function Acquired(p: Platform, tid: Option<string>, a: Answers): (Platform, Result<string>) {
    if TakesPooled(p, a) then
      (Platform(Record(p.file, tid, p.pool[0].name), p.pool[1..]), Ok(p.pool[0].name))
    else
      var left := if p.pool == [] then [] else p.pool[1..];
      var runtime := Current(p, tid);
      if !a.statusOk && !a.upOk then (Platform(p.file, left), Err("Failed to start VM"))
      else (Platform(Record(p.file, tid, runtime), left), if a.reachable then Ok(runtime) else Err("not SSH-reachable"))
  }

  /**
   * Exactly when an acquire answers what: a pool VM if the oldest one runs, whatever else
   * is answered; otherwise the thread's own resolution if that VM runs or could be started
   * and is reachable in time; and each error for its own reason only.
   */
  lemma AcquireAnswersIff(p: Platform, tid: Option<string>, a: Answers)
    ensures var answer := Acquired(p, tid, a).1;
            var own := Resolve(Loaded(p.file), tid);
            if p.pool != [] && a.pooledRuns then answer == Ok(p.pool[0].name)
            else && (answer == Ok(own) <==> (a.statusOk || a.upOk) && a.reachable)
                 && (answer == Err("Failed to start VM") <==> !a.statusOk && !a.upOk)
                 && (answer == Err("not SSH-reachable") <==> (a.statusOk || a.upOk) && !a.reachable)
    ensures Acquired(p, tid, a).0.pool == if p.pool == [] then [] else p.pool[1..]
  {
  }

  /** What release() leaves of the registry: everything but the keys mapped to `id`. */
  function Released(f: FileState, id: string): FileState {
    if KeysFor(Loaded(f), id) == {} then f else Json(Loaded(f) - KeysFor(Loaded(f), id))
  }

  // --- The provider ---------------------------------------------------------

  /** An SSH sandbox handle; `closes` counts close() calls. */
  class Handle {
    const id: string
    const address: string
    var closes: nat

    constructor (id: string, address: string)
      ensures this.id == id && this.address == address && closes == 0
    {
      this.id := id;
      this.address := address;
      closes := 0;
    }

    method Close()
      modifies this
      ensures closes == old(closes) + 1
    {
      closes := closes + 1;
    }
  }

  class DeerFlowADPSandboxProvider {
    const registry: ThreadRuntimeRegistry
    const pool: VMPool
    var sandboxes: map<string, Handle>
    ghost var made: set<Handle>

    constructor (registry: ThreadRuntimeRegistry, size: int)
      ensures Valid() && fresh(pool) && this.registry == registry
      ensures pool.size == size && pool.pool == [] && sandboxes == map[] && made == {}
    {
      this.registry := registry;
      pool := new VMPool(size);
      sandboxes := map[];
      made := {};
    }

    ghost predicate Valid()
      reads this, made
    {
      && (forall id | id in sandboxes :: sandboxes[id] in made && sandboxes[id].id == id)
      // every handle ever made is the cached one for its id, or was closed exactly once
      && (forall h | h in made :: if h.id in sandboxes && sandboxes[h.id] == h then h.closes == 0 else h.closes == 1)
    }

    function View(): Platform
      reads registry.file, pool
    {
      Platform(registry.file.state, pool.pool)
    }

    method Acquire(tid: Option<string>, a: Answers) returns (r: Result<string>)
      requires Valid()
      modifies pool`pool, registry`cache, registry.file
      ensures Valid() && sandboxes == old(sandboxes) && made == old(made)
      ensures (View(), r) == Acquired(old(View()), tid, a)
    {
      var entry := pool.Acquire(a.pooledRuns);
      if entry.Some? {
        var runtime := entry.value.name;
        if tid.Some? && tid.value != "" {
          registry.Set(tid.value, runtime, true);
        }
        return Ok(runtime);
      }
      var runtime := registry.Get(tid, true);
      if !a.statusOk {
        if !a.upOk {
          return Err("Failed to start VM");
        }
      }
      if tid.Some? && tid.value != "" {
        registry.Set(tid.value, runtime, true);
      }
      if !a.reachable {
        return Err("not SSH-reachable");
      }
      return Ok(runtime);
    }

    /** `topology` and `status` are the addresses the two lookups give, "" for none. */
    method Get(id: string, topology: string, status: string) returns (r: Result<Handle>)
      requires Valid()
      modifies this
      ensures Valid()
      ensures id in old(sandboxes) ==> r == Ok(old(sandboxes)[id]) && sandboxes == old(sandboxes) && made == old(made)
      ensures id !in old(sandboxes) && topology == "" && status == "" ==>
                r.Err? && sandboxes == old(sandboxes) && made == old(made)
      ensures id !in old(sandboxes) && (topology != "" || status != "") ==>
                && r.Ok? && fresh(r.value) && r.value.closes == 0
                && r.value.address == (if topology != "" then topology else status)
                && sandboxes == old(sandboxes)[id := r.value] && made == old(made) + {r.value}
    {
      if id in sandboxes {
        return Ok(sandboxes[id]);
      }
      var ip := topology;
      if ip == "" {
        ip := status;
      }
      if ip == "" {
        return Err("Cannot determine IP for runtime");
      }
      var sandbox := new Handle(id, ip);
      sandboxes := sandboxes[id := sandbox];
      made := made + {sandbox};
      return Ok(sandbox);
    }

    method Release(id: string)
      requires Valid()
      modifies this`sandboxes, made, registry`cache, registry.file
      ensures Valid() && sandboxes == old(sandboxes) - {id}
      ensures forall h | h in made ::
                h.closes == old(h.closes) + if id in old(sandboxes) && h == old(sandboxes)[id] then 1 else 0
      ensures registry.file.state == Released(old(registry.file.state), id)
      ensures pool.pool == old(pool.pool)
    {
      if id in sandboxes {
        var sb := sandboxes[id];
        sandboxes := sandboxes - {id};
        sb.Close();
      }
      ForgetRuntime(id);
    }

    /** The registry part of release(): every removal reloads the file again. */
    method ForgetRuntime(id: string)
      modifies registry`cache, registry.file
      ensures registry.file.state == Released(old(registry.file.state), id)
    {
      registry.Load(true);
      ghost var before := Loaded(registry.file.state);
      var toRemove := KeysFor(registry.cache, id);
      var todo := toRemove;
      while todo != {}
        invariant todo <= toRemove
        invariant Loaded(registry.file.state) == before - (toRemove - todo)
        invariant if todo == toRemove then registry.file.state == old(registry.file.state)
                  else registry.file.state.Json?
        decreases |todo|
      {
        var k :| k in todo;
        registry.Remove(k, true);
        assert before - (toRemove - todo) - {k} == before - (toRemove - (todo - {k}));
        todo := todo - {k};
      }
      assert toRemove - todo == toRemove;
    }
  }

  // --- What runs of calls keep ----------------------------------------------

  datatype Operation =
    | AcquireOp(tid: Option<string>, answers: Answers)
    | ReleaseOp(id: string)
    | HandleOp(id: string, topologyOk: bool, statusOk: bool)
    | WarmOp(entries: seq<Entry>)

  function Apply(p: Platform, op: Operation): Platform {
    match op
    case AcquireOp(tid, a) => Acquired(p, tid, a).0
    case ReleaseOp(id) => p.(file := Released(p.file, id))
    case HandleOp(_, _, _) => p
    case WarmOp(es) => p.(pool := p.pool + es)
  }

  /**
   * When a call moves what thread `t` resolves to: the thread's own acquire got a
   * pooled VM of another name, or a runtime it was explicitly mapped to is released.
   */
  predicate Moves(p: Platform, op: Operation, t: Option<string>) {
    match op
    case AcquireOp(tid, a) => TakesPooled(p, a) && Truthy(tid) && Key(tid) == Key(t) && p.pool[0].name != Current(p, t)
    case ReleaseOp(id) => Key(t) in Loaded(p.file) && Loaded(p.file)[Key(t)] == id && id != Default(t)
    case _ => false
  }

  lemma RecordResolves(f: FileState, tid: Option<string>, runtime: string, t: Option<string>)
    ensures Resolve(Loaded(Record(f, tid, runtime)), t)
            == if Truthy(tid) && Key(tid) == Key(t) then runtime else Resolve(Loaded(f), t)
  {
    if Truthy(tid) {
      assert Loaded(Record(f, tid, runtime)) == Loaded(f)[Key(tid) := runtime];
    }
  }

  lemma ReleasedResolves(f: FileState, id: string, t: Option<string>)
    ensures Resolve(Loaded(Released(f, id)), t)
            == if Key(t) in Loaded(f) && Loaded(f)[Key(t)] == id then Default(t) else Resolve(Loaded(f), t)
  {
    var keys := KeysFor(Loaded(f), id);
    assert Key(t) in keys <==> Key(t) in Loaded(f) && Loaded(f)[Key(t)] == id;
    assert Loaded(Released(f, id)) == Loaded(f) - keys;
  }

  /** Moves is exact, whatever the answers of the command-line tool were. */
  lemma ResolutionMovesIff(p: Platform, op: Operation, t: Option<string>)
    ensures Current(Apply(p, op), t) != Current(p, t) <==> Moves(p, op, t)
  {
    match op
    case AcquireOp(tid, a) =>
      RecordResolves(p.file, tid, if TakesPooled(p, a) then p.pool[0].name else Current(p, tid), t);
      assert Key(tid) == Key(t) ==> Current(p, t) == Current(p, tid);
    case ReleaseOp(id) =>
      ReleasedResolves(p.file, id, t);
    case _ =>
  }

  /** The platform after a run of calls. */
  function Replay(p: Platform, ops: seq<Operation>): Platform {
    if ops == [] then p else Apply(Replay(p, ops[..|ops| - 1]), ops[|ops| - 1])
  }

  /** The platform before call `i` of a run. */
  function Before(p: Platform, ops: seq<Operation>, i: nat): Platform
    requires i <= |ops|
  {
    Replay(p, ops[..i])
  }

  /** The thread's own acquire gets a pool VM, and records it. */
  predicate TakesFor(p: Platform, op: Operation, t: Option<string>) {
    op.AcquireOp? && Truthy(op.tid) && Key(op.tid) == Key(t) && TakesPooled(p, op.answers)
  }

  /** Call `k` of the run neither gives `t` a pool VM nor releases the runtime it began with. */
  predicate Cold(p: Platform, ops: seq<Operation>, t: Option<string>, k: nat)
    requires k < |ops|
  {
    ops[k] != ReleaseOp(Current(p, t)) && !TakesFor(Before(p, ops, k), ops[k], t)
  }

  lemma {:induction false} ColdStays(p: Platform, ops: seq<Operation>, t: Option<string>, i: nat)
    requires i <= |ops|
    requires forall k | 0 <= k < i :: Cold(p, ops, t, k)
    ensures Current(Before(p, ops, i), t) == Current(p, t)
  {
    if i > 0 {
      ColdStays(p, ops, t, i - 1);
      assert Cold(p, ops, t, i - 1) && ops[..i][..i - 1] == ops[..i - 1];
      MovesByOwn(Before(p, ops, i - 1), ops[i - 1], t);
    }
  }

  /** A thread moves only by its own pool VM or by a release of its runtime. */
  lemma MovesByOwn(p: Platform, op: Operation, t: Option<string>)
    requires op != ReleaseOp(Current(p, t)) && !TakesFor(p, op, t)
    ensures Current(Apply(p, op), t) == Current(p, t)
  {
    ResolutionMovesIff(p, op, t);
  }

  /**
   * As long as a thread's own acquires get no pool VM, nothing but a release of its
   * runtime moves it: every acquire that succeeds for it answers the same id, between
   * warm rounds, failed starts, SSH timeouts and whatever other threads acquire and release.
   */
  lemma ColdAcquiresAgree(p: Platform, ops: seq<Operation>, t: Option<string>, i: nat)
    requires i < |ops|
    requires forall k | 0 <= k < i :: Cold(p, ops, t, k)
    ensures Current(Before(p, ops, i), t) == Current(p, t)
    ensures ops[i].AcquireOp? && ops[i].tid == t && !TakesPooled(Before(p, ops, i), ops[i].answers) ==>
              var answer := Acquired(Before(p, ops, i), t, ops[i].answers).1;
              answer.Ok? ==> answer.value == Current(p, t)
  {
    ColdStays(p, ops, t, i);
  }
}
