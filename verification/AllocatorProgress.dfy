/** Deadlock freedom, termination and the one way the allocator can jam. */
module AllocatorProgress {
  import opened Basics
  import opened RuntimeRegistry
  import opened SandboxProvider
  import opened Allocator

  lemma {:induction false} RunKeepsExclusive(w: World, events: seq<Event>)
    requires Exclusive(w) && IsRun(w, events)
    ensures Exclusive(Final(w, events)) && |Final(w, events).pcs| == |w.pcs|
    decreases |events|
  {
    if events != [] {
      ExclusiveKept(w, events[0]);
      RunKeepsExclusive(Happen(w, events[0]), events[1..]);
    }
  }

  predicate AllIdle(w: World) {
    forall t | 0 <= t < |w.pcs| :: w.pcs[t] == Idle
  }

  ghost predicate Jammed(w: World) {
    && (exists s | 0 <= s < |w.pcs| :: w.pcs[s] == ShutdownRelease)
    && (forall t | 0 <= t < |w.pcs| :: w.pcs[t] == Idle || Wants(w.pcs[t]) == Some(ProviderLock))
  }

  ghost predicate SomeoneCanStep(w: World) {
    exists t :: 0 <= t < |w.pcs| && CanStep(w, t)
  }

  /** Whoever waits for the pool or the registry lock waits for a thread that can move. */
  lemma InnerLocksMove(w: World, t: nat, l: Lock)
    requires Exclusive(w) && t < |w.pcs| && Wants(w.pcs[t]) == Some(l) && l != ProviderLock
    ensures SomeoneCanStep(w)
  {
    if NobodyElseHolds(w, t, l) {
      assert CanStep(w, t);
    } else {
      var u :| 0 <= u < |w.pcs| && u != t && Holds(w.pcs[u], l);
      assert CanStep(w, u);
    }
  }

  /**
   * In every reachable state some thread can step, or every call has returned,
   * or a shutdown waits for its own lock and everybody else unfinished waits
   * for that same lock.
   */
  lemma NoOtherDeadlock(w: World)
    requires Exclusive(w)
    ensures SomeoneCanStep(w) || AllIdle(w) || Jammed(w)
    ensures AllIdle(w) || Jammed(w) ==> !SomeoneCanStep(w)
  {
    if !SomeoneCanStep(w) && !AllIdle(w) {
      forall t | 0 <= t < |w.pcs|
        ensures w.pcs[t] == Idle || Wants(w.pcs[t]) == Some(ProviderLock)
      {
        if w.pcs[t] != Idle {
          assert !CanStep(w, t);
          if Wants(w.pcs[t]) != Some(ProviderLock) {
            InnerLocksMove(w, t, Wants(w.pcs[t]).value);
          }
        }
      }
      var t :| 0 <= t < |w.pcs| && w.pcs[t] != Idle;
      assert !CanStep(w, t);
      if NobodyElseHolds(w, t, ProviderLock) {
        assert w.pcs[t] == ShutdownRelease;
      } else {
        var u :| 0 <= u < |w.pcs| && u != t && Holds(w.pcs[u], ProviderLock);
        assert w.pcs[u] == ShutdownRelease;
      }
    }
    if Jammed(w) {
      var s :| 0 <= s < |w.pcs| && w.pcs[s] == ShutdownRelease;
      assert Holds(w.pcs[s], ProviderLock);
    }
  }

  // --- Every call ends ------------------------------------------------------

  predicate InShutdown(pc: Pc) {
    pc.ShutdownEnter? || pc.ShutdownScan? || pc.ShutdownRelease?
  }

  predicate NoShutdown(w: World) {
    forall t | 0 <= t < |w.pcs| :: !InShutdown(w.pcs[t])
  }

  /** A release that has not yet listed its keys: how much work it brings is still open. */
  function Scans(pc: Pc): nat {
    if pc.ReleaseEnter? || pc.ReleaseClose? || pc.ReleaseStop? || pc.ReleaseScan?
       || (pc.InRegistry? && pc.after.AfterLoad?)
    then 1 else 0
  }

  function StageWork(stage: Stage): nat {
    match stage
    case Enter => 9
    case LoadEnter => 8
    case Read => 7
    case LoadLeave => 6
    case Work => 5
    case SaveEnter => 4
    case Write => 3
    case SaveLeave => 2
    case Leave => 1
  }

  function RoundWork(size: int, i: nat): nat {
    if i < size then (size - i) * 7 + 2 else 2
  }

  function AfterWork(after: After): nat {
    match after
    case AfterGet(_, _) => 13
    case AfterPooled(_) => 1
    case AfterCold(_) => 2
    case AfterLoad(_) => 2
    case AfterRemove(_, keys) => 2 + |keys| * 10
  }

  /** A bound on the steps left before the next key listing or the end of the call. */
  function Steps(size: int, pc: Pc): nat {
    match pc
    case Idle => 0
    case AcquireEnter(_) => 27
    case PoolEnter(_) => 26
    case PoolPop(_) => 25
    case PoolProbe(_, _) => 24
    case PoolLeave(_, _) => 23
    case InRegistry(_, stage, after) => StageWork(stage) + AfterWork(after)
    case StatusCheck(_, _) => 13
    case StartVm(_, _) => 12
    case SshWait(_) => 2
    case GetEnter(_) => 6
    case GetLookup(_) => 5
    case GetTopology(_) => 4
    case GetStatus(_) => 3
    case GetConnect(_) => 2
    case ReleaseEnter(_) => 13
    case ReleaseClose(_) => 12
    case ReleaseStop(_) => 11
    case ReleaseScan(_) => 2
    case ReleaseNext(_, keys) => 2 + |keys| * 10
    case ProviderLeave(_, _) => 1
    case WarmTry => RoundWork(size, 0) + 1
    case WarmLoop(i) => RoundWork(size, i)
    case WarmUp(i) => RoundWork(size, i + 1) + 5
    case WarmAddress(i) => RoundWork(size, i + 1) + 4
    case WarmPoolEnter(i, _) => RoundWork(size, i + 1) + 3
    case WarmAppend(i, _) => RoundWork(size, i + 1) + 2
    case WarmPoolLeave(i) => RoundWork(size, i + 1) + 1
    case WarmLeave => 1
    case ShutdownEnter => 3
    case ShutdownScan => 2
    case ShutdownRelease => 0
  }

  function AllScans(pcs: seq<Pc>): nat {
    if pcs == [] then 0 else Scans(pcs[0]) + AllScans(pcs[1..])
  }

  function AllSteps(size: int, pcs: seq<Pc>): nat {
    if pcs == [] then 0 else Steps(size, pcs[0]) + AllSteps(size, pcs[1..])
  }

  lemma {:induction false} SumsAfterUpdate(size: int, pcs: seq<Pc>, t: nat, pc: Pc)
    requires t < |pcs|
    ensures AllScans(pcs[t := pc]) == AllScans(pcs) - Scans(pcs[t]) + Scans(pc)
    ensures AllSteps(size, pcs[t := pc]) == AllSteps(size, pcs) - Steps(size, pcs[t]) + Steps(size, pc)
  {
    if t == 0 {
      assert pcs[t := pc][1..] == pcs[1..];
    } else {
      assert pcs[t := pc][1..] == pcs[1..][t - 1 := pc];
      SumsAfterUpdate(size, pcs[1..], t - 1, pc);
    }
  }

  lemma AcquireShrinks(size: int, sh: Shared, pc: Pc, r: Reply)
    requires IsAcquire(pc)
    ensures var next := AcquireStep(sh, pc, r).0;
            Scans(next) == Scans(pc) && Steps(size, next) < Steps(size, pc)
  {
  }

  lemma HandleShrinks(size: int, sh: Shared, pc: Pc, r: Reply)
    requires !IsAcquire(pc) && !IsWarm(pc) && !pc.InRegistry? && !pc.Idle? && !pc.ShutdownRelease?
    ensures var next := HandleStep(sh, pc, r).0;
            Scans(next) < Scans(pc) || (Scans(next) == Scans(pc) && Steps(size, next) < Steps(size, pc))
  {
  }

  lemma WarmShrinks(size: int, warmFree: bool, sh: Shared, pc: Pc, r: Reply)
    requires IsWarm(pc)
    ensures var next := WarmStep(size, warmFree, sh, pc, r).0;
            Scans(next) == Scans(pc) && Steps(size, next) < Steps(size, pc)
  {
  }

  lemma RegistryShrinks(size: int, sh: Shared, op: RegistryOp, stage: Stage, after: After)
    ensures var next := RegistryStep(sh, op, stage, after).0;
            && Scans(next) <= Scans(InRegistry(op, stage, after))
            && Steps(size, next) < Steps(size, InRegistry(op, stage, after))
  {
  }

  /** Each step lists a release's keys or shortens what is left, in lexicographic order. */
  lemma StepsShrink(w: World, t: nat, r: Reply)
    requires Possible(w, Go(t, r))
    ensures var w' := Happen(w, Go(t, r));
            AllScans(w'.pcs) < AllScans(w.pcs) ||
            (AllScans(w'.pcs) == AllScans(w.pcs) && AllSteps(w.size, w'.pcs) < AllSteps(w.size, w.pcs))
  {
    var next := Step(w.size, WarmFree(w), w.shared, w.pcs[t], r).0;
    var pc := w.pcs[t];
    if pc.InRegistry? {
      RegistryShrinks(w.size, w.shared, pc.op, pc.stage, pc.after);
    } else if IsAcquire(pc) {
      AcquireShrinks(w.size, w.shared, pc, r);
    } else if IsWarm(pc) {
      WarmShrinks(w.size, WarmFree(w), w.shared, pc, r);
    } else {
      HandleShrinks(w.size, w.shared, pc, r);
    }
    SumsAfterUpdate(w.size, w.pcs, t, next);
  }

  /** The first `n` of an endless supply of events. */
  function Prefix(f: nat -> Event, n: nat): seq<Event> {
    seq(n, i requires 0 <= i < n => f(i))
  }

  lemma PrefixTail(f: nat -> Event, n: nat)
    ensures Prefix(f, n + 1)[0] == f(0) && Prefix(f, n + 1)[1..] == Prefix((i: nat) => f(i + 1), n)
  {
  }

  /**
   * Without new calls every run ends, shutdowns or not: however the steps of an
   * endless schedule are chosen, one of them is not possible. `n` bounds the run.
   */
  lemma {:induction false} NoEndlessRun(w: World, f: nat -> Event) returns (n: nat)
    requires forall i: nat :: f(i).Go?
    ensures !IsRun(w, Prefix(f, n))
    decreases AllScans(w.pcs), AllSteps(w.size, w.pcs)
  {
    if Possible(w, f(0)) {
      StepsShrink(w, f(0).t, f(0).reply);
      var m := NoEndlessRun(Happen(w, f(0)), (i: nat) => f(i + 1));
      n := m + 1;
      PrefixTail(f, m);
    } else {
      n := 1;
      assert Prefix(f, 1)[0] == f(0);
    }
  }

  lemma {:induction false} SomeListing(keys: set<string>) returns (order: seq<string>)
    ensures Lists(order, keys)
    decreases |keys|
  {
    if keys == {} {
      order := [];
    } else {
      var k :| k in keys;
      var tail := SomeListing(keys - {k});
      order := [k] + tail;
      assert forall x :: x in tail <==> x in (set y | y in tail);
      assert (set y | y in order) == {k} + (set y | y in tail);
    }
  }

  lemma NoNewShutdown(w: World, t: nat, r: Reply)
    requires NoShutdown(w) && Possible(w, Go(t, r))
    ensures NoShutdown(Happen(w, Go(t, r))) && |Happen(w, Go(t, r)).pcs| == |w.pcs|
            && Happen(w, Go(t, r)).size == w.size
  {
    assert !InShutdown(w.pcs[t]);
    assert !InShutdown(Step(w.size, WarmFree(w), w.shared, w.pcs[t], r).0);
  }

  /** From every reachable state without a shutdown, all unfinished calls can run to their end. */
  lemma {:induction false} CallsCanFinish(w: World) returns (events: seq<Event>)
    requires Exclusive(w) && NoShutdown(w)
    ensures IsRun(w, events) && AllIdle(Final(w, events))
    ensures forall e | e in events :: e.Go?
    decreases AllScans(w.pcs), AllSteps(w.size, w.pcs)
  {
    NoOtherDeadlock(w);
    if AllIdle(w) {
      events := [];
    } else {
      var t :| 0 <= t < |w.pcs| && CanStep(w, t);
      var order := [];
      if w.pcs[t].ReleaseScan? {
        order := SomeListing(KeysFor(w.shared.cache, w.pcs[t].id));
      }
      var e := Go(t, Reply(true, "", order));
      StepsShrink(w, t, e.reply);
      ExclusiveKept(w, e);
      NoNewShutdown(w, t, e.reply);
      var tail := CallsCanFinish(Happen(w, e));
      events := [e] + tail;
      assert events[1..] == tail;
    }
  }

  // --- Shutdown -------------------------------------------------------------

  /** A jammed shutdown stays jammed: it never moves, and nobody takes the provider lock again. */
  lemma {:induction false} JamIsForever(w: World, s: nat, events: seq<Event>)
    requires Exclusive(w) && s < |w.pcs| && w.pcs[s] == ShutdownRelease && IsRun(w, events)
    ensures |Final(w, events).pcs| == |w.pcs| && Final(w, events).pcs[s] == ShutdownRelease
    ensures forall t | 0 <= t < |w.pcs| && t != s && Wants(w.pcs[t]) == Some(ProviderLock) ::
            Final(w, events).pcs[t] == w.pcs[t]
    decreases |events|
  {
    if events != [] {
      var e := events[0];
      assert Holds(w.pcs[s], ProviderLock);
      assert e.t != s;
      ExclusiveKept(w, e);
      RunKeepsExclusive(Happen(w, e), events[1..]);
      JamIsForever(Happen(w, e), s, events[1..]);
    }
  }

  predicate Returns(w: World, s: nat, events: seq<Event>) {
    IsRun(w, events) && s < |Final(w, events).pcs| && Final(w, events).pcs[s] == Idle
  }

  /** A shutdown that has taken the provider lock can return exactly when no handle is cached. */
  lemma ShutdownReturnsIff(w: World, s: nat)
    requires Exclusive(w) && s < |w.pcs| && w.pcs[s] == ShutdownScan
    ensures (exists events :: Returns(w, s, events)) <==> w.shared.handles == map[]
  {
    if w.shared.handles == map[] {
      var go := Go(s, Reply(true, "", []));
      var w1 := Happen(w, go);
      assert w1.pcs[s] == ProviderLeave(None, false) && Possible(w1, go);
      var w2 := Happen(w1, go);
      assert IsRun(w2, []);
      assert [go, go][1..] == [go] && [go][1..] == [];
      assert IsRun(w1, [go]);
      assert Final(w2, []) == w2;
      assert Final(w1, [go]) == w2;
      assert Final(w, [go, go]) == Final(w1, [go]);
      assert Returns(w, s, [go, go]);
    } else {
      forall events | IsRun(w, events)
        ensures !Returns(w, s, events)
      {
        ScanWithHandlesNeverEnds(w, s, events);
      }
    }
  }

  /** While one thread stands in its shutdown scan, the handle cache is not touched by others. */
  lemma {:induction false} ScanWithHandlesNeverEnds(w: World, s: nat, events: seq<Event>)
    requires Exclusive(w) && s < |w.pcs| && w.pcs[s] == ShutdownScan && w.shared.handles != map[] && IsRun(w, events)
    ensures s < |Final(w, events).pcs| && Final(w, events).pcs[s] != Idle
    decreases |events|
  {
    if events != [] {
      var e := events[0];
      var w1 := Happen(w, e);
      ExclusiveKept(w, e);
      if e.t == s {
        JamIsForever(w1, s, events[1..]);
      } else {
        assert Holds(w.pcs[s], ProviderLock);
        assert !Holds(w.pcs[e.t], ProviderLock);
        ScanWithHandlesNeverEnds(w1, s, events[1..]);
      }
    }
  }
}
