/** The allocator's guarantees over every run from an idle start. */
module AllocatorTheorems {
  import opened Basics
  import opened RuntimeRegistry
  import opened SandboxProvider
  import opened Allocator
  import opened AllocatorProgress
  import opened AllocatorState

  ghost predicate Reaches(size: int, threads: nat, file: FileState, events: seq<Event>, w: World) {
    IsRun(Initial(size, threads, file), events) && w == Final(Initial(size, threads, file), events)
  }

  lemma ReachedInv(size: int, threads: nat, file: FileState, events: seq<Event>, w: World)
    requires Reaches(size, threads, file, events, w)
    ensures Inv(w)
  {
    InitialInv(size, threads, file);
    RunKeepsInv(Initial(size, threads, file), events);
  }

  predicate NoShutdownCalls(events: seq<Event>) {
    forall e | e in events :: e.Start? ==> e.call != CallShutdown
  }

  lemma {:induction false} RunsWithoutShutdown(w: World, events: seq<Event>)
    requires NoShutdown(w) && IsRun(w, events) && NoShutdownCalls(events)
    ensures NoShutdown(Final(w, events))
    decreases |events|
  {
    if events != [] {
      var e := events[0];
      if e.Go? {
        NoNewShutdown(w, e.t, e.reply);
      } else {
        assert e in events;
        assert !InShutdown(EntryOf(e.call));
      }
      RunsWithoutShutdown(Happen(w, e), events[1..]);
    }
  }

  /** Deadlock freedom: acquire, get, release and warm never block each other for good. */
  lemma NeverDeadlocks(size: int, threads: nat, file: FileState, events: seq<Event>, w: World)
    requires Reaches(size, threads, file, events, w) && NoShutdownCalls(events)
    ensures AllIdle(w) || SomeoneCanStep(w)
    ensures exists more: seq<Event> :: IsRun(w, more) && AllIdle(Final(w, more)) && forall e | e in more :: e.Go?
  {
    ReachedInv(size, threads, file, events, w);
    RunsWithoutShutdown(Initial(size, threads, file), events);
    NoOtherDeadlock(w);
    var more := CallsCanFinish(w);
  }

  /** With shutdown calls admitted, the only way to stop is a shutdown waiting for its own lock. */
  lemma OnlyShutdownJams(size: int, threads: nat, file: FileState, events: seq<Event>, w: World)
    requires Reaches(size, threads, file, events, w)
    ensures !SomeoneCanStep(w) <==> AllIdle(w) || Jammed(w)
  {
    ReachedInv(size, threads, file, events, w);
    NoOtherDeadlock(w);
  }

  lemma {:induction false} CountConcat(name: string, a: seq<Entry>, b: seq<Entry>)
    ensures Count(name, a + b) == Count(name, a) + Count(name, b)
    decreases |b|
  {
    if b == [] {
      assert a + b == a;
    } else {
      assert (a + b)[..|a + b| - 1] == a + b[..|b| - 1];
      CountConcat(name, a, b[..|b| - 1]);
    }
  }

  lemma {:induction false} CountPair(es: seq<Entry>, i: nat, j: nat)
    requires i < j < |es| && es[i].name == es[j].name
    ensures Count(es[i].name, es) >= 2
  {
    var front := es[..|es| - 1];
    if j < |front| {
      CountPair(front, i, j);
    } else {
      CountOne(front, i);
    }
  }

  lemma {:induction false} CountOne(es: seq<Entry>, i: nat)
    requires i < |es|
    ensures Count(es[i].name, es) >= 1
  {
    if i < |es| - 1 {
      CountOne(es[..|es| - 1], i);
    }
  }

  /**
   * In every interleaving the entries appended are those popped followed by those
   * still pooled, and no name occurs among them more often than warm rounds ran.
   */
  lemma PoolIsConserved(size: int, threads: nat, file: FileState, events: seq<Event>, w: World, name: string)
    requires Reaches(size, threads, file, events, w)
    ensures w.shared.appended == Entries(w.shared.popped) + w.shared.pool
    ensures Count(name, Entries(w.shared.popped)) + Count(name, w.shared.pool) <= w.shared.rounds
    ensures (forall t | 0 <= t < |w.pcs| :: !w.pcs[t].PoolProbe?) ==>
              forall i | 0 <= i < |w.shared.popped| ::
                w.shared.popped[i].fate == Given || w.shared.popped[i].fate == Dropped
  {
    ReachedInv(size, threads, file, events, w);
    CountConcat(name, Entries(w.shared.popped), w.shared.pool);
  }

  /** With a single warm round no pool VM is handed out twice, and none handed out is still pooled. */
  lemma OneRoundIsExclusive(size: int, threads: nat, file: FileState, events: seq<Event>, w: World, i: nat, j: nat)
    requires Reaches(size, threads, file, events, w) && w.shared.rounds <= 1
    requires i < |w.shared.popped|
    ensures i < j < |w.shared.popped| ==> w.shared.popped[i].entry.name != w.shared.popped[j].entry.name
    ensures j < |w.shared.pool| ==> w.shared.popped[i].entry.name != w.shared.pool[j].name
  {
    ReachedInv(size, threads, file, events, w);
    var sh := w.shared;
    if i < j < |sh.popped| && sh.popped[i].entry.name == sh.popped[j].entry.name {
      CountPair(sh.appended, i, j);
    }
    if j < |sh.pool| && sh.popped[i].entry.name == sh.pool[j].name {
      CountPair(sh.appended, i, |sh.popped| + j);
    }
  }

  /** Every handle get() made is the cached one for its id and open, or was closed exactly once. */
  lemma HandlesAreCachedOrClosed(size: int, threads: nat, file: FileState, events: seq<Event>, w: World, h: nat)
    requires Reaches(size, threads, file, events, w) && h < |w.shared.made|
    ensures |w.shared.closes| == |w.shared.made|
    ensures if w.shared.made[h] in w.shared.handles && w.shared.handles[w.shared.made[h]] == h
            then w.shared.closes[h] == 0 else w.shared.closes[h] == 1
  {
    ReachedInv(size, threads, file, events, w);
  }

  /**
   * Whatever the others do meanwhile, a locked call leaves the registry as it
   * would alone: acquire records the id it answers, which is the thread's own
   * resolution or a pool VM found running; release drops exactly the keys mapped
   * to its id; get and shutdown change nothing.
   */
  lemma LockedCallsAreAtomic(size: int, threads: nat, file: FileState, events: seq<Event>, w: World, t: nat)
    requires Reaches(size, threads, file, events, w) && t < |w.pcs| && w.pcs[t].ProviderLeave?
    ensures Finished(w.shared, w.pcs[t].result, w.pcs[t].pooled)
  {
    ReachedInv(size, threads, file, events, w);
  }

  /** An acquire that answers no pool VM, or raises, moves nobody's resolution. */
  lemma ColdAcquireMovesNobody(
    size: int, threads: nat, file: FileState, events: seq<Event>, w: World, t: nat, who: Option<string>)
    requires Reaches(size, threads, file, events, w) && t < |w.pcs| && w.pcs[t].ProviderLeave?
    requires w.shared.call.CallAcquire? && !w.pcs[t].pooled
    ensures w.pcs[t].result.Some? ==> w.pcs[t].result.value == Resolve(Loaded(w.shared.start), w.shared.call.tid)
    ensures Resolve(Loaded(w.shared.file), who) == Resolve(Loaded(w.shared.start), who)
  {
    LockedCallsAreAtomic(size, threads, file, events, w, t);
    assert Truthy(w.shared.call.tid) ==> Key(w.shared.call.tid) == w.shared.call.tid.value;
  }
}
