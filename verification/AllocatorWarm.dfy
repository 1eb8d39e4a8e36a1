/**
 * What warm rounds put into the pool, read from the answers their steps met
 * (extensions/deer_flow/registry.py:145-171), whatever runs beside them.
 */
module AllocatorWarm {
  import opened Basics
  import opened RuntimeRegistry
  import opened SandboxProvider
  import opened Allocator
  import opened AllocatorState
  import opened AllocatorTheorems

  // --- What a round has heard -----------------------------------------------

  /** The answers of cli.up and of the address lookups by index, and the entries added, since the round began. */
  datatype Round = Round(ups: map<nat, bool>, addresses: map<nat, string>, entries: seq<Entry>)

  const NO_ROUND := Round(map[], map[], [])

  function Added(before: seq<Entry>, after: seq<Entry>): seq<Entry> {
    if |before| <= |after| then after[|before|..] else []
  }

  /** The round of thread `t` after one more event. */
  function Heard(w: World, e: Event, t: nat, round: Round): Round
    requires Possible(w, e)
  {
    if e.Start? || e.t != t then round
    else
      var grown := round.(entries := round.entries + Added(w.shared.appended, Happen(w, e).shared.appended));
      match w.pcs[t]
      case WarmTry => NO_ROUND
      case WarmUp(i) => grown.(ups := round.ups[i := e.reply.ok])
      case WarmAddress(i) => grown.(addresses := round.addresses[i := e.reply.address])
      case _ => grown
  }

  function RoundAfter(w: World, events: seq<Event>, t: nat, round: Round): Round
    requires IsRun(w, events)
    decreases |events|
  {
    if events == [] then round
    else RoundAfter(Happen(w, events[0]), events[1..], t, Heard(w, events[0], t, round))
  }

  function Up(round: Round): nat -> bool {
    (i: nat) => i in round.ups && round.ups[i]
  }

  function Address(round: Round): nat -> string {
    (i: nat) => if i in round.addresses then round.addresses[i] else ""
  }

  /** The first `n` indices were started, and exactly those that started were asked for an address. */
  ghost predicate Asked(round: Round, n: nat) {
    && (forall i: nat :: i in round.ups <==> i < n)
    && (forall i: nat :: i in round.addresses <==> i < n && round.ups[i])
  }

  ghost predicate Complete(round: Round, n: nat) {
    Asked(round, n) && round.entries == Warmed(n, Up(round), Address(round))
  }

  /** Index `i` started; its address is asked for next. */
  ghost predicate Started(round: Round, i: nat) {
    && (forall k: nat :: k in round.ups <==> k <= i)
    && (forall k: nat :: k in round.addresses <==> k < i && round.ups[k])
    && round.ups[i]
    && round.entries == Warmed(i, Up(round), Address(round))
  }

  /** Index `i` started and has address `a`; its entry is added next. */
  ghost predicate Addressed(round: Round, i: nat, a: string) {
    && Asked(round, i + 1) && round.ups[i] && round.addresses[i] == a && a != ""
    && round.entries == Warmed(i, Up(round), Address(round))
  }

  ghost predicate RoundFits(size: int, pc: Pc, round: Round) {
    match pc
    case WarmLoop(i) => size > 0 && i <= size && Complete(round, i)
    case WarmUp(i) => i < size && Complete(round, i)
    case WarmAddress(i) => i < size && Started(round, i)
    case WarmPoolEnter(i, a) => i < size && Addressed(round, i, a)
    case WarmAppend(i, a) => i < size && Addressed(round, i, a)
    case WarmPoolLeave(i) => i < size && Complete(round, i + 1)
    case WarmLeave => size > 0 && Complete(round, size)
    case _ => true
  }

  lemma {:induction false} WarmedSame(
    n: nat, up: nat -> bool, address: nat -> string, up2: nat -> bool, address2: nat -> string)
    requires forall i: nat | i < n :: up(i) == up2(i) && (up(i) ==> address(i) == address2(i))
    ensures Warmed(n, up, address) == Warmed(n, up2, address2)
  {
    if n > 0 {
      WarmedSame(n - 1, up, address, up2, address2);
    }
  }

  lemma UpStep(round: Round, i: nat, ok: bool)
    requires Complete(round, i)
    ensures var next := round.(ups := round.ups[i := ok]); if ok then Started(next, i) else Complete(next, i + 1)
  {
    var next := round.(ups := round.ups[i := ok]);
    WarmedSame(i, Up(round), Address(round), Up(next), Address(next));
  }

  lemma AddressStep(round: Round, i: nat, a: string)
    requires Started(round, i)
    ensures var next := round.(addresses := round.addresses[i := a]);
            if a != "" then Addressed(next, i, a) else Complete(next, i + 1)
  {
    var next := round.(addresses := round.addresses[i := a]);
    WarmedSame(i, Up(round), Address(round), Up(next), Address(next));
  }

  lemma AppendStep(round: Round, i: nat, a: string)
    requires Addressed(round, i, a)
    ensures Complete(round.(entries := round.entries + [Entry(PoolName(i), a)]), i + 1)
  {
    var next := round.(entries := round.entries + [Entry(PoolName(i), a)]);
    WarmedSame(i, Up(round), Address(round), Up(next), Address(next));
  }

  lemma OnlyAppendAdds(size: int, warmFree: bool, sh: Shared, pc: Pc, r: Reply)
    ensures Added(sh.appended, Step(size, warmFree, sh, pc, r).1.appended)
            == if pc.WarmAppend? then [Entry(PoolName(pc.i), pc.address)] else []
  {
  }

  lemma OthersStayOut(size: int, warmFree: bool, sh: Shared, pc: Pc, r: Reply)
    requires !IsWarm(pc)
    ensures !IsWarm(Step(size, warmFree, sh, pc, r).0)
  {
  }

  lemma UpFits(size: int, warmFree: bool, sh: Shared, pc: Pc, r: Reply, round: Round)
    requires pc.WarmUp? && RoundFits(size, pc, round)
    ensures RoundFits(size, Step(size, warmFree, sh, pc, r).0, round.(ups := round.ups[pc.i := r.ok]))
  {
    UpStep(round, pc.i, r.ok);
  }

  lemma AddressFits(size: int, warmFree: bool, sh: Shared, pc: Pc, r: Reply, round: Round)
    requires pc.WarmAddress? && RoundFits(size, pc, round)
    ensures RoundFits(size, Step(size, warmFree, sh, pc, r).0, round.(addresses := round.addresses[pc.i := r.address]))
  {
    AddressStep(round, pc.i, r.address);
  }

  lemma AppendFits(size: int, warmFree: bool, sh: Shared, pc: Pc, r: Reply, round: Round)
    requires pc.WarmAppend? && RoundFits(size, pc, round)
    ensures RoundFits(size, Step(size, warmFree, sh, pc, r).0,
                      round.(entries := round.entries + [Entry(PoolName(pc.i), pc.address)]))
  {
    AppendStep(round, pc.i, pc.address);
  }

  lemma QuietFits(size: int, warmFree: bool, sh: Shared, pc: Pc, r: Reply, round: Round)
    requires InWarm(pc) && !pc.WarmUp? && !pc.WarmAddress? && !pc.WarmAppend? && RoundFits(size, pc, round)
    ensures RoundFits(size, Step(size, warmFree, sh, pc, r).0, round)
  {
  }

  lemma RoundStep(w: World, t: nat, r: Reply, round: Round)
    requires Possible(w, Go(t, r)) && RoundFits(w.size, w.pcs[t], round)
    ensures RoundFits(w.size, Happen(w, Go(t, r)).pcs[t], Heard(w, Go(t, r), t, round))
  {
    var pc := w.pcs[t];
    OnlyAppendAdds(w.size, WarmFree(w), w.shared, pc, r);
    assert round.entries + [] == round.entries;
    if !IsWarm(pc) {
      OthersStayOut(w.size, WarmFree(w), w.shared, pc, r);
    } else if pc.WarmTry? {
      BeginsComplete();
    } else if pc.WarmUp? {
      UpFits(w.size, WarmFree(w), w.shared, pc, r, round);
    } else if pc.WarmAddress? {
      AddressFits(w.size, WarmFree(w), w.shared, pc, r, round);
    } else if pc.WarmAppend? {
      AppendFits(w.size, WarmFree(w), w.shared, pc, r, round);
    } else {
      QuietFits(w.size, WarmFree(w), w.shared, pc, r, round);
    }
  }

  lemma BeginsComplete()
    ensures Complete(NO_ROUND, 0)
  {
  }

  lemma {:induction false} RoundsFit(w: World, events: seq<Event>, t: nat, round: Round)
    requires IsRun(w, events) && t < |w.pcs| && RoundFits(w.size, w.pcs[t], round)
    ensures |Final(w, events).pcs| == |w.pcs|
    ensures RoundFits(w.size, Final(w, events).pcs[t], RoundAfter(w, events, t, round))
    decreases |events|
  {
    if events != [] {
      var e := events[0];
      if e.Go? && e.t == t {
        RoundStep(w, t, e.reply, round);
      }
      RoundsFit(Happen(w, e), events[1..], t, Heard(w, e, t, round));
    }
    ThreadsStay(w, events);
  }

  lemma {:induction false} ThreadsStay(w: World, events: seq<Event>)
    requires IsRun(w, events)
    ensures |Final(w, events).pcs| == |w.pcs| && Final(w, events).size == w.size
    decreases |events|
  {
    if events != [] {
      ThreadsStay(Happen(w, events[0]), events[1..]);
    }
  }

  /**
   * In every interleaving a warm round that is over has started every index once, has
   * asked exactly those that started for their address, and has added one entry for
   * each that answered one, in order: exactly what the round adds that runs alone with
   * the same answers.
   */
  lemma RoundIsWarmed(size: int, threads: nat, file: FileState, events: seq<Event>, w: World, t: nat)
    requires Reaches(size, threads, file, events, w) && t < |w.pcs| && w.pcs[t].WarmLeave?
    ensures var round := RoundAfter(Initial(size, threads, file), events, t, NO_ROUND);
            && size > 0 && Asked(round, size)
            && round.entries == Warmed(size, Up(round), Address(round))
  {
    ThreadsStay(Initial(size, threads, file), events);
    RoundsFit(Initial(size, threads, file), events, t, NO_ROUND);
  }

  // --- Where every entry comes from -----------------------------------------

  lemma {:induction false} RunOneMore(w: World, events: seq<Event>, e: Event, t: nat, round: Round)
    requires IsRun(w, events) && Possible(Final(w, events), e)
    ensures IsRun(w, events + [e]) && Final(w, events + [e]) == Happen(Final(w, events), e)
    ensures RoundAfter(w, events + [e], t, round) == Heard(Final(w, events), e, t, RoundAfter(w, events, t, round))
    decreases |events|
  {
    var more := events + [e];
    if events == [] {
      assert more[0] == e && more[1..] == [];
    } else {
      assert more[0] == events[0] && more[1..] == events[1..] + [e];
      RunOneMore(Happen(w, events[0]), events[1..], e, t, Heard(w, events[0], t, round));
    }
  }

  lemma {:induction false} PrefixRuns(w: World, events: seq<Event>, n: nat)
    requires IsRun(w, events) && n <= |events|
    ensures IsRun(w, events[..n]) && (n < |events| ==> Possible(Final(w, events[..n]), events[n]))
    decreases |events|
  {
    if n > 0 {
      PrefixRuns(Happen(w, events[0]), events[1..], n - 1);
      assert events[..n][1..] == events[1..][..n - 1] && events[..n][0] == events[0];
    }
  }

  /**
   * Event `n` of the run put entry `k` into the pool: the thread that ran it had, in
   * its round, an index below the size answered ok by cli.up and with that address by
   * the lookup, and the entry names that index and carries that address.
   */
  ghost predicate PutBy(w: World, events: seq<Event>, k: nat, entry: Entry, n: nat)
    requires IsRun(w, events)
  {
    && n < |events| && events[n].Go?
    && (PrefixRuns(w, events, n);
        var before := Final(w, events[..n]);
        var round := RoundAfter(w, events[..n], events[n].t, NO_ROUND);
        && k == |before.shared.appended|
        && Happen(before, events[n]).shared.appended == before.shared.appended + [entry]
        && exists i: nat :: i < w.size && i in round.ups && round.ups[i] && i in round.addresses
                            && round.addresses[i] != "" && entry == Entry(PoolName(i), round.addresses[i]))
  }

  ghost predicate AllPut(w: World, events: seq<Event>)
    requires IsRun(w, events)
  {
    var appended := Final(w, events).shared.appended;
    forall k: nat | k < |appended| :: SomePut(w, events, k, appended[k])
  }

  ghost predicate SomePut(w: World, events: seq<Event>, k: nat, entry: Entry)
    requires IsRun(w, events)
  {
    exists n: nat :: PutBy(w, events, k, entry, n)
  }

  lemma PutStays(w: World, events: seq<Event>, e: Event, k: nat, entry: Entry, n: nat)
    requires IsRun(w, events) && Possible(Final(w, events), e) && PutBy(w, events, k, entry, n)
    ensures IsRun(w, events + [e]) && PutBy(w, events + [e], k, entry, n)
  {
    RunOneMore(w, events, e, 0, NO_ROUND);
    assert (events + [e])[..n] == events[..n] && (events + [e])[n] == events[n];
  }

  lemma OneAtATime(w: World, e: Event)
    requires Possible(w, e)
    ensures var after := Happen(w, e).shared.appended;
            if e.Go? && w.pcs[e.t].WarmAppend?
            then after == w.shared.appended + [Entry(PoolName(w.pcs[e.t].i), w.pcs[e.t].address)]
            else after == w.shared.appended
  {
  }

  lemma PutOneMore(w: World, events: seq<Event>, e: Event)
    requires IsRun(w, events) && Possible(Final(w, events), e) && AllPut(w, events)
    requires forall t | 0 <= t < |w.pcs| :: w.pcs[t] == Idle
    ensures IsRun(w, events + [e]) && AllPut(w, events + [e])
  {
    RunOneMore(w, events, e, 0, NO_ROUND);
    var before := Final(w, events);
    var pooled, all := before.shared.appended, Final(w, events + [e]).shared.appended;
    OneAtATime(before, e);
    forall k: nat | k < |all|
      ensures SomePut(w, events + [e], k, all[k])
    {
      if k < |pooled| {
        assert SomePut(w, events, k, pooled[k]);
        var n: nat :| PutBy(w, events, k, pooled[k], n);
        PutStays(w, events, e, k, pooled[k], n);
      } else {
        ThreadsStay(w, events);
        RoundsFit(w, events, e.t, NO_ROUND);
        assert (events + [e])[..|events|] == events && (events + [e])[|events|] == e;
        var i := before.pcs[e.t].i;
        assert Addressed(RoundAfter(w, events, e.t, NO_ROUND), i, before.pcs[e.t].address);
        assert PutBy(w, events + [e], k, all[k], |events|);
      }
    }
  }

  lemma {:induction false} AllArePut(w: World, events: seq<Event>, n: nat)
    requires IsRun(w, events) && n <= |events|
    requires w.shared.appended == [] && forall t | 0 <= t < |w.pcs| :: w.pcs[t] == Idle
    ensures IsRun(w, events[..n]) && AllPut(w, events[..n])
  {
    PrefixRuns(w, events, n);
    if n > 0 {
      AllArePut(w, events, n - 1);
      PrefixRuns(w, events, n - 1);
      PutOneMore(w, events[..n - 1], events[n - 1]);
      assert events[..n - 1] + [events[n - 1]] == events[..n];
    }
  }

  /** In every interleaving every entry ever pooled was put there by one step of a round in which its VM came up. */
  lemma EntriesCameUp(size: int, threads: nat, file: FileState, events: seq<Event>, w: World, k: nat)
    requires Reaches(size, threads, file, events, w) && k < |w.shared.appended|
    ensures exists n: nat :: PutBy(Initial(size, threads, file), events, k, w.shared.appended[k], n)
  {
    AllArePut(Initial(size, threads, file), events, |events|);
    assert events[..|events|] == events;
    assert SomePut(Initial(size, threads, file), events, k, w.shared.appended[k]);
  }

  /** A call of warm() begins a round exactly when there is a pool and nobody is warming it; otherwise it returns. */
  lemma WarmBeginsIff(w: World, t: nat, r: Reply)
    requires Possible(w, Go(t, r)) && w.pcs[t].WarmTry?
    ensures var pc := Happen(w, Go(t, r)).pcs[t];
            if w.size > 0 && forall u | 0 <= u < |w.pcs| :: !Holds(w.pcs[u], WarmLock)
            then Holds(pc, WarmLock) && pc == WarmLoop(0) else pc == Idle
  {
    assert WarmFree(w) <==> forall u | 0 <= u < |w.pcs| :: !Holds(w.pcs[u], WarmLock);
  }
}
