/** ActivePool of internal/pool/pool.go: the pairs in service and the pairs being drained, refreshed in place. */
module ActivePools {
  import opened Sequences
  import opened Orders
  import opened ExplorerModel
  import opened ExplorerRuns
  import opened ExplorerLaws
  import opened Pairs
  import opened LossRanking
  import opened WeightedChoice
  import opened Explorer

  lemma NewcomersFit<T>(pool: seq<T>, chosen: seq<T>, draining: seq<T>)
    requires NoDup(pool + draining) && NoDup(chosen)
    requires forall x :: x in chosen ==> x !in pool && x !in draining
    ensures NoDup(pool + chosen + draining)
  {
    var all := pool + chosen + draining;
    forall i, j | 0 <= i < j < |all| ensures all[i] != all[j] {
      var n, c := |pool|, |chosen|;
      assert forall k :: 0 <= k < n ==> (pool + draining)[k] == pool[k];
      assert forall k :: 0 <= k < |draining| ==> (pool + draining)[n + k] == draining[k];
      assert n <= i < n + c ==> all[i] in chosen;
      assert n <= j < n + c ==> all[j] in chosen;
      assert i < n ==> all[i] in pool;
      assert i >= n + c ==> all[i] == (pool + draining)[i - c];
      assert j >= n + c ==> all[j] == (pool + draining)[j - c] && all[j] in draining;
    }
  }

  /** A duplicate-free whole has disjoint parts. */
  lemma DrainingIsIdle<T>(pool: seq<T>, draining: seq<T>, limbo: seq<T>, i: nat)
    requires NoDup(pool + draining + limbo) && i < |draining|
    ensures draining[i] !in pool && draining[i] !in draining[..i] && draining[i] !in limbo
  {
    var all := pool + draining + limbo;
    assert all[|pool| + i] == draining[i];
    assert forall k :: 0 <= k < |pool| ==> all[k] == pool[k];
    assert forall k :: 0 <= k < i ==> all[|pool| + k] == draining[..i][k];
    assert forall k :: 0 <= k < |limbo| ==> all[|pool| + |draining| + k] == limbo[k];
  }

  lemma DistinctDraining<T>(pool: seq<T>, draining: seq<T>, limbo: seq<T>, i: nat)
    requires NoDup(pool + draining + limbo) && i < |draining|
    ensures forall j :: 0 <= j < |draining| && j != i ==> draining[j] != draining[i]
  {
    var all := pool + draining + limbo;
    assert forall j :: 0 <= j < |draining| ==> all[|pool| + j] == draining[j];
  }

  lemma JoinDraining<T>(pool: seq<T>, draining: seq<T>, x: T, limbo: seq<T>)
    ensures pool + draining + ([x] + limbo) == pool + (draining + [x]) + limbo
  {
  }

  lemma SplitPool<T>(pool: seq<T>, draining: seq<T>, remaining: seq<T>, weak: seq<T>, weakOnes: set<T>)
    requires NoDup(pool + draining) && NoDup(remaining) && NoDup(weak) && weakOnes <= Elems(pool)
    requires Elems(remaining) == Elems(pool) - weakOnes && Elems(weak) == weakOnes
    ensures NoDup(remaining + draining + weak)
  {
    DrainingIsNoDup(pool, draining);
    Apart(pool, draining, []);
    assert pool + draining + [] == pool + draining;
    NoDupConcat(remaining, draining);
    assert Elems(remaining + draining) == Elems(remaining) + Elems(draining);
    NoDupConcat(remaining + draining, weak);
  }

  lemma PoolIsNoDup<T>(pool: seq<T>, draining: seq<T>)
    requires NoDup(pool + draining)
    ensures NoDup(pool)
  {
    assert forall k :: 0 <= k < |pool| ==> (pool + draining)[k] == pool[k];
  }

  /** The parts of a duplicate-free whole have nothing in common. */
  lemma Apart<T>(pool: seq<T>, draining: seq<T>, limbo: seq<T>)
    requires NoDup(pool + draining + limbo)
    ensures Elems(pool) !! Elems(draining) && Elems(pool) !! Elems(limbo) && Elems(draining) !! Elems(limbo)
  {
    var all := pool + draining + limbo;
    assert forall k :: 0 <= k < |pool| ==> all[k] == pool[k];
    assert forall k :: 0 <= k < |draining| ==> all[|pool| + k] == draining[k];
    assert forall k :: 0 <= k < |limbo| ==> all[|pool| + |draining| + k] == limbo[k];
  }

  lemma DrainingIsNoDup<T>(pool: seq<T>, draining: seq<T>)
    requires NoDup(pool + draining)
    ensures NoDup(draining)
  {
    assert forall k :: 0 <= k < |draining| ==> (pool + draining)[|pool| + k] == draining[k];
  }

  /** The losses that count against the names of one axis, among the stored pairs with these keys. */
  ghost function LossesOf(table: map<PairKey, PairStats>, keys: set<PairKey>, a: Axis, protected: set<string>,
                          scope: string): map<PairKey, real>
    reads table.Values
  {
    map k | k in table && k in keys && Coord(k, a) !in protected && (scope == "both" || table[k].Origin(a) == scope)
            && table[k].probed
      :: table[k].CombinedLossRate() as real
  }

  /** One part of a refresh, where it left the explorer, and the clock when it was through. */
  datatype Phase = Phase(steps: seq<Step>, end: State, until: int)

  /** The table half of a refresh: eviction on both axes, then recycling on both, then the two sweeps. */
  datatype Trace = Trace(evictIPs: Phase, evictSNIs: Phase, recycleIPs: Phase, recycleSNIs: Phase) {
    predicate OnlySweeps() {
      evictIPs.steps == [] && evictSNIs.steps == [] && recycleIPs.steps == [] && recycleSNIs.steps == []
    }

    function Until(): int {
      recycleSNIs.until
    }

    function Sweeps(): seq<Step> {
      [Sweep(IPs, Until()), Sweep(SNIs, Until())]
    }

    function Steps(): seq<Step> {
      evictIPs.steps + evictSNIs.steps + (recycleIPs.steps + recycleSNIs.steps) + Sweeps()
    }

    /** The names that its two trims forgot. */
    function Dropped(): Lost {
      Forgotten(recycleIPs.steps).Plus(Forgotten(recycleSNIs.steps))
    }
  }

  /** How many names a run evicts. */
  ghost function Evictions(steps: seq<Step>): nat {
    if steps == [] then 0
    else Evictions(steps[..|steps| - 1]) + if steps[|steps| - 1].Evict? then 1 else 0
  }

  /** Evictions and their sweeps, in the order of the clock. */
  ghost predicate IsCycle(steps: seq<Step>, from: int, until: int) {
    (forall s :: s in steps ==> s.Evict? || s.Sweep?) && Timed(steps, from, until)
  }

  lemma NoEvictions(now: int)
    ensures Evictions([]) == 0 && IsCycle([], now, now)
  {
  }

  lemma EvictionsGrow(steps: seq<Step>, more: seq<Step>, from: int, until: int, t: int)
    requires |more| == 2 && more[0].Evict? && more[1].Sweep? && more[0].t == t == more[1].t && until <= t
    requires IsCycle(steps, from, until)
    ensures Evictions(steps + more) == Evictions(steps) + 1 && IsCycle(steps + more, from, t)
  {
    assert (steps + [more[0]])[..|steps|] == steps;
    assert (steps + more)[..|steps| + 1] == steps + [more[0]];
    assert more == [more[0], more[1]];
    TwoTimed(more[0], more[1], until, t);
    TimedConcat(steps, more, from, until, t);
  }

  lemma SomeStay<T>(pool: seq<T>, draining: seq<T>, still: seq<T>)
    requires NoDup(pool + draining) && NoDup(still) && forall x :: x in still ==> x in draining
    ensures NoDup(pool + still)
  {
    assert forall k :: 0 <= k < |pool| ==> (pool + draining)[k] == pool[k];
    assert forall k :: 0 <= k < |draining| ==> (pool + draining)[|pool| + k] == draining[k];
    assert NoDup(pool);
    assert Elems(pool) !! Elems(still);
    NoDupConcat(pool, still);
  }

  /** As many of the eligible as there are slots, or all of them. */
  ghost predicate IsSelection<T>(chosen: seq<T>, eligible: set<T>, slots: nat) {
    NoDup(chosen) && Elems(chosen) <= eligible && |chosen| == Min(slots, |eligible|)
  }

  /** Nothing that was in service is left out, and nothing that is draining is chosen. */
  predicate Replaces<T(==)>(chosen: seq<T>, pool: seq<T>, draining: seq<T>) {
    (forall x :: x in pool ==> x in chosen) && forall x :: x in chosen ==> x !in draining
  }

  predicate AlwaysFits<T(==)>(pool: seq<T>, draining: seq<T>, eligible: set<T>, slots: nat) {
    && (slots == 0 || forall x :: x in draining ==> x !in eligible)
    && (pool == [] || (|eligible| <= slots && forall x :: x in pool ==> x in eligible))
  }

  lemma SelectionFits<T>(chosen: seq<T>, eligible: set<T>, slots: nat, pool: seq<T>, draining: seq<T>)
    requires IsSelection(chosen, eligible, slots) && AlwaysFits(pool, draining, eligible, slots) && |pool| <= slots
    ensures Replaces(chosen, pool, draining)
  {
    NoDupCardinality(chosen);
    forall x | x in chosen ensures x !in draining {
      assert x in Elems(chosen);
    }
    if pool != [] {
      SubsetOfSameSize(Elems(chosen), eligible);
      forall x | x in pool ensures x in chosen {
        assert x in Elems(chosen);
      }
    }
  }

  lemma SomeSelectionFails<T>(pool: seq<T>, draining: seq<T>, eligible: set<T>, slots: nat) returns (chosen: seq<T>)
    requires !AlwaysFits(pool, draining, eligible, slots)
    ensures IsSelection(chosen, eligible, slots) && !Replaces(chosen, pool, draining)
  {
    if slots > 0 && exists x :: x in draining && x in eligible {
      var x :| x in draining && x in eligible;
      var rest := Select(eligible - {x}, Min(slots, |eligible|) - 1);
      assert x !in Elems(rest);
      chosen := [x] + rest;
      assert Elems(chosen) == {x} + Elems(rest);
    } else if x :| x in pool && x !in eligible {
      chosen := Select(eligible, Min(slots, |eligible|));
      assert x !in Elems(chosen);
    } else {
      chosen := Select(eligible - {pool[0]}, slots);
      assert pool[0] !in Elems(chosen);
    }
  }

  /** Every choice leaves the pool's invariant intact exactly when there are no slots or nothing that drains is eligible, and
      the pool is empty or all of it is eligible along with few enough others. */
  lemma InitializeExact<T>(pool: seq<T>, draining: seq<T>, eligible: set<T>, slots: nat)
    requires |pool| <= slots
    ensures AlwaysFits(pool, draining, eligible, slots) <==>
      forall chosen :: IsSelection(chosen, eligible, slots) ==> Replaces(chosen, pool, draining)
  {
    if AlwaysFits(pool, draining, eligible, slots) {
      forall chosen | IsSelection(chosen, eligible, slots) ensures Replaces(chosen, pool, draining) {
        SelectionFits(chosen, eligible, slots, pool, draining);
      }
    } else {
      var _ := SomeSelectionFails(pool, draining, eligible, slots);
    }
  }

  lemma PrefixSelects<T>(shuffled: seq<T>, eligible: set<T>, slots: nat)
    requires NoDup(shuffled) && Elems(shuffled) == eligible
    ensures IsSelection(shuffled[..Min(slots, |shuffled|)], eligible, slots)
  {
    NoDupCardinality(shuffled);
    assert forall x :: x in shuffled[..Min(slots, |shuffled|)] ==> x in Elems(shuffled);
  }

  function FlagsOf(pairs: seq<PairStats>): (flags: seq<DrainFlags>)
    reads pairs`drainStartedAt, pairs`forceClosed
    ensures |flags| == |pairs| && forall i :: 0 <= i < |pairs| ==> flags[i] == pairs[i].Flags()
  {
    if pairs == [] then []
    else
      assert forall i :: 0 <= i < |pairs| - 1 ==> pairs[..|pairs| - 1][i] == pairs[i];
      FlagsOf(pairs[..|pairs| - 1]) + [pairs[|pairs| - 1].Flags()]
  }

  class ActivePool {
    const explorer: CombinationExplorer
    const slots: nat
    const lossThreshold: real
    const drainTimeout: int
    const maxDraining: int
    const config: RefreshConfig

    var pool: seq<PairStats>
    var draining: seq<PairStats>
    var refreshCount: nat

    constructor (explorer: CombinationExplorer, slots: nat, lossThreshold: real, drainTimeout: int, maxDraining: int,
                 config: RefreshConfig)
      requires explorer.Valid() && forall k :: k in explorer.stats ==> !explorer.stats[k].inActivePool
      ensures Valid() && pool == [] && draining == [] && refreshCount == 0
      ensures this.explorer == explorer && this.slots == slots && this.lossThreshold == lossThreshold
      ensures this.drainTimeout == drainTimeout && this.maxDraining == maxDraining && this.config == config
    {
      this.explorer, this.slots, this.lossThreshold := explorer, slots, lossThreshold;
      this.drainTimeout, this.maxDraining, this.config := drainTimeout, maxDraining, config;
      pool, draining, refreshCount := [], [], 0;
    }

    /** In service or being drained. */
    predicate Holds(ps: PairStats)
      reads this
    {
      ps in pool || ps in draining
    }

    /** The pool's invariant: no pair twice, every held pair is the object the explorer stores, no more pairs in service
        than slots, everything in service is flagged, and nothing else but draining pairs is. */
    ghost predicate Valid()
      reads this, explorer, explorer.stats.Values
    {
      ValidWith([])
    }

    /** The same while the pairs of `limbo` are on their way from service to draining. */
    ghost predicate ValidWith(limbo: seq<PairStats>)
      reads this, explorer, explorer.stats.Values
    {
      && explorer.Valid()
      && NoDup(pool + draining + limbo)
      && |pool| <= slots
      && (forall ps :: ps in pool + draining + limbo ==> explorer.InTable(ps))
      && (forall k :: k in explorer.stats ==> explorer.stats[k] in pool ==> explorer.stats[k].inActivePool)
      && (forall k :: k in explorer.stats ==> explorer.stats[k].inActivePool ==>
            Holds(explorer.stats[k]) || explorer.stats[k] in limbo)
    }

    predicate IsWeak(ps: PairStats)
      reads ps
    {
      !ps.alive || ps.CombinedLossRate() >= lossThreshold
    }

    /** The stable pairs, or the known ones when no pair is stable: what slots are filled from. */
    predicate IsEligible(ps: PairStats)
      requires explorer.Valid()
      reads this, explorer, explorer.stats.Values, ps
    {
      if exists k :: k in explorer.stats && explorer.IsStable(explorer.stats[k]) then explorer.IsStable(ps) else ps.IsKnown()
    }

    method Candidates() returns (candidates: seq<PairStats>)
      requires explorer.Valid()
      ensures NoDup(candidates)
      ensures forall ps :: ps in candidates ==> explorer.InTable(ps) && ps in explorer.stats.Values && IsEligible(ps)
      ensures forall k :: k in explorer.stats && IsEligible(explorer.stats[k]) ==> explorer.stats[k] in candidates
    {
      candidates := explorer.StableStats();
      if candidates == [] {
        candidates := explorer.KnownStats();
      } else {
        assert candidates[0] in candidates;
      }
      assert forall ps :: ps in candidates ==> explorer.stats[ps.Key()] == ps;
    }

    /** Slots are filled from the pairs that have been probed, do not swallow data, are alive and below the loss threshold;
        if there are none, from all that have been probed and do not swallow data. */
    lemma EligibleAre()
      requires explorer.Valid()
      ensures (forall k :: k in explorer.stats ==> (explorer.stats[k] in EligiblePairs() <==> Sound(explorer.stats[k])))
        || ((forall k :: k in explorer.stats ==> !Sound(explorer.stats[k]))
            && forall k :: k in explorer.stats ==>
                 (explorer.stats[k] in EligiblePairs() <==> explorer.stats[k].probed && !explorer.stats[k].dataCheckFailed))
    {
      hide Within;
    }

    predicate Sound(ps: PairStats)
      reads ps
    {
      ps.probed && !ps.dataCheckFailed && ps.alive && ps.CombinedLossRate() < explorer.lossThreshold
    }

    /** Every choice of Initialize fits what the pool holds already. */
    predicate MayInitialize()
      requires explorer.Valid()
      reads this, explorer, explorer.stats.Values
    {
      AlwaysFits(pool, draining, EligiblePairs(), slots)
    }

    /** Initialize: as many candidates as there are slots, in random order, take the place of whatever was in service; the
        pairs that were keep their flag, and what is draining goes on draining.  Nothing keeps a refresh from coming first.
        The pool's invariant holds afterwards exactly when every pair that was in service is chosen again and none that is
        draining is. */
    method Initialize()
      requires Valid()
      modifies this`pool, explorer.stats.Values`inActivePool
      ensures explorer.Valid() && IsSelection(pool, old(EligiblePairs()), slots)
      ensures Valid() <==> Replaces(pool, old(pool), draining)
      ensures old(MayInitialize()) ==> Valid()
      ensures forall k :: k in explorer.stats ==>
        (explorer.stats[k].inActivePool <==> old(explorer.stats[k].inActivePool) || explorer.stats[k] in pool)
    {
      hide Within, IsEligible, IsSelection, AlwaysFits;
      CapHolds();
      var candidates := Candidates();
      CandidatesAre(candidates);
      var shuffled := Shuffle(candidates);
      PermutationFacts(shuffled, candidates);
      var chosen := shuffled[..Min(slots, |shuffled|)];
      PrefixSelects(shuffled, EligiblePairs(), slots);
      Enlist(chosen);
      ghost var was := pool;
      pool := chosen;
      if old(MayInitialize()) {
        SelectionFits(chosen, old(EligiblePairs()), slots, was, draining);
      }
      Replacing(was);
    }

    lemma CapHolds()
      requires Valid()
      ensures |pool| <= slots && explorer.Valid()
    {
    }

    lemma CandidatesAre(candidates: seq<PairStats>)
      requires explorer.Valid()
      requires forall ps :: ps in candidates ==> explorer.InTable(ps) && IsEligible(ps)
      requires forall k :: k in explorer.stats && IsEligible(explorer.stats[k]) ==> explorer.stats[k] in candidates
      ensures Elems(candidates) == EligiblePairs()
      ensures forall ps :: ps in Elems(candidates) ==> ps in explorer.stats.Values && explorer.InTable(ps)
    {
      hide Within, IsEligible;
      forall ps | ps in candidates ensures ps in EligiblePairs() && ps in explorer.stats.Values {
        assert explorer.stats[ps.Key()] == ps;
      }
    }

    /** What the invariant comes to once the chosen pairs have taken the place of `was`. */
    twostate lemma Replacing(was: seq<PairStats>)
      requires old(Valid()) && explorer.Valid() && explorer.stats == old(explorer.stats) && was == old(pool)
      requires draining == old(draining) && NoDup(pool) && |pool| <= slots
      requires forall ps :: ps in pool ==> explorer.InTable(ps)
      requires forall k :: k in explorer.stats ==>
        (explorer.stats[k].inActivePool <==> old(explorer.stats[k].inActivePool) || explorer.stats[k] in pool)
      ensures Valid() <==> Replaces(pool, was, draining)
    {
      hide Within;
      assert was + draining + [] == was + draining && pool + draining + [] == pool + draining;
      Apart(was, draining, []);
      DrainingIsNoDup(was, draining);
      assert forall ps :: ps in was ==> ps in was + draining;
      assert forall ps :: ps in draining ==> ps in was + draining;
      if Valid() {
        Apart(pool, draining, []);
        assert forall ps :: ps in pool ==> ps in Elems(pool) && ps !in Elems(draining);
        forall ps | ps in was ensures ps in pool {
          assert old(explorer.InTable(ps)) && ps in Elems(was);
        }
      }
      if Replaces(pool, was, draining) {
        assert Elems(pool) !! Elems(draining);
        NoDupConcat(pool, draining);
      }
    }

    /** Idle pairs of the table enter service. */
    method Enter(chosen: seq<PairStats>)
      requires Valid() && NoDup(chosen) && |pool| + |chosen| <= slots
      requires forall ps :: ps in chosen ==> explorer.InTable(ps) && !Holds(ps)
      modifies this`pool, chosen`inActivePool
      ensures Valid() && pool == old(pool) + chosen
      ensures forall k :: k in explorer.stats ==> IsEligible(explorer.stats[k]) == old(IsEligible(explorer.stats[k]))
    {
      hide Within, IsEligible;
      assert pool + draining + [] == pool + draining;
      Enlist(chosen);
      NewcomersFit(pool, chosen, draining);
      pool := pool + chosen;
      assert pool + draining + [] == pool + draining;
      forall k | k in explorer.stats ensures IsEligible(explorer.stats[k]) == old(IsEligible(explorer.stats[k])) {
        EligibleStill(explorer.stats[k]);
      }
    }

    /** Flagging pairs as in service. */
    method Enlist(chosen: seq<PairStats>)
      modifies chosen`inActivePool
      ensures forall ps :: ps in chosen ==> ps.inActivePool
    {
      for i := 0 to |chosen|
        invariant forall j :: 0 <= j < i ==> chosen[j].inActivePool
      {
        chosen[i].inActivePool := true;
      }
    }

    // ---- refresh, phase by phase ----

    /** Closing a draining pair is no matter of the pool's invariant. */
    method CloseHeld(ps: PairStats, i: nat, ghost limbo: seq<PairStats>)
      requires ValidWith(limbo) && i < |draining| && draining[i] == ps
      modifies ps`inActivePool, ps`forceClosed, ps`closings
      ensures ValidWith(limbo) && ps.forceClosed && forall timeout :: ps.Flags() == old(ps.Flags()).Take(MadeRoom, timeout)
    {
      hide Within;
      DrainingIsIdle(pool, draining, limbo, i);
      ps.ForceClose();
    }

    lemma DrainingOnce(i: nat, limbo: seq<PairStats>)
      requires ValidWith(limbo) && i < |draining|
      ensures draining[i] !in pool && forall j :: 0 <= j < |draining| && j != i ==> draining[j] != draining[i]
    {
      DistinctDraining(pool, draining, limbo, i);
      DrainingIsIdle(pool, draining, limbo, i);
    }

    /** Draining pairs past the timeout are force-closed, and no others. */
    method EnforceDrainTimeout(now: int)
      requires Valid()
      modifies draining`inActivePool, draining`forceClosed, draining`closings
      ensures Valid()
      ensures forall ps :: ps in draining ==> ps.Flags() == old(ps.Flags()).Take(Checked(now), drainTimeout)
      ensures forall ps :: ps in draining ==>
        (ps.forceClosed <==>
          || old(ps.forceClosed)
          || (if ps.drainStartedAt.None? then 0 else now - ps.drainStartedAt.value) >= drainTimeout)
      ensures Idle() == old(Idle()) && WeakPairs() == old(WeakPairs())
    {
      hide Within, ValidWith;
      for i := 0 to |draining|
        invariant Valid()
        invariant forall j :: 0 <= j < i ==>
          draining[j].Flags() == old(draining[j].Flags()).Take(Checked(now), drainTimeout)
        invariant forall j :: i <= j < |draining| ==> draining[j].forceClosed == old(draining[j].forceClosed)
      {
        DrainingOnce(i, []);
        if draining[i].DrainAge(now) >= drainTimeout {
          CloseHeld(draining[i], i, []);
        }
      }
    }

    method Unflag(ps: PairStats)
      requires explorer.Valid()
      modifies ps`inActivePool
      ensures explorer.Valid() && !ps.inActivePool
    {
      hide Within;
      ps.inActivePool := false;
    }

    /** The draining pairs that still have connections; the others lose their flag. */
    method KeepBusy() returns (still: seq<PairStats>)
      requires explorer.Valid() && NoDup(draining)
      modifies draining`inActivePool
      ensures explorer.Valid() && still == Without(draining, old(Idle()))
      ensures forall ps :: ps in draining && ps.activeConnections <= 0 ==> !ps.inActivePool
    {
      hide Within, CombinationExplorer.Valid;
      ghost var idle := Idle();
      still := [];
      for i := 0 to |draining|
        invariant explorer.Valid()
        invariant still == Without(draining[..i], idle)
        invariant forall j :: 0 <= j < i ==> draining[j].activeConnections > 0 || !draining[j].inActivePool
      {
        assert draining[..i + 1][..i] == draining[..i];
        assert draining[i] in idle <==> draining[i].activeConnections <= 0;
        if draining[i].activeConnections > 0 {
          still := still + [draining[i]];
        } else {
          Unflag(draining[i]);
        }
      }
      assert draining[..|draining|] == draining;
    }

    /** The draining pairs without connections. */
    function Idle(): set<PairStats>
      reads this`draining, draining
    {
      set ps | ps in draining && ps.activeConnections <= 0
    }

    /** A draining pair leaves exactly when its last connection is gone. */
    method DropDrained()
      requires Valid()
      modifies this`draining, draining`inActivePool
      ensures Valid()
      ensures draining == old(Without(draining, Idle())) && WeakPairs() == old(WeakPairs())
      ensures forall ps :: ps in old(draining) ==> (ps in draining <==> ps.activeConnections > 0)
      ensures forall j :: 0 <= j < |draining| ==> draining[j] in old(draining)
    {
      hide Within, CombinationExplorer.Valid, Without, IsWeak;
      assert pool + draining + [] == pool + draining;
      forall i | 0 <= i < |draining| ensures draining[i] !in pool {
        DrainingIsIdle(pool, draining, [], i);
      }
      DrainingIsNoDup(pool, draining);
      WithoutNoDup(draining, Idle());
      var still := KeepBusy();
      assert forall ps :: ps in still <==> ps in Elems(still);
      SomeStay(pool, draining, still);
      draining := still;
      assert pool + draining + [] == pool + draining;
    }

    /** The pair that has been draining longest. */
    method Oldest(now: int) returns (oldest: nat)
      requires draining != []
      ensures oldest == FirstOldest(FlagsOf(draining), now)
    {
      oldest := 0;
      for i := 1 to |draining|
        invariant oldest == FirstOldest(FlagsOf(draining)[..i], now)
      {
        assert FlagsOf(draining)[..i + 1][..i] == FlagsOf(draining)[..i];
        if draining[i].DrainAge(now) > draining[oldest].DrainAge(now) {
          oldest := i;
        }
      }
      assert FlagsOf(draining)[..|draining|] == FlagsOf(draining);
    }

    /** At the drain cap the pair that has been draining longest is force-closed, but it stays listed. */
    method MakeRoom(now: int, ghost limbo: seq<PairStats>)
      requires ValidWith(limbo)
      modifies draining`inActivePool, draining`forceClosed, draining`closings
      ensures ValidWith(limbo) && FlagsOf(draining) == RoomMade(old(FlagsOf(draining)), now, maxDraining, drainTimeout)
    {
      hide Within, FirstOldest, FlagsOf, ValidWith;
      if |draining| >= maxDraining && draining != [] {
        var oldest := Oldest(now);
        DrainingOnce(oldest, limbo);
        CloseHeld(draining[oldest], oldest, limbo);
      }
    }

    /** startDraining: room is made if need be, and the pair is appended in any case. */
    method StartDraining(ps: PairStats, now: int, ghost limbo: seq<PairStats>)
      requires ValidWith([ps] + limbo)
      modifies this`draining, ps`drainStartedAt, draining`inActivePool, draining`forceClosed, draining`closings
      ensures ValidWith(limbo) && draining == old(draining) + [ps]
      ensures FlagsOf(draining) == Joining(old(FlagsOf(draining)), old(ps.Flags()), now, maxDraining, drainTimeout)
    {
      hide Within, RoomMade, FlagsOf, ValidWith;
      Stamp(ps, now, limbo);
      MakeRoom(now, [ps] + limbo);
      Append(ps, limbo);
    }

    method Stamp(ps: PairStats, now: int, ghost limbo: seq<PairStats>)
      requires ValidWith([ps] + limbo)
      modifies ps`drainStartedAt
      ensures ValidWith([ps] + limbo) && FlagsOf(draining) == old(FlagsOf(draining)) && ps !in draining
      ensures forall timeout :: ps.Flags() == old(ps.Flags()).Take(Starts(now), timeout)
    {
      hide Within, FlagsOf;
      forall i | 0 <= i < |draining| ensures draining[i] != ps {
        DrainingIsIdle(pool, draining, [ps] + limbo, i);
      }
      ghost var flags := FlagsOf(draining);
      ps.StartDraining(now);
      assert FlagsOf(draining) == flags;
    }

    method Append(ps: PairStats, ghost limbo: seq<PairStats>)
      requires ValidWith([ps] + limbo)
      modifies this`draining
      ensures ValidWith(limbo) && draining == old(draining) + [ps]
    {
      hide Within;
      JoinDraining(pool, draining, ps, limbo);
      assert ps in pool + draining + ([ps] + limbo);
      draining := draining + [ps];
    }

    function WeakPairs(): set<PairStats>
      reads this`pool, pool
    {
      set ps | ps in pool && IsWeak(ps)
    }

    lemma WeakMeans()
      ensures forall ps :: ps in pool ==> (IsWeak(ps) <==> !(ps.alive && ps.CombinedLossRate() < lossThreshold))
    {
    }

    method SplitWeak() returns (remaining: seq<PairStats>, weak: seq<PairStats>)
      requires Valid()
      ensures remaining == Without(pool, WeakPairs()) && weak == Without(pool, Elems(pool) - WeakPairs())
      ensures |remaining| <= slots && NoDup(remaining + draining + weak)
      ensures forall ps :: ps in remaining ==> ps in pool && !IsWeak(ps)
      ensures forall ps :: ps in weak ==> ps in pool && IsWeak(ps)
      ensures forall ps :: ps in pool ==> ps in remaining || ps in weak
    {
      hide Within;
      ghost var weakOnes := WeakPairs();
      ghost var others := Elems(pool) - weakOnes;
      assert pool + draining + [] == pool + draining;
      remaining, weak := [], [];
      for i := 0 to |pool|
        invariant remaining == Without(pool[..i], weakOnes) && weak == Without(pool[..i], others)
      {
        assert pool[..i + 1][..i] == pool[..i];
        assert pool[i] in Elems(pool);
        if IsWeak(pool[i]) {
          weak := weak + [pool[i]];
        } else {
          remaining := remaining + [pool[i]];
        }
      }
      assert pool[..|pool|] == pool;
      PoolIsNoDup(pool, draining);
      WithoutNoDup(pool, weakOnes);
      WithoutNoDup(pool, others);
      SplitPool(pool, draining, remaining, weak, weakOnes);
      assert Elems(remaining) == Elems(pool) - weakOnes && Elems(weak) == weakOnes;
      assert forall ps :: ps in remaining <==> ps in Elems(remaining);
      assert forall ps :: ps in weak <==> ps in Elems(weak);
    }

    /** Weak pairs leave service and join the draining ones, the rest stay, all in their order. */
    method MoveWeak(now: int) returns (ghost weak: seq<PairStats>)
      requires Valid()
      modifies this`pool, this`draining, pool`drainStartedAt, pool`inActivePool, pool`forceClosed, pool`closings,
               draining`inActivePool, draining`forceClosed, draining`closings
      ensures Valid()
      ensures pool == old(Without(pool, WeakPairs())) && weak == old(Without(pool, Elems(pool) - WeakPairs()))
      ensures forall ps :: ps in weak <==> ps in old(pool) && !old(ps.alive && ps.CombinedLossRate() < lossThreshold)
      ensures forall ps :: ps in old(pool) ==>
        if old(ps.alive && ps.CombinedLossRate() < lossThreshold) then ps in pool else ps in draining && ps !in pool
      ensures forall ps :: ps in pool ==> ps in old(pool) && ps.Flags() == old(ps.Flags())
      ensures draining == old(draining) + weak
      ensures FlagsOf(draining) ==
        AllJoined(old(FlagsOf(draining)), old(FlagsOf(weak)), now, maxDraining, drainTimeout)
    {
      hide Within, Without, IsWeak, ValidWith, AllJoined, FlagsOf, PairStats.CombinedLossRate;
      HeldFacts();
      WeakMeans();
      var remaining, leaving := SplitWeak();
      weak := leaving;
      Retire(remaining, leaving);
      assert forall j :: 0 <= j < |leaving| ==> leaving[j] in leaving && leaving[j] in old(pool);
      DrainAll(leaving, now);
    }

    lemma Retired(remaining: seq<PairStats>, weak: seq<PairStats>)
      requires Valid() && |remaining| <= slots && NoDup(remaining + draining + weak)
      requires forall ps :: ps in pool <==> ps in remaining || ps in weak
      ensures forall ps :: ps in remaining + draining + weak ==> explorer.InTable(ps)
      ensures forall k :: k in explorer.stats ==> explorer.stats[k].inActivePool ==>
            explorer.stats[k] in remaining || explorer.stats[k] in draining || explorer.stats[k] in weak
    {
      hide Within;
      assert forall ps :: ps in remaining + draining + weak ==> ps in pool + draining + [];
    }

    /** The weak pairs are out of service, on their way to draining. */
    method Retire(remaining: seq<PairStats>, ghost weak: seq<PairStats>)
      requires Valid() && |remaining| <= slots && NoDup(remaining + draining + weak)
      requires forall ps :: ps in pool <==> ps in remaining || ps in weak
      modifies this`pool
      ensures ValidWith(weak) && pool == remaining
    {
      hide Within;
      Retired(remaining, weak);
      pool := remaining;
    }

    /** Pairs that have just left service start draining, one after the other. */
    method DrainAll(weak: seq<PairStats>, now: int)
      requires ValidWith(weak)
      modifies this`draining, weak`drainStartedAt, weak`inActivePool, weak`forceClosed, weak`closings,
               draining`inActivePool, draining`forceClosed, draining`closings
      ensures Valid() && draining == old(draining) + weak
      ensures forall ps :: ps in pool ==> ps.Flags() == old(ps.Flags())
      ensures FlagsOf(draining) ==
        AllJoined(old(FlagsOf(draining)), old(FlagsOf(weak)), now, maxDraining, drainTimeout)
    {
      hide Within, ValidWith, Joining, FlagsOf;
      assert weak[0..] == weak;
      PoolStaysApart(weak);
      ghost var flags := FlagsOf(weak);
      for i := 0 to |weak|
        invariant ValidWith(weak[i..]) && draining == old(draining) + weak[..i]
        invariant forall j :: i <= j < |weak| ==> weak[j].Flags() == flags[j]
        invariant FlagsOf(draining) == AllJoined(old(FlagsOf(draining)), flags[..i], now, maxDraining, drainTimeout)
      {
        assert weak[i..] == [weak[i]] + weak[i + 1..];
        OthersApart(weak, i);
        assert flags[..i + 1][..i] == flags[..i];
        StartDraining(weak[i], now, weak[i + 1..]);
      }
      assert draining == old(draining) + weak && weak[|weak|..] == [] && flags[..|weak|] == flags;
    }

    lemma PoolStaysApart(weak: seq<PairStats>)
      requires ValidWith(weak)
      ensures forall ps :: ps in pool ==> ps !in draining && ps !in weak
    {
      Apart(pool, draining, weak);
      assert forall ps :: ps in pool ==> ps in Elems(pool);
    }

    lemma OthersApart(weak: seq<PairStats>, i: nat)
      requires i < |weak| && ValidWith(weak[i..])
      ensures weak[i] !in draining
      ensures forall j :: i < j < |weak| ==> weak[j] != weak[i] && weak[j] !in draining
    {
      Apart(pool, draining, weak[i..]);
      var all := pool + draining + weak[i..];
      assert forall j :: i <= j < |weak| ==> weak[j] == weak[i..][j - i] && weak[j] in Elems(weak[i..]);
      assert forall j :: i <= j < |weak| ==> all[|pool| + |draining| + (j - i)] == weak[j];
    }

    /** The candidates not held already. */
    method FreeCandidates() returns (free: seq<PairStats>)
      requires Valid()
      ensures NoDup(free)
      ensures forall ps :: ps in free ==> explorer.InTable(ps) && !Holds(ps)
      ensures forall k :: k in explorer.stats ==>
        (explorer.stats[k] in free <==> IsEligible(explorer.stats[k]) && !Holds(explorer.stats[k]))
    {
      var candidates := Candidates();
      hide Within, IsEligible;
      free := [];
      for i := 0 to |candidates|
        invariant NoDup(free) && forall ps :: ps in free ==> ps in candidates[..i] && !Holds(ps)
        invariant forall j :: 0 <= j < i ==> (candidates[j] in free <==> !Holds(candidates[j]))
      {
        assert candidates[i] !in candidates[..i];
        if !Holds(candidates[i]) {
          free := free + [candidates[i]];
        }
      }
    }

    /** Eligibility does not depend on flags or service. */
    twostate lemma EligibleStill(ps: PairStats)
      requires old(explorer.Valid()) && explorer.Valid() && explorer.stats == old(explorer.stats)
      requires forall p: PairStats :: p in explorer.stats.Values || p == ps ==>
        p.IsKnown() == old(p.IsKnown()) && explorer.IsStable(p) == old(explorer.IsStable(p))
      ensures IsEligible(ps) == old(IsEligible(ps))
    {
    }

    /** Empty slots are filled from the free candidates, at most half of them (rounded up) at a time. */
    method FillSlots() returns (ghost free: seq<PairStats>)
      requires Valid()
      modifies this`pool, explorer.stats.Values`inActivePool
      ensures Valid() && old(pool) <= pool
      ensures NoDup(free) && forall ps :: ps in free ==> explorer.InTable(ps)
      ensures forall k :: k in explorer.stats ==>
        (explorer.stats[k] in free <==> IsEligible(explorer.stats[k]) && !old(Holds(explorer.stats[k])))
      ensures |pool| == |old(pool)| + Min(slots - |old(pool)|, (|free| + 1) / 2)
      ensures forall ps :: ps in pool[|old(pool)|..] ==> ps in free
    {
      hide Within, IsEligible, DrawAll, FullUrn, ValidWith, CombinationExplorer.Valid;
      CapHolds();
      var idle := FreeCandidates();
      free := idle;
      var needed := slots - |pool|;
      var chosen, _ := WeightedChoices(idle, needed);
      forall j | 0 <= j < |chosen| ensures chosen[j] in idle && chosen[j] in explorer.stats.Values {
        assert chosen[j] in Elems(idle);
        assert explorer.stats[chosen[j].Key()] == chosen[j];
      }
      Enter(chosen);
    }

    /** ProtectedIPs / ProtectedSNIs: every name that carries a held pair. */
    function Protected(a: Axis): set<string>
      reads this
    {
      set ps | ps in pool + draining :: Coord(ps.Key(), a)
    }

    /** Evicting an unprotected name takes no held pair with it. */
    lemma EvictionSparesHeld(before: map<PairKey, PairStats>, a: Axis, x: string)
      requires x !in Protected(a)
      requires forall ps :: ps in pool + draining ==> ps.Key() in before && before[ps.Key()] == ps
      requires explorer.stats == before - Carrying(before.Keys, a, {x})
      ensures forall ps :: ps in pool + draining ==> explorer.InTable(ps)
    {
    }

    /** No unprotected name of the axis has a mean loss at or above the threshold. */
    ghost predicate NoneIsWeak(a: Axis, protected: set<string>)
      reads explorer, explorer.stats.Values
    {
      IsChoice(None, explorer.Losses(a, protected, config.On(a).scope), a, explorer.lossThreshold)
    }

    /** The same, among the stored pairs with these keys. */
    ghost predicate Spent(table: map<PairKey, PairStats>, keys: set<PairKey>, a: Axis)
      reads this, table.Values
    {
      IsChoice(None, LossesOf(table, keys, a, Protected(a), config.On(a).scope), a, explorer.lossThreshold)
    }

    lemma SpentNow(table: map<PairKey, PairStats>, a: Axis)
      requires forall k :: k in explorer.stats ==> k in table && table[k] == explorer.stats[k]
      requires NoneIsWeak(a, Protected(a))
      ensures Spent(table, explorer.stats.Keys, a)
    {
      var scope := config.On(a).scope;
      assert LossesOf(table, explorer.stats.Keys, a, Protected(a), scope) == explorer.Losses(a, Protected(a), scope);
      hide IsChoice;
    }

    ghost predicate DueToEvict(a: Axis)
      requires config.Runnable()
      reads this
    {
      (a.IPs? || config.snis.evictEvery > 0) && Due(config.On(a).evictEvery)
    }

    ghost predicate DueToRecycle(a: Axis)
      requires config.Runnable()
      reads this
    {
      config.On(a).recycleEnabled && Due(config.On(a).recycleEvery)
    }

    /** If due, the configured number of evictions, or fewer because no unprotected name was weak any more; each with its
        sweep, and nothing else. */
    ghost predicate EvictsAsDue(a: Axis, table: map<PairKey, PairStats>, phase: Phase, from: int)
      requires config.Runnable()
      reads this, table.Values
    {
      && IsCycle(phase.steps, from, phase.until)
      && if !DueToEvict(a) then phase.steps == []
         else
           || Evictions(phase.steps) == Max(0, config.On(a).evictCount)
           || (Evictions(phase.steps) < config.On(a).evictCount && Spent(table, phase.end.keys, a))
    }

    /** If due, a trim to the cap, then a try for each of as many eligible names as the batch allows. */
    ghost predicate RecyclesAsDue(a: Axis, st: State, phase: Phase, from: int)
      requires config.Runnable()
      reads this
    {
      if !DueToRecycle(a) then phase.steps == [] && from <= phase.until
      else
        && phase.steps != [] && phase.steps[0].Trim? && phase.steps[0].a == a
        && IsRecyclePass(a, st.On(a).quarantine, phase.steps[0].dropped, phase.steps[1..], from, phase.until)
    }

    ghost predicate IsRecyclePass(a: Axis, before: map<string, Quarantined>, dropped: set<string>, tries: seq<Step>,
                                  from: int, until: int)
    {
      var c := config.On(a);
      var eligible := Eligible(before - dropped, c.recycleMinCooldown, c.scope, from);
      && IsTrim(before, before - dropped, dropped, c.recycleMaxQuarantine)
      && IsPass(tries, a, c.recycleMinCooldown, from, until)
      && NoDup(Tried(tries)) && Elems(Tried(tries)) <= eligible
      && |Tried(tries)| == Min(c.recycleBatch, |eligible|)
    }

    /** What the table half of a refresh does to the explorer, phase by phase, each from where and when the one before it
        was through. */
    ghost predicate IsTrace(t: Trace, st: State, end: State, table: map<PairKey, PairStats>, now: int)
      requires config.Runnable()
      reads this, table.Values
    {
      && IsRun(st, t.evictIPs.steps, t.evictIPs.end) && EvictsAsDue(IPs, table, t.evictIPs, now)
      && IsRun(t.evictIPs.end, t.evictSNIs.steps, t.evictSNIs.end)
      && EvictsAsDue(SNIs, table, t.evictSNIs, t.evictIPs.until)
      && IsRun(t.evictSNIs.end, t.recycleIPs.steps, t.recycleIPs.end)
      && RecyclesAsDue(IPs, t.evictSNIs.end, t.recycleIPs, t.evictSNIs.until)
      && IsRun(t.recycleIPs.end, t.recycleSNIs.steps, t.recycleSNIs.end)
      && RecyclesAsDue(SNIs, t.recycleIPs.end, t.recycleSNIs, t.recycleIPs.until)
      && IsRun(t.recycleSNIs.end, t.Sweeps(), end)
    }

    // ---- what a trace comes to ----

    lemma CycleFacts(a: Axis, table: map<PairKey, PairStats>, phase: Phase, from: int)
      requires config.Runnable() && EvictsAsDue(a, table, phase, from)
      ensures Timed(phase.steps, from, phase.until) && Forgotten(phase.steps) == NOTHING
      ensures forall s :: s in phase.steps ==> Conserves(s) && Internal(s)
    {
      hide Timed, Evictions, Spent;
      ConservingForgetsNothing(phase.steps);
    }

    lemma PassFacts(a: Axis, st: State, phase: Phase, from: int)
      requires config.Runnable() && RecyclesAsDue(a, st, phase, from)
      ensures Timed(phase.steps, from, phase.until) && (!DueToRecycle(a) ==> Forgotten(phase.steps) == NOTHING)
      ensures forall s :: s in phase.steps ==> Internal(s)
      ensures DueToRecycle(a) ==> Forgotten(phase.steps) == OnAxis(a, phase.steps[0].dropped)
    {
      hide Timed, IsTrim, NoDup, Tried, Elems, Eligible;
      if DueToRecycle(a) {
        var trim, tries := phase.steps[0], phase.steps[1..];
        assert phase.steps == [trim] + tries;
        ConservingForgetsNothing(tries);
        PlusNothing(OnAxis(a, trim.dropped));
        OneTimed(trim, from, from);
        TimedConcat([trim], tries, from, from, phase.until);
      } else {
        NothingTimed(from, phase.until);
      }
    }

    lemma NothingTimed(from: int, until: int)
      requires from <= until
      ensures Timed([], from, until)
    {
    }

    /** As a whole it is a run of the explorer's own steps on a clock that never runs backwards, and it forgets exactly what
        its two trims drop, so nothing when no recycling is due. */
    lemma TraceFacts(t: Trace, st: State, end: State, table: map<PairKey, PairStats>, now: int)
      requires config.Runnable() && IsTrace(t, st, end, table, now)
      ensures IsRun(st, t.Steps(), end) && Timed(t.Steps(), now, t.Until()) && Forgotten(t.Steps()) == t.Dropped()
      ensures forall s :: s in t.Steps() ==> Internal(s)
      ensures (forall a :: !DueToRecycle(a)) ==> t.Dropped() == NOTHING
    {
      var p, q, r, s := t.evictIPs, t.evictSNIs, t.recycleIPs, t.recycleSNIs;
      hide IsRun, Timed, EvictsAsDue, RecyclesAsDue, Forgotten, Internal, DueToRecycle;
      CycleFacts(IPs, table, p, now);
      CycleFacts(SNIs, table, q, p.until);
      PassFacts(IPs, q.end, r, q.until);
      PassFacts(SNIs, r.end, s, r.until);
      SweepFacts(t.Until());
      RunsConcat(st, p.steps, p.end, q.steps, q.end);
      RunsConcat(q.end, r.steps, r.end, s.steps, s.end);
      RunsConcat(st, p.steps + q.steps, q.end, r.steps + s.steps, s.end);
      RunsConcat(st, p.steps + q.steps + (r.steps + s.steps), s.end, t.Sweeps(), end);
      TimedConcat(p.steps, q.steps, now, p.until, q.until);
      TimedConcat(r.steps, s.steps, q.until, r.until, s.until);
      TimedConcat(p.steps + q.steps, r.steps + s.steps, now, q.until, s.until);
      TimedConcat(p.steps + q.steps + (r.steps + s.steps), t.Sweeps(), now, s.until, s.until);
      ForgottenConcat(p.steps, q.steps);
      ForgottenConcat(r.steps, s.steps);
      ForgottenConcat(p.steps + q.steps, r.steps + s.steps);
      ForgottenConcat(p.steps + q.steps + (r.steps + s.steps), t.Sweeps());
      PlusNothing(NOTHING);
      PlusNothing(t.Dropped());
    }

    lemma SweepFacts(at: int)
      ensures var sweeps := [Sweep(IPs, at), Sweep(SNIs, at)];
        Timed(sweeps, at, at) && Forgotten(sweeps) == NOTHING && forall s :: s in sweeps ==> Conserves(s) && Internal(s)
    {
      TwoTimed(Sweep(IPs, at), Sweep(SNIs, at), at, at);
      ConservingForgetsNothing([Sweep(IPs, at), Sweep(SNIs, at)]);
    }

    /** One eviction, sparing the protected names and with them every pair held. */
    method EvictOne(a: Axis, protected: set<string>, now: int) returns (evicted: Option<string>, ghost steps: seq<Step>)
      requires Valid() && protected == Protected(a)
      modifies explorer`stats, explorer`unexplored, explorer`ips, explorer`snis
      ensures Valid() && IsRun(old(explorer.Abs()), steps, explorer.Abs())
      ensures forall k :: k in explorer.stats ==> k in old(explorer.stats) && explorer.stats[k] == old(explorer.stats)[k]
      ensures match evicted
        case None => steps == [] && NoneIsWeak(a, protected) && explorer.stats == old(explorer.stats)
        case Some(x) =>
          && |steps| == 2 && steps[0].Evict? && steps[0].a == a && steps[0].x == x && steps[1].Sweep?
          && steps[0].t == now == steps[1].t
    {
      hide Within, IsRun, IsChoice, Forgotten, Carrying;
      ghost var before := explorer.stats;
      assert pool + draining + [] == pool + draining;
      evicted, steps := explorer.EvictWeakest(a, protected, config.On(a).scope, now);
      if evicted.Some? {
        EvictionSparesHeld(before, a, evicted.value);
      }
    }

    /** The eviction cycle of one axis, up to the configured number of names. */
    method EvictCycle(a: Axis, now: int) returns (later: int, ghost steps: seq<Step>)
      requires Valid()
      modifies explorer`stats, explorer`unexplored, explorer`ips, explorer`snis
      ensures Valid() && IsRun(old(explorer.Abs()), steps, explorer.Abs()) && IsCycle(steps, now, later)
      ensures forall k :: k in explorer.stats ==> k in old(explorer.stats) && explorer.stats[k] == old(explorer.stats)[k]
      ensures Evictions(steps) == Max(0, config.On(a).evictCount)
        || (Evictions(steps) < config.On(a).evictCount && NoneIsWeak(a, Protected(a)))
      ensures steps == [] ==> explorer.stats == old(explorer.stats)
    {
      hide Valid, Within, IsRun, Protected, IsCycle, NoneIsWeak, Evictions;
      NoEvictions(now);
      later, steps := now, [];
      EmptyRun(explorer.Abs());
      var protected := Protected(a);
      var i := 0;
      while i < config.On(a).evictCount
        invariant Valid() && IsRun(old(explorer.Abs()), steps, explorer.Abs()) && protected == Protected(a)
        invariant 0 <= i <= Max(0, config.On(a).evictCount) && Evictions(steps) == i && IsCycle(steps, now, later)
        invariant steps == [] ==> explorer.stats == old(explorer.stats)
        invariant forall k :: k in explorer.stats ==>
          k in old(explorer.stats) && explorer.stats[k] == old(explorer.stats)[k]
      {
        ghost var mid := explorer.Abs();
        var t :| later <= t;
        var evicted;
        ghost var more;
        evicted, more := EvictOne(a, protected, t);
        RunsConcat(old(explorer.Abs()), steps, mid, more, explorer.Abs());
        if evicted.None? {
          assert steps + more == steps;
          break;
        }
        EvictionsGrow(steps, more, now, later, t);
        steps, later := steps + more, t;
        i := i + 1;
      }
    }

    /** The recycling cycle of one axis. */
    method RecycleCycle(a: Axis, now: int)
      returns (later: int, ghost steps: seq<Step>, ghost dropped: set<string>)
      requires Valid()
      modifies explorer`stats, explorer`unexplored, explorer`ips, explorer`snis, explorer`lost
      ensures Valid() && IsRun(old(explorer.Abs()), [Trim(a, dropped)] + steps, explorer.Abs())
      ensures IsRecyclePass(a, old(explorer.On(a)).quarantine, dropped, steps, now, later)
      ensures explorer.lost == old(explorer.lost).Plus(OnAxis(a, dropped))
      ensures old(explorer.stats).Keys <= explorer.stats.Keys
        && forall k :: k in old(explorer.stats) ==> explorer.stats[k] == old(explorer.stats)[k]
      ensures forall k :: k in explorer.stats && k !in old(explorer.stats) ==>
        fresh(explorer.stats[k]) && Unused(explorer.stats[k])
    {
      hide Within, IsRun, IsTrim, IsPass, Tried, Eligible;
      assert pool + draining + [] == pool + draining;
      assert forall ps :: ps in pool + draining ==> explorer.InTable(ps);
      var c := config.On(a);
      var recovered;
      recovered, later, steps, dropped :=
        explorer.RecycleAttempt(a, c.recycleBatch, c.recycleMinCooldown, c.recycleMaxQuarantine, c.scope, now);
      EligibleMeans(old(explorer.On(a)).quarantine, dropped, c.recycleMinCooldown, c.scope, now);
    }

    /** No axis knows more names than its quarantine may hold. */
    ghost predicate NoOverflow(st: State)
      reads this
    {
      forall a :: |st.On(a).Known()| <= config.On(a).recycleMaxQuarantine
    }

    ghost predicate WithinCap(a: Axis, st: State)
      reads this
    {
      |st.On(a).quarantine| <= config.On(a).recycleMaxQuarantine
    }

    /** A quarantine within its cap loses nothing to recycling. */
    lemma NothingToTrim(a: Axis, st: State, phase: Phase, from: int)
      requires config.Runnable() && RecyclesAsDue(a, st, phase, from)
      requires WithinCap(a, st)
      ensures Forgotten(phase.steps) == NOTHING
    {
      PassFacts(a, st, phase, from);
      hide IsPass, NoDup, Tried, Elems, Eligible;
      if DueToRecycle(a) {
        assert |phase.steps[0].dropped| == 0;
        assert phase.steps[0].dropped == {};
      }
    }

    lemma RoomForAll(st: State, mid: State)
      requires SameNames(st, mid) && NoOverflow(st)
      ensures forall a :: WithinCap(a, mid)
    {
      hide Within;
      forall a ensures WithinCap(a, mid) {
        assert |mid.On(a).Known()| == |st.On(a).Known()| <= config.On(a).recycleMaxQuarantine;
        QuarantineIsKnown(mid, a);
      }
    }

    lemma CalmTrace(t: Trace, st: State, end: State, table: map<PairKey, PairStats>, now: int)
      requires config.Runnable() && Joint(st) && NoOverflow(st) && IsTrace(t, st, end, table, now)
      ensures t.Dropped() == NOTHING
    {
      var p, q, r, s := t.evictIPs, t.evictSNIs, t.recycleIPs, t.recycleSNIs;
      hide IsRun, Timed, EvictsAsDue, RecyclesAsDue, Forgotten, Internal, DueToRecycle, Within, SameNames, NoOverflow;
      CycleFacts(IPs, table, p, now);
      CycleFacts(SNIs, table, q, p.until);
      PassFacts(IPs, q.end, r, q.until);
      RunsConcat(st, p.steps, p.end, q.steps, q.end);
      ForgottenConcat(p.steps, q.steps);
      PlusNothing(NOTHING);
      KeepsAllNames(st, p.steps + q.steps, q.end);
      RoomForAll(st, q.end);
      NothingToTrim(IPs, q.end, r, q.until);
      RunsConcat(st, p.steps + q.steps, q.end, r.steps, r.end);
      ForgottenConcat(p.steps + q.steps, r.steps);
      KeepsAllNames(st, p.steps + q.steps + r.steps, r.end);
      RoomForAll(st, r.end);
      NothingToTrim(SNIs, r.end, s, r.until);
    }

    /** Held pairs are stored, and no pair is held twice. */
    lemma HeldFacts()
      requires Valid()
      ensures forall j :: 0 <= j < |pool| ==> pool[j] in explorer.stats.Values
      ensures forall j :: 0 <= j < |draining| ==> draining[j] in explorer.stats.Values && draining[j] !in pool
      ensures explorer.Valid()
    {
      forall j | 0 <= j < |pool| ensures pool[j] in explorer.stats.Values {
        assert pool[j] in pool + draining + [];
        assert explorer.stats[pool[j].Key()] == pool[j];
      }
      forall j | 0 <= j < |draining| ensures draining[j] in explorer.stats.Values && draining[j] !in pool {
        DrainingIsIdle(pool, draining, [], j);
        assert draining[j] in pool + draining + [];
        assert explorer.stats[draining[j].Key()] == draining[j];
      }
    }

    function EligiblePairs(): set<PairStats>
      requires explorer.Valid()
      reads this, explorer, explorer.stats.Values
    {
      set k | k in explorer.stats && IsEligible(explorer.stats[k]) :: explorer.stats[k]
    }

    /** The pool after a refresh: the pairs kept, then eligible pairs not held, at most half of them (rounded up). */
    ghost predicate IsFilled(kept: seq<PairStats>, free: seq<PairStats>, eligible: set<PairStats>)
      reads this
    {
      && kept <= pool && NoDup(free)
      && Elems(free) == eligible - Elems(kept) - Elems(draining)
      && |pool| == |kept| + Min(slots - |kept|, (|free| + 1) / 2)
      && forall ps :: ps in pool[|kept|..] ==> ps in free
    }

    lemma FilledFrom(kept: seq<PairStats>, free: seq<PairStats>)
      requires explorer.Valid()
      requires forall ps :: ps in free ==> explorer.InTable(ps)
      requires forall k :: k in explorer.stats ==>
        (explorer.stats[k] in free <==>
          IsEligible(explorer.stats[k]) && explorer.stats[k] !in kept && explorer.stats[k] !in draining)
      ensures Elems(free) == EligiblePairs() - Elems(kept) - Elems(draining)
    {
      hide IsEligible, Within;
      forall ps | ps in free ensures ps in EligiblePairs() && ps !in kept && ps !in draining {
        assert explorer.stats[ps.Key()] == ps;
      }
    }

    twostate lemma EligiblePairsStill()
      requires old(explorer.Valid()) && explorer.Valid() && explorer.stats == old(explorer.stats)
      requires forall p: PairStats :: p in explorer.stats.Values ==>
        p.IsKnown() == old(p.IsKnown()) && explorer.IsStable(p) == old(explorer.IsStable(p))
      ensures EligiblePairs() == old(EligiblePairs())
    {
      forall k | k in explorer.stats ensures IsEligible(explorer.stats[k]) == old(IsEligible(explorer.stats[k])) {
        EligibleStill(explorer.stats[k]);
      }
      hide IsEligible;
    }

    /** Who leaves draining, who is force-closed, who leaves service. */
    method RefreshHeld(now: int) returns (ghost busy: seq<PairStats>, ghost weak: seq<PairStats>)
      requires Valid()
      modifies this`pool, this`draining, this`refreshCount, explorer.stats.Values`inActivePool,
               explorer.stats.Values`forceClosed, explorer.stats.Values`closings, explorer.stats.Values`drainStartedAt
      ensures Valid() && refreshCount == old(refreshCount) + 1
      ensures busy == old(Without(draining, Idle())) && weak == old(Without(pool, Elems(pool) - WeakPairs()))
      ensures draining == busy + weak
      ensures FlagsOf(draining) ==
        AllJoined(AllChecked(old(FlagsOf(busy)), now, drainTimeout), old(FlagsOf(weak)), now, maxDraining, drainTimeout)
      ensures forall ps :: ps in old(draining) ==>
        && (ps in draining <==> ps.activeConnections > 0)
        && (ps !in draining ==> ps.Flags() == old(ps.Flags()).Take(Checked(now), drainTimeout))
      ensures forall ps :: ps in old(pool) ==>
        if old(ps.alive && ps.CombinedLossRate() < lossThreshold)
        then ps in pool && ps.Flags() == old(ps.Flags())
        else ps in draining && ps !in pool
      ensures forall ps :: ps in pool ==> ps in old(pool)
      ensures forall k :: k in explorer.stats && !old(Holds(explorer.stats[k])) ==>
        explorer.stats[k].Flags() == old(explorer.stats[k].Flags())
      ensures explorer.Valid()
    {
      hide Within, IsEligible, IsWeak, ValidWith, Without, CombinationExplorer.Valid, AllJoined, Idle, WeakPairs, FlagsOf;
      HeldFacts();
      CountRefresh();
      EnforceDrainTimeout(now);
      DropDrained();
      busy := draining;
      HeldFacts();
      assert FlagsOf(busy) == AllChecked(old(FlagsOf(busy)), now, drainTimeout);
      label Moving:
      weak := MoveWeak(now);
      assert old@Moving(FlagsOf(weak)) == old(FlagsOf(weak));
      HeldFacts();
    }

    /** The count is no part of the invariant. */
    method CountRefresh()
      requires Valid()
      modifies this`refreshCount
      ensures Valid() && refreshCount == old(refreshCount) + 1
    {
      hide Within;
      refreshCount := refreshCount + 1;
    }

    /** The empty slots, filled. */
    method FillFromEligible() returns (ghost free: seq<PairStats>)
      requires Valid()
      modifies this`pool, explorer.stats.Values`inActivePool
      ensures Valid() && explorer.Valid() && IsFilled(old(pool), free, EligiblePairs())
      ensures forall ps :: ps in pool ==> ps in old(pool) || ps in free
      ensures forall ps :: ps in draining ==> ps !in free
    {
      hide Within, IsEligible, EligiblePairs;
      free := FillSlots();
      FilledFrom(old(pool), free);
      assert forall ps :: ps in draining ==> ps in Elems(draining) && ps !in Elems(free);
      assert pool == pool[..|old(pool)|] + pool[|old(pool)|..];
    }

    /** Refresh, first half: what happens to the pairs in service. */
    method RefreshService(now: int)
      returns (ghost busy: seq<PairStats>, ghost weak: seq<PairStats>, ghost kept: seq<PairStats>, ghost free: seq<PairStats>)
      requires Valid()
      modifies this`pool, this`draining, this`refreshCount, explorer.stats.Values`inActivePool,
               explorer.stats.Values`forceClosed, explorer.stats.Values`closings, explorer.stats.Values`drainStartedAt
      ensures Valid() && refreshCount == old(refreshCount) + 1
      ensures busy == old(Without(draining, Idle())) && weak == old(Without(pool, Elems(pool) - WeakPairs()))
      ensures draining == busy + weak
      ensures FlagsOf(draining) ==
        AllJoined(AllChecked(old(FlagsOf(busy)), now, drainTimeout), old(FlagsOf(weak)), now, maxDraining, drainTimeout)
      ensures forall ps :: ps in old(draining) ==>
        && (ps in draining <==> ps.activeConnections > 0)
        && (ps !in draining ==> ps.Flags() == old(ps.Flags()).Take(Checked(now), drainTimeout))
      ensures forall ps :: ps in old(pool) ==>
        if old(ps.alive && ps.CombinedLossRate() < lossThreshold)
        then ps in pool && ps.Flags() == old(ps.Flags())
        else ps in draining && ps !in pool
      ensures forall k :: k in explorer.stats && !old(Holds(explorer.stats[k])) ==>
        explorer.stats[k].Flags() == old(explorer.stats[k].Flags())
      ensures IsFilled(kept, free, old(EligiblePairs())) && forall ps :: ps in pool ==> ps in kept || ps in free
      ensures forall ps :: ps in kept ==> ps in old(pool) && old(ps.alive && ps.CombinedLossRate() < lossThreshold)
    {
      hide Within, IsEligible, ValidWith, IsWeak, EligiblePairs, FlagsOf, AllJoined, Without, Idle, WeakPairs;
      busy, weak := RefreshHeld(now);
      kept := pool;
      free := FillFromEligible();
      EligiblePairsStill();
    }

    /** Due on this refresh. */
    predicate Due(every: int)
      requires every != 0
      reads this
    {
      refreshCount % every == 0
    }

    /** The stored objects are those of an earlier table. */
    ghost predicate StoredIn(table: map<PairKey, PairStats>)
      reads explorer
    {
      forall k :: k in explorer.stats ==> k in table && table[k] == explorer.stats[k]
    }

    /** Periodic eviction of one axis. */
    method EvictIfDue(a: Axis, now: int, ghost table: map<PairKey, PairStats>) returns (later: int, ghost phase: Phase)
      requires Valid() && config.Runnable() && StoredIn(table)
      modifies explorer`stats, explorer`unexplored, explorer`ips, explorer`snis
      ensures Valid() && StoredIn(table) && phase.end == explorer.Abs() && phase.until == later
      ensures IsRun(old(explorer.Abs()), phase.steps, phase.end) && EvictsAsDue(a, table, phase, now)
      ensures phase.steps == [] ==> explorer.stats == old(explorer.stats)
    {
      hide Within, IsRun, ValidWith, IsCycle, NoneIsWeak, Spent, Evictions, Protected;
      ghost var steps := [];
      later := now;
      NoEvictions(now);
      EmptyRun(explorer.Abs());
      if (a.IPs? || config.snis.evictEvery > 0) && Due(config.On(a).evictEvery) {
        later, steps := EvictCycle(a, now);
        if NoneIsWeak(a, Protected(a)) {
          SpentNow(table, a);
        }
      }
      phase := Phase(steps, explorer.Abs(), later);
    }

    /** Periodic recycling of one axis. */
    method RecycleIfDue(a: Axis, now: int) returns (later: int, ghost phase: Phase)
      requires Valid() && config.Runnable()
      modifies explorer`stats, explorer`unexplored, explorer`ips, explorer`snis, explorer`lost
      ensures Valid() && phase.end == explorer.Abs() && phase.until == later
      ensures IsRun(old(explorer.Abs()), phase.steps, phase.end) && RecyclesAsDue(a, old(explorer.Abs()), phase, now)
      ensures OwnRun(old(explorer.Abs()), old(explorer.lost), phase.steps, explorer.Abs(), explorer.lost)
      ensures explorer.lost == old(explorer.lost).Plus(Forgotten(phase.steps))
      ensures WithinCap(a, old(explorer.Abs())) ==> Forgotten(phase.steps) == NOTHING
      ensures phase.steps == [] ==> explorer.stats == old(explorer.stats)
      ensures forall k :: k in explorer.stats ==>
        || (k in old(explorer.stats) && explorer.stats[k] == old(explorer.stats)[k])
        || (fresh(explorer.stats[k]) && Unused(explorer.stats[k]))
    {
      hide Within, IsRun, ValidWith, IsTrim, IsRecyclePass, Forgotten, Unused;
      ghost var mid := explorer.Abs();
      later := now;
      EmptyRun(mid);
      PlusNothing(explorer.lost);
      phase := Phase([], mid, now);
      if config.On(a).recycleEnabled && Due(config.On(a).recycleEvery) {
        ghost var more, dropped;
        later, more, dropped := RecycleCycle(a, now);
        assert ([Trim(a, dropped)] + more)[1..] == more;
        phase := Phase([Trim(a, dropped)] + more, explorer.Abs(), later);
      }
      PassFacts(a, mid, phase, now);
      if WithinCap(a, mid) {
        NothingToTrim(a, mid, phase, now);
      }
    }

    /** Refresh, second half: periodic eviction, periodic recycling, and the sweep of both axes.  It forgets what its two
        trims drop and nothing else; when that is nothing, lists and table agree exactly and no name is lost. */
    method RefreshTable(now: int) returns (later: int, ghost t: Trace)
      requires Valid() && config.Runnable()
      modifies explorer`stats, explorer`unexplored, explorer`ips, explorer`snis, explorer`lost
      ensures Valid() && IsTrace(t, old(explorer.Abs()), explorer.Abs(), old(explorer.stats), now) && later == t.Until()
      ensures t.OnlySweeps() ==> explorer.stats == old(explorer.stats)
      ensures forall k :: k in explorer.stats ==>
        || (k in old(explorer.stats) && explorer.stats[k] == old(explorer.stats)[k])
        || (fresh(explorer.stats[k]) && Unused(explorer.stats[k]))
      ensures OwnRun(old(explorer.Abs()), old(explorer.lost), t.Steps(), explorer.Abs(), explorer.lost)
      ensures Timed(t.Steps(), now, later)
      ensures explorer.lost == old(explorer.lost).Plus(t.Dropped()) && ListsAgree(explorer.Abs(), explorer.lost)
      ensures old(explorer.lost) == NOTHING == t.Dropped() ==>
        explorer.lost == NOTHING && SameNames(old(explorer.Abs()), explorer.Abs())
      ensures DropsNothing(old(explorer.Abs()), old(explorer.lost)) ==> t.Dropped() == NOTHING
    {
      hide Within, IsRun, ValidWith, ListsAgree, EvictsAsDue, RecyclesAsDue, Forgotten, Unused, OwnRun, Timed, SameNames;
      hide DropsNothing, WithinCap, Lost.Plus;
      CapHolds();
      ghost var table, st, lost := explorer.stats, explorer.Abs(), explorer.lost;
      ghost var p, q, r, s;
      var t0, t1, t2;
      t0, p := EvictIfDue(IPs, now, table);
      t1, q := EvictIfDue(SNIs, t0, table);
      t2, r := RecycleIfDue(IPs, t1);
      later, s := RecycleIfDue(SNIs, t2);
      PlusPlus(lost, Forgotten(r.steps), Forgotten(s.steps));
      ghost var sweeps := SweepTable(later);
      t := Trace(p, q, r, s);
      TraceMeans(t, st, lost, explorer.Abs(), table, now);
    }

    lemma PlusPlus(a: Lost, b: Lost, c: Lost)
      ensures a.Plus(b).Plus(c) == a.Plus(b.Plus(c))
    {
    }

    /** No recycling is due, or there is room in the quarantines for every known name. */
    ghost predicate DropsNothing(st: State, lost: Lost)
      requires config.Runnable()
      reads this
    {
      (forall a :: !DueToRecycle(a)) || (lost == NOTHING && NoOverflow(st))
    }

    /** What the trace of a refresh means: a run of the explorer's own steps in the order of the clock, that forgets what
        its trims drop; with nothing forgotten before and nothing dropped now, no name is lost. */
    lemma TraceMeans(t: Trace, st: State, lost: Lost, end: State, table: map<PairKey, PairStats>, now: int)
      requires config.Runnable() && IsTrace(t, st, end, table, now) && Within(st, lost)
      ensures OwnRun(st, lost, t.Steps(), end, lost.Plus(t.Dropped())) && Timed(t.Steps(), now, t.Until())
      ensures lost == NOTHING == t.Dropped() ==> lost.Plus(t.Dropped()) == NOTHING && SameNames(st, end)
      ensures DropsNothing(st, lost) ==> t.Dropped() == NOTHING
    {
      hide IsTrace, IsRun, Timed, Internal, Within, SameNames, Forgotten, NoOverflow, DueToRecycle;
      TraceFacts(t, st, end, table, now);
      if lost == NOTHING {
        if t.Dropped() == NOTHING {
          KeepsAllNames(st, t.Steps(), end);
        }
        if NoOverflow(st) {
          CalmTrace(t, st, end, table, now);
        }
      }
    }

    method SweepTable(now: int) returns (ghost steps: seq<Step>)
      requires Valid()
      modifies explorer`ips, explorer`snis, explorer`unexplored
      ensures Valid() && steps == [Sweep(IPs, now), Sweep(SNIs, now)] && IsRun(old(explorer.Abs()), steps, explorer.Abs())
      ensures ListsAgree(explorer.Abs(), explorer.lost)
    {
      hide Within, IsRun, ListsAgree;
      steps := explorer.SweepBoth(now);
    }

    /** Refresh. Whatever was evicted, recycled or swept in it: the pool's invariant holds again, a draining pair has
        left draining exactly when it had no connection, weak pairs are draining and the others still in service, and
        the two name lists agree with the pair table but for names forgotten by trimming: those forgotten before and those
        the trims of this refresh drop.  When that is nobody they agree exactly and no name is lost, and no refresh drops a
        name unless recycling is due and a quarantine may be too small. */
    method Refresh(now: int)
      returns (later: int, ghost t: Trace, ghost busy: seq<PairStats>, ghost weak: seq<PairStats>,
               ghost kept: seq<PairStats>, ghost free: seq<PairStats>)
      requires Valid() && config.Runnable()
      modifies this`pool, this`draining, this`refreshCount, explorer.stats.Values`inActivePool,
               explorer.stats.Values`forceClosed, explorer.stats.Values`closings, explorer.stats.Values`drainStartedAt
      modifies explorer`stats, explorer`unexplored, explorer`ips, explorer`snis, explorer`lost
      ensures Valid() && refreshCount == old(refreshCount) + 1
      ensures busy == old(Without(draining, Idle())) && weak == old(Without(pool, Elems(pool) - WeakPairs()))
      ensures draining == busy + weak
      ensures FlagsOf(draining) ==
        AllJoined(AllChecked(old(FlagsOf(busy)), now, drainTimeout), old(FlagsOf(weak)), now, maxDraining, drainTimeout)
      ensures forall ps :: ps in old(draining) ==>
        && (ps in draining <==> ps.activeConnections > 0)
        && (ps !in draining ==> ps.Flags() == old(ps.Flags()).Take(Checked(now), drainTimeout))
      ensures forall ps :: ps in old(pool) ==>
        if old(ps.alive && ps.CombinedLossRate() < lossThreshold)
        then ps in pool && ps.Flags() == old(ps.Flags())
        else ps in draining && ps !in pool
      ensures forall k :: k in old(explorer.stats) && !old(Holds(explorer.stats[k])) ==>
        old(explorer.stats)[k].Flags() == old(explorer.stats[k].Flags())
      ensures IsFilled(kept, free, old(EligiblePairs()))
      ensures forall ps :: ps in kept ==> ps in old(pool) && old(ps.alive && ps.CombinedLossRate() < lossThreshold)
      ensures forall ps :: ps in pool ==> ps in kept || ps in free
      ensures forall k :: k in explorer.stats ==>
        || (k in old(explorer.stats) && explorer.stats[k] == old(explorer.stats)[k])
        || (fresh(explorer.stats[k]) && Unused(explorer.stats[k]))
      ensures IsTrace(t, old(explorer.Abs()), explorer.Abs(), old(explorer.stats), now) && later == t.Until()
      ensures t.OnlySweeps() ==> explorer.stats == old(explorer.stats)
      ensures OwnRun(old(explorer.Abs()), old(explorer.lost), t.Steps(), explorer.Abs(), explorer.lost)
      ensures Timed(t.Steps(), now, later)
      ensures explorer.lost == old(explorer.lost).Plus(t.Dropped()) && ListsAgree(explorer.Abs(), explorer.lost)
      ensures old(explorer.lost) == NOTHING == t.Dropped() ==>
        explorer.lost == NOTHING && SameNames(old(explorer.Abs()), explorer.Abs())
      ensures DropsNothing(old(explorer.Abs()), old(explorer.lost)) ==> t.Dropped() == NOTHING
    {
      hide Within, OwnRun, ValidWith, ListsAgree, SameNames, IsTrace, FlagsOf, AllJoined, Without, Idle, WeakPairs, IsWeak;
      hide Timed, DropsNothing;
      busy, weak, kept, free := RefreshService(now);
      later, t := RefreshTable(now);
    }

    /** No eviction and no recycling is due that many refreshes from now. */
    predicate Quiet(ahead: nat)
      requires config.Runnable()
      reads this`refreshCount
    {
      var n := refreshCount + ahead;
      && n % config.ips.evictEvery != 0 && (config.snis.evictEvery > 0 ==> n % config.snis.evictEvery != 0)
      && (config.ips.recycleEnabled ==> n % config.ips.recycleEvery != 0)
      && (config.snis.recycleEnabled ==> n % config.snis.recycleEvery != 0)
    }

    lemma QuietSweeps(t: Trace, st: State, end: State, table: map<PairKey, PairStats>, now: int)
      requires config.Runnable() && Quiet(0) && IsTrace(t, st, end, table, now)
      ensures t.OnlySweeps()
    {
      hide IsRun, IsRecyclePass, Spent, Evictions;
    }

    /** A refresh before Initialize, as a scan round or a failed relay may ask for while the first pairs are still being
        probed: with more eligible pairs than slots, Initialize may then choose others than those in service. */
    method RefreshFirst(now: int) returns (ghost chosen: seq<PairStats>)
      requires Valid() && config.Runnable() && Quiet(1) && pool == [] && draining == []
      requires slots >= 1 && |EligiblePairs()| > slots
      modifies this`pool, this`draining, this`refreshCount, explorer.stats.Values`inActivePool,
               explorer.stats.Values`forceClosed, explorer.stats.Values`closings, explorer.stats.Values`drainStartedAt
      modifies explorer`stats, explorer`unexplored, explorer`ips, explorer`snis, explorer`lost
      ensures Valid() && explorer.Valid() && pool != [] && !MayInitialize()
      ensures IsSelection(chosen, EligiblePairs(), slots) && !Replaces(chosen, pool, draining)
    {
      hide Within, OwnRun, ValidWith, ListsAgree, SameNames, IsTrace, FlagsOf, AllJoined, IsWeak, IsEligible, IsSelection;
      hide CombinationExplorer.Valid;
      CapHolds();
      ghost var eligible := EligiblePairs();
      var _, t, busy, weak, kept, free := Refresh(now);
      CapHolds();
      QuietSweeps(t, old(explorer.Abs()), explorer.Abs(), old(explorer.stats), now);
      EligiblePairsStill();
      hide EligiblePairs;
      NothingLeft(old(pool), old(draining), busy, weak, kept);
      NoDupCardinality(free);
      chosen := SomeSelectionFails(pool, draining, eligible, slots);
    }

    lemma NothingLeft<T>(was: seq<T>, drained: seq<T>, busy: seq<T>, weak: seq<T>, kept: seq<T>)
      requires was == [] == drained
      ensures forall s: set<T> :: Without(was, s) == [] && Without(drained, s) == []
      ensures (forall x :: x in kept ==> x in was) ==> kept == []
    {
      NothingIn(kept);
    }

    /** Two refreshes that put a force-closed pair in service: the only pair, weak and without connections, drains, is closed
        at its age, leaves draining, and is the one eligible pair for the empty slot. */
    method ServesClosed(ps: PairStats, t0: int, t1: int)
      requires Valid() && config.Runnable() && Quiet(1) && Quiet(2) && slots >= 1
      requires pool == [ps] && draining == [] && explorer.stats == map[ps.Key() := ps]
      requires !(ps.alive && ps.CombinedLossRate() < lossThreshold) && ps.IsKnown() && ps.activeConnections == 0
      requires ps.drainStartedAt == None && t1 - t0 >= drainTimeout
      modifies this`pool, this`draining, this`refreshCount, explorer.stats.Values`inActivePool,
               explorer.stats.Values`forceClosed, explorer.stats.Values`closings, explorer.stats.Values`drainStartedAt
      modifies explorer`stats, explorer`unexplored, explorer`ips, explorer`snis, explorer`lost
      ensures Valid() && pool == [ps] && ps.forceClosed
    {
      hide Within, OwnRun, ValidWith, ListsAgree, SameNames, IsTrace, CombinationExplorer.Valid;
      DrainTheOne(ps, t0);
      CloseTheOne(ps, t0, t1);
    }

    method DrainTheOne(ps: PairStats, now: int)
      requires Valid() && config.Runnable() && Quiet(1)
      requires pool == [ps] && draining == [] && explorer.stats == map[ps.Key() := ps]
      requires !(ps.alive && ps.CombinedLossRate() < lossThreshold) && ps.IsKnown() && ps.drainStartedAt == None
      modifies this`pool, this`draining, this`refreshCount, explorer.stats.Values`inActivePool,
               explorer.stats.Values`forceClosed, explorer.stats.Values`closings, explorer.stats.Values`drainStartedAt
      modifies explorer`stats, explorer`unexplored, explorer`ips, explorer`snis, explorer`lost
      ensures Valid() && pool == [] && draining == [ps] && explorer.stats == map[ps.Key() := ps]
      ensures ps.drainStartedAt == Some(now) && refreshCount == old(refreshCount) + 1
    {
      hide Within, OwnRun, ValidWith, ListsAgree, SameNames, IsTrace, CombinationExplorer.Valid, AllJoined, EligiblePairs;
      hide FlagsOf, IsEligible, Without, IsWeak, IsFilled;
      CapHolds();
      OneEligible(ps);
      WithoutOne(ps);
      WeakMeans();
      assert WeakPairs() == {ps} && Elems(pool) - WeakPairs() == {};
      OneJoined(ps.Flags(), now);
      FlagsOfOne(ps);
      var _, t, busy, weak, kept, free := Refresh(now);
      QuietSweeps(t, old(explorer.Abs()), explorer.Abs(), old(explorer.stats), now);
      assert AllChecked(FlagsOf(busy), now, drainTimeout) == [];
      assert forall x :: x in kept ==> x in [ps];
      NothingIn(kept);
      NoneFills(free, ps);
      FlagsOfOne(ps);
    }

    lemma FlagsOfOne(ps: PairStats)
      ensures FlagsOf([ps]) == [ps.Flags()] && FlagsOf([]) == []
    {
    }

    lemma NoneFills(free: seq<PairStats>, ps: PairStats)
      requires draining == [ps] && IsFilled([], free, {ps})
      ensures pool == []
    {
      NoDupCardinality(free);
    }

    lemma WithoutOne(ps: PairStats)
      ensures Without([ps], {ps}) == [] && Without([ps], {}) == [ps] && forall s :: Without<PairStats>([], s) == []
    {
      assert |[ps][..0]| == 0;
    }

    lemma OneJoined(flags: DrainFlags, now: int)
      ensures AllJoined([], [flags], now, maxDraining, drainTimeout) == [flags.Take(Starts(now), drainTimeout)]
    {
      assert |[flags][..0]| == 0;
    }

    method CloseTheOne(ps: PairStats, since: int, now: int)
      requires Valid() && config.Runnable() && Quiet(1) && slots >= 1
      requires pool == [] && draining == [ps] && explorer.stats == map[ps.Key() := ps]
      requires ps.IsKnown() && ps.activeConnections == 0 && ps.drainStartedAt == Some(since) && now - since >= drainTimeout
      modifies this`pool, this`draining, this`refreshCount, explorer.stats.Values`inActivePool,
               explorer.stats.Values`forceClosed, explorer.stats.Values`closings, explorer.stats.Values`drainStartedAt
      modifies explorer`stats, explorer`unexplored, explorer`ips, explorer`snis, explorer`lost
      ensures Valid() && pool == [ps] && ps.forceClosed
    {
      hide Within, OwnRun, ValidWith, ListsAgree, SameNames, IsTrace, CombinationExplorer.Valid, AllJoined, EligiblePairs;
      hide FlagsOf, IsEligible, Without, IsWeak, IsFilled, Quiet;
      CapHolds();
      OneEligible(ps);
      WithoutOne(ps);
      assert Idle() == {ps};
      var _, t, busy, weak, kept, free := Refresh(now);
      NothingIn(kept);
      OneFills(free, ps);
    }

    lemma OneFills(free: seq<PairStats>, ps: PairStats)
      requires slots >= 1 && draining == [] && IsFilled([], free, {ps})
      ensures pool == [ps]
    {
      NoDupCardinality(free);
      assert pool[0] in pool[0..] && pool[0] in Elems(free);
    }

    /** A quiet refresh of an idle pool with a single eligible pair: that pair enters service, and the table stays as it
        is. */
    method FillTheOne(ps: PairStats, now: int) returns (ghost at: int)
      requires Valid() && config.Runnable() && Quiet(1) && slots >= 1 && pool == [] && draining == []
      requires EligiblePairs() == {ps}
      modifies this`pool, this`draining, this`refreshCount, explorer.stats.Values`inActivePool,
               explorer.stats.Values`forceClosed, explorer.stats.Values`closings, explorer.stats.Values`drainStartedAt
      modifies explorer`stats, explorer`unexplored, explorer`ips, explorer`snis, explorer`lost
      ensures Valid() && pool == [ps] && draining == [] && explorer.stats == old(explorer.stats)
      ensures OwnRun(old(explorer.Abs()), old(explorer.lost), [Sweep(IPs, at), Sweep(SNIs, at)], explorer.Abs(), explorer.lost)
    {
      hide Within, OwnRun, ValidWith, ListsAgree, SameNames, IsTrace, CombinationExplorer.Valid, AllJoined, EligiblePairs;
      hide FlagsOf, IsEligible, Without, IsWeak, IsFilled, Timed, DropsNothing;
      CapHolds();
      var _, t, busy, weak, kept, free := Refresh(now);
      QuietSweeps(t, old(explorer.Abs()), explorer.Abs(), old(explorer.stats), now);
      assert t.Steps() == t.Sweeps();
      at := t.Until();
      NothingLeft(old(pool), old(draining), busy, weak, kept);
      OneFills(free, ps);
    }

    lemma OneEligible(ps: PairStats)
      requires explorer.Valid() && explorer.stats == map[ps.Key() := ps] && ps.IsKnown()
      ensures EligiblePairs() == {ps}
    {
      hide Within;
      var k := ps.Key();
      assert k in explorer.stats && explorer.stats[k] == ps && IsEligible(ps);
    }

    /** Pick: a pair in service, else a known one, else any.  An empty table has nothing to pick. */
    method Pick() returns (ps: PairStats)
      requires Valid() && explorer.stats != map[]
      ensures explorer.InTable(ps)
      ensures pool != [] ==> ps in pool
      ensures pool == [] && (exists k :: k in explorer.stats && explorer.stats[k].IsKnown()) ==> ps.IsKnown()
    {
      var from := pool;
      if from == [] {
        from := explorer.KnownStats();
      }
      if from == [] {
        from := Listed(explorer.stats.Values);
        var k :| k in explorer.stats;
        assert explorer.stats[k] in Elems(from);
      }
      hide Within;
      assert pool == [] || from == pool;
      PoolFacts();
      var chosen, _ := WeightedChoices(from, 1);
      ps := chosen[0];
      assert ps in Elems(chosen) && ps in Elems(from);
    }

    lemma PoolFacts()
      requires Valid()
      ensures NoDup(pool) && forall ps :: ps in pool ==> explorer.InTable(ps)
    {
      assert forall k :: 0 <= k < |pool| ==> (pool + draining + [])[k] == pool[k];
      assert forall ps :: ps in pool ==> ps in pool + draining + [];
    }

    /** ReportFailure: one lost probe on the pair's record, and a refresh if that made it weak. */
    method ReportFailure(ps: PairStats, now: int) returns (later: int, ghost t: Option<Trace>)
      requires Valid() && config.Runnable()
      modifies ps`probesSent, ps`probed, ps`emaProbeLoss, ps`probesRecv, ps`latencySumMs, ps`latencyCount, ps`alive
      modifies this`pool, this`draining, this`refreshCount, explorer.stats.Values`inActivePool,
               explorer.stats.Values`forceClosed, explorer.stats.Values`closings, explorer.stats.Values`drainStartedAt
      modifies explorer`stats, explorer`unexplored, explorer`ips, explorer`snis, explorer`lost
      ensures Valid()
      ensures ps.Condition() == old(ps.Condition()).Probe(false, explorer.deadThreshold)
      ensures ps in old(pool) ==>
        if ps.alive && ps.CombinedLossRate() < lossThreshold then ps in pool else ps in draining && ps !in pool
      ensures if !(ps.alive && ps.CombinedLossRate() < lossThreshold) then t.Some? && refreshCount == old(refreshCount) + 1
              else t.None? && pool == old(pool) && draining == old(draining) && refreshCount == old(refreshCount)
      ensures t.None? ==> explorer.Abs() == old(explorer.Abs()) && explorer.lost == old(explorer.lost) && later == now
      ensures t.Some? ==>
        && IsTrace(t.value, old(explorer.Abs()), explorer.Abs(), old(explorer.stats), now) && later == t.value.Until()
        && OwnRun(old(explorer.Abs()), old(explorer.lost), t.value.Steps(), explorer.Abs(), explorer.lost)
        && Timed(t.value.Steps(), now, later)
        && explorer.lost == old(explorer.lost).Plus(t.value.Dropped()) && ListsAgree(explorer.Abs(), explorer.lost)
        && (old(explorer.lost) == NOTHING == t.value.Dropped() ==>
              explorer.lost == NOTHING && SameNames(old(explorer.Abs()), explorer.Abs()))
        && (DropsNothing(old(explorer.Abs()), old(explorer.lost)) ==> t.value.Dropped() == NOTHING)
      ensures forall k :: k in explorer.stats ==>
        || (k in old(explorer.stats) && explorer.stats[k] == old(explorer.stats)[k])
        || (fresh(explorer.stats[k]) && Unused(explorer.stats[k]))
    {
      hide Within, ValidWith, OwnRun, ListsAgree, SameNames, IsTrace, FlagsOf, AllJoined, Without, Idle, WeakPairs;
      hide Timed, DropsNothing;
      later, t := now, None;
      Lose(ps);
      if IsWeak(ps) {
        var clock, trace, _, _, _, _ := Refresh(now);
        later, t := clock, Some(trace);
      }
    }

    /** A lost probe is no part of the pool's invariant. */
    method Lose(ps: PairStats)
      requires Valid()
      modifies ps`probesSent, ps`probed, ps`emaProbeLoss, ps`probesRecv, ps`latencySumMs, ps`latencyCount, ps`alive
      ensures Valid() && ps.Condition() == old(ps.Condition()).Probe(false, explorer.deadThreshold)
    {
      hide Within;
      ps.RecordProbe(false, explorer.deadThreshold, 0.0);
    }

    /** A relay takes a connection over the pair. */
    method Acquire(ps: PairStats)
      requires Valid()
      modifies ps`activeConnections, ps`totalConnections
      ensures Valid() && ps.activeConnections == old(ps.activeConnections) + 1
      ensures ps.totalConnections == old(ps.totalConnections) + 1
    {
      hide Within;
      ps.activeConnections := ps.activeConnections + 1;
      ps.totalConnections := ps.totalConnections + 1;
    }

    /** A relay records a packet that arrived or got lost. */
    method Carry(ps: PairStats, lost: bool)
      requires Valid()
      modifies ps`realPacketsSent, ps`realPacketsLost, ps`emaRealLoss
      ensures Valid() && ps.Condition() == old(ps.Condition()).Packet(lost)
    {
      hide Within;
      ps.RecordRealPacket(lost);
    }

    /** A relay gives its connection back. */
    method Release(ps: PairStats)
      requires Valid()
      modifies ps`activeConnections
      ensures Valid() && ps.activeConnections == if old(ps.activeConnections) > 0 then old(ps.activeConnections) - 1
                                                else old(ps.activeConnections)
    {
      hide Within;
      if ps.activeConnections > 0 {
        ps.activeConnections := ps.activeConnections - 1;
      }
    }
  }

  /** The cadence and the limits of eviction and recycling, by axis. */
  datatype RefreshConfig = RefreshConfig(ips: AxisConfig, snis: AxisConfig) {
    /** What the source divides by is not zero. */
    predicate Runnable() {
      && ips.evictEvery != 0
      && (ips.recycleEnabled ==> ips.recycleEvery != 0)
      && (snis.recycleEnabled ==> snis.recycleEvery != 0)
    }

    function On(a: Axis): AxisConfig {
      if a.IPs? then ips else snis
    }
  }

  datatype AxisConfig = AxisConfig(evictEvery: int, evictCount: int, recycleEnabled: bool, recycleEvery: int,
                                   recycleBatch: nat, recycleMinCooldown: int, recycleMaxQuarantine: int, scope: string)
}
