/** RunHealthLoop of internal/pool/pool.go by itself, on a clock that never runs backwards: the cooldown holds over all the
    refreshes of its run. */
module HealthLoops {
  import opened Sequences
  import opened ExplorerModel
  import opened ExplorerRuns
  import opened ExplorerLaws
  import opened Explorer
  import opened ActivePools
  import opened Managers

  /** The first pairs are probed and the pool is initialized. */
  method StartHealthLoop(pool: ActivePool, ghost now: int) returns (ghost steps: seq<Step>)
    requires pool.Valid() && pool.pool == [] && pool.draining == []
    modifies pool`pool, pool.explorer`unexplored, pool.explorer.stats.Values
    ensures pool.Valid() && pool.explorer.stats == old(pool.explorer.stats) && pool.refreshCount == old(pool.refreshCount)
    ensures steps == [Take(Min(20, old(|pool.explorer.unexplored|)))]
    ensures forall k :: k in old(pool.explorer.unexplored)[..Min(20, old(|pool.explorer.unexplored|))] ==>
      k in pool.explorer.stats && pool.explorer.stats[k].probed
    ensures Timed(steps, now, now)
    ensures OwnRun(old(pool.explorer.Abs()), old(pool.explorer.lost), steps, pool.explorer.Abs(), pool.explorer.lost)
  {
    hide Within, OwnRun, Timed, ActivePool.Valid, IsRun, Forgotten, Dropped, CombinationExplorer.Valid;
    PoolHasExplorer(pool);
    HeldAreStored(pool);
    ghost var st, lost := pool.explorer.Abs(), pool.explorer.lost;
    steps := [Take(Min(INITIAL_SAMPLE, |st.queue|))];
    OneStep(st, steps[0]);
    pool.explorer.InitialExplore();
    ExploredOwnRun(st, lost, steps, pool.explorer.Abs());
    ExploringIsTimed(steps, now);
    PoolSurvives(pool);
    PoolHasExplorer(pool);
    pool.Initialize();
  }

  lemma {:induction false} ExploringIsTimed(steps: seq<Step>, now: int)
    requires forall s :: s in steps ==> s.Take? || s.Reshuffle?
    ensures Timed(steps, now, now)
    decreases |steps|
  {
    if steps != [] {
      assert steps[0] in steps && Clock(steps[0], now) == now;
      ExploringIsTimed(steps[1..], now);
    }
  }

  /** One turn of the health loop: the best known pairs and the front of the queue are probed, and the pool is
      refreshed. */
  method HealthTurn(pool: ActivePool, now: int) returns (later: int, ghost steps: seq<Step>)
    requires pool.Valid() && pool.config.Runnable()
    modifies pool, pool.explorer, pool.explorer.stats.Values
    ensures pool.Valid() && Timed(steps, now, later)
    ensures pool.refreshCount == old(pool.refreshCount) + 1
    ensures steps != [] && steps[0] == Take(Min(10, old(|pool.explorer.unexplored|)))
    ensures OwnRun(old(pool.explorer.Abs()), old(pool.explorer.lost), steps, pool.explorer.Abs(), pool.explorer.lost)
    ensures forall k :: k in pool.explorer.stats ==>
      (k in old(pool.explorer.stats) && pool.explorer.stats[k] == old(pool.explorer.stats)[k]) || fresh(pool.explorer.stats[k])
  {
    hide Within, OwnRun, Timed, ActivePool.Valid, IsRun, IsTop, Forgotten, Dropped, CombinationExplorer.Valid,
         ActivePool.IsTrace, ListsAgree, SameNames;
    PoolHasExplorer(pool);
    HeldAreStored(pool);
    ghost var st, lost := pool.explorer.Abs(), pool.explorer.lost;
    ghost var explored, verified := pool.explorer.PeriodicExplore();
    ExploredOwnRun(st, lost, explored, pool.explorer.Abs());
    ExploringIsTimed(explored, now);
    PoolSurvives(pool);
    ghost var mid := pool.explorer.Abs();
    var clock, t, _, _, _, _ := pool.Refresh(now);
    later, steps := clock, explored + t.Steps();
    OwnRunsConcat(st, lost, explored, mid, lost, t.Steps(), pool.explorer.Abs(), pool.explorer.lost);
    TimedConcat(explored, t.Steps(), now, now, later);
  }

  /** Any two tries of the same name are at least the cooldown of the second one apart. */
  ghost predicate Spaced(steps: seq<Step>) {
    forall i, j :: 0 <= i < j < |steps| && TriesAgain(steps[i], steps[j]) ==> steps[i].t + steps[j].cooldown <= steps[j].t
  }

  predicate TriesAgain(s: Step, t: Step) {
    s.Attempt? && t.Attempt? && s.a == t.a && s.x == t.x
  }

  lemma TimedIsSpaced(st: State, steps: seq<Step>, end: State, from: int, until: int)
    requires IsRun(st, steps, end) && Timed(steps, from, until)
    ensures Spaced(steps)
  {
    forall i, j | 0 <= i < j < |steps| && TriesAgain(steps[i], steps[j])
      ensures steps[i].t + steps[j].cooldown <= steps[j].t
    {
      AttemptsAreSpaced(st, steps, i, j, from);
    }
  }

  /** How often the front of the queue was taken. */
  function Takes(steps: seq<Step>): nat {
    if steps == [] then 0 else (if steps[0].Take? then 1 else 0) + Takes(steps[1..])
  }

  lemma {:induction false} TakesGrow(steps: seq<Step>, more: seq<Step>)
    ensures Takes(steps + more) >= Takes(steps) + if more != [] && more[0].Take? then 1 else 0
  {
    if steps == [] {
      assert [] + more == more;
    } else {
      TakesGrow(steps[1..], more);
      assert (steps + more)[1..] == steps[1..] + more;
    }
  }

  /** RunHealthLoop over a sound pool that holds nothing yet, for any number of turns: what it does to the explorer is one
      run on a clock that never runs backwards, and over all its refreshes no name is tried again before its cooldown. */
  method RunHealthLoop(pool: ActivePool, turns: nat, now: int) returns (later: int, ghost steps: seq<Step>)
    requires pool.Valid() && pool.config.Runnable() && pool.pool == [] && pool.draining == []
    modifies pool, pool.explorer, pool.explorer.stats.Values
    ensures pool.Valid() && Timed(steps, now, later) && Spaced(steps)
    ensures pool.refreshCount == old(pool.refreshCount) + turns && Takes(steps) >= turns + 1
    ensures steps != [] && steps[0] == Take(Min(20, old(|pool.explorer.unexplored|)))
    ensures OwnRun(old(pool.explorer.Abs()), old(pool.explorer.lost), steps, pool.explorer.Abs(), pool.explorer.lost)
  {
    hide Timed, OwnRun, ActivePool.Valid, Spaced, Within, Takes;
    ghost var st, lost := pool.explorer.Abs(), pool.explorer.lost;
    steps := StartHealthLoop(pool, now);
    later := now;
    TakesGrow([], steps);
    assert [] + steps == steps;
    for i := 0 to turns
      invariant pool.Valid() && Timed(steps, now, later)
      invariant pool.refreshCount == old(pool.refreshCount) + i && Takes(steps) >= i + 1
      invariant steps != [] && steps[0] == Take(Min(20, old(|pool.explorer.unexplored|)))
      invariant OwnRun(st, lost, steps, pool.explorer.Abs(), pool.explorer.lost)
      invariant forall k :: k in pool.explorer.stats ==>
        || (k in old(pool.explorer.stats) && pool.explorer.stats[k] == old(pool.explorer.stats)[k])
        || fresh(pool.explorer.stats[k])
    {
      ghost var mid, gone, more := pool.explorer.Abs(), pool.explorer.lost, [];
      var clock :| later <= clock;
      WaitedSince(steps, now, later, clock);
      later, more := HealthTurn(pool, clock);
      OwnRunsConcat(st, lost, steps, mid, gone, more, pool.explorer.Abs(), pool.explorer.lost);
      TimedConcat(steps, more, now, clock, later);
      TakesGrow(steps, more);
      steps := steps + more;
    }
    OwnRunIsSpaced(st, lost, steps, pool.explorer.Abs(), pool.explorer.lost, now, later);
  }

  lemma WaitedSince(steps: seq<Step>, from: int, until: int, clock: int)
    requires Timed(steps, from, until) && until <= clock
    ensures Timed(steps, from, clock)
  {
  }

  lemma OwnRunIsSpaced(st: State, lost: Lost, steps: seq<Step>, end: State, lost': Lost, from: int, until: int)
    requires OwnRun(st, lost, steps, end, lost') && Timed(steps, from, until)
    ensures Spaced(steps)
  {
    TimedIsSpaced(st, steps, end, from, until);
  }
}
