/** What a refresh and a failed relay decide at the default thresholds, from what has happened to a pair. */
module ServiceLaws {
  import opened Sequences
  import opened ExplorerModel
  import opened PairHealth
  import opened Pairs
  import opened Explorer
  import opened ActivePools

  predicate Young(events: seq<PairHealth.Event>) {
    |ProbeLosses(events)| <= 22 && |PacketLosses(events)| <= 22
  }

  /** A refresh of any pool.  A pair in service with at most 22 probes and 22 packets stays, whatever became of them; one with
      23 probes or more, all of them lost, and no packets is draining afterwards. */
  method RefreshByHistory(pool: ActivePool, now: int)
    requires pool.Valid() && pool.config.Runnable() && pool.lossThreshold == 0.20
    modifies pool`pool, pool`draining, pool`refreshCount, pool.explorer.stats.Values`inActivePool,
             pool.explorer.stats.Values`forceClosed, pool.explorer.stats.Values`closings,
             pool.explorer.stats.Values`drainStartedAt
    modifies pool.explorer`stats, pool.explorer`unexplored, pool.explorer`ips, pool.explorer`snis, pool.explorer`lost
    ensures pool.Valid()
    ensures forall ps, events ::
      ps in old(pool.pool) && old(ps.Condition()) == After(events, 0.80) && Young(events) ==> ps in pool.pool
    ensures forall ps, n: nat ::
      ps in old(pool.pool) && old(ps.Condition()) == After(Failures(n), 0.80) && n >= 23 ==>
      ps in pool.draining && ps !in pool.pool
  {
    hide ActivePool.Valid, ActivePool.IsTrace, ActivePool.IsFilled, ActivePool.DropsNothing, After, ProbeLosses, PacketLosses,
         Failures, Health.CombinedLossRate;
    var _, _, _, _, _, _ := pool.Refresh(now);
    forall ps, events | ps in old(pool.pool) && old(ps.Condition()) == After(events, 0.80) && Young(events)
      ensures ps in pool.pool
    {
      YoungPairsServe(events);
      assert old(ps.Condition()).alive == old(ps.alive);
    }
    forall ps, n: nat | ps in old(pool.pool) && old(ps.Condition()) == After(Failures(n), 0.80) && n >= 23
      ensures ps in pool.draining && ps !in pool.pool
    {
      LostPairsAreWeak(n);
    }
  }

  /** A failed relay reports a pair all of whose probes were lost so far: it takes the 23rd loss for a refresh. */
  method ReportByHistory(pool: ActivePool, ps: PairStats, n: nat, now: int)
    requires pool.Valid() && pool.config.Runnable() && pool.lossThreshold == 0.20 && pool.explorer.deadThreshold == 0.80
    requires ps.Condition() == After(Failures(n), 0.80)
    modifies ps`probesSent, ps`probed, ps`emaProbeLoss, ps`probesRecv, ps`latencySumMs, ps`latencyCount, ps`alive
    modifies pool`pool, pool`draining, pool`refreshCount, pool.explorer.stats.Values`inActivePool,
             pool.explorer.stats.Values`forceClosed, pool.explorer.stats.Values`closings,
             pool.explorer.stats.Values`drainStartedAt
    modifies pool.explorer`stats, pool.explorer`unexplored, pool.explorer`ips, pool.explorer`snis, pool.explorer`lost
    ensures pool.Valid() && pool.refreshCount == old(pool.refreshCount) + if n >= 22 then 1 else 0
    ensures ps in old(pool.pool) ==> if n >= 22 then ps in pool.draining && ps !in pool.pool else ps in pool.pool
  {
    hide ActivePool.Valid, ActivePool.IsTrace, ActivePool.DropsNothing, After, Failures, Health.CombinedLossRate, Health.Probe;
    OneMoreFailure(n, 0.80);
    LostPairsAreWeak(n + 1);
    var _, _ := pool.ReportFailure(ps, now);
    assert ps.Condition().alive == ps.alive;
  }
}
