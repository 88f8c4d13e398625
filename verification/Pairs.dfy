/** PairStats of internal/pool/pool.go: one (IP, SNI) pair with its counters, its verdicts and its service flags. */
module Pairs {
  import opened PairHealth
  import opened Sequences
  import opened ExplorerModel

  const LATENCY_CAP_MS := 1500.0

  // ---- draining ----

  /** What can happen to the drain flags of a pair: it starts draining, its age is checked while it drains, it is closed
      to make room. */
  datatype DrainEvent = Starts(at: int) | Checked(at: int) | MadeRoom

  /** The start of draining and the force-closed mark.  Nothing resets either of them, not even going back into service. */
  datatype DrainFlags = DrainFlags(startedAt: Option<int>, closed: bool) {
    function Age(now: int): int {
      if startedAt.None? then 0 else now - startedAt.value
    }

    function Take(e: DrainEvent, timeout: int): DrainFlags {
      match e
      case Starts(at) => if startedAt.None? then this.(startedAt := Some(at)) else this
      case Checked(at) => if Age(at) >= timeout then this.(closed := true) else this
      case MadeRoom => this.(closed := true)
    }
  }

  /** The flags of a pair after all of its drains. */
  function FlagsAfter(history: seq<DrainEvent>, timeout: int): DrainFlags {
    if history == [] then DrainFlags(None, false)
    else FlagsAfter(history[..|history| - 1], timeout).Take(history[|history| - 1], timeout)
  }

  /** When a pair drained for the first time. */
  function FirstDrain(history: seq<DrainEvent>): Option<int> {
    if history == [] then None
    else
      var before := FirstDrain(history[..|history| - 1]);
      if before.None? && history[|history| - 1].Starts? then Some(history[|history| - 1].at) else before
  }

  /** This event of a history closes the pair. */
  predicate Closes(history: seq<DrainEvent>, i: nat, timeout: int)
    requires i < |history|
  {
    history[i].MadeRoom? || (history[i].Checked? && DrainFlags(FirstDrain(history[..i]), false).Age(history[i].at) >= timeout)
  }

  /** Whether a pair is force-closed depends on its whole life: in service or draining, it is so exactly if some drain of
      the past closed it, and every age is counted from its very first drain. */
  lemma {:induction false} FlagsAreHistory(history: seq<DrainEvent>, timeout: int)
    ensures FlagsAfter(history, timeout).startedAt == FirstDrain(history)
    ensures FlagsAfter(history, timeout).closed <==> exists i :: 0 <= i < |history| && Closes(history, i, timeout)
  {
    if history != [] {
      var n := |history| - 1;
      FlagsAreHistory(history[..n], timeout);
      assert forall i :: 0 <= i < n ==> history[..n][..i] == history[..i];
      assert forall i :: 0 <= i < n ==> Closes(history[..n], i, timeout) == Closes(history, i, timeout);
      assert FlagsAfter(history, timeout).closed <==> FlagsAfter(history[..n], timeout).closed || Closes(history, n, timeout);
    }
  }

  /** The first check after a pair starts draining closes it exactly if it was closed already or its first drain began a
      timeout ago: a pair that drained before, recovered and drains again gets no time at all. */
  lemma NextDrainIsShort(history: seq<DrainEvent>, at: int, now: int, timeout: int)
    ensures var since := match FirstDrain(history) { case None => at case Some(first) => first };
      FlagsAfter(history + [Starts(at), Checked(now)], timeout).closed <==>
      FlagsAfter(history, timeout).closed || now - since >= timeout
  {
    var once := history + [Starts(at)];
    var twice := history + [Starts(at), Checked(now)];
    assert once[..|history|] == history && twice[..|once|] == once;
    FlagsAreHistory(history, timeout);
  }

  // ---- a list of draining pairs ----

  /** All of a list checked for its age. */
  function AllChecked(list: seq<DrainFlags>, now: int, timeout: int): (r: seq<DrainFlags>)
    ensures |r| == |list|
  {
    seq(|list|, i requires 0 <= i < |list| => list[i].Take(Checked(now), timeout))
  }

  /** The first of the longest-draining pairs of a list. */
  function FirstOldest(list: seq<DrainFlags>, now: int): (oldest: nat)
    requires list != []
    ensures oldest < |list| && forall j :: 0 <= j < |list| ==> list[j].Age(now) <= list[oldest].Age(now)
  {
    var n := |list| - 1;
    if n == 0 then 0
    else
      var before := FirstOldest(list[..n], now);
      assert forall j :: 0 <= j < n ==> list[..n][j] == list[j];
      if list[n].Age(now) > list[before].Age(now) then n else before
  }

  /** At the cap one longest-draining pair is closed to make room, but it stays listed. */
  function RoomMade(list: seq<DrainFlags>, now: int, cap: int, timeout: int): (r: seq<DrainFlags>)
    ensures |r| == |list|
  {
    if |list| < cap || list == [] then list
    else
      var oldest := FirstOldest(list, now);
      list[oldest := list[oldest].Take(MadeRoom, timeout)]
  }

  /** The list after one more pair has started draining. */
  function Joining(list: seq<DrainFlags>, newcomer: DrainFlags, now: int, cap: int, timeout: int): (r: seq<DrainFlags>)
    ensures |r| == |list| + 1
  {
    RoomMade(list, now, cap, timeout) + [newcomer.Take(Starts(now), timeout)]
  }

  /** The list after some pairs have started draining, one after the other. */
  function AllJoined(list: seq<DrainFlags>, newcomers: seq<DrainFlags>, now: int, cap: int, timeout: int): (r: seq<DrainFlags>)
    ensures |r| == |list| + |newcomers|
  {
    if newcomers == [] then list
    else
      Joining(AllJoined(list, newcomers[..|newcomers| - 1], now, cap, timeout), newcomers[|newcomers| - 1], now, cap, timeout)
  }

  /** Among the first m of the list none has been draining longer than the one at i. */
  predicate IsOldestOf(list: seq<DrainFlags>, i: nat, m: nat, now: int) {
    i < m <= |list| && forall j :: 0 <= j < m ==> list[j].Age(now) <= list[i].Age(now)
  }

  /** The pair at i was closed to make room for one that joined behind the first m pairs, m at least the cap. */
  ghost predicate MadeRoomAt(list: seq<DrainFlags>, i: nat, least: nat, cap: int, now: int) {
    exists m: nat :: IsOldestOf(list, i, m, now) && least <= m < |list| && cap <= m
  }

  lemma OneJoins(list: seq<DrainFlags>, newcomer: DrainFlags, now: int, cap: int, timeout: int)
    ensures var after := Joining(list, newcomer, now, cap, timeout);
      && (forall j :: 0 <= j < |list| ==> after[j].startedAt == list[j].startedAt && (list[j].closed ==> after[j].closed))
      && (forall j: nat :: j < |list| && after[j].closed && !list[j].closed ==> MadeRoomAt(after, j, |list|, cap, now))
      && (forall j: nat, least: nat :: j < |list| && MadeRoomAt(list, j, least, cap, now) ==> MadeRoomAt(after, j, least, cap, now))
      && after[|list|] == newcomer.Take(Starts(now), timeout)
  {
    var after := Joining(list, newcomer, now, cap, timeout);
    forall j: nat | j < |list| && after[j].closed && !list[j].closed ensures MadeRoomAt(after, j, |list|, cap, now) {
      assert IsOldestOf(after, j, |list|, now);
    }
    forall j: nat, least: nat | j < |list| && MadeRoomAt(list, j, least, cap, now) ensures MadeRoomAt(after, j, least, cap, now) {
      var m: nat :| IsOldestOf(list, j, m, now) && least <= m < |list| && cap <= m;
      assert IsOldestOf(after, j, m, now);
    }
  }

  /** The pair at i kept its start, a newcomer its own or now; if it got closed, it was, among the first m of the list
      with m at least the cap and all the old ones among them, one that had drained longest. */
  ghost predicate HasJoined(list: seq<DrainFlags>, newcomers: seq<DrainFlags>, after: seq<DrainFlags>, i: nat, now: int,
                            cap: int, timeout: int)
    requires i < |after| == |list| + |newcomers|
  {
    var before := if i < |list| then list[i] else newcomers[i - |list|].Take(Starts(now), timeout);
    && after[i].startedAt == before.startedAt && (before.closed ==> after[i].closed)
    && (after[i].closed && !before.closed ==> MadeRoomAt(after, i, |list|, cap, now))
  }

  lemma {:induction false} JoinedFacts(list: seq<DrainFlags>, newcomers: seq<DrainFlags>, after: seq<DrainFlags>, now: int,
                                       cap: int, timeout: int)
    requires after == AllJoined(list, newcomers, now, cap, timeout)
    ensures forall i: nat :: i < |after| ==> HasJoined(list, newcomers, after, i, now, cap, timeout)
  {
    hide Joining, RoomMade, MadeRoomAt;
    if newcomers != [] {
      var n := |newcomers| - 1;
      var mid := AllJoined(list, newcomers[..n], now, cap, timeout);
      JoinedFacts(list, newcomers[..n], mid, now, cap, timeout);
      OneJoins(mid, newcomers[n], now, cap, timeout);
      RoomGrows(after, |mid|, |list|, cap, now);
      forall i: nat | i < |mid| ensures HasJoined(list, newcomers, after, i, now, cap, timeout) {
        assert HasJoined(list, newcomers[..n], mid, i, now, cap, timeout);
      }
    }
  }

  lemma RoomGrows(list: seq<DrainFlags>, more: nat, least: nat, cap: int, now: int)
    requires least <= more
    ensures forall i: nat :: MadeRoomAt(list, i, more, cap, now) ==> MadeRoomAt(list, i, least, cap, now)
  {
  }

  class PairStats {
    const ip: string
    const sni: string
    const ipOrigin: string
    const sniOrigin: string

    var probesSent: nat
    var probesRecv: nat
    var realPacketsSent: nat
    var realPacketsLost: nat
    var emaProbeLoss: Rate
    var emaRealLoss: Rate
    var latencySumMs: real
    var latencyCount: nat
    var activeConnections: int
    var totalConnections: int
    var alive: bool
    var probed: bool
    var inActivePool: bool
    var dataCheckFailed: bool
    var forceClosed: bool
    /** How often the force-close signal has been closed. */
    var closings: nat
    var drainStartedAt: Option<int>

    constructor (ip: string, sni: string, ipOrigin: string, sniOrigin: string)
      ensures this.ip == ip && this.sni == sni && this.ipOrigin == ipOrigin && this.sniOrigin == sniOrigin
      ensures Condition() == FRESH && latencySumMs == 0.0 && latencyCount == 0
      ensures probesSent == probesRecv == realPacketsSent == realPacketsLost == 0 && alive && !probed
      ensures emaProbeLoss == emaRealLoss == 0.0
      ensures activeConnections == 0 && totalConnections == 0 && !inActivePool && !dataCheckFailed && !forceClosed
      ensures drainStartedAt == None && closings == 0
    {
      this.ip, this.sni, this.ipOrigin, this.sniOrigin := ip, sni, ipOrigin, sniOrigin;
      probesSent, probesRecv, realPacketsSent, realPacketsLost := 0, 0, 0, 0;
      emaProbeLoss, emaRealLoss, latencySumMs, latencyCount := 0.0, 0.0, 0.0, 0;
      activeConnections, totalConnections := 0, 0;
      alive, probed, inActivePool, dataCheckFailed, forceClosed := true, false, false, false, false;
      drainStartedAt, closings := None, 0;
    }

    function Key(): PairKey {
      PairKey(ip, sni)
    }

    function Origin(a: Axis): string {
      if a.IPs? then ipOrigin else sniOrigin
    }

    function Condition(): Health
      reads this
    {
      Health(probesSent, probesRecv, realPacketsSent, realPacketsLost, emaProbeLoss, emaRealLoss, alive, probed)
    }

    function CombinedLossRate(): Rate
      reads this
    {
      Condition().CombinedLossRate()
    }

    /** AvgLatencyMs, at most the cap, as a fraction of it. */
    function LatencyScore(): real
      reads this
    {
      var average := if latencyCount == 0 then LATENCY_CAP_MS else latencySumMs / latencyCount as real;
      (if average < LATENCY_CAP_MS then average else LATENCY_CAP_MS) / LATENCY_CAP_MS
    }

    /** Score, lower is better; None is the infinite score of a dead pair. */
    function Score(): Option<real>
      reads this
    {
      if !alive then None
      else if !probed then Some(0.5)
      else Some(0.6 * CombinedLossRate() + 0.2 * LatencyScore() + 0.2 * Condition().ProbeLossRate())
    }

    /** Lower is better: loss counts three parts, latency one, up to 1500 ms, and probe loss one; an unprobed pair lies in
        the middle, and a dead one is worse than all. */
    lemma ScoreIsExact()
      ensures Score() == None <==> !alive
      ensures alive && !probed ==> Score() == Some(0.5)
      ensures alive && probed ==>
        var average := if latencyCount == 0 || latencySumMs > 1500.0 * latencyCount as real then 1500.0
                       else latencySumMs / latencyCount as real;
        5.0 * Score().value == 3.0 * CombinedLossRate() + average / 1500.0 + Condition().ProbeLossRate()
    {
      hide Health.CombinedLossRate, Health.ProbeLossRate;
      if latencyCount > 0 {
        assert latencySumMs == latencySumMs / latencyCount as real * latencyCount as real;
      }
    }

    /** Known to the pool: probed at least once and not caught black-holing data. */
    predicate IsKnown()
      reads this
    {
      probed && !dataCheckFailed
    }

    method RecordProbe(success: bool, deadThreshold: real, latencyMs: real)
      modifies this`probesSent, this`probed, this`emaProbeLoss, this`probesRecv, this`latencySumMs, this`latencyCount,
               this`alive
      ensures Condition() == old(Condition()).Probe(success, deadThreshold)
      ensures probed && probesSent == old(probesSent) + 1 && probesRecv == old(probesRecv) + (if success then 1 else 0)
      ensures 100.0 * emaProbeLoss == 99.0 * old(emaProbeLoss) + (if success then 0.0 else 1.0)
      ensures alive <==> if probesSent >= 3 && emaProbeLoss >= deadThreshold then false
                         else old(alive) || (probesSent >= 3 && probesRecv > 0)
      ensures latencyCount == old(latencyCount) + (if success then 1 else 0)
      ensures latencySumMs == old(latencySumMs) + (if success then latencyMs else 0.0)
    {
      probesSent := probesSent + 1;
      probed := true;
      emaProbeLoss := Blend(!success, emaProbeLoss);
      if success {
        probesRecv := probesRecv + 1;
        latencySumMs := latencySumMs + latencyMs;
        latencyCount := latencyCount + 1;
      }
      if probesSent >= MIN_PROBES {
        if emaProbeLoss >= deadThreshold {
          alive := false;
        } else if probesRecv > 0 {
          alive := true;
        }
      }
    }

    method RecordRealPacket(lost: bool)
      modifies this`realPacketsSent, this`realPacketsLost, this`emaRealLoss
      ensures Condition() == old(Condition()).Packet(lost)
      ensures realPacketsSent == old(realPacketsSent) + 1 && realPacketsLost == old(realPacketsLost) + (if lost then 1 else 0)
      ensures 100.0 * emaRealLoss == 99.0 * old(emaRealLoss) + (if lost then 1.0 else 0.0)
    {
      realPacketsSent := realPacketsSent + 1;
      if lost {
        realPacketsLost := realPacketsLost + 1;
      }
      emaRealLoss := Blend(lost, emaRealLoss);
    }

    function Flags(): DrainFlags
      reads this`drainStartedAt, this`forceClosed
    {
      DrainFlags(drainStartedAt, forceClosed)
    }

    /** The signal is closed once if the pair is force-closed, and never otherwise. */
    predicate SignalledOnce()
      reads this
    {
      closings == if forceClosed then 1 else 0
    }

    method StartDraining(now: int)
      modifies this`drainStartedAt
      ensures drainStartedAt == if old(drainStartedAt).None? then Some(now) else old(drainStartedAt)
      ensures forall timeout :: Flags() == old(Flags()).Take(Starts(now), timeout)
    {
      if drainStartedAt.None? {
        drainStartedAt := Some(now);
      }
    }

    method ForceClose()
      modifies this`inActivePool, this`forceClosed, this`closings
      ensures !inActivePool && forceClosed && forall timeout :: Flags() == old(Flags()).Take(MadeRoom, timeout)
      ensures closings == old(closings) + (if old(forceClosed) then 0 else 1)
      ensures old(SignalledOnce()) ==> SignalledOnce()
    {
      inActivePool := false;
      if !forceClosed {
        forceClosed := true;
        closings := closings + 1;
      }
    }

    function DrainAge(now: int): int
      reads this`drainStartedAt, this`forceClosed
    {
      Flags().Age(now)
    }
  }
}
