/** How a pair is judged: the counters and moving averages of PairStats in internal/pool/pool.go, on values, and what
    they can say after a given number of events. */
module PairHealth {
  import opened Sequences

  const MIN_PROBES := 3
  /** emaAlphaProbe and emaAlphaReal, which are the same number. */
  const EMA_ALPHA := 0.01

  type Rate = r: real | 0.0 <= r <= 1.0 witness 0.0

  function Blend(lost: bool, ema: Rate): (r: Rate)
    ensures !lost ==> r <= ema
    ensures lost ==> ema <= r
  {
    EMA_ALPHA * (if lost then 1.0 else 0.0) + (1.0 - EMA_ALPHA) * ema
  }

  datatype Health = Health(probesSent: nat, probesRecv: nat, realSent: nat, realLost: nat,
                           emaProbeLoss: Rate, emaRealLoss: Rate, alive: bool, probed: bool)
  {
    function ProbeLossRate(): Rate {
      if probesSent < MIN_PROBES then 0.0 else emaProbeLoss
    }

    function RealLossRate(): Rate {
      if realSent == 0 then 0.0 else emaRealLoss
    }

    function CombinedLossRate(): Rate {
      if realSent > 10 then 0.7 * RealLossRate() + 0.3 * ProbeLossRate() else ProbeLossRate()
    }

    function Probe(success: bool, deadThreshold: real): Health {
      var ema := Blend(!success, emaProbeLoss);
      var recv := probesRecv + if success then 1 else 0;
      this.(probesSent := probesSent + 1, probesRecv := recv, emaProbeLoss := ema, probed := true,
            alive := if probesSent + 1 < MIN_PROBES then alive
                     else if ema >= deadThreshold then false
                     else recv > 0 || alive)
    }

    function Packet(lost: bool): Health {
      this.(realSent := realSent + 1, realLost := realLost + (if lost then 1 else 0),
            emaRealLoss := Blend(lost, emaRealLoss))
    }
  }

  const FRESH := Health(0, 0, 0, 0, 0.0, 0.0, true, false)

  datatype Event = Probed(success: bool) | Sent(lost: bool)

  /** A pair after some events. */
  function Onward(h: Health, events: seq<Event>, deadThreshold: real): Health {
    if events == [] then h
    else
      var h' := Onward(h, events[..|events| - 1], deadThreshold);
      match events[|events| - 1]
      case Probed(success) => h'.Probe(success, deadThreshold)
      case Sent(lost) => h'.Packet(lost)
  }

  lemma NothingHappened(h: Health, deadThreshold: real)
    ensures Onward(h, [], deadThreshold) == h
  {
  }

  lemma OnwardNext(h: Health, events: seq<Event>, success: bool, deadThreshold: real)
    ensures Onward(h, events + [Probed(success)], deadThreshold) == Onward(h, events, deadThreshold).Probe(success, deadThreshold)
  {
    assert (events + [Probed(success)])[..|events|] == events;
  }

  function After(events: seq<Event>, deadThreshold: real): Health {
    Onward(FRESH, events, deadThreshold)
  }

  // ---- the moving average ----

  function Pow99(n: nat): (r: real)
    ensures 0.0 < r <= 1.0
  {
    if n == 0 then 1.0 else 0.99 * Pow99(n - 1)
  }

  lemma {:induction false} Pow99Adds(m: nat, n: nat)
    ensures Pow99(m + n) == Pow99(m) * Pow99(n)
  {
    if m > 0 {
      Pow99Adds(m - 1, n);
    }
  }

  lemma {:induction false} Pow99Falls(m: nat, n: nat)
    requires m <= n
    ensures Pow99(n) <= Pow99(m)
    ensures m < n ==> Pow99(n) < Pow99(m)
  {
    if m < n {
      Pow99Falls(m, n - 1);
    }
  }

  function Ema(losses: seq<bool>): Rate {
    if losses == [] then 0.0 else Blend(losses[|losses| - 1], Ema(losses[..|losses| - 1]))
  }

  /** After n events the average is at most 1 - 0.99^n, and reaches it only when all n were losses. */
  lemma {:induction false} EmaBound(losses: seq<bool>)
    ensures Ema(losses) <= 1.0 - Pow99(|losses|)
    ensures Ema(losses) == 1.0 - Pow99(|losses|) <==> forall i :: 0 <= i < |losses| ==> losses[i]
  {
    if losses != [] {
      var n := |losses| - 1;
      EmaBound(losses[..n]);
      assert (forall i :: 0 <= i < |losses| ==> losses[i]) <==> losses[n] && forall i :: 0 <= i < n ==> losses[..n][i];
    }
  }

  /** The average moves a hundredth of the way to 1 with a loss, and to 0 without one. */
  lemma EmaMoves(losses: seq<bool>, lost: bool)
    ensures Ema([]) == 0.0
    ensures 100.0 * (Ema(losses + [lost]) - Ema(losses)) == (if lost then 1.0 else 0.0) - Ema(losses)
  {
    assert (losses + [lost])[..|losses|] == losses;
  }

  // ---- from events to counters ----

  function ProbeLosses(events: seq<Event>): seq<bool> {
    if events == [] then []
    else
      ProbeLosses(events[..|events| - 1]) +
      match events[|events| - 1]
      case Probed(success) => [!success]
      case Sent(_) => []
  }

  function PacketLosses(events: seq<Event>): seq<bool> {
    if events == [] then []
    else
      PacketLosses(events[..|events| - 1]) +
      match events[|events| - 1]
      case Probed(_) => []
      case Sent(lost) => [lost]
  }

  /** The two averages are those of the two kinds of event, however they interleave, and the verdict follows from the
      probe average alone: dead is no latch, and a pair that never answered is not judged differently. */
  lemma {:induction false} AfterIsFaithful(events: seq<Event>, dead: real)
    ensures var h := After(events, dead);
      && h.probesSent == |ProbeLosses(events)| && h.realSent == |PacketLosses(events)|
      && h.emaProbeLoss == Ema(ProbeLosses(events)) && h.emaRealLoss == Ema(PacketLosses(events))
      && (h.alive <==> h.probesSent < 3 || h.emaProbeLoss < dead)
  {
    if events != [] {
      var n := |events| - 1;
      AfterIsFaithful(events[..n], dead);
      var p, q := ProbeLosses(events[..n]), PacketLosses(events[..n]);
      match events[n]
      case Probed(success) =>
        assert (p + [!success])[..|p|] == p;
        assert q + [] == q;
      case Sent(lost) =>
        assert (q + [lost])[..|q|] == q;
        assert p + [] == p;
    }
  }

  /** However many probes and packets, the combined loss rate of a pair that started fresh stays under 1 - 0.99^m,
      where m is the larger of the two counts. */
  lemma CombinedBound(events: seq<Event>, dead: real)
    ensures After(events, dead).CombinedLossRate()
         <= 1.0 - Pow99(Max(|ProbeLosses(events)|, |PacketLosses(events)|))
  {
    var p, q := ProbeLosses(events), PacketLosses(events);
    AfterIsFaithful(events, dead);
    EmaBound(p);
    EmaBound(q);
    Pow99Falls(|p|, Max(|p|, |q|));
    Pow99Falls(|q|, Max(|p|, |q|));
  }

  /** Fewer than three probes count for nothing, and packets count, seven parts to three, from the eleventh on. */
  lemma RateIsExact(events: seq<Event>, dead: real)
    ensures var p, q := ProbeLosses(events), PacketLosses(events);
      var probes := if |p| < 3 then 0.0 else Ema(p);
      10.0 * After(events, dead).CombinedLossRate() == if |q| <= 10 then 10.0 * probes else 7.0 * Ema(q) + 3.0 * probes
    ensures var q := PacketLosses(events); After(events, dead).RealLossRate() == if |q| == 0 then 0.0 else Ema(q)
  {
    AfterIsFaithful(events, dead);
  }

  // ---- the numbers ----

  lemma Bracket(m: nat, a: real, b: real, n: nat, c: real, d: real, lo: real, hi: real)
    requires 0.0 < a < Pow99(m) < b && 0.0 < c < Pow99(n) < d
    requires lo <= a * c && b * d <= hi
    ensures lo < Pow99(m + n) < hi
  {
    Pow99Adds(m, n);
    hide Pow99;
    Products(a, Pow99(m), b, c, Pow99(n), d);
  }

  lemma Products(a: real, x: real, b: real, c: real, y: real, d: real)
    requires 0.0 < a < x < b && 0.0 < c < y < d
    ensures a * c < x * y < b * d
  {
    assert a * c < x * c < x * y;
    assert x * y < x * d < b * d;
  }

  lemma Pow99Small()
    ensures Pow99(1) == 0.99 && Pow99(2) == 0.9801
  {
  }

  lemma Pow99Eighty()
    ensures Pow99(22) > 0.80 > Pow99(23)
  {
    hide Pow99;
    Pow99Small();
    Bracket(2, 0.98009, 0.98011, 2, 0.98009, 0.98011, 0.96057, 0.96062);
    Bracket(2, 0.98009, 0.98011, 1, 0.98999, 0.99001, 0.97027, 0.97032);
    Bracket(4, 0.96057, 0.96062, 3, 0.97027, 0.97032, 0.93201, 0.93212);
    Bracket(4, 0.96057, 0.96062, 4, 0.96057, 0.96062, 0.92269, 0.92280);
    Bracket(8, 0.92269, 0.92280, 7, 0.93201, 0.93212, 0.85995, 0.86017);
    Bracket(15, 0.85995, 0.86017, 7, 0.93201, 0.93212, 0.80148, 0.80179);
    Bracket(15, 0.85995, 0.86017, 8, 0.92269, 0.92280, 0.79346, 0.79377);
  }

  lemma Pow99OneTwentyEight()
    ensures 0.2762326 < Pow99(128) < 0.2762707 && 0.7249679 < Pow99(32) < 0.7249927
  {
    hide Pow99;
    Pow99Small();
    Bracket(2, 0.980099, 0.980101, 2, 0.980099, 0.980101, 0.960594, 0.960598);
    Bracket(4, 0.960594, 0.960598, 4, 0.960594, 0.960598, 0.9227408, 0.9227486);
    Bracket(8, 0.9227408, 0.9227486, 8, 0.9227408, 0.9227486, 0.8514505, 0.8514650);
    Bracket(16, 0.8514505, 0.8514650, 16, 0.8514505, 0.8514650, 0.7249679, 0.7249927);
    Bracket(32, 0.7249679, 0.7249927, 32, 0.7249679, 0.7249927, 0.5255784, 0.5256145);
    Bracket(64, 0.5255784, 0.5256145, 64, 0.5255784, 0.5256145, 0.2762326, 0.2762707);
  }

  lemma Pow99Twenty()
    ensures Pow99(160) > 0.20 > Pow99(161)
  {
    hide Pow99;
    Pow99Small();
    Pow99OneTwentyEight();
    Bracket(128, 0.2762326, 0.2762707, 32, 0.7249679, 0.7249927, 0.2002597, 0.2002943);
    Bracket(160, 0.2002597, 0.2002943, 1, 0.98999, 0.99001, 0.1982551, 0.1982934);
  }

  lemma Pow99Numbers()
    ensures Pow99(22) > 0.80 > Pow99(23)
    ensures Pow99(160) > 0.20 > Pow99(161)
  {
    Pow99Eighty();
    Pow99Twenty();
  }

  /** With the default thresholds, no pair is marked dead before its 161st probe, and none counts as weak before 23
      probes or 23 real packets. */
  lemma FreshPairsSurvive(events: seq<Event>)
    ensures !After(events, 0.80).alive ==> |ProbeLosses(events)| >= 161
    ensures After(events, 0.80).CombinedLossRate() >= 0.20 ==>
              |ProbeLosses(events)| >= 23 || |PacketLosses(events)| >= 23
  {
    var p, q := |ProbeLosses(events)|, |PacketLosses(events)|;
    Pow99Numbers();
    AfterIsFaithful(events, 0.80);
    EmaBound(ProbeLosses(events));
    CombinedBound(events, 0.80);
    if p <= 160 {
      Pow99Falls(p, 160);
    }
    if Max(p, q) <= 22 {
      Pow99Falls(Max(p, q), 22);
    }
  }

  /** With the default thresholds a pair of at most 22 probes and 22 packets is alive and under the threshold, whatever
      became of them. */
  lemma YoungPairsServe(events: seq<Event>)
    requires |ProbeLosses(events)| <= 22 && |PacketLosses(events)| <= 22
    ensures After(events, 0.80).alive && After(events, 0.80).CombinedLossRate() < 0.20
  {
    FreshPairsSurvive(events);
  }

  // ---- all probes lost ----

  function Failures(n: nat): (r: seq<Event>)
    ensures |r| == n
  {
    seq(n, _ => Probed(false))
  }

  lemma {:induction false} AllLost(n: nat, dead: real)
    ensures var h := After(Failures(n), dead);
      && h.probesSent == n && h.probesRecv == 0 && h.realSent == 0
      && h.emaProbeLoss == 1.0 - Pow99(n)
      && (h.alive <==> n < MIN_PROBES || 1.0 - Pow99(n) < dead)
  {
    if n > 0 {
      AllLost(n - 1, dead);
      assert Failures(n)[..n - 1] == Failures(n - 1);
      Pow99Falls(n - 1, n);
    }
  }

  /** The bounds are reached: 161 lost probes kill, 23 lost probes make weak. */
  lemma BoundsAreReached()
    ensures !After(Failures(161), 0.80).alive
    ensures After(Failures(23), 0.80).CombinedLossRate() >= 0.20
  {
    Pow99Numbers();
    AllLost(161, 0.80);
    AllLost(23, 0.80);
  }

  /** Of a pair whose probes were all lost, the 23rd decides. */
  lemma LostPairsAreWeak(n: nat)
    ensures After(Failures(n), 0.80).CombinedLossRate() >= 0.20 <==> n >= 23
    ensures n <= 22 ==> After(Failures(n), 0.80).alive
  {
    Pow99Numbers();
    AllLost(n, 0.80);
    if n >= 23 {
      Pow99Falls(23, n);
    } else {
      Pow99Falls(n, 22);
    }
  }

  lemma OneMoreFailure(n: nat, dead: real)
    ensures After(Failures(n), dead).Probe(false, dead) == After(Failures(n + 1), dead)
  {
    assert Failures(n + 1)[..n] == Failures(n);
  }

  // ---- the recycle gate ----

  /** tryRecycleIPOne / tryRecycleSNIOne leave a name in quarantine exactly when the trial pair looks like this. */
  predicate GateRejects(trial: Health, lossThreshold: real) {
    !trial.alive || trial.CombinedLossRate() >= lossThreshold
  }

  predicate AllProbes(events: seq<Event>) {
    forall i :: 0 <= i < |events| ==> events[i].Probed?
  }

  lemma {:induction false} AllProbesCount(events: seq<Event>)
    requires AllProbes(events)
    ensures |ProbeLosses(events)| == |events| && PacketLosses(events) == []
  {
    if events != [] {
      AllProbesCount(events[..|events| - 1]);
    }
  }

  function WorstTrialLoss(n: nat): real {
    if n < MIN_PROBES then 0.0 else 1.0 - Pow99(n)
  }

  /** When n probes of a fresh trial can reject it at all: exactly when n lost probes would. */
  lemma GateExact(n: nat, dead: real, lossThreshold: real)
    ensures (exists events :: |events| == n && AllProbes(events) && GateRejects(After(events, dead), lossThreshold))
       <==> (n >= MIN_PROBES && 1.0 - Pow99(n) >= dead) || WorstTrialLoss(n) >= lossThreshold
  {
    AllLost(n, dead);
    if (n >= MIN_PROBES && 1.0 - Pow99(n) >= dead) || WorstTrialLoss(n) >= lossThreshold {
      assert GateRejects(After(Failures(n), dead), lossThreshold);
      assert AllProbes(Failures(n));
    }
    if events :| |events| == n && AllProbes(events) && GateRejects(After(events, dead), lossThreshold) {
      AllProbesCount(events);
      AfterIsFaithful(events, dead);
      EmaBound(ProbeLosses(events));
    }
  }

  /** So with the default thresholds and fewer than 23 probes per trial (the default is 4 to 6) the gate rejects
      nothing: a quarantined name whose every probe fails is recycled. */
  lemma DefaultGateIsOpen(events: seq<Event>)
    requires AllProbes(events) && |events| <= 22
    ensures !GateRejects(After(events, 0.80), 0.20)
  {
    AllProbesCount(events);
    FreshPairsSurvive(events);
  }
}
