/** CombinationExplorer of internal/pool/pool.go, updated in place.  Every public operation is proved to be a run of the
    steps of ExplorerModel, and so keeps the invariant of ExplorerRuns. */
module Explorer {
  import opened Sequences
  import opened Orders
  import opened PairHealth
  import opened ExplorerModel
  import opened ExplorerRuns
  import opened ExplorerLaws
  import opened LossRanking
  import opened Pairs

  const INITIAL_SAMPLE := 20
  const EXPLORE_BATCH := 10
  const VERIFY_TOP := 15

  lemma CoordsGrow(keys: set<PairKey>, c: PairKey, a: Axis)
    ensures Coords(keys + {c}, a) == Coords(keys, a) + {Coord(c, a)}
  {
  }

  /** A pair nobody has probed, used or put in service. */
  predicate Unused(ps: PairStats)
    reads ps
  {
    !ps.inActivePool && ps.activeConnections == 0 && ps.Condition() == FRESH
  }

  /** New pairs of a name: of this origin on its axis, and of the partner's origin in a ledger that has one. */
  ghost predicate NewOnesCarry(before: map<PairKey, PairStats>, table: map<PairKey, PairStats>, a: Axis, x: string,
                               origin: string, theirs: map<string, string>)
  {
    forall k :: k in table && k !in before ==>
      && Coord(k, a) == x && table[k].Origin(a) == origin
      && (Coord(k, a.Other()) in theirs ==> table[k].Origin(a.Other()) == theirs[Coord(k, a.Other())])
  }

  /** The table holds what it held before, and else only new pairs of `x`. */
  ghost predicate Brought(before: map<PairKey, PairStats>, table: map<PairKey, PairStats>, a: Axis, x: string,
                          origin: string, theirs: map<string, string>)
  {
    && (forall k :: k in before ==> k in table && table[k] == before[k])
    && NewOnesCarry(before, table, a, x, origin, theirs)
  }

  lemma BroughtTwice(before: map<PairKey, PairStats>, mid: map<PairKey, PairStats>, table: map<PairKey, PairStats>, a: Axis,
                     x: string, origin: string, theirs: map<string, string>)
    requires Brought(before, mid, a, x, origin, theirs) && Brought(mid, table, a, x, origin, theirs)
    ensures Brought(before, table, a, x, origin, theirs) && forall k :: k in mid ==> k in table && table[k] == mid[k]
  {
  }

  lemma NothingBrought(table: map<PairKey, PairStats>, a: Axis, x: string, origin: string, theirs: map<string, string>)
    ensures Brought(table, table, a, x, origin, theirs)
  {
  }

  lemma OneBrought(before: map<PairKey, PairStats>, ps: PairStats, a: Axis, x: string, origin: string,
                   theirs: map<string, string>)
    requires ps.Key() !in before && Coord(ps.Key(), a) == x && ps.Origin(a) == origin
    requires Coord(ps.Key(), a.Other()) in theirs ==> ps.Origin(a.Other()) == theirs[Coord(ps.Key(), a.Other())]
    ensures Brought(before, before[ps.Key() := ps], a, x, origin, theirs)
  {
  }

  /** A pair as the constructor makes it. */
  predicate StaticPair(k: PairKey, ps: PairStats)
    reads ps
  {
    ps.Key() == k && Unused(ps) && ps.ipOrigin == "static" && ps.sniOrigin == "static"
  }

  /** The configured pairs, all of static origin, and the names they carry. */
  method Enrol(combinations: seq<PairKey>)
    returns (table: map<PairKey, PairStats>, seenIPs: set<string>, seenSNIs: set<string>)
    ensures table.Keys == Elems(combinations)
    ensures forall k :: k in table ==> StaticPair(k, table[k]) && fresh(table[k])
    ensures seenIPs == Coords(table.Keys, IPs) && seenSNIs == Coords(table.Keys, SNIs)
  {
    table, seenIPs, seenSNIs := map[], {}, {};
    for i := 0 to |combinations|
      invariant table.Keys == Elems(combinations[..i])
      invariant seenIPs == Coords(table.Keys, IPs) && seenSNIs == Coords(table.Keys, SNIs)
      invariant forall k :: k in table ==> StaticPair(k, table[k]) && fresh(table[k])
    {
      var c := combinations[i];
      var ps := new PairStats(c.ip, c.sni, "static", "static");
      CoordsGrow(table.Keys, c, IPs);
      CoordsGrow(table.Keys, c, SNIs);
      assert combinations[..i + 1] == combinations[..i] + [c];
      assert StaticPair(c, ps);
      table := table[c := ps];
      seenIPs, seenSNIs := seenIPs + {c.ip}, seenSNIs + {c.sni};
    }
    assert combinations[..|combinations|] == combinations;
  }

  function StaticLedger(names: set<string>): map<string, string> {
    map x | x in names :: "static"
  }

  lemma AllAreStatic(side: Side)
    requires side.ledger == StaticLedger(Elems(side.active))
    ensures forall x :: x in side.active ==> x in side.ledger && side.ledger[x] == "static"
  {
    assert forall x :: x in side.active ==> x in Elems(side.active);
  }

  method SortedNames(names: set<string>) returns (r: seq<string>)
    ensures NoDup(r) && Elems(r) == names && SortedBy(r, StringLess)
  {
    var listed := Listed(names);
    r := SortStrings(listed);
    PermutationFacts(r, listed);
  }

  lemma StartIsInitial(st: State, combinations: seq<PairKey>)
    requires st.keys == Elems(combinations) && multiset(st.queue) == multiset(combinations)
    requires NoDup(st.ips.active) && Elems(st.ips.active) == Coords(st.keys, IPs) && st.ips.quarantine == map[]
    requires NoDup(st.snis.active) && Elems(st.snis.active) == Coords(st.keys, SNIs) && st.snis.quarantine == map[]
    ensures Initial(st, combinations) && Within(st, NOTHING)
  {
    InitialIsJoint(st, combinations);
  }

  lemma OrphansAre(st: State, a: Axis)
    ensures Orphans(st, a) == Elems(st.On(a).active) - Coords(st.keys, a) - st.On(a).quarantine.Keys
  {
  }

  lemma {:induction false} FirstAt(names: seq<string>, i: nat, x: string)
    requires i < |names| && names[i] == x && forall j :: 0 <= j < i ==> names[j] != x
    ensures RemoveFirst(names, x) == names[..i] + names[i + 1..]
  {
    if i > 0 {
      FirstAt(names[1..], i - 1, x);
      assert names[..i] + names[i + 1..] == [names[0]] + (names[1..][..i - 1] + names[1..][i..]);
    }
  }

  lemma {:induction false} NotThere(names: seq<string>, x: string)
    requires forall j :: 0 <= j < |names| ==> names[j] != x
    ensures RemoveFirst(names, x) == names
  {
    if names != [] {
      NotThere(names[1..], x);
    }
  }

  /** The first occurrence of a name goes. */
  method CutFirst(names: seq<string>, x: string) returns (kept: seq<string>)
    ensures kept == RemoveFirst(names, x)
  {
    for i := 0 to |names|
      invariant forall j :: 0 <= j < i ==> names[j] != x
    {
      if names[i] == x {
        FirstAt(names, i, x);
        return names[..i] + names[i + 1..];
      }
    }
    NotThere(names, x);
    kept := names;
  }

  method CollectOrphans(ledger: map<string, string>, orphans: seq<string>, now: int)
    returns (entries: map<string, Quarantined>)
    ensures entries == OrphanEntries(ledger, Elems(orphans), now)
  {
    entries := map[];
    for i := 0 to |orphans|
      invariant entries == OrphanEntries(ledger, Elems(orphans[..i]), now)
    {
      assert orphans[..i + 1] == orphans[..i] + [orphans[i]];
      entries := entries[orphans[i] := Quarantined([], LedgerOr(ledger, orphans[i]), now, now, 0)];
    }
    assert orphans[..|orphans|] == orphans;
  }

  /** The sweep of one axis, where `live` are the names that still have a pair. */
  method SweepSide(side: Side, live: set<string>, now: int) returns (swept: Side, orphans: seq<string>)
    ensures orphans == Without(side.active, live + side.quarantine.Keys)
    ensures Elems(orphans) == Elems(side.active) - live - side.quarantine.Keys
    ensures swept == side.(active := Without(side.active, Elems(orphans)),
                           quarantine := side.quarantine + OrphanEntries(side.ledger, Elems(orphans), now))
  {
    orphans := Filter(side.active, live + side.quarantine.Keys);
    var entries := CollectOrphans(side.ledger, orphans, now);
    var kept := Filter(side.active, Elems(orphans));
    swept := side.(active := kept, quarantine := side.quarantine + entries);
  }

  /** The partners of the pairs about to go, in the order they were met. */
  method PartnersInOrder(keys: seq<PairKey>, a: Axis, x: string) returns (partners: seq<string>)
    requires NoDup(keys) && forall k :: k in keys ==> Coord(k, a) == x
    ensures NoDup(partners) && Elems(partners) == PartnersOf(Elems(keys), a, x)
  {
    partners := [];
    for i := 0 to |keys|
      invariant |partners| == i
      invariant forall j :: 0 <= j < i ==> partners[j] == Coord(keys[j], a.Other())
    {
      partners := partners + [Coord(keys[i], a.Other())];
    }
    forall i, j | 0 <= i < j < |partners| ensures partners[i] != partners[j] {
      assert keys[i] != keys[j] && Coord(keys[i], a) == Coord(keys[j], a);
    }
    forall y ensures y in partners <==> y in PartnersOf(Elems(keys), a, x) {
      if y in partners {
        var j :| 0 <= j < |partners| && partners[j] == y;
        assert keys[j] in Elems(keys);
      }
      if y in PartnersOf(Elems(keys), a, x) {
        var k :| k in keys && Coord(k, a.Other()) == y;
        var j :| 0 <= j < |keys| && keys[j] == k;
        assert partners[j] == y;
      }
    }
  }

  lemma BanishThenSweep(st: State, lost: Lost, banish: Step, b: Axis, now: int) returns (steps: seq<Step>)
    requires Enabled(st, banish) && banish.Evict? && Within(Apply(st, banish), lost)
    ensures steps == [banish, Sweep(b, now)] && Forgotten(steps) == NOTHING && Enabled(Apply(st, banish), Sweep(b, now))
    ensures IsRun(st, steps, Apply(Apply(st, banish), Sweep(b, now)))
  {
    steps := [banish, Sweep(b, now)];
    SweepKeeps(Apply(st, banish), lost, b, now);
    TwoSteps(st, banish, Sweep(b, now));
    PlusNothing(NOTHING);
  }

  predicate IsRestoreOf(step: Step, attempt: Step) {
    step.Restore? && attempt.Attempt? && step.a == attempt.a && step.x == attempt.x
  }

  /** What recycling one name does: nothing if it left the quarantine meanwhile, a stamped attempt, then a recovery. */
  predicate IsRecycling(steps: seq<Step>, present: bool, ok: bool, attempt: Step) {
    && (!present ==> steps == [])
    && (present && !ok ==> steps == [attempt])
    && (present && ok ==> |steps| == 2 && steps[0] == attempt && IsRestoreOf(steps[1], attempt))
  }

  /** A quarantine entry as the trimming sort sees it. */
  datatype Age = Age(name: string, evictedAt: int)

  predicate Older(p: Age, q: Age) {
    p.evictedAt < q.evictedAt
  }

  /** The ages of a quarantine, oldest first. */
  method SortedAges(quarantine: map<string, Quarantined>) returns (ages: seq<Age>)
    ensures |ages| == |quarantine|
    ensures forall i :: 0 <= i < |ages| ==>
      ages[i].name in quarantine && ages[i].evictedAt == quarantine[ages[i].name].evictedAt
    ensures forall i, j :: 0 <= i < j < |ages| ==> ages[i].name != ages[j].name && ages[i].evictedAt <= ages[j].evictedAt
  {
    var names := Listed(quarantine.Keys);
    NoDupCardinality(names);
    assert forall i :: 0 <= i < |names| ==> names[i] in Elems(names);
    var unsorted := seq(|names|, i requires 0 <= i < |names| => Age(names[i], quarantine[names[i]].evictedAt));
    ages := Sorted(unsorted, Older);
    PermutationFacts(ages, unsorted);
    forall i | 0 <= i < |ages|
      ensures ages[i].name in quarantine && ages[i].evictedAt == quarantine[ages[i].name].evictedAt
    {
      assert ages[i] in Elems(unsorted);
    }
  }

  /** What trimming to a cap means: no more stay than the cap allows, no more go than must, and the oldest go. */
  ghost predicate IsTrim(before: map<string, Quarantined>, after: map<string, Quarantined>, dropped: set<string>, cap: int) {
    && dropped <= before.Keys && after == before - dropped
    && |dropped| == Max(0, Min(|before|, |before| - cap))
    && |after| <= Max(cap, 0)
    && forall d, k :: d in dropped && k in after ==> before[d].evictedAt <= after[k].evictedAt
  }

  function FirstNames(ages: seq<Age>, n: nat): set<string>
    requires n <= |ages|
  {
    set j | 0 <= j < n :: ages[j].name
  }

  lemma OneMoreName(ages: seq<Age>, n: nat)
    requires forall i, j :: 0 <= i < j < |ages| ==> ages[i].name != ages[j].name
    ensures FirstNames(ages, 0) == {}
    ensures n < |ages| ==>
      ages[n].name !in FirstNames(ages, n) && FirstNames(ages, n + 1) == FirstNames(ages, n) + {ages[n].name}
  {
  }

  method DropOldest(before: map<string, Quarantined>, cap: int)
    returns (after: map<string, Quarantined>, dropped: set<string>)
    ensures IsTrim(before, after, dropped, cap) && after == before - dropped && dropped <= before.Keys
  {
    hide IsTrim, FirstNames;
    after, dropped := before, {};
    var overflow := |before| - cap;
    var ages := SortedAges(before);
    var i := 0;
    OneMoreName(ages, 0);
    while i < overflow && i < |ages|
      invariant 0 <= i <= |ages| && (i == 0 || i <= overflow)
      invariant dropped == FirstNames(ages, i)
      invariant |dropped| == i && after == before - dropped && dropped <= before.Keys
    {
      OneMoreName(ages, i);
      after := after - {ages[i].name};
      dropped := dropped + {ages[i].name};
      i := i + 1;
    }
    OldestGo(before, ages, i, dropped);
    TrimCounts(before, after, dropped, cap);
  }

  lemma TrimCounts(before: map<string, Quarantined>, after: map<string, Quarantined>, dropped: set<string>, cap: int)
    requires dropped <= before.Keys && after == before - dropped
    requires |dropped| == Max(0, Min(|before|, |before| - cap))
    requires forall d, k :: d in dropped && k in after ==> before[d].evictedAt <= after[k].evictedAt
    ensures IsTrim(before, after, dropped, cap)
  {
    assert before.Keys == after.Keys + dropped;
  }

  lemma OldestGo(quarantine: map<string, Quarantined>, ages: seq<Age>, n: nat, dropped: set<string>)
    requires |ages| == |quarantine| && n <= |ages|
    requires forall i :: 0 <= i < |ages| ==>
      ages[i].name in quarantine && ages[i].evictedAt == quarantine[ages[i].name].evictedAt
    requires forall i, j :: 0 <= i < j < |ages| ==> ages[i].name != ages[j].name && ages[i].evictedAt <= ages[j].evictedAt
    requires dropped == FirstNames(ages, n)
    ensures forall d, k :: d in dropped && k in quarantine && k !in dropped ==>
      quarantine[d].evictedAt <= quarantine[k].evictedAt
  {
    var names := seq(|ages|, i requires 0 <= i < |ages| => ages[i].name);
    assert NoDup(names);
    NoDupCardinality(names);
    assert Elems(names) <= quarantine.Keys;
    SubsetOfSameSize(Elems(names), quarantine.Keys);
    forall d, k | d in dropped && k in quarantine && k !in dropped
      ensures quarantine[d].evictedAt <= quarantine[k].evictedAt
    {
      var i :| 0 <= i < n && ages[i].name == d;
      var j :| 0 <= j < |names| && names[j] == k;
    }
  }

  /** Tries of one axis with one cooldown, and recoveries, in the order of the clock. */
  ghost predicate IsPass(steps: seq<Step>, a: Axis, cooldown: int, from: int, until: int) {
    && (forall s :: s in steps ==> (s.Attempt? && s.a == a && s.cooldown == cooldown) || (s.Restore? && s.a == a))
    && Timed(steps, from, until)
  }

  lemma ExtendRecycling(st: State, steps: seq<Step>, mid: State, more: seq<Step>, end: State, present: bool, ok: bool,
                        attempt: Step, from: int, until: int)
    requires IsRun(st, steps, mid) && IsRun(mid, more, end) && attempt.Attempt? && until <= attempt.t
    requires IsPass(steps, attempt.a, attempt.cooldown, from, until) && IsRecycling(more, present, ok, attempt)
    ensures IsRun(st, steps + more, end) && IsPass(steps + more, attempt.a, attempt.cooldown, from, attempt.t)
  {
    hide IsRun, Timed;
    RunsConcat(st, steps, mid, more, end);
    RecyclingIsTimed(more, present, ok, attempt, until);
    TimedConcat(steps, more, from, until, attempt.t);
  }

  lemma RecyclingIsTimed(steps: seq<Step>, present: bool, ok: bool, attempt: Step, from: int)
    requires attempt.Attempt? && from <= attempt.t && IsRecycling(steps, present, ok, attempt)
    ensures Timed(steps, from, attempt.t)
  {
    if present && ok {
      TwoTimed(attempt, steps[1], from, attempt.t);
      assert steps == [attempt, steps[1]];
    } else if present {
      OneTimed(attempt, from, attempt.t);
    }
  }

  /** The names tried in a recycling pass, in order. */
  function Tried(steps: seq<Step>): seq<string> {
    if steps == [] then []
    else
      Tried(steps[..|steps| - 1]) + if steps[|steps| - 1].Attempt? then [steps[|steps| - 1].x] else []
  }

  /** How many of them came back. */
  function Recoveries(steps: seq<Step>): nat {
    if steps == [] then 0
    else Recoveries(steps[..|steps| - 1]) + if steps[|steps| - 1].Restore? then 1 else 0
  }

  lemma NothingTried(st: State, a: Axis, cooldown: int, now: int)
    ensures IsRun(st, [], st) && IsPass([], a, cooldown, now, now) && Tried([]) == [] && Recoveries([]) == 0
  {
  }

  lemma TriedOne(steps: seq<Step>, more: seq<Step>, ok: bool, attempt: Step)
    requires attempt.Attempt? && IsRecycling(more, true, ok, attempt)
    ensures Tried(steps + more) == Tried(steps) + [attempt.x]
    ensures Recoveries(steps + more) == Recoveries(steps) + if ok then 1 else 0
  {
    assert (steps + [attempt])[..|steps|] == steps;
    if ok {
      assert steps + more == steps + [attempt] + [more[1]];
      assert (steps + more)[..|steps| + 1] == steps + [attempt];
    } else {
      assert steps + more == steps + [attempt];
    }
  }

  /** The quarantined names whose cooldown has run out and whose origin the scope admits. */
  function Eligible(quarantine: map<string, Quarantined>, minCooldown: int, scope: string, now: int): set<string> {
    set x | x in quarantine && now - quarantine[x].lastAttempt >= minCooldown
            && (scope == "both" || quarantine[x].origin == scope)
  }

  lemma EligibleMeans(quarantine: map<string, Quarantined>, dropped: set<string>, minCooldown: int, scope: string, now: int)
    ensures Eligible(quarantine - dropped, minCooldown, scope, now) ==
      set x | x in quarantine && x !in dropped && quarantine[x].lastAttempt + minCooldown <= now
              && (scope == "both" || quarantine[x].origin == scope)
  {
  }

  lemma OthersStayThere(before: map<string, Quarantined>, after: map<string, Quarantined>, candidates: seq<string>,
                        i: nat)
    requires NoDup(candidates) && i < |candidates|
    requires after - {candidates[i]} == before - {candidates[i]}
    requires forall j :: i <= j < |candidates| ==> candidates[j] in before
    ensures forall j :: i < j < |candidates| ==> candidates[j] in after
  {
    forall j | i < j < |candidates| ensures candidates[j] in after {
      assert candidates[j] in before - {candidates[i]};
    }
  }

  lemma OthersStayCooled(before: map<string, Quarantined>, after: map<string, Quarantined>, candidates: seq<string>, i: nat,
                         now: int, minCooldown: int)
    requires NoDup(candidates) && i < |candidates|
    requires after - {candidates[i]} == before - {candidates[i]}
    requires forall j :: i <= j < |candidates| && candidates[j] in before ==>
      now - before[candidates[j]].lastAttempt >= minCooldown
    ensures forall j :: i < j < |candidates| && candidates[j] in after ==>
      now - after[candidates[j]].lastAttempt >= minCooldown
  {
    forall j | i < j < |candidates| && candidates[j] in after
      ensures now - after[candidates[j]].lastAttempt >= minCooldown
    {
      assert candidates[j] in after - {candidates[i]};
    }
  }

  lemma TakeKeeps(st: State, lost: Lost, n: nat)
    requires Within(st, lost) && n <= |st.queue|
    ensures Enabled(st, Take(n)) && Apply(st, Take(n)) == st.(queue := st.queue[n..])
    ensures Within(st.(queue := st.queue[n..]), lost)
  {
    StepKeeps(st, lost, Take(n));
    PlusNothing(lost);
  }

  lemma ReshuffleKeeps(st: State, lost: Lost, order: seq<PairKey>)
    requires Within(st, lost) && NoDup(order) && Elems(order) == st.keys
    ensures Enabled(st, Reshuffle(order)) && Apply(st, Reshuffle(order)) == st.(queue := order)
    ensures Within(st.(queue := order), lost)
  {
    StepKeeps(st, lost, Reshuffle(order));
    PlusNothing(lost);
  }

  lemma BatchIsThere(st: State, lost: Lost, n: nat)
    requires Within(st, lost) && n <= |st.queue|
    ensures forall k :: k in st.queue[..n] ==> k in st.keys
  {
    assert forall k :: k in st.queue[..n] ==> k in Elems(st.queue);
  }

  /** A pair as the ranking by score sees it. */
  datatype Rated = Rated(key: PairKey, score: Option<real>)

  /** The lower score, and any score before the infinite one. */
  predicate Better(s: Option<real>, t: Option<real>) {
    s.Some? && (t.None? || s.value < t.value)
  }

  predicate BetterRated(p: Rated, q: Rated) {
    Better(p.score, q.score)
  }

  /** Some keys and their scores, each once, best first. */
  ghost predicate IsRanking(ranked: seq<Rated>, scores: map<PairKey, Option<real>>) {
    && |ranked| == |scores|
    && (forall i :: 0 <= i < |ranked| ==> ranked[i].key in scores && ranked[i].score == scores[ranked[i].key])
    && (forall i, j :: 0 <= i < j < |ranked| ==> ranked[i].key != ranked[j].key)
    && (forall i, j :: 0 <= i < j < |ranked| ==> !Better(ranked[j].score, ranked[i].score))
  }

  /** The best n of the scored keys, best first: nobody left out is better than anybody chosen. */
  ghost predicate IsTop(top: seq<PairKey>, scores: map<PairKey, Option<real>>, n: nat) {
    && NoDup(top) && Elems(top) <= scores.Keys && |top| == Min(n, |scores|)
    && (forall i, j :: 0 <= i < j < |top| ==> !Better(scores[top[j]], scores[top[i]]))
    && (forall k, l :: k in top && l in scores && l !in top ==> !Better(scores[l], scores[k]))
  }

  /** sortByScore. */
  method Rank(scores: map<PairKey, Option<real>>) returns (ranked: seq<Rated>)
    ensures IsRanking(ranked, scores)
  {
    var keys := Listed(scores.Keys);
    NoDupCardinality(keys);
    assert forall i :: 0 <= i < |keys| ==> keys[i] in Elems(keys);
    var unsorted := seq(|keys|, i requires 0 <= i < |keys| => Rated(keys[i], scores[keys[i]]));
    ranked := Sorted(unsorted, BetterRated);
    PermutationFacts(ranked, unsorted);
    forall i | 0 <= i < |ranked| ensures ranked[i].key in scores && ranked[i].score == scores[ranked[i].key] {
      assert ranked[i] in Elems(unsorted);
    }
  }

  lemma TopOfRanking(ranked: seq<Rated>, scores: map<PairKey, Option<real>>, top: seq<PairKey>, n: nat)
    requires IsRanking(ranked, scores)
    requires |top| == Min(n, |scores|) && forall i :: 0 <= i < |top| ==> top[i] == ranked[i].key
    ensures IsTop(top, scores, n)
  {
    var keys := seq(|ranked|, i requires 0 <= i < |ranked| => ranked[i].key);
    NoDupCardinality(keys);
    SubsetOfSameSize(Elems(keys), scores.Keys);
    forall k, l | k in top && l in scores && l !in top ensures !Better(scores[l], scores[k]) {
      var i :| 0 <= i < |top| && top[i] == k;
      var j :| 0 <= j < |keys| && keys[j] == l;
      assert j >= |top|;
    }
  }

  /** In numbers: a chosen score is finite whenever one left out is, and then no greater. */
  lemma TopMeans(top: seq<PairKey>, scores: map<PairKey, Option<real>>, n: nat)
    requires IsTop(top, scores, n)
    ensures forall k, l :: k in top && l in scores && l !in top && scores[l].Some? ==>
      k in scores && scores[k].Some? && scores[k].value <= scores[l].value
    ensures forall i, j :: 0 <= i < j < |top| && scores[top[j]].Some? ==>
      scores[top[i]].Some? && scores[top[i]].value <= scores[top[j]].value
  {
    assert forall k :: k in top ==> k in Elems(top);
    forall i, j | 0 <= i < j < |top| && scores[top[j]].Some?
      ensures scores[top[i]].Some? && scores[top[i]].value <= scores[top[j]].value
    {
      assert !Better(scores[top[j]], scores[top[i]]);
    }
  }

  method TopOf(scores: map<PairKey, Option<real>>, n: nat) returns (top: seq<PairKey>)
    ensures IsTop(top, scores, n) && forall k :: k in top ==> k in scores
  {
    var ranked := Rank(scores);
    top := [];
    for i := 0 to Min(n, |ranked|)
      invariant |top| == i && forall j :: 0 <= j < i ==> top[j] == ranked[j].key
    {
      top := top + [ranked[i].key];
    }
    TopOfRanking(ranked, scores, top, n);
    assert forall k :: k in top ==> k in Elems(top);
  }

  lemma OneMoreRestored(keys: set<PairKey>, a: Axis, x: string, others: seq<string>, i: nat, blocked: set<string>)
    ensures RestoredKeys(keys, a, x, others[..0], blocked) == [] && Elems(RestoredKeys(keys, a, x, others[..0], blocked)) == {}
    ensures i < |others| ==>
      var done, more, k := RestoredKeys(keys, a, x, others[..i], blocked), RestoredKeys(keys, a, x, others[..i + 1], blocked),
                           KeyOn(a, x, others[i]);
      var stays := others[i] in blocked || k in keys + Elems(done);
      more == (if stays then done else done + [k]) && Elems(more) == Elems(done) + if stays then {} else {k}
  {
    assert i < |others| ==> others[..i + 1][..i] == others[..i];
  }

  /** Which attempt checked the data plane last, counted from 1; 0 if none did. */
  function LastCheck(checks: seq<bool>): (n: nat)
    ensures n <= |checks| && (n > 0 ==> checks[n - 1]) && forall j :: n <= j < |checks| ==> !checks[j]
  {
    if checks == [] then 0
    else if checks[|checks| - 1] then |checks|
    else
      var n := LastCheck(checks[..|checks| - 1]);
      assert forall j :: 0 <= j < |checks| - 1 ==> checks[..|checks| - 1][j] == checks[j];
      n
  }

  class CombinationExplorer {
    const probeCount: int
    const lossThreshold: real
    const deadThreshold: real

    var stats: map<PairKey, PairStats>
    var unexplored: seq<PairKey>
    var ips: Side
    var snis: Side

    /** The names trimmed or forgotten so far. */
    ghost var lost: Lost

    ghost function Abs(): State
      reads this
    {
      State(stats.Keys, unexplored, ips, snis)
    }

    ghost predicate Valid()
      reads this
    {
      Within(Abs(), lost) && Keyed()
    }

    /** Every pair is stored under its key. */
    ghost predicate Keyed()
      reads this
    {
      forall k :: k in stats ==> stats[k].Key() == k
    }

    function On(a: Axis): Side
      reads this
    {
      if a.IPs? then ips else snis
    }

    method Put(a: Axis, side: Side)
      modifies this`ips, this`snis
      ensures Abs() == old(Abs()).With(a, side)
    {
      if a.IPs? {
        ips := side;
      } else {
        snis := side;
      }
    }

    constructor (combinations: seq<PairKey>, probeCount: int, lossThreshold: real, deadThreshold: real)
      ensures Valid() && Initial(Abs(), combinations) && lost == NOTHING
      ensures this.probeCount == probeCount && this.lossThreshold == lossThreshold && this.deadThreshold == deadThreshold
      ensures forall k :: k in stats ==> StaticPair(k, stats[k]) && fresh(stats[k])
      ensures ips.ledger == StaticLedger(Elems(ips.active)) && snis.ledger == StaticLedger(Elems(snis.active))
      ensures forall k :: k in stats ==> stats[k].alive && !stats[k].probed && stats[k].ipOrigin == stats[k].sniOrigin == "static"
      ensures forall x :: x in ips.active ==> x in ips.ledger && ips.ledger[x] == "static"
      ensures forall x :: x in snis.active ==> x in snis.ledger && snis.ledger[x] == "static"
      ensures SortedBy(ips.active, StringLess) && SortedBy(snis.active, StringLess)
    {
      this.probeCount, this.lossThreshold, this.deadThreshold := probeCount, lossThreshold, deadThreshold;
      var table, seenIPs, seenSNIs := Enrol(combinations);
      var queue := Shuffle(combinations);
      var sortedIPs := SortedNames(seenIPs);
      var sortedSNIs := SortedNames(seenSNIs);
      stats, unexplored := table, queue;
      ips := Side(sortedIPs, map[], StaticLedger(seenIPs));
      snis := Side(sortedSNIs, map[], StaticLedger(seenSNIs));
      lost := NOTHING;
      new;
      hide Within, Initial, StaticLedger, SortedBy;
      AllAreStatic(ips);
      AllAreStatic(snis);
      StartIsInitial(Abs(), combinations);
    }

    // ---- bookkeeping ----

    /** LookupIPOrigin / LookupSNIOrigin: the ledger, else any live pair, else the quarantine, else "dynamic". */
    ghost predicate IsOrigin(a: Axis, x: string, origin: string)
      reads this
    {
      if x in On(a).ledger then origin == On(a).ledger[x]
      else if x in Coords(stats.Keys, a) then exists k :: k in stats && Coord(k, a) == x && origin == stats[k].Origin(a)
      else if x in On(a).quarantine then origin == On(a).quarantine[x].origin
      else origin == "dynamic"
    }

    method LookupOrigin(a: Axis, x: string) returns (origin: string)
      ensures IsOrigin(a, x, origin)
    {
      if x in On(a).ledger {
        return On(a).ledger[x];
      }
      var mine := Carrying(stats.Keys, a, {x});
      if mine != {} {
        var k :| k in mine;
        return stats[k].Origin(a);
      }
      assert forall k :: k in stats ==> (Coord(k, a) == x ==> k in mine);
      if x in On(a).quarantine {
        return On(a).quarantine[x].origin;
      }
      return "dynamic";
    }

    /** AddUnexploredPair.  It does not ask whether either name is quarantined: the invariant survives exactly when the
        caller did. */
    method AddUnexploredPair(ip: string, sni: string, ipOrigin: string, sniOrigin: string)
      requires Keyed()
      modifies this`stats, this`unexplored, this`ips, this`snis
      ensures Keyed() && Abs() == Added(old(Abs()), PairKey(ip, sni))
      ensures old(Valid()) ==> (Valid() <==> Welcome(old(Abs()), PairKey(ip, sni)))
      ensures var k := PairKey(ip, sni);
        && k in stats && stats == old(stats)[k := stats[k]]
        && (if k in old(stats) then stats == old(stats)
            else fresh(stats[k]) && Unused(stats[k]) && stats[k].ipOrigin == ipOrigin && stats[k].sniOrigin == sniOrigin)
    {
      hide Within;
      var key := PairKey(ip, sni);
      if Within(Abs(), lost) {
        AddExact(Abs(), lost, key);
      }
      if key in stats {
        return;
      }
      var ps := new PairStats(ip, sni, ipOrigin, sniOrigin);
      stats := stats[key := ps];
      unexplored := unexplored + [key];
      if ip !in ips.active {
        ips := ips.(active := ips.active + [ip]);
      }
      if sni !in snis.active {
        snis := snis.(active := snis.active + [sni]);
      }
      assert stats.Keys == old(stats.Keys) + {key};
      assert Abs() == Added(old(Abs()), key);
    }

    method SetOrigin(a: Axis, x: string, origin: string)
      requires Valid()
      modifies this`ips, this`snis
      ensures Valid() && Abs() == Apply(old(Abs()), Step.SetOrigin(a, x, origin))
    {
      hide Within;
      StepKeeps(Abs(), lost, Step.SetOrigin(a, x, origin));
      PlusNothing(lost);
      Put(a, On(a).(ledger := On(a).ledger[x := origin]));
    }

    /** RemoveAllPairsForIP / RemoveAllPairsForSNI. */
    method RemoveAllPairsFor(a: Axis, x: string)
      requires Valid()
      modifies this`stats, this`unexplored
      ensures Valid() && Abs() == Apply(old(Abs()), DropPairs(a, x))
      ensures forall k :: k in stats ==> k in old(stats) && stats[k] == old(stats[k])
    {
      hide Within;
      StepKeeps(Abs(), lost, DropPairs(a, x));
      PlusNothing(lost);
      stats := stats - Carrying(stats.Keys, a, {x});
      unexplored := Filter(unexplored, Carrying(Elems(unexplored), a, {x}));
    }

    /** RemoveIPBookkeeping / RemoveSNIBookkeeping: the first occurrence goes, and the ledger entry. */
    method RemoveBookkeeping(a: Axis, x: string)
      requires Valid()
      modifies this`ips, this`snis, this`lost
      ensures Valid() && Abs() == Apply(old(Abs()), DropName(a, x))
      ensures lost == old(lost).Plus(OnAxis(a, {x}))
    {
      hide Within;
      StepKeeps(Abs(), lost, DropName(a, x));
      var kept := CutFirst(On(a).active, x);
      Put(a, On(a).(active := kept, ledger := On(a).ledger - {x}));
      lost := lost.Plus(OnAxis(a, {x}));
    }

    // ---- orphans ----

    /** quarantineOrphanedIPs / quarantineOrphanedSNIs. */
    method QuarantineOrphaned(a: Axis, now: int) returns (count: nat)
      requires Valid()
      modifies this`ips, this`snis, this`unexplored
      ensures Valid() && Abs() == Apply(old(Abs()), Sweep(a, now))
      ensures count == |Without(old(On(a)).active, Coords(stats.Keys, a) + old(On(a)).quarantine.Keys)|
    {
      hide Within, Apply, Enabled, Elems, Orphans, Coords, Carrying, OrphanEntries;
      ghost var st := Abs();
      SweepKeeps(st, lost, a, now);
      OrphansAre(st, a);
      var side, orphans := SweepSide(On(a), Coords(stats.Keys, a), now);
      Put(a, side);
      unexplored := Filter(unexplored, Carrying(Elems(unexplored), a, Elems(orphans)));
      count := |orphans|;
      assert Abs() == Swept(st, a, now);
    }

    /** The independent sweep of both axes that ends a refresh. */
    method SweepBoth(now: int) returns (ghost steps: seq<Step>)
      requires Valid()
      modifies this`ips, this`snis, this`unexplored
      ensures Valid() && steps == [Sweep(IPs, now), Sweep(SNIs, now)] && IsRun(old(Abs()), steps, Abs())
      ensures ListsAgree(Abs(), lost)
    {
      hide Within, Apply, Enabled, ListsAgree, IsRun, Swept;
      ghost var st := Abs();
      SweepsAgree(st, lost, now, now);
      SweepKeeps(st, lost, IPs, now);
      var _ := QuarantineOrphaned(IPs, now);
      SweepKeeps(Abs(), lost, SNIs, now);
      TwoSteps(st, Sweep(IPs, now), Sweep(SNIs, now));
      var _ := QuarantineOrphaned(SNIs, now);
      steps := [Sweep(IPs, now), Sweep(SNIs, now)];
    }

    // ---- eviction ----

    /** The losses that count against a name: of its probed pairs of the right origin, unless it is protected. */
    function Losses(a: Axis, protected: set<string>, scope: string): (losses: map<PairKey, real>)
      reads this, stats.Values
      ensures losses.Keys <= stats.Keys && forall k :: k in losses ==> Coord(k, a) !in protected && losses[k] >= 0.0
    {
      map k | k in stats && Coord(k, a) !in protected && (scope == "both" || stats[k].Origin(a) == scope) && stats[k].probed
        :: stats[k].CombinedLossRate() as real
    }

    /** The pairs of a name in some order: their keys, the partners they are with, and the origin in the first of them. */
    method Leaving(a: Axis, x: string) returns (gone: set<PairKey>, partners: seq<string>, origin: string)
      requires Carrying(stats.Keys, a, {x}) != {}
      ensures gone == Carrying(stats.Keys, a, {x}) && x in Coords(stats.Keys, a)
      ensures NoDup(partners) && Elems(partners) == PartnersOf(stats.Keys, a, x)
      ensures exists k :: k in stats && Coord(k, a) == x && stats[k].Origin(a) == origin
    {
      gone := Carrying(stats.Keys, a, {x});
      var keys := Listed(gone);
      assert forall k :: k in keys ==> k in gone && k in stats;
      assert Elems(keys) != {} && keys[0] in gone;
      partners := PartnersInOrder(keys, a, x);
      origin := stats[keys[0]].Origin(a);
    }

    /** The removal half of an eviction: the pairs of `x` leave the table and the queue, `x` leaves its list, and its
        entry remembers the partners. */
    method Banish(a: Axis, x: string, now: int) returns (ghost step: Step)
      requires Valid() && Carrying(stats.Keys, a, {x}) != {}
      modifies this`stats, this`unexplored, this`ips, this`snis
      ensures Valid() && Enabled(old(Abs()), step) && Abs() == Apply(old(Abs()), step)
      ensures step.Evict? && step == Evict(a, x, step.partners, step.origin, now)
      ensures exists k :: k in old(stats) && Coord(k, a) == x && old(stats)[k].Origin(a) == step.origin
      ensures stats == old(stats) - Carrying(old(stats).Keys, a, {x})
    {
      hide Within, Apply, Enabled, PartnersOf, Coords, NoDup;
      ghost var st := Abs();
      var gone, partners, origin := Leaving(a, x);
      EvictKeeps(st, lost, a, x, partners, origin, now);
      step := Evict(a, x, partners, origin, now);
      stats := stats - gone;
      unexplored := Filter(unexplored, Carrying(Elems(unexplored), a, {x}));
      var side := On(a);
      var names := Filter(side.active, {x});
      Put(a, side.(active := names, quarantine := side.quarantine[x := Quarantined(partners, origin, now, now, 0)]));
    }

    /** Banishing a name and then sweeping the other axis for the partners it orphaned. */
    method EvictName(a: Axis, x: string, now: int) returns (ghost steps: seq<Step>)
      requires Valid() && Carrying(stats.Keys, a, {x}) != {}
      modifies this`stats, this`unexplored, this`ips, this`snis
      ensures Valid()
      ensures IsRun(old(Abs()), steps, Abs()) && Forgotten(steps) == NOTHING
      ensures stats == old(stats) - Carrying(old(stats).Keys, a, {x})
      ensures exists partners, origin :: steps == [Evict(a, x, partners, origin, now), Sweep(a.Other(), now)]
    {
      hide Within, Apply, Enabled, Carrying, Dropped, IsRun;
      ghost var st := Abs();
      ghost var banish := Banish(a, x, now);
      var _ := QuarantineOrphaned(a.Other(), now);
      steps := BanishThenSweep(st, lost, banish, a.Other(), now);
    }

    /** EvictWeakestIP / EvictWeakestSNI: the unprotected name with the worst mean loss goes into quarantine with all
        its pairs, if that mean reaches the threshold; then the other axis is swept for orphans. */
    method EvictWeakest(a: Axis, protected: set<string>, scope: string, now: int)
      returns (evicted: Option<string>, ghost steps: seq<Step>)
      requires Valid()
      modifies this`stats, this`unexplored, this`ips, this`snis
      ensures Valid()
      ensures IsRun(old(Abs()), steps, Abs()) && Forgotten(steps) == NOTHING
      ensures IsChoice(evicted, old(Losses(a, protected, scope)), a, lossThreshold)
      ensures evicted.None? ==> IsChoice(None, Losses(a, protected, scope), a, lossThreshold)
      ensures match evicted
        case None => steps == [] && stats == old(stats)
        case Some(x) =>
          && x !in protected
          && stats == old(stats) - Carrying(old(stats).Keys, a, {x})
          && exists partners, origin :: steps == [Evict(a, x, partners, origin, now), Sweep(a.Other(), now)]
      ensures evicted.Some? ==> old(Accused(a, evicted.value, scope))
      ensures evicted.None? ==> forall k :: k in stats && Coord(k, a) !in protected && Counts(stats[k], a, scope) ==>
        Spared(a, Coord(k, a), scope)
    {
      steps := [];
      var losses := Losses(a, protected, scope);
      evicted := Choose(losses, a, lossThreshold);
      ChoiceMeans(a, protected, scope, evicted);
      if evicted.None? {
        return;
      }
      var x := evicted.value;
      assert Carrying(losses.Keys, a, {x}) <= Carrying(stats.Keys, a, {x});
      var k :| k in Carrying(losses.Keys, a, {x});
      assert k in losses && Coord(k, a) == x;
      hide *;
      steps := EvictName(a, x, now);
    }

    /** Eviction goes by pairs that have been probed, of the right origin. */
    predicate Counts(ps: PairStats, a: Axis, scope: string)
      reads ps
    {
      ps.probed && (scope == "both" || ps.Origin(a) == scope)
    }

    /** Some pair of the name that counts has reached the threshold. */
    ghost predicate Accused(a: Axis, x: string, scope: string)
      reads this, stats.Values
    {
      exists k :: k in stats && Coord(k, a) == x && Counts(stats[k], a, scope)
                  && stats[k].CombinedLossRate() as real >= lossThreshold
    }

    /** Some pair of the name that counts has not. */
    ghost predicate Spared(a: Axis, x: string, scope: string)
      reads this, stats.Values
    {
      exists k :: k in stats && Coord(k, a) == x && Counts(stats[k], a, scope)
                  && (stats[k].CombinedLossRate() as real) < lossThreshold
    }

    /** A name goes only if a pair of it that counts has reached the threshold, and stays only if one has not. */
    lemma ChoiceMeans(a: Axis, protected: set<string>, scope: string, evicted: Option<string>)
      requires IsChoice(evicted, Losses(a, protected, scope), a, lossThreshold)
      ensures evicted.Some? ==> Accused(a, evicted.value, scope)
      ensures evicted.None? ==> forall k :: k in stats && Coord(k, a) !in protected && Counts(stats[k], a, scope) ==>
        Spared(a, Coord(k, a), scope)
    {
      var losses := Losses(a, protected, scope);
      hide PairStats.CombinedLossRate, Mean;
      if evicted.Some? {
        MeanIsBetween(losses, a, evicted.value, lossThreshold);
      } else {
        forall k | k in stats && Coord(k, a) !in protected && Counts(stats[k], a, scope)
          ensures Spared(a, Coord(k, a), scope)
        {
          assert k in Carrying(losses.Keys, a, {Coord(k, a)});
          MeanIsBetween(losses, a, Coord(k, a), lossThreshold);
        }
      }
    }

    // ---- recycling ----

    /** ProbeOne: two or more attempts, each of them dialling, perhaps shaking hands, perhaps checking the data plane; the
        last check, if there was one, decides whether the pair counts as black-holed. */
    method ProbeOne(ps: PairStats) returns (ghost outcomes: seq<Event>, ghost checks: seq<bool>)
      modifies ps`probesSent, ps`probed, ps`emaProbeLoss, ps`probesRecv, ps`latencySumMs, ps`latencyCount, ps`alive,
               ps`dataCheckFailed
      ensures AllProbes(outcomes) && 2 <= |outcomes| && probeCount - 1 <= |outcomes| <= Max(2, probeCount + 1)
      ensures ps.Condition() == Onward(old(ps.Condition()), outcomes, deadThreshold)
      ensures ps.probed && ps.probesSent == old(ps.probesSent) + |outcomes|
      ensures |checks| == |outcomes|
      ensures ps.dataCheckFailed == if LastCheck(checks) == 0 then old(ps.dataCheckFailed)
                                    else outcomes[LastCheck(checks) - 1] == Probed(false)
      ensures LastCheck(checks) > 0 ==> (ps.IsKnown() <==> outcomes[LastCheck(checks) - 1] == Probed(true))
    {
      hide Onward, Health.Probe, Health.CombinedLossRate;
      var jitter: int :| -1 <= jitter <= 1;
      var count := Max(2, probeCount + jitter);
      outcomes, checks := [], [];
      NothingHappened(ps.Condition(), deadThreshold);
      for i := 0 to count
        invariant |outcomes| == i == |checks| && AllProbes(outcomes)
        invariant ps.Condition() == Onward(old(ps.Condition()), outcomes, deadThreshold)
        invariant (i > 0 ==> ps.probed) && ps.probesSent == old(ps.probesSent) + i
        invariant ps.dataCheckFailed == if LastCheck(checks) == 0 then old(ps.dataCheckFailed)
                                        else outcomes[LastCheck(checks) - 1] == Probed(false)
      {
        var success, checked: bool := *, *;
        if checked {
          ps.dataCheckFailed := !success;
        }
        var latencyMs: real := *;
        ps.RecordProbe(success, deadThreshold, latencyMs);
        OnwardNext(old(ps.Condition()), outcomes, success, deadThreshold);
        assert (checks + [checked])[..|checks|] == checks;
        outcomes, checks := outcomes + [Probed(success)], checks + [checked];
      }
    }

    method RestorePair(a: Axis, x: string, y: string, origin: string)
      requires Keyed()
      modifies this`stats, this`unexplored
      ensures Keyed()
      ensures var key := KeyOn(a, x, y);
        var stays := y in On(a.Other()).quarantine || key in old(stats);
        && stats.Keys == old(stats).Keys + (if stays then {} else {key})
        && unexplored == old(unexplored) + if stays then [] else [key]
      ensures Brought(old(stats), stats, a, x, origin, On(a.Other()).ledger)
      ensures forall k :: k in stats && k !in old(stats) ==> fresh(stats[k]) && Unused(stats[k])
    {
      hide Brought;
      var key := KeyOn(a, x, y);
      assert Coord(key, a) == x && Coord(key, a.Other()) == y;
      if y in On(a.Other()).quarantine || key in stats {
        NothingBrought(stats, a, x, origin, On(a.Other()).ledger);
        return;
      }
      var theirs := LookupOrigin(a.Other(), y);
      var ps := new PairStats(key.ip, key.sni, if a.IPs? then origin else theirs, if a.IPs? then theirs else origin);
      OneBrought(stats, ps, a, x, origin, On(a.Other()).ledger);
      stats := stats[key := ps];
      unexplored := unexplored + [key];
    }

    /** The pairs that a recycled name gets back, none of them over a quarantined partner. */
    method RestorePairs(a: Axis, x: string, others: seq<string>, origin: string)
      requires Keyed()
      modifies this`stats, this`unexplored
      ensures Keyed()
      ensures stats.Keys == old(stats).Keys + Elems(RestoredKeys(old(stats).Keys, a, x, others, On(a.Other()).quarantine.Keys))
      ensures unexplored == old(unexplored) + RestoredKeys(old(stats).Keys, a, x, others, On(a.Other()).quarantine.Keys)
      ensures Brought(old(stats), stats, a, x, origin, On(a.Other()).ledger)
      ensures forall k :: k in stats && k !in old(stats) ==> fresh(stats[k]) && Unused(stats[k])
    {
      hide RestoredKeys, KeyOn, Unused, IsOrigin, Keyed, Brought, Elems;
      ghost var keys, blocked, theirs := stats.Keys, On(a.Other()).quarantine.Keys, On(a.Other()).ledger;
      OneMoreRestored(keys, a, x, others, 0, blocked);
      NothingBrought(stats, a, x, origin, theirs);
      for i := 0 to |others|
        invariant Keyed()
        invariant stats.Keys == keys + Elems(RestoredKeys(keys, a, x, others[..i], blocked))
        invariant unexplored == old(unexplored) + RestoredKeys(keys, a, x, others[..i], blocked)
        invariant Brought(old(stats), stats, a, x, origin, theirs)
        invariant forall k :: k in stats && k !in old(stats) ==> fresh(stats[k]) && Unused(stats[k])
      {
        OneMoreRestored(keys, a, x, others, i, blocked);
        ghost var table := stats;
        RestorePair(a, x, others[i], origin);
        BroughtTwice(old(stats), table, stats, a, x, origin, theirs);
      }
      assert others[..|others|] == others;
    }

    function OriginOr(origin: string): string {
      if origin == "" then "static" else origin
    }

    /** An origin that was never recorded is static. */
    lemma OriginIs(origin: string)
      ensures |origin| > 0 ==> OriginOr(origin) == origin
      ensures |origin| == 0 ==> OriginOr(origin) == "static"
    {
    }

    /** The recovery itself, once the trial has passed. */
    method Reinstate(a: Axis, x: string, others: seq<string>) returns (ghost step: Step)
      requires Valid() && x in On(a).quarantine
      requires var partners := On(a).quarantine[x].partners;
        if partners != [] then others == partners else |others| == 1 && others[0] in On(a.Other()).active
      modifies this`stats, this`unexplored, this`ips, this`snis
      ensures Valid() && step == Restore(a, x, others) && Enabled(old(Abs()), step) && Abs() == Apply(old(Abs()), step)
      ensures old(stats).Keys <= stats.Keys && forall k :: k in old(stats) ==> stats[k] == old(stats)[k]
      ensures forall k :: k in stats && k !in old(stats) ==> fresh(stats[k]) && Unused(stats[k])
      ensures Brought(old(stats), stats, a, x, OriginOr(old(On(a)).quarantine[x].origin), On(a.Other()).ledger)
      ensures On(a).quarantine - {x} == old(On(a)).quarantine - {x}
    {
      hide Within, Apply, Enabled, RestoredKeys;
      step := Restore(a, x, others);
      RestoreKeeps(Abs(), lost, a, x, others);
      var origin := OriginOr(On(a).quarantine[x].origin);
      Put(a, On(a).(quarantine := On(a).quarantine - {x}));
      assert On(a.Other()) == old(On(a.Other()));
      RestorePairs(a, x, others, origin);
      Put(a, On(a).(active := Appended(On(a).active, x)));
    }

    method MarkAttempt(a: Axis, x: string, ghost now: int, t: int, ghost cooldown: int) returns (ghost step: Step)
      requires Valid() && x in On(a).quarantine
      requires now - On(a).quarantine[x].lastAttempt >= cooldown && now <= t
      modifies this`ips, this`snis
      ensures Valid() && step == Attempt(a, x, now, t, cooldown)
      ensures Enabled(old(Abs()), step) && Abs() == Apply(old(Abs()), step)
      ensures x in On(a).quarantine && On(a).quarantine[x].partners == old(On(a)).quarantine[x].partners
      ensures On(a).quarantine[x].origin == old(On(a)).quarantine[x].origin
      ensures On(a.Other()) == old(On(a.Other()))
      ensures On(a).quarantine - {x} == old(On(a)).quarantine - {x}
    {
      hide Within, Apply, Enabled;
      step := Attempt(a, x, now, t, cooldown);
      AttemptKeeps(Abs(), lost, a, x, now, t, cooldown);
      var info := On(a).quarantine[x];
      Put(a, On(a).(quarantine := On(a).quarantine[x := info.(lastAttempt := t, attempts := info.attempts + 1)]));
    }

    /** The trial pair lives outside the table; only the gate's verdict on it counts. */
    method Trial(a: Axis, x: string, partner: string, origin: string) returns (passed: bool, ghost outcomes: seq<Event>)
      ensures AllProbes(outcomes) && |outcomes| <= Max(2, probeCount + 1)
      ensures passed <==> !GateRejects(After(outcomes, deadThreshold), lossThreshold)
    {
      var key := KeyOn(a, x, partner);
      var trial := new PairStats(key.ip, key.sni, if a.IPs? then origin else "static", if a.IPs? then "static" else origin);
      var tried, _ := ProbeOne(trial);
      outcomes := tried;
      passed := trial.alive && trial.CombinedLossRate() < lossThreshold;
    }

    /** There is somebody to probe the quarantined name with: a remembered partner, or any listed name. */
    predicate HasTrial(a: Axis, x: string)
      reads this
    {
      x in On(a).quarantine && (On(a).quarantine[x].partners != [] || On(a.Other()).active != [])
    }

    /** A name is tried exactly if it remembers somebody, or anybody at all is listed on the other axis. */
    lemma TrialMeans(a: Axis, x: string)
      ensures HasTrial(a, x) <==>
        x in On(a).quarantine && (|On(a).quarantine[x].partners| > 0 || |On(a.Other()).active| > 0)
    {
    }

    /** The first half of a recovery: stamp the attempt, choose a partner, run the trial. */
    method AttemptTrial(a: Axis, x: string, ghost now: int, t: int, ghost cooldown: int)
      returns (passed: bool, others: seq<string>, ghost step: Step, ghost outcomes: seq<Event>)
      requires Valid() && x in On(a).quarantine
      requires now - On(a).quarantine[x].lastAttempt >= cooldown && now <= t
      modifies this`ips, this`snis
      ensures Valid() && step == Attempt(a, x, now, t, cooldown)
      ensures Enabled(old(Abs()), step) && Abs() == Apply(old(Abs()), step)
      ensures AllProbes(outcomes) && |outcomes| <= Max(2, probeCount + 1)
      ensures passed <==> old(HasTrial(a, x)) && !GateRejects(After(outcomes, deadThreshold), lossThreshold)
      ensures x in On(a).quarantine && On(a).quarantine[x].origin == old(On(a)).quarantine[x].origin
      ensures var partners := On(a).quarantine[x].partners;
        passed ==> if partners != [] then others == partners else |others| == 1 && others[0] in On(a.Other()).active
      ensures On(a).quarantine - {x} == old(On(a)).quarantine - {x}
    {
      hide Within, Apply, Enabled, After, GateRejects;
      step := MarkAttempt(a, x, now, t, cooldown);
      var info := On(a).quarantine[x];
      var listed := On(a.Other()).active;
      passed, others, outcomes := false, info.partners, [];
      if others == [] {
        if listed == [] {
          return;
        }
        var pick :| 0 <= pick < |listed|;
        others := [listed[pick]];
      }
      passed, outcomes := Trial(a, x, others[0], OriginOr(info.origin));
    }

    method RecyclePresent(a: Axis, x: string, ghost now: int, t: int, ghost cooldown: int)
      returns (ok: bool, ghost steps: seq<Step>, ghost outcomes: seq<Event>)
      requires Valid() && x in On(a).quarantine
      requires now - On(a).quarantine[x].lastAttempt >= cooldown && now <= t
      modifies this`stats, this`unexplored, this`ips, this`snis
      ensures Valid()
      ensures IsRun(old(Abs()), steps, Abs())
      ensures old(stats).Keys <= stats.Keys && forall k :: k in old(stats) ==> stats[k] == old(stats)[k]
      ensures forall k :: k in stats && k !in old(stats) ==> fresh(stats[k]) && Unused(stats[k])
      ensures AllProbes(outcomes) && |outcomes| <= Max(2, probeCount + 1)
      ensures ok <==> old(HasTrial(a, x)) && !GateRejects(After(outcomes, deadThreshold), lossThreshold)
      ensures IsRecycling(steps, true, ok, Attempt(a, x, now, t, cooldown))
      ensures Brought(old(stats), stats, a, x, OriginOr(old(On(a)).quarantine[x].origin), On(a.Other()).ledger)
      ensures On(a).quarantine - {x} == old(On(a)).quarantine - {x}
    {
      hide Within, Apply, Enabled, IsRun, After, GateRejects, Forgotten, Dropped, AllProbes, HasTrial;
      ghost var st := Abs();
      var others;
      ghost var attempt;
      ok, others, attempt, outcomes := AttemptTrial(a, x, now, t, cooldown);
      OneStep(st, attempt);
      steps := [attempt];
      if ok {
        ghost var restore := Reinstate(a, x, others);
        TwoSteps(st, attempt, restore);
        steps := [attempt, restore];
      }
    }

    /** tryRecycleIPOne / tryRecycleSNIOne: a fresh trial pair decides. */
    method TryRecycleOne(a: Axis, x: string, ghost now: int, t: int, ghost cooldown: int)
      returns (ok: bool, ghost steps: seq<Step>, ghost outcomes: seq<Event>)
      requires Valid() && now <= t
      requires x in On(a).quarantine ==> now - On(a).quarantine[x].lastAttempt >= cooldown
      modifies this`stats, this`unexplored, this`ips, this`snis
      ensures Valid()
      ensures IsRun(old(Abs()), steps, Abs())
      ensures old(stats).Keys <= stats.Keys && forall k :: k in old(stats) ==> stats[k] == old(stats)[k]
      ensures forall k :: k in stats && k !in old(stats) ==> fresh(stats[k]) && Unused(stats[k])
      ensures AllProbes(outcomes) && |outcomes| <= Max(2, probeCount + 1)
      ensures ok <==> old(HasTrial(a, x)) && !GateRejects(After(outcomes, deadThreshold), lossThreshold)
      ensures IsRecycling(steps, x in old(On(a)).quarantine, ok, Attempt(a, x, now, t, cooldown))
      ensures x in old(On(a)).quarantine ==>
        Brought(old(stats), stats, a, x, OriginOr(old(On(a)).quarantine[x].origin), On(a.Other()).ledger)
      ensures On(a).quarantine - {x} == old(On(a)).quarantine - {x}
    {
      hide Within, Apply, Enabled, After, GateRejects;
      ok, steps, outcomes := false, [], [];
      if x in On(a).quarantine {
        ok, steps, outcomes := RecyclePresent(a, x, now, t, cooldown);
      }
    }

    /** The overflow of a quarantine: the oldest entries go, as many as exceed the cap. */
    method TrimQuarantine(a: Axis, maxQuarantine: int) returns (ghost dropped: set<string>)
      requires Valid()
      modifies this`ips, this`snis, this`lost
      ensures Valid() && Enabled(old(Abs()), Trim(a, dropped)) && Abs() == Apply(old(Abs()), Trim(a, dropped))
      ensures lost == old(lost).Plus(OnAxis(a, dropped))
      ensures IsTrim(old(On(a)).quarantine, On(a).quarantine, dropped, maxQuarantine)
    {
      hide Within, Apply, Enabled, Dropped, IsTrim;
      ghost var st := Abs();
      var quarantine, gone := DropOldest(On(a).quarantine, maxQuarantine);
      dropped := gone;
      TrimKeeps(st, lost, a, dropped);
      Put(a, On(a).(quarantine := quarantine));
      lost := lost.Plus(OnAxis(a, dropped));
    }

    /** The candidates of a recycling pass are those whose cooldown has run out. */
    predicate Cooled(a: Axis, x: string, now: int, minCooldown: int)
      reads this
    {
      x in On(a).quarantine ==> now - On(a).quarantine[x].lastAttempt >= minCooldown
    }

    /** The quarantined names that may be tried, shuffled, at most `batch` of them. */
    method Candidates(a: Axis, batch: nat, minCooldown: int, scope: string, now: int) returns (candidates: seq<string>)
      ensures NoDup(candidates) && Elems(candidates) <= Eligible(On(a).quarantine, minCooldown, scope, now)
      ensures |candidates| == Min(batch, |Eligible(On(a).quarantine, minCooldown, scope, now)|)
      ensures forall j :: 0 <= j < |candidates| ==>
        candidates[j] in On(a).quarantine && Cooled(a, candidates[j], now, minCooldown)
    {
      var eligible := set x | x in On(a).quarantine && now - On(a).quarantine[x].lastAttempt >= minCooldown
                              && (scope == "both" || On(a).quarantine[x].origin == scope);
      assert eligible == Eligible(On(a).quarantine, minCooldown, scope, now);
      var listed := Listed(eligible);
      var shuffled := Shuffle(listed);
      PermutationFacts(shuffled, listed);
      NoDupCardinality(shuffled);
      candidates := shuffled[..Min(batch, |shuffled|)];
      assert forall x :: x in candidates ==> x in Elems(shuffled);
      assert forall j :: 0 <= j < |candidates| ==> candidates[j] in candidates;
    }

    method RecycleCandidates(a: Axis, candidates: seq<string>, minCooldown: int, now: int)
      returns (recovered: nat, later: int, ghost steps: seq<Step>)
      requires Valid() && NoDup(candidates)
      requires forall j :: 0 <= j < |candidates| ==>
        candidates[j] in On(a).quarantine && Cooled(a, candidates[j], now, minCooldown)
      modifies this`stats, this`unexplored, this`ips, this`snis
      ensures Valid() && IsRun(old(Abs()), steps, Abs())
      ensures IsPass(steps, a, minCooldown, now, later)
      ensures Tried(steps) == candidates && recovered == Recoveries(steps)
      ensures old(stats).Keys <= stats.Keys && forall k :: k in old(stats) ==> stats[k] == old(stats)[k]
      ensures forall k :: k in stats && k !in old(stats) ==> fresh(stats[k]) && Unused(stats[k])
    {
      hide Within, IsRun, IsRecycling, After, GateRejects, AllProbes, HasTrial, IsPass, NoDup, Recoveries, Tried;
      ghost var st := Abs();
      recovered, later, steps := 0, now, [];
      NothingTried(st, a, minCooldown, now);
      for i := 0 to |candidates|
        invariant Valid() && IsRun(st, steps, Abs()) && IsPass(steps, a, minCooldown, now, later) && now <= later
        invariant Tried(steps) == candidates[..i] && recovered == Recoveries(steps)
        invariant forall j :: i <= j < |candidates| ==> candidates[j] in On(a).quarantine
        invariant old(stats).Keys <= stats.Keys && forall k :: k in old(stats) ==> stats[k] == old(stats)[k]
        invariant forall k :: k in stats && k !in old(stats) ==> fresh(stats[k]) && Unused(stats[k])
        invariant forall j :: i <= j < |candidates| ==> Cooled(a, candidates[j], now, minCooldown)
      {
        var t :| later <= t;
        ghost var mid, q := Abs(), On(a).quarantine;
        ghost var more, outcomes;
        var ok;
        ok, more, outcomes := TryRecycleOne(a, candidates[i], now, t, minCooldown);
        OthersStayCooled(q, On(a).quarantine, candidates, i, now, minCooldown);
        OthersStayThere(q, On(a).quarantine, candidates, i);
        TriedOne(steps, more, ok, Attempt(a, candidates[i], now, t, minCooldown));
        assert candidates[..i + 1] == candidates[..i] + [candidates[i]];
        ExtendRecycling(st, steps, mid, more, Abs(), candidates[i] in q, ok, Attempt(a, candidates[i], now, t, minCooldown),
                        now, later);
        steps, later := steps + more, t;
        recovered := recovered + if ok then 1 else 0;
      }
    }

    /** RecycleIPAttempt / RecycleSNIAttempt: trim the quarantine to its cap, then try some of the names whose
        cooldown has run out. */
    method RecycleAttempt(a: Axis, batch: nat, minCooldown: int, maxQuarantine: int, scope: string, now: int)
      returns (recovered: nat, later: int, ghost steps: seq<Step>, ghost dropped: set<string>)
      requires Valid()
      modifies this`stats, this`unexplored, this`ips, this`snis, this`lost
      ensures Valid() && IsRun(old(Abs()), [Trim(a, dropped)] + steps, Abs())
      ensures IsPass(steps, a, minCooldown, now, later)
      ensures IsTrim(old(On(a)).quarantine, old(On(a)).quarantine - dropped, dropped, maxQuarantine)
      ensures lost == old(lost).Plus(OnAxis(a, dropped))
      ensures var eligible := set x | x in old(On(a)).quarantine && x !in dropped
            && old(On(a)).quarantine[x].lastAttempt + minCooldown <= now
            && (scope == "both" || old(On(a)).quarantine[x].origin == scope);
        NoDup(Tried(steps)) && Elems(Tried(steps)) <= eligible && |Tried(steps)| == Min(batch, |eligible|)
      ensures recovered == Recoveries(steps)
      ensures old(stats).Keys <= stats.Keys && forall k :: k in old(stats) ==> stats[k] == old(stats)[k]
      ensures forall k :: k in stats && k !in old(stats) ==> fresh(stats[k]) && Unused(stats[k])
    {
      hide Within, Enabled, IsRun, IsTrim, Dropped, IsPass, Tried, Recoveries, Eligible;
      ghost var st := Abs();
      dropped := TrimQuarantine(a, maxQuarantine);
      ghost var mid := Abs();
      EligibleMeans(old(On(a)).quarantine, dropped, minCooldown, scope, now);
      OneStep(st, Trim(a, dropped));
      var candidates := Candidates(a, batch, minCooldown, scope, now);
      recovered, later, steps := RecycleCandidates(a, candidates, minCooldown, now);
      RunsConcat(st, [Trim(a, dropped)], mid, steps, Abs());
    }

    // ---- warm start and exploration ----

    /** One pair of a warm start: a pair nobody knows yet enters the table, but not the queue. */
    method EnrolLastGood(k: PairKey)
      requires Keyed()
      modifies this`stats, this`ips, this`snis
      ensures Keyed()
      ensures Abs() == Added(old(Abs()), k).(queue := unexplored)
      ensures k in stats && stats == old(stats)[k := stats[k]] && (k in old(stats) ==> stats == old(stats))
      ensures k !in old(stats) ==>
        fresh(stats[k]) && Unused(stats[k]) && stats[k].ipOrigin == "lastgood" && stats[k].sniOrigin == "lastgood"
    {
      if k !in stats {
        var ps := new PairStats(k.ip, k.sni, "lastgood", "lastgood");
        stats := stats[k := ps];
        ips := ips.(active := Appended(ips.active, k.ip));
        snis := snis.(active := Appended(snis.active, k.sni));
        assert stats.Keys == old(stats).Keys + {k};
      }
    }

    /** PrioritizePairs: the given pairs first, in their order, then the rest of the queue.  Quarantine is not asked
        about: the invariant survives exactly when every named pair is stored or free of quarantined names. */
    method PrioritizePairs(keys: seq<PairKey>) returns (count: nat)
      requires Valid()
      modifies this`stats, this`ips, this`snis, this`unexplored
      ensures Abs() == Prioritized(old(Abs()), keys) && count == |Front(keys)|
      ensures Valid() <==> forall k :: k in Front(keys) ==> Welcome(old(Abs()), k)
      ensures forall k :: k in old(stats) ==> k in stats && stats[k] == old(stats)[k]
      ensures forall k :: k in stats && k !in old(stats) ==> fresh(stats[k]) && Unused(stats[k])
    {
      hide Within, Welcome, Added;
      ghost var st := Abs();
      PrioritizeExact(st, lost, keys);
      var front := [];
      for i := 0 to |keys|
        invariant Keyed()
        invariant unexplored == old(unexplored) && front == Front(keys[..i]) && Abs() == Enrolled(st, front)
        invariant forall k :: k in old(stats) ==> k in stats && stats[k] == old(stats)[k]
        invariant forall k :: k in stats && k !in old(stats) ==> fresh(stats[k]) && Unused(stats[k])
      {
        var k := keys[i];
        assert keys[..i + 1][..i] == keys[..i];
        if k.ip == "" || k.sni == "" || k in front {
          continue;
        }
        EnrolLastGood(k);
        assert (front + [k])[..|front|] == front;
        front := front + [k];
      }
      assert keys[..|keys|] == keys;
      count := |front|;
      if front == [] {
        WithoutAbsent(unexplored, Elems(front));
        assert front + unexplored == unexplored;
        return;
      }
      var rest := Filter(unexplored, Elems(front));
      unexplored := front + rest;
    }

    /** The stored object of a pair. */
    predicate InTable(ps: PairStats)
      reads this
    {
      ps.Key() in stats && stats[ps.Key()] == ps
    }

    /** The pairs of a batch that are still in the table. */
    method Present(batch: seq<PairKey>) returns (pairs: seq<PairStats>)
      requires Valid()
      ensures forall ps :: ps in pairs ==> InTable(ps) && ps in stats.Values && ps.Key() in batch
      ensures forall k :: k in batch && k in stats ==> stats[k] in pairs
    {
      pairs := [];
      for i := 0 to |batch|
        invariant forall ps :: ps in pairs ==> InTable(ps) && ps in stats.Values && ps.Key() in batch
        invariant forall j :: 0 <= j < i && batch[j] in stats ==> stats[batch[j]] in pairs
      {
        if batch[i] in stats {
          pairs := pairs + [stats[batch[i]]];
        }
      }
    }

    /** runProbesParallel: every pair of the batch is probed, in whatever order. */
    method RunProbes(batch: seq<PairStats>)
      modifies batch`probesSent, batch`probed, batch`emaProbeLoss, batch`probesRecv, batch`latencySumMs,
               batch`latencyCount, batch`alive, batch`dataCheckFailed
      ensures forall ps :: ps in batch ==> ps.probed && ps.probesSent >= old(ps.probesSent) + 2
    {
      for i := 0 to |batch|
        invariant forall ps :: ps in batch ==> ps.probesSent >= old(ps.probesSent)
        invariant forall j :: 0 <= j < i ==> batch[j].probed && batch[j].probesSent >= old(batch[j].probesSent) + 2
      {
        var _, _ := ProbeOne(batch[i]);
      }
    }

    /** The pairs of a batch that are still in the table are probed, and no others. */
    method ProbePairs(batch: seq<PairKey>) returns (any: bool)
      requires Valid()
      modifies stats.Values`probesSent, stats.Values`probed, stats.Values`emaProbeLoss, stats.Values`probesRecv,
               stats.Values`latencySumMs, stats.Values`latencyCount, stats.Values`alive, stats.Values`dataCheckFailed
      ensures any <==> exists k :: k in batch && k in stats
      ensures forall k :: k in stats && k in batch ==> stats[k].probed && stats[k].probesSent >= old(stats[k].probesSent) + 2
      ensures forall k :: k in stats && k !in batch ==> stats[k].Condition() == old(stats[k].Condition())
    {
      hide Within;
      var pairs := Present(batch);
      RunProbes(pairs);
      any := pairs != [];
      if any {
        assert pairs[0] in pairs && pairs[0].Key() in batch;
      }
    }

    /** The next batch leaves the queue. */
    method TakeBatch(size: nat) returns (batch: seq<PairKey>, ghost step: Step)
      requires Valid()
      modifies this`unexplored
      ensures batch == old(unexplored)[..Min(size, old(|unexplored|))] && forall k :: k in batch ==> k in stats
      ensures unexplored == old(unexplored)[|batch|..]
      ensures Valid() && step == Take(|batch|) && Enabled(old(Abs()), step) && Abs() == Apply(old(Abs()), step)
    {
      var n := Min(size, |unexplored|);
      TakeKeeps(Abs(), lost, n);
      BatchIsThere(Abs(), lost, n);
      batch := unexplored[..n];
      unexplored := unexplored[n..];
      step := Take(n);
    }

    /** InitialExplore: the first pairs of the queue are taken off it and probed. */
    method InitialExplore()
      requires Valid()
      modifies this`unexplored, stats.Values`probesSent, stats.Values`probed, stats.Values`emaProbeLoss,
               stats.Values`probesRecv, stats.Values`latencySumMs, stats.Values`latencyCount, stats.Values`alive,
               stats.Values`dataCheckFailed
      ensures Valid() && Abs() == Apply(old(Abs()), Take(Min(20, old(|unexplored|))))
      ensures var batch := old(unexplored)[..Min(20, old(|unexplored|))];
        && (forall k :: k in batch ==> k in stats && stats[k].probed && stats[k].probesSent >= old(stats[k].probesSent) + 2)
        && (forall k :: k in stats && k !in batch ==> stats[k].Condition() == old(stats[k].Condition()))
    {
      var batch;
      ghost var take;
      batch, take := TakeBatch(INITIAL_SAMPLE);
      var _ := ProbePairs(batch);
    }

    /** KnownStats, in map order. */
    method KnownStats() returns (known: seq<PairStats>)
      requires Valid()
      ensures NoDup(known)
      ensures forall ps :: ps in known ==> InTable(ps) && ps.IsKnown()
      ensures forall k :: k in stats && stats[k].IsKnown() ==> stats[k] in known
      ensures forall k :: k in stats ==> (stats[k] in known <==> stats[k].probed && !stats[k].dataCheckFailed)
    {
      var pairs := set k | k in stats && stats[k].IsKnown() :: stats[k];
      known := Listed(pairs);
      assert forall ps :: ps in known ==> ps in Elems(known);
      assert forall k :: k in stats && stats[k].IsKnown() ==> stats[k] in Elems(known);
    }

    /** Alive and under the loss threshold. */
    predicate IsStable(ps: PairStats)
      reads ps
    {
      ps.IsKnown() && ps.alive && ps.CombinedLossRate() < lossThreshold
    }

    /** StableStats: the known pairs that are alive and under the loss threshold. */
    method StableStats() returns (stable: seq<PairStats>)
      requires Valid()
      ensures NoDup(stable)
      ensures forall ps :: ps in stable ==> InTable(ps) && IsStable(ps)
      ensures forall k :: k in stats && IsStable(stats[k]) ==> stats[k] in stable
      ensures forall k :: k in stats ==>
        var ps := stats[k];
        ps in stable <==> ps.probed && !ps.dataCheckFailed && ps.alive && ps.CombinedLossRate() < lossThreshold
    {
      var pairs := set k | k in stats && IsStable(stats[k]) :: stats[k];
      stable := Listed(pairs);
      assert forall ps :: ps in stable ==> ps in Elems(stable);
      assert forall k :: k in stats && IsStable(stats[k]) ==> stats[k] in Elems(stable);
    }

    /** The scores of the known pairs. */
    function KnownScores(): (scores: map<PairKey, Option<real>>)
      reads this, stats.Values
      ensures scores.Keys <= stats.Keys
    {
      map k | k in stats && stats[k].IsKnown() :: stats[k].Score()
    }

    /** The known pairs of the best scores are probed again. */
    method VerifyTop() returns (verified: seq<PairKey>)
      requires Valid()
      modifies stats.Values`probesSent, stats.Values`probed, stats.Values`emaProbeLoss, stats.Values`probesRecv,
               stats.Values`latencySumMs, stats.Values`latencyCount, stats.Values`alive, stats.Values`dataCheckFailed
      ensures IsTop(verified, old(KnownScores()), 15)
      ensures forall k :: k in verified ==> k in stats && old(stats[k].probed && !stats[k].dataCheckFailed)
      ensures forall k :: k in verified ==> k in stats && stats[k].probed && stats[k].probesSent >= old(stats[k].probesSent) + 2
      ensures forall k :: k in stats && k !in verified ==> stats[k].Condition() == old(stats[k].Condition())
    {
      hide Within, IsTop;
      verified := TopOf(KnownScores(), VERIFY_TOP);
      var _ := ProbePairs(verified);
    }

    /** Every pair of the table is queued again, in a random order. */
    method Requeue() returns (ghost step: Step)
      requires Valid()
      modifies this`unexplored
      ensures Valid() && step == Reshuffle(unexplored) && Enabled(old(Abs()), step) && Abs() == Apply(old(Abs()), step)
      ensures NoDup(unexplored) && Elems(unexplored) == stats.Keys
    {
      var allKeys := Listed(stats.Keys);
      var order := Shuffle(allKeys);
      PermutationFacts(order, allKeys);
      ReshuffleKeeps(Abs(), lost, order);
      unexplored := order;
      step := Reshuffle(order);
    }

    /** PeriodicExplore: the known pairs of the best scores are probed again, then the next batch of the queue; when the
        queue is exhausted, every pair of the table is queued again in a random order. */
    method PeriodicExplore() returns (ghost steps: seq<Step>, ghost verified: seq<PairKey>)
      requires Valid()
      modifies this`unexplored, stats.Values`probesSent, stats.Values`probed, stats.Values`emaProbeLoss,
               stats.Values`probesRecv, stats.Values`latencySumMs, stats.Values`latencyCount, stats.Values`alive,
               stats.Values`dataCheckFailed
      ensures Valid() && IsRun(old(Abs()), steps, Abs())
      ensures old(unexplored) != [] ==> steps == [Take(Min(10, old(|unexplored|)))]
      ensures old(unexplored) == [] ==> steps == [Take(0), Reshuffle(unexplored)]
      ensures old(unexplored) != [] ==> unexplored == old(unexplored)[Min(10, old(|unexplored|))..]
      ensures old(unexplored) == [] ==> NoDup(unexplored) && Elems(unexplored) == stats.Keys
      ensures IsTop(verified, old(KnownScores()), 15)
      ensures forall k :: k in verified ==> k in old(stats) && old(stats[k].probed && !stats[k].dataCheckFailed)
      ensures var batch := old(unexplored)[..Min(10, old(|unexplored|))];
        && (forall k :: k in batch ==> k in stats)
        && (forall k :: k in batch || k in verified ==> stats[k].probed && stats[k].probesSent >= old(stats[k].probesSent) + 2)
        && (forall k :: k in stats && k !in batch && k !in verified ==> stats[k].Condition() == old(stats[k].Condition()))
    {
      hide Within, IsRun, IsTop, KnownScores, Apply, Enabled, Forgotten, Dropped;
      ghost var st := Abs();
      verified := VerifyTop();
      var batch;
      ghost var take;
      batch, take := TakeBatch(EXPLORE_BATCH);
      OneStep(st, take);
      steps := [take];
      var any := ProbePairs(batch);
      if !any {
        NothingIn(batch);
        ghost var requeue := Requeue();
        TwoSteps(st, take, requeue);
        steps := [take, requeue];
      }
    }
  }
}
