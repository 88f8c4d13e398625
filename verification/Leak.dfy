/** How a live pair comes to carry a name that is in no list: a run the program can make from any full configuration of
    enough IPs and two SNIs, whatever the cap on quarantined IPs is. */
module Leaks {
  import opened Sequences
  import opened ExplorerModel
  import opened ExplorerRuns
  import opened ExplorerLaws
  import opened Explorer

  /** The pairs of some IPs with some SNIs. */
  function Product(ips: set<string>, snis: set<string>): set<PairKey> {
    set i, s | i in ips && s in snis :: PairKey(i, s)
  }

  /** The SNI `s` went first, remembering all IPs; the first `j` IPs followed it, the oldest of them first. */
  ghost predicate Ladder(st: State, ips: seq<string>, s: string, t: string, j: nat)
    requires j <= |ips|
  {
    && Joint(st) && st.keys == Product(Elems(ips[j..]), {t})
    && st.ips.quarantine.Keys == Elems(ips[..j])
    && (forall k :: 0 <= k < j ==> ips[k] in st.ips.quarantine && st.ips.quarantine[ips[k]].evictedAt == k + 1)
    && s in st.snis.quarantine && st.snis.quarantine[s].partners == ips && st.snis.quarantine[s].lastAttempt == 0
  }

  /** Evicting a name and sweeping the other axis, as EvictWeakest does. */
  function EvictAndSweep(a: Axis, x: string, partners: seq<string>, origin: string, at: int): seq<Step> {
    [Evict(a, x, partners, origin, at), Sweep(a.Other(), at)]
  }

  lemma KeepsWithin(st: State, lost: Lost, step: Step)
    requires Within(st, lost) && Enabled(st, step) && Dropped(step) == NOTHING
    ensures Within(Apply(st, step), lost)
  {
    StepKeeps(st, lost, step);
    PlusNothing(lost);
  }

  /** What a sweep of axis `b` leaves, and what it moves into quarantine. */
  ghost predicate SweptFrom(st: State, st': State, b: Axis) {
    && st'.keys == st.keys && st'.On(b.Other()) == st.On(b.Other()) && st'.On(b).ledger == st.On(b).ledger
    && st'.On(b).active == Without(st.On(b).active, Orphans(st, b))
    && st'.On(b).quarantine.Keys == st.On(b).quarantine.Keys + Orphans(st, b)
    && forall w :: w in st.On(b).quarantine ==> st'.On(b).quarantine[w] == st.On(b).quarantine[w]
  }

  lemma SweepLeaves(st: State, b: Axis, at: int)
    ensures SweptFrom(st, Swept(st, b, at), b)
  {
  }

  /** One eviction with its sweep. */
  lemma EvictThenSweep(st: State, lost: Lost, a: Axis, x: string, partners: seq<string>, origin: string, at: int)
    returns (mid: State, st': State)
    requires Within(st, lost) && Enabled(st, Evict(a, x, partners, origin, at))
    ensures IsRun(st, EvictAndSweep(a, x, partners, origin, at), st') && Within(st', lost)
    ensures Forgotten(EvictAndSweep(a, x, partners, origin, at)) == NOTHING
    ensures mid == Evicted(st, a, x, Quarantined(partners, origin, at, at, 0)) && SweptFrom(mid, st', a.Other())
  {
    hide Within, Swept, SweptFrom;
    var evict, sweep := Evict(a, x, partners, origin, at), Sweep(a.Other(), at);
    mid := Apply(st, evict);
    KeepsWithin(st, lost, evict);
    KeepsWithin(mid, lost, sweep);
    SweepLeaves(mid, a.Other(), at);
    st' := Apply(mid, sweep);
    TwoSteps(st, evict, sweep);
    PlusNothing(NOTHING);
  }

  lemma ProductFacts(ips: set<string>, snis: set<string>, i: string, s: string)
    requires i in ips && s in snis
    ensures PairKey(i, s) in Product(ips, snis)
    ensures Coords(Product(ips, snis), IPs) == ips && Coords(Product(ips, snis), SNIs) == snis
    ensures PartnersOf(Product(ips, snis), SNIs, s) == ips && PartnersOf(Product(ips, snis), IPs, i) == snis
    ensures Product(ips, snis) - Carrying(Product(ips, snis), SNIs, {s}) == Product(ips, snis - {s})
    ensures Product(ips, snis) - Carrying(Product(ips, snis), IPs, {i}) == Product(ips - {i}, snis)
  {
    var keys := Product(ips, snis);
    assert PairKey(i, s) in keys && Coord(PairKey(i, s), IPs) == i && Coord(PairKey(i, s), SNIs) == s;
    forall j | j in ips ensures j in PartnersOf(keys, SNIs, s) {
      assert PairKey(j, s) in keys && Coord(PairKey(j, s), SNIs) == s && Coord(PairKey(j, s), IPs) == j;
      assert j in Coords(keys, IPs);
    }
    forall u | u in snis ensures u in PartnersOf(keys, IPs, i) {
      assert PairKey(i, u) in keys && Coord(PairKey(i, u), IPs) == i && Coord(PairKey(i, u), SNIs) == u;
      assert u in Coords(keys, SNIs);
    }
  }

  lemma EvictSniFirst(st: State, combinations: seq<PairKey>, ips: seq<string>, s: string, t: string) returns (st': State)
    requires Initial(st, combinations) && st.keys == Product(Elems(ips), {s, t})
    requires NoDup(ips) && ips != [] && s != t
    ensures IsRun(st, EvictAndSweep(SNIs, s, ips, "static", 0), st') && Ladder(st', ips, s, t, 0)
  {
    hide Initial, IsRun, Within, Product, Coords, PartnersOf, Carrying, NoDup, Apply, Elems;
    InitialIsJoint(st, combinations);
    TwoLeft(ips, s, t);
    StartLists(st, combinations);
    var mid;
    mid, st' := EvictThenSweep(st, NOTHING, SNIs, s, ips, "static", 0);
  }

  lemma TwoLeft(ips: seq<string>, s: string, t: string)
    requires ips != [] && s != t
    ensures var keys := Product(Elems(ips), {s, t});
      && Coords(keys, IPs) == Elems(ips) && Coords(keys, SNIs) == {s, t} && PartnersOf(keys, SNIs, s) == Elems(ips)
      && keys - Carrying(keys, SNIs, {s}) == Product(Elems(ips), {t})
    ensures Coords(Product(Elems(ips), {t}), IPs) == Elems(ips)
    ensures ips[0..] == ips && Elems(ips[..0]) == {}
  {
    assert ips[0] in Elems(ips) && {s, t} - {s} == {t};
    ProductFacts(Elems(ips), {s, t}, ips[0], s);
    ProductFacts(Elems(ips), {t}, ips[0], t);
  }

  lemma StartLists(st: State, combinations: seq<PairKey>)
    requires Initial(st, combinations)
    ensures Elems(st.ips.active) == Coords(st.keys, IPs) && st.ips.quarantine == map[]
  {
    assert st.On(IPs) == st.ips;
  }

  lemma OneLess(ips: seq<string>, j: nat, t: string)
    requires NoDup(ips) && j < |ips|
    ensures var keys := Product(Elems(ips[j..]), {t});
      && Coords(keys, IPs) == Elems(ips[j..]) && ips[j] in Elems(ips[j..]) && PartnersOf(keys, IPs, ips[j]) == {t}
      && keys - Carrying(keys, IPs, {ips[j]}) == Product(Elems(ips[j + 1..]), {t})
    ensures Elems(ips[..j + 1]) == Elems(ips[..j]) + {ips[j]} && ips[j] !in Elems(ips[..j])
  {
    hide Product, Coords, PartnersOf, Carrying;
    assert ips[j..][0] == ips[j];
    ProductFacts(Elems(ips[j..]), {t}, ips[j], t);
    assert ips[j..] == [ips[j]] + ips[j + 1..] && ips[..j + 1] == ips[..j] + [ips[j]];
    assert forall k :: j < k < |ips| ==> ips[k] != ips[j];
    assert Elems(ips[j + 1..]) == Elems(ips[j..]) - {ips[j]};
  }

  lemma NextRung(st: State, ips: seq<string>, s: string, t: string, j: nat) returns (st': State)
    requires NoDup(ips) && j < |ips| && Ladder(st, ips, s, t, j)
    ensures IsRun(st, EvictAndSweep(IPs, ips[j], [t], "static", j + 1), st') && Ladder(st', ips, s, t, j + 1)
  {
    hide IsRun, Within, Product, Coords, PartnersOf, Carrying, NoDup, Apply, Elems;
    OneLess(ips, j, t);
    One(t);
    var mid;
    mid, st' := EvictThenSweep(st, NOTHING, IPs, ips[j], [t], "static", j + 1);
    DistinctAt(ips, j);
  }

  lemma One(t: string)
    ensures NoDup([t]) && Elems([t]) == {t}
  {
  }

  lemma DistinctAt(ips: seq<string>, j: nat)
    requires NoDup(ips) && j < |ips|
    ensures forall k :: 0 <= k < j ==> ips[k] != ips[j]
  {
  }

  /** The evictions: first the SNI, then `j` IPs, each with its sweep. */
  function Evictions(ips: seq<string>, s: string, t: string, j: nat): seq<Step>
    requires j <= |ips|
  {
    if j == 0 then EvictAndSweep(SNIs, s, ips, "static", 0)
    else Evictions(ips, s, t, j - 1) + EvictAndSweep(IPs, ips[j - 1], [t], "static", j)
  }

  lemma {:induction false} Climb(st: State, combinations: seq<PairKey>, ips: seq<string>, s: string, t: string, j: nat)
    returns (st': State)
    requires Initial(st, combinations) && st.keys == Product(Elems(ips), {s, t})
    requires NoDup(ips) && ips != [] && s != t && j <= |ips|
    ensures IsRun(st, Evictions(ips, s, t, j), st') && Ladder(st', ips, s, t, j)
  {
    hide IsRun, Ladder, Initial, Product, NoDup;
    if j == 0 {
      st' := EvictSniFirst(st, combinations, ips, s, t);
    } else {
      var mid := Climb(st, combinations, ips, s, t, j - 1);
      st' := NextRung(mid, ips, s, t, j - 1);
      RunsConcat(st, Evictions(ips, s, t, j - 1), mid, EvictAndSweep(IPs, ips[j - 1], [t], "static", j), st');
    }
  }

  /** The end: the oldest IP falls off the quarantine, the SNI is tried and comes back. */
  function Ending(ips: seq<string>, s: string, now: int, cooldown: int): seq<Step>
    requires ips != []
  {
    [Trim(IPs, {ips[0]}), Attempt(SNIs, s, now, now, cooldown), Restore(SNIs, s, ips)]
  }

  lemma OldestOverflows(st: State, ips: seq<string>, s: string, t: string, cap: nat)
    requires NoDup(ips) && |ips| == cap + 2 && Ladder(st, ips, s, t, cap + 1)
    ensures IsTrim(st.ips.quarantine, st.ips.quarantine - {ips[0]}, {ips[0]}, cap)
    ensures ips[0] in st.ips.quarantine
  {
    hide Within, IsTrim, Product;
    var q := st.ips.quarantine;
    NoDupCardinality(ips[..cap + 1]);
    assert ips[..cap + 1][0] == ips[0];
    OneOver(q, ips[0], cap);
    forall k | k in q ensures q[ips[0]].evictedAt <= q[k].evictedAt {
      assert k in Elems(ips[..cap + 1]);
      var i :| 0 <= i < cap + 1 && ips[..cap + 1][i] == k;
    }
    TrimCounts(q, q - {ips[0]}, {ips[0]}, cap);
  }

  lemma OneOver(q: map<string, Quarantined>, x: string, cap: nat)
    requires x in q && |q.Keys| == cap + 1
    ensures |q| == cap + 1 && |{x}| == Max(0, Min(|q|, |q| - cap)) && {x} <= q.Keys
  {
  }

  lemma TopRung(ips: seq<string>, s: string, t: string)
    requires NoDup(ips) && |ips| >= 2 && s != t
    ensures var keys := Product(Elems(ips[|ips| - 1..]), {t});
      PairKey(ips[0], s) !in keys && PairKey(ips[|ips| - 1], t) in keys
  {
    assert ips[|ips| - 1..] == [ips[|ips| - 1]];
  }

  lemma Ends(st: State, ips: seq<string>, s: string, t: string, cap: nat, now: int, cooldown: int) returns (end: State)
    requires NoDup(ips) && |ips| == cap + 2 && s != t && Ladder(st, ips, s, t, cap + 1) && now >= cooldown
    ensures IsRun(st, Ending(ips, s, now, cooldown), end)
    ensures PairKey(ips[0], s) in end.keys && PairKey(ips[cap + 1], t) in end.keys && ips[0] !in end.ips.Known()
  {
    hide Within, NoDup, Product, IsTrim, Elems, Apply, Restored, IsRun;
    OldestOverflows(st, ips, s, t, cap);
    TopRung(ips, s, t);
    var trim, attempt, restore := Trim(IPs, {ips[0]}), Attempt(SNIs, s, now, now, cooldown), Restore(SNIs, s, ips);
    NotListed(st, ips[0]);
    var u := AfterTrim(st, ips[0]);
    var v := AfterAttempt(u, s, now, cooldown);
    end := Back(v, s, ips);
    OneStep(st, trim);
    TwoSteps(u, attempt, restore);
    RunsConcat(st, [trim], u, [attempt, restore], end);
    assert [trim] + [attempt, restore] == Ending(ips, s, now, cooldown);
  }

  lemma AfterTrim(st: State, x: string) returns (u: State)
    requires x in st.ips.quarantine && x !in Elems(st.ips.active)
    ensures Enabled(st, Trim(IPs, {x})) && u == Apply(st, Trim(IPs, {x}))
    ensures u.keys == st.keys && u.snis == st.snis && x !in u.ips.Known()
  {
    u := Apply(st, Trim(IPs, {x}));
  }

  lemma AfterAttempt(u: State, s: string, now: int, cooldown: int) returns (v: State)
    requires s in u.snis.quarantine && now - u.snis.quarantine[s].lastAttempt >= cooldown
    ensures Enabled(u, Attempt(SNIs, s, now, now, cooldown)) && v == Apply(u, Attempt(SNIs, s, now, now, cooldown))
    ensures v.keys == u.keys && v.ips == u.ips
    ensures s in v.snis.quarantine && v.snis.quarantine[s].partners == u.snis.quarantine[s].partners
  {
    v := Apply(u, Attempt(SNIs, s, now, now, cooldown));
  }

  lemma NotListed(st: State, x: string)
    requires Joint(st) && x in st.ips.quarantine
    ensures x !in Elems(st.ips.active)
  {
    assert SideOk(st, IPs, NOTHING) && st.On(IPs) == st.ips;
  }

  lemma Back(v: State, s: string, ips: seq<string>) returns (w: State)
    requires ips != [] && s in v.snis.quarantine && v.snis.quarantine[s].partners == ips
    requires ips[0] !in v.ips.Known()
    ensures Enabled(v, Restore(SNIs, s, ips)) && w == Apply(v, Restore(SNIs, s, ips))
    ensures v.keys + {PairKey(ips[0], s)} <= w.keys && w.ips == v.ips
  {
    RestoredKeysFacts(v.keys, SNIs, s, ips, v.ips.quarantine.Keys);
    var back := RestoredKeys(v.keys, SNIs, s, ips, v.ips.quarantine.Keys);
    var k := PairKey(ips[0], s);
    assert Coord(k, SNIs) == s && Coord(k, IPs) == ips[0] && ips[0] in Elems(ips);
    assert k in back || k in v.keys;
    w := Restored(v, SNIs, s, ips);
  }

  // ---- the clock ----

  lemma {:induction false} EvictionsAreTimed(ips: seq<string>, s: string, t: string, j: nat)
    requires j <= |ips|
    ensures Monotone(Evictions(ips, s, t, j), 0) && ClockAfter(Evictions(ips, s, t, j), 0) == j
  {
    var a, x, partners := if j == 0 then SNIs else IPs, if j == 0 then s else ips[j - 1], if j == 0 then ips else [t];
    var last := EvictAndSweep(a, x, partners, "static", j);
    var clock := if j == 0 then 0 else j - 1;
    var rest := last[1..];
    assert rest == [Sweep(a.Other(), j)] && rest[1..] == [];
    assert Monotone([], j) && ClockAfter([], j) == j;
    assert Monotone(rest, j) && ClockAfter(rest, j) == j;
    assert Monotone(last, clock) && ClockAfter(last, clock) == j;
    if j > 0 {
      EvictionsAreTimed(ips, s, t, j - 1);
      MonotoneConcat(Evictions(ips, s, t, j - 1), last, 0);
    }
  }

  lemma EndingIsTimed(ips: seq<string>, s: string, now: int, cooldown: int, clock: int)
    requires ips != [] && clock <= now
    ensures Monotone(Ending(ips, s, now, cooldown), clock)
  {
    var end := Ending(ips, s, now, cooldown);
    var rest, last := end[1..], end[2..];
    assert rest[1..] == last && last[1..] == [];
    assert Monotone([], now) && Monotone(last, now) && Monotone(rest, clock);
  }

  /** Take any configuration of cap + 2 IPs with two SNIs.  Evict one SNI and then, one after the other, all IPs but the
      last, each eviction with its sweep; the pairs of the last IP with the other SNI, which may be in service, stay.
      Then the quarantine holds one IP more than the cap, so trimming drops the oldest; when the cooldown of the SNI has
      run out it is tried and restored.  All of it on a clock that never runs backwards; at the end the dropped IP has a
      live pair and is in no list. */
  lemma LeakIsReachable(st: State, combinations: seq<PairKey>, ips: seq<string>, s: string, t: string, cap: nat,
                        cooldown: nat) returns (before: State, end: State)
    requires Initial(st, combinations) && Elems(combinations) == Product(Elems(ips), {s, t})
    requires NoDup(ips) && |ips| == cap + 2 && s != t
    ensures IsRun(st, Evictions(ips, s, t, cap + 1), before)
    ensures IsTrim(before.ips.quarantine, before.ips.quarantine - {ips[0]}, {ips[0]}, cap)
    ensures var steps := Evictions(ips, s, t, cap + 1) + Ending(ips, s, cap + 1 + cooldown, cooldown);
      IsRun(st, steps, end) && Monotone(steps, 0)
    ensures PairKey(ips[0], s) in end.keys && ips[0] !in end.ips.Known() && !Joint(end)
    ensures PairKey(ips[cap + 1], t) in end.keys
  {
    hide IsRun, Ladder, Product, NoDup, IsTrim, Monotone, Within;
    before := Climb(st, combinations, ips, s, t, cap + 1);
    OldestOverflows(before, ips, s, t, cap);
    var now := cap + 1 + cooldown;
    end := Ends(before, ips, s, t, cap, now, cooldown);
    RunsConcat(st, Evictions(ips, s, t, cap + 1), before, Ending(ips, s, now, cooldown), end);
    EvictionsAreTimed(ips, s, t, cap + 1);
    EndingIsTimed(ips, s, now, cooldown, cap + 1);
    MonotoneConcat(Evictions(ips, s, t, cap + 1), Ending(ips, s, now, cooldown), 0);
    UnlistedIsNotJoint(end, PairKey(ips[0], s));
  }

  lemma UnlistedIsNotJoint(st: State, k: PairKey)
    requires k in st.keys && k.ip !in st.ips.Known()
    ensures !Joint(st)
  {
    assert Coord(k, IPs) == k.ip && st.On(IPs) == st.ips;
    assert Joint(st) ==> SideOk(st, IPs, NOTHING);
  }
}
