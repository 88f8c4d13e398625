/** The connection manager with the two discoveries that main.go starts beside it: one explorer under the pool, the health
    loop and discovery on both axes.  What each of them relies on survives what the others do. */
module Managers {
  import opened Sequences
  import opened ExplorerModel
  import opened ExplorerRuns
  import opened ExplorerLaws
  import opened Pairs
  import opened Explorer
  import opened ActivePools
  import opened Discoveries
  import opened PairHealth
  import opened LastGood

  /** Both discoveries survive a run of the explorer's own steps. */
  lemma OwnRunKeepsDiscovery(st: State, lost: Lost, steps: seq<Step>, st': State, lost': Lost, a: Axis,
                             missed: set<string>, known: set<string>)
    requires Covered(st, missed, a, known) && OwnRun(st, lost, steps, st', lost')
    ensures Covered(st', missed, a, known) && st'.On(a).ledger == st.On(a).ledger
  {
    hide Covered, Internal;
    InternalRunKeepsCover(st, steps, a, missed, known);
  }

  /** Names that a discovery and the ledger know, but for those it missed. */
  predicate Vouched(names: set<string>, known: set<string>, ledger: set<string>, missed: set<string>) {
    names <= known + missed && names <= ledger + missed
  }

  /** Syncing, pushing a name out and entering a new one leave the same names vouched for. */
  lemma VouchedStays(names: set<string>, known: set<string>, ledger: set<string>, missed: set<string>,
                     synced: set<string>, x: string, gone: set<string>)
    requires Vouched(names, known, ledger, missed) && known * ledger <= synced
    ensures Vouched(names, synced, ledger, missed)
    ensures Vouched(names, synced - gone + {x}, ledger - gone + {x}, missed + gone - {x})
  {
  }

  /** The other discovery survives an injection: whatever names of its axis got a pair, it had heard of. */
  lemma OtherSurvives(st: State, st': State, b: Axis, met: set<string>, fallback: set<string>, missed: set<string>,
                      known: set<string>)
    requires Brings(st, st', b, met) && Covered(st, missed, b, known)
    requires Vouched(fallback, known, st.On(b).ledger.Keys, missed)
    requires met <= Elems(st.On(b).active) || met <= fallback
    ensures Covered(st', missed, b, known) && st'.On(b).ledger == st.On(b).ledger
  {
    BringsCover(st, st', b, met, missed, known);
  }

  lemma SyncedAre(d: Discovery, x: string)
    ensures d.known * d.explorer.On(d.axis).ledger.Keys <= d.SyncedKnown()
    ensures |d.SyncedDynamic()| <= |d.dynamic| && Elems(d.SyncedDynamic()) <= Elems(d.dynamic)
    ensures d.SyncedDynamic() != [] ==> Elems(d.SyncedDynamic()[1..]) <= Elems(d.SyncedDynamic())
    ensures (d.Victim(x).Some? ==> d.SyncedDynamic() != [])
    ensures d.Partners() == d.explorer.On(d.axis.Other()).active || d.Partners() == d.fallback
  {
  }

  /** The sweeps of a refresh take no live name off its list and change no ledger. */
  lemma SweepsSpareLive(st: State, lost: Lost, st': State, lost': Lost, at: int, a: Axis)
    requires OwnRun(st, lost, [Sweep(IPs, at), Sweep(SNIs, at)], st', lost')
    ensures st'.On(a).ledger == st.On(a).ledger
    ensures forall y :: y in st.On(a).active && y in Coords(st.keys, a) ==> y in st'.On(a).active
  {
    var mid := Swept(st, IPs, at);
    TwoSteps(st, Sweep(IPs, at), Sweep(SNIs, at));
    assert mid.keys == st.keys;
    SweepSparesLive(st, IPs, at, a);
    SweepSparesLive(mid, SNIs, at, a);
  }

  lemma SweepSparesLive(st: State, b: Axis, at: int, a: Axis)
    ensures Swept(st, b, at).On(a).ledger == st.On(a).ledger
    ensures forall y :: y in st.On(a).active && y in Coords(st.keys, a) ==> y in Swept(st, b, at).On(a).active
  {
    forall y | y in st.On(a).active && y in Coords(st.keys, a) ensures y in Swept(st, b, at).On(a).active {
      assert y in Elems(Without(st.On(a).active, Orphans(st, a)));
    }
  }

  /** At the cap an unknown name pushes out the oldest dynamic name, if every dynamic name is still there. */
  lemma OldestIsVictim(d: Discovery, x: string)
    requires x !in d.known && d.dynamic != [] && |d.dynamic| >= d.maxDynamic
    requires forall y :: y in d.dynamic ==> d.StillDynamic(y)
    ensures d.Victim(x) == Some(d.dynamic[0]) && x !in d.SyncedKnown()
  {
    assert (set y | y in d.dynamic && !d.StillDynamic(y)) == {};
    WithoutAbsent(d.dynamic, {});
  }

  lemma HeldAreStored(pool: ActivePool)
    requires pool.Valid()
    ensures forall ps :: ps in pool.pool + pool.draining ==> pool.explorer.InTable(ps)
  {
    assert pool.pool + pool.draining + [] == pool.pool + pool.draining;
  }

  lemma ExploredOwnRun(st: State, lost: Lost, steps: seq<Step>, st': State)
    requires IsRun(st, steps, st')
    requires forall s :: s in steps ==> s.Take? || s.Reshuffle?
    ensures OwnRun(st, lost, steps, st', lost)
  {
    hide IsRun;
    assert forall s :: s in steps ==> Conserves(s) && Internal(s);
    ConservingOwnRun(st, lost, steps, st');
  }

  lemma PoolHasExplorer(pool: ActivePool)
    requires pool.Valid()
    ensures pool.explorer.Valid()
  {
  }

  /** A pool loses nothing it holds when only pairs of an unprotected name leave the table. */
  lemma HeldStay(pool: ActivePool, before: map<PairKey, PairStats>, a: Axis, evicted: Option<string>)
    requires forall ps :: ps in pool.pool + pool.draining ==> ps.Key() in before && before[ps.Key()] == ps
    requires forall k :: k in before ==>
      if k in pool.explorer.stats then pool.explorer.stats[k] == before[k] else evicted == Some(Coord(k, a))
    requires evicted.Some? ==> evicted.value !in pool.Protected(a)
    ensures forall ps :: ps in pool.pool + pool.draining ==> pool.explorer.InTable(ps)
  {
    forall ps | ps in pool.pool + pool.draining ensures pool.explorer.InTable(ps) {
      assert Coord(ps.Key(), a) in pool.Protected(a);
    }
  }

  twostate lemma PoolSurvives(pool: ActivePool)
    requires old(pool.Valid()) && pool.explorer.Valid() && unchanged(pool)
    requires forall ps :: ps in pool.pool + pool.draining ==> pool.explorer.InTable(ps)
    requires forall k :: k in pool.explorer.stats ==>
      if k in old(pool.explorer.stats)
      then pool.explorer.stats[k] == old(pool.explorer.stats)[k]
        && pool.explorer.stats[k].inActivePool == old(pool.explorer.stats[k].inActivePool)
      else !pool.explorer.stats[k].inActivePool
    ensures pool.Valid()
  {
    hide Within;
    assert pool.pool + pool.draining + [] == pool.pool + pool.draining;
    forall i | 0 <= i < |pool.pool| ensures pool.pool[i].inActivePool {
      var ps := pool.pool[i];
      assert ps in old(pool.pool) && ps in old(pool.pool + pool.draining + []);
      assert old(pool.explorer.InTable(ps)) && ps in pool.pool + pool.draining;
    }
  }

  /** Injecting this name costs the pool its invariant: it revives a quarantined name, or the cap pushes out a name that
      carries a held pair. */
  predicate Spoils(pool: ActivePool, d: Discovery, x: string)
    reads pool, d, d.explorer
  {
    d.Revives(x) || (d.Victim(x).Some? && d.Victim(x).value in pool.Protected(d.axis))
  }

  /** A sound pool has a stored pair for every name it protects. */
  lemma HeldIsStored(pool: ActivePool, a: Axis, x: string)
    requires pool.Valid() && x in pool.Protected(a)
    ensures exists k :: k in pool.explorer.stats && Coord(k, a) == x
  {
    HeldAreStored(pool);
    var ps :| ps in pool.pool + pool.draining && Coord(ps.Key(), a) == x;
    assert pool.explorer.InTable(ps);
  }

  /** One injection, with a pool over the same explorer.  The pool survives it exactly unless the name spoils it. */
  method InjectUnder(pool: ActivePool, d: Discovery, x: string)
    returns (added: nat, ghost evicted: Option<string>, ghost met: set<string>)
    requires pool.Valid() && d.Valid() && d.explorer == pool.explorer && d.maxDynamic >= 1
    modifies d`known, d`dynamic, d`missed
    modifies pool.explorer`stats, pool.explorer`unexplored, pool.explorer`ips, pool.explorer`snis, pool.explorer`lost
    ensures pool.Valid() <==> !old(Spoils(pool, d, x))
    ensures d.IsAhead(pool.explorer.Abs()) && x in d.known && evicted == old(d.Victim(x))
    ensures d.Valid() <==> pool.explorer.Valid()
    ensures Brings(old(pool.explorer.Abs()), pool.explorer.Abs(), d.axis.Other(), met) && met <= old(Elems(d.Partners()))
    ensures old(x in d.SyncedKnown()) ==>
      && added == 0 && pool.explorer.Abs() == old(pool.explorer.Abs()) && pool.explorer.stats == old(pool.explorer.stats)
      && d.known == old(d.SyncedKnown()) && d.dynamic == old(d.SyncedDynamic()) && d.missed == old(d.missed)
    ensures old(x !in d.SyncedKnown()) ==>
      && d.known == old(d.SyncedKnown()) - d.Named(evicted) + {x} && d.missed == old(d.missed) + d.Named(evicted) - {x}
      && pool.explorer.On(d.axis).ledger.Keys == old(pool.explorer.On(d.axis).ledger.Keys) - d.Named(evicted) + {x}
      && d.dynamic == (if evicted.None? then old(d.SyncedDynamic()) else old(d.SyncedDynamic()[1..])) + [x]
      && pool.explorer.Abs() == Introduced(old(pool.explorer.Abs()), d.axis, x, evicted, old(d.Partners()))
    ensures |d.dynamic| <= |old(d.dynamic)| + 1 && Elems(d.dynamic) <= old(Elems(d.dynamic)) + {x}
    ensures forall k :: k in pool.explorer.stats ==>
      || (k in old(pool.explorer.stats) && pool.explorer.stats[k] == old(pool.explorer.stats)[k])
      || (fresh(pool.explorer.stats[k]) && Unused(pool.explorer.stats[k]))
  {
    hide Within, Covered, Brings, Discovery.Victim, Discovery.SyncedKnown, Discovery.SyncedDynamic, Discovery.Partners;
    hide Discovery.Valid, Discovery.IsAhead, Discovery.Revives, ActivePool.Valid, CombinationExplorer.Valid;
    ghost var before := pool.explorer.stats;
    HeldAreStored(pool);
    SyncedAre(d, x);
    added, evicted, met := d.Inject(x);
    if evicted.Some? && evicted.value in pool.Protected(d.axis) {
      if pool.Valid() {
        HeldIsStored(pool, d.axis, evicted.value);
      }
    } else if !pool.explorer.Valid() {
      BrokenExplorer(pool);
    } else {
      HeldStay(pool, before, d.axis, evicted);
      PoolSurvives(pool);
    }
  }

  lemma BrokenExplorer(pool: ActivePool)
    requires !pool.explorer.Valid()
    ensures !pool.Valid()
  {
  }

  /** What the discovery of one axis keeps, and that it answers for `fallback`, with the explorer in state `st`. */
  ghost predicate FitsOn(d: Discovery, a: Axis, fallback: seq<string>, st: State)
    reads d
  {
    d.axis == a && d.maxDynamic >= 1 && d.IsAhead(st) && Vouched(Elems(fallback), d.known, st.On(a).ledger.Keys, d.missed)
  }

  /** A name that is skipped as known is in the ledger too, unless discovery misses it. */
  lemma SkippedIsVouched(d: Discovery, x: string)
    requires d.IsAhead(d.explorer.Abs()) && x in d.SyncedKnown()
    ensures Vouched({x}, d.SyncedKnown(), d.explorer.On(d.axis).ledger.Keys, d.missed)
  {
    assert x in d.explorer.On(d.axis).active ==> x in Mentioned(d.explorer.Abs(), d.axis);
  }

  /** An injection leaves the same names vouched for, and its own. */
  lemma InjectedIsVouched(names: set<string>, known: set<string>, ledger: set<string>, missed: set<string>,
                          synced: set<string>, x: string, gone: set<string>,
                          known': set<string>, ledger': set<string>, missed': set<string>)
    requires Vouched(names, known, ledger, missed) && known * ledger <= synced
    requires x in synced ==>
      known' == synced && ledger' == ledger && missed' == missed && Vouched({x}, synced, ledger, missed)
    requires x !in synced ==>
      known' == synced - gone + {x} && ledger' == ledger - gone + {x} && missed' == missed + gone - {x}
    ensures Vouched(names + {x}, known', ledger', missed')
  {
  }

  lemma InjectedOne(e: Event, a: Axis)
    ensures Injected([e], a) == if e.Injects? && e.a == a then {e.x} else {}
    ensures Injected([], a) == {}
  {
    if e.Injects? && e.a == a {
      assert e in [e];
    }
  }

  /** What can happen, in any order: a scan round injects a name; the pool is refreshed, by a scan round or the health
      loop; the health loop probes the first pairs, puts the first ones in service, or explores; a relay dials, has a
      packet through, or hangs up, failed or not. */
  datatype Event =
    | Injects(a: Axis, x: string)
    | Refreshes(now: int)
    | ProbesFirst
    | Initializes
    | Explores
    | Dials
    | Carries(i: nat)
    | HangsUp(i: nat, failed: bool, now: int)

  /** How many relays are open after an event, and after a script. */
  function Open(n: nat, e: Event): nat {
    match e
    case Dials => n + 1
    case HangsUp(i, _, _) => if i < n then n - 1 else n
    case _ => n
  }

  function OpenAfter(n: nat, script: seq<Event>): nat {
    if script == [] then n else Open(OpenAfter(n, script[..|script| - 1]), script[|script| - 1])
  }

  /** The refreshes that a script asks for. */
  function Refreshings(script: seq<Event>): nat {
    if script == [] then 0 else Refreshings(script[..|script| - 1]) + if script[|script| - 1].Refreshes? then 1 else 0
  }

  lemma ScriptNext(n: nat, script: seq<Event>, i: nat)
    requires i < |script|
    ensures OpenAfter(n, script[..i + 1]) == Open(OpenAfter(n, script[..i]), script[i])
    ensures Refreshings(script[..i + 1]) == Refreshings(script[..i]) + if script[i].Refreshes? then 1 else 0
    ensures OpenAfter(n, script[..0]) == n && Refreshings(script[..0]) == 0
  {
    assert script[..i + 1][..i] == script[..i];
  }

  /** The names a script brings on one axis. */
  function Injected(script: seq<Event>, a: Axis): set<string> {
    set e | e in script && e.Injects? && e.a == a :: e.x
  }

  lemma InjectedNext(script: seq<Event>, i: nat, a: Axis)
    requires i < |script|
    ensures Injected(script[..i + 1], a) == Injected(script[..i], a) + Injected([script[i]], a)
    ensures Injected(script[..i + 1], a) <= Injected(script, a)
  {
    assert script[..i + 1] == script[..i] + [script[i]];
    assert forall e :: e in script[..i + 1] <==> e in script[..i] || e in [script[i]];
  }

  /** A cap with room for its dynamic names and all those to come pushes nobody out. */
  lemma RoomForAll(d: Discovery, x: string, names: set<string>)
    requires NoDup(d.dynamic) && Elems(d.dynamic) <= d.known
    requires Elems(d.dynamic) + {x} <= names && |names| <= d.maxDynamic
    ensures d.Victim(x) == None
  {
    d.SyncedFacts();
    NoDupCardinality(d.SyncedDynamic());
    if x !in d.SyncedKnown() {
      assert x !in Elems(d.SyncedDynamic());
      SubsetSize(Elems(d.SyncedDynamic()) + {x}, names);
    }
  }

  /** A name that the cap of its axis pushed out. */
  datatype PushOut = PushOut(a: Axis, x: string)

  function PushedOut(log: seq<PushOut>, a: Axis): set<string> {
    set o | o in log && o.a == a :: o.x
  }

  lemma LogGrows(log: seq<PushOut>, from: nat, more: seq<PushOut>, a: Axis)
    requires from <= |log|
    ensures PushedOut((log + more)[from..], a) == PushedOut(log[from..], a) + PushedOut(more, a)
  {
    assert (log + more)[from..] == log[from..] + more;
    assert forall o :: o in log[from..] + more <==> o in log[from..] || o in more;
  }

  lemma OneHangsUp<T>(relays: seq<T>, i: nat)
    requires i < |relays|
    ensures forall x :: multiset(relays[..i] + relays[i + 1..])[x] == multiset(relays)[x] - if x == relays[i] then 1 else 0
  {
    assert relays == relays[..i] + [relays[i]] + relays[i + 1..];
  }

  lemma FitsAtFirst(d: Discovery, a: Axis, fallback: seq<string>)
    requires d.Valid() && d.axis == a && d.maxDynamic >= 1
    requires d.missed == Mentioned(d.explorer.Abs(), a) - d.known * d.explorer.On(a).ledger.Keys
    requires Elems(fallback) <= Mentioned(d.explorer.Abs(), a)
    ensures FitsOn(d, a, fallback, d.explorer.Abs())
  {
  }

  class Manager {
    const pool: ActivePool
    const ips: Discovery
    const snis: Discovery
    /** The pairs under the open relays, one entry for each relay. */
    var relays: seq<PairStats>

    /** Every push-out of the events handled so far, in order. */
    ghost var log: seq<PushOut>

    function Disc(a: Axis): Discovery {
      if a.IPs? then ips else snis
    }

    ghost predicate Valid()
      reads pool, ips, snis, ips.explorer, snis.explorer, pool.explorer, pool.explorer.stats.Values
    {
      && pool.Valid() && pool.config.Runnable()
      && DiscoveryFits(IPs) && DiscoveryFits(SNIs)
    }

    /** The discovery of one axis keeps its own invariant, and answers for the names that the other one falls back on. */
    ghost predicate DiscoveryFits(a: Axis)
      reads Disc(a), Disc(a).explorer
    {
      && Disc(a).explorer == pool.explorer && Disc(a).Valid()
      && FitsOn(Disc(a), a, Disc(a.Other()).fallback, Disc(a).explorer.Abs())
    }

    /** The stored pairs and those under a relay. */
    function Cells(): set<PairStats>
      reads this`relays, pool.explorer`stats
    {
      pool.explorer.stats.Values + Elems(relays)
    }

    /** Every pair counts as many connections as there are relays over it. */
    ghost predicate Counted()
      reads this`relays, pool.explorer`stats, Cells()`activeConnections
    {
      forall ps :: ps in Cells() ==> ps.activeConnections == multiset(relays)[ps]
    }

    /** Both discoveries start knowing the names of the live pairs; an IP falls back on the configured SNIs, an SNI on
        nothing.  Nothing is missed if every mentioned name has a live pair and an origin, as in a new explorer. */
    constructor (pool: ActivePool, maxIPs: int, maxSNIs: int, configured: seq<string>)
      requires pool.Valid() && pool.config.Runnable() && maxIPs >= 1 && maxSNIs >= 1
      requires Elems(configured) <= Mentioned(pool.explorer.Abs(), SNIs)
      ensures Valid() && this.pool == pool && fresh(ips) && fresh(snis) && relays == [] && log == []
      ensures forall a :: Disc(a).dynamic == []
      ensures forall a ::
        Disc(a).missed ==
        Mentioned(pool.explorer.Abs(), a) - Coords(pool.explorer.stats.Keys, a) * pool.explorer.On(a).ledger.Keys
    {
      hide ActivePool.Valid, Discovery.Valid, CombinationExplorer.Valid, Covered, Mentioned, Coords, NoDup;
      PoolHasExplorer(pool);
      this.pool := pool;
      relays, log := [], [];
      ips := new Discovery(pool.explorer, IPs, maxIPs, configured);
      snis := new Discovery(pool.explorer, SNIs, maxSNIs, []);
      new;
      FitsAtFirst(ips, IPs, []);
      FitsAtFirst(snis, SNIs, configured);
    }

    /** Discovery and the ledger know all these names, but for those discovery misses. */
    ghost predicate Vouches(a: Axis, names: set<string>)
      reads Disc(a), pool.explorer
    {
      Vouched(names, Disc(a).known, pool.explorer.On(a).ledger.Keys, Disc(a).missed)
    }

    // ---- what keeps discovery fitting ----

    lemma FitsNow()
      requires DiscoveryFits(IPs) && DiscoveryFits(SNIs)
      ensures FitsOn(ips, IPs, snis.fallback, pool.explorer.Abs()) && FitsOn(snis, SNIs, ips.fallback, pool.explorer.Abs())
      ensures ips.explorer == pool.explorer == snis.explorer
    {
      hide Within, Covered, Vouched, NoDup;
    }

    /** Discovery on both axes after a run of the explorer's own steps. */
    lemma StillFits(st: State, lost: Lost, steps: seq<Step>)
      requires FitsOn(ips, IPs, snis.fallback, st) && FitsOn(snis, SNIs, ips.fallback, st)
      requires ips.explorer == pool.explorer == snis.explorer && pool.explorer.Valid()
      requires OwnRun(st, lost, steps, pool.explorer.Abs(), pool.explorer.lost)
      ensures DiscoveryFits(IPs) && DiscoveryFits(SNIs)
      ensures forall a :: pool.explorer.On(a).ledger == st.On(a).ledger
    {
      hide Within, Covered, OwnRun, Vouched, NoDup;
      OwnRunKeepsDiscovery(st, lost, steps, pool.explorer.Abs(), pool.explorer.lost, IPs, ips.missed, ips.known);
      OwnRunKeepsDiscovery(st, lost, steps, pool.explorer.Abs(), pool.explorer.lost, SNIs, snis.missed, snis.known);
    }

    /** Nothing that only touches pairs, pool and relays concerns discovery. */
    lemma FitsAsBefore(st: State)
      requires FitsOn(ips, IPs, snis.fallback, st) && FitsOn(snis, SNIs, ips.fallback, st)
      requires ips.explorer == pool.explorer == snis.explorer && pool.explorer.Valid() && pool.explorer.Abs() == st
      ensures DiscoveryFits(IPs) && DiscoveryFits(SNIs)
    {
      hide Within, Covered, Vouched, NoDup;
    }

    // ---- discovery ----

    method InjectOn(a: Axis, x: string, ghost mine: set<string>, ghost others: set<string>) returns (added: nat)
      requires Valid() && Vouches(a, mine) && Vouches(a.Other(), others)
      modifies Disc(a)`known, Disc(a)`dynamic, Disc(a)`missed
      modifies pool.explorer`stats, pool.explorer`unexplored, pool.explorer`ips, pool.explorer`snis, pool.explorer`lost
      ensures Valid() <==> !old(Spoils(pool, Disc(a), x))
      ensures x in Disc(a).known
      ensures Vouches(a, mine + {x}) && Vouches(a.Other(), others)
      ensures old(x in Disc(a).SyncedKnown()) ==>
        && pool.explorer.Abs() == old(pool.explorer.Abs()) && Disc(a).known == old(Disc(a).SyncedKnown())
        && Disc(a).dynamic == old(Disc(a).SyncedDynamic())
      ensures old(x !in Disc(a).SyncedKnown()) ==>
        var out, before := old(Disc(a).Victim(x)), old(Disc(a).SyncedDynamic());
        && Disc(a).known == old(Disc(a).SyncedKnown()) - Disc(a).Named(out) + {x}
        && Disc(a).dynamic == (if out.None? then before else before[1..]) + [x]
        && pool.explorer.Abs() == Introduced(old(pool.explorer.Abs()), a, x, out, old(Disc(a).Partners()))
      ensures Disc(a).missed <= old(Disc(a).missed) + Disc(a).Named(old(Disc(a).Victim(x)))
      ensures |Disc(a).dynamic| <= |old(Disc(a).dynamic)| + 1 && Elems(Disc(a).dynamic) <= old(Elems(Disc(a).dynamic)) + {x}
      ensures forall k :: k in pool.explorer.stats ==>
        || (k in old(pool.explorer.stats) && pool.explorer.stats[k] == old(pool.explorer.stats)[k])
        || (fresh(pool.explorer.stats[k]) && Unused(pool.explorer.stats[k]))
    {
      hide Within, Covered, Mentioned, Brings, Vouched, Discovery.SyncedKnown, Discovery.SyncedDynamic, Discovery.Partners;
      hide ActivePool.Valid, Discovery.Victim, Discovery.Revives, CombinationExplorer.Valid, NoDup, Spoils, Introduced, Unused;
      var d, e := Disc(a), Disc(a.Other());
      ghost var st, known, missed, synced := pool.explorer.Abs(), d.known, d.missed, d.SyncedKnown();
      ghost var ledger := pool.explorer.On(a).ledger.Keys;
      SyncedAre(d, x);
      if x in d.SyncedKnown() {
        SkippedIsVouched(d, x);
      }
      ghost var evicted, met;
      added, evicted, met := InjectUnder(pool, d, x);
      OtherSurvives(st, pool.explorer.Abs(), a.Other(), met, Elems(d.fallback), e.missed, e.known);
      VouchedStays(Elems(e.fallback), known, ledger, missed, synced, x, d.Named(evicted));
      InjectedIsVouched(mine, known, ledger, missed, synced, x, d.Named(evicted), d.known,
                        pool.explorer.On(a).ledger.Keys, d.missed);
      if pool.Valid() {
        PoolHasExplorer(pool);
        assert DiscoveryFits(a);
        assert DiscoveryFits(a.Other());
      }
    }

    /** injectIP / injectSNI of one axis.  The invariant survives exactly unless the name spoils it. */
    method InjectInto(a: Axis, x: string, ghost mine: set<string>, ghost others: set<string>) returns (added: nat)
      requires Valid() && Vouches(a, mine) && Vouches(a.Other(), others)
      modifies Disc(a)`known, Disc(a)`dynamic, Disc(a)`missed
      modifies pool.explorer`stats, pool.explorer`unexplored, pool.explorer`ips, pool.explorer`snis, pool.explorer`lost
      ensures Valid() <==> !old(Spoils(pool, Disc(a), x))
      ensures x in Disc(a).known
      ensures Vouches(a, mine + {x}) && Vouches(a.Other(), others)
      ensures old(x in Disc(a).SyncedKnown()) ==>
        && pool.explorer.Abs() == old(pool.explorer.Abs()) && Disc(a).known == old(Disc(a).SyncedKnown())
        && Disc(a).dynamic == old(Disc(a).SyncedDynamic())
      ensures old(x !in Disc(a).SyncedKnown()) ==>
        var out, before := old(Disc(a).Victim(x)), old(Disc(a).SyncedDynamic());
        && Disc(a).known == old(Disc(a).SyncedKnown()) - Disc(a).Named(out) + {x}
        && Disc(a).dynamic == (if out.None? then before else before[1..]) + [x]
        && pool.explorer.Abs() == Introduced(old(pool.explorer.Abs()), a, x, out, old(Disc(a).Partners()))
      ensures Disc(a).missed <= old(Disc(a).missed) + Disc(a).Named(old(Disc(a).Victim(x)))
      ensures |Disc(a).dynamic| <= |old(Disc(a).dynamic)| + 1 && Elems(Disc(a).dynamic) <= old(Elems(Disc(a).dynamic)) + {x}
      ensures old(Counted()) ==> Counted()
      ensures forall ps :: ps in Cells() ==> ps in old(Cells()) || fresh(ps)
    {
      hide Valid, Vouches, Spoils, Introduced, Discovery.SyncedKnown, Discovery.SyncedDynamic, Discovery.Partners,
           Discovery.Victim;
      added := InjectOn(a, x, mine, others);
    }

    // ---- the health loop ----

    method RefreshPool(now: int) returns (ghost t: Trace)
      requires Valid()
      modifies pool`pool, pool`draining, pool`refreshCount
      modifies pool.explorer`stats, pool.explorer`unexplored, pool.explorer`ips, pool.explorer`snis, pool.explorer`lost
      modifies pool.explorer.stats.Values`inActivePool, pool.explorer.stats.Values`forceClosed,
               pool.explorer.stats.Values`closings, pool.explorer.stats.Values`drainStartedAt
      ensures Valid() && pool.refreshCount == old(pool.refreshCount) + 1
      ensures pool.config.Runnable()
        && pool.IsTrace(t, old(pool.explorer.Abs()), pool.explorer.Abs(), old(pool.explorer.stats), now)
      ensures forall ps :: ps in old(pool.pool) ==>
        if old(ps.alive && ps.CombinedLossRate() < pool.lossThreshold) then ps in pool.pool
        else ps in pool.draining && ps !in pool.pool
      ensures forall ps :: ps in old(pool.draining) ==> (ps in pool.draining <==> ps.activeConnections > 0)
      ensures forall a :: pool.explorer.On(a).ledger == old(pool.explorer.On(a).ledger)
      ensures old(Counted()) ==> Counted()
      ensures forall ps :: ps in Cells() ==> ps in old(Cells()) || fresh(ps)
    {
      hide Within, OwnRun, DiscoveryFits, FitsOn, ActivePool.Valid, ListsAgree, ActivePool.IsTrace, SameNames, Timed;
      hide ActivePool.DropsNothing, ActivePool.IsFilled, FlagsOf, AllJoined;
      ghost var st, lost := pool.explorer.Abs(), pool.explorer.lost;
      FitsNow();
      ghost var busy, weak, kept, free;
      var later;
      later, t, busy, weak, kept, free := pool.Refresh(now);
      PoolHasExplorer(pool);
      StillFits(st, lost, t.Steps());
    }

    /** The oldest of a full set of live dynamic names, with an unknown name to come: it is the next to be pushed out. */
    ghost predicate IsNextToGo(a: Axis, y: string, x: string)
      reads ips, snis, ips.explorer, snis.explorer
    {
      var d := Disc(a);
      && d.dynamic != [] && d.dynamic[0] == y && |d.dynamic| >= d.maxDynamic && x !in d.known
      && forall z :: z in d.dynamic ==> d.StillDynamic(z) && z in Coords(d.explorer.stats.Keys, a)
    }

    lemma StillNextToGo(a: Axis, st: State, lost: Lost, y: string, x: string, at: int)
      requires Disc(a).axis == a && Disc(a).explorer == pool.explorer && pool.explorer.stats.Keys == st.keys
      requires OwnRun(st, lost, [Sweep(IPs, at), Sweep(SNIs, at)], pool.explorer.Abs(), pool.explorer.lost)
      requires var d := Disc(a);
        && d.dynamic != [] && d.dynamic[0] == y && |d.dynamic| >= d.maxDynamic && x !in d.known
        && forall z :: z in d.dynamic ==> IsDynamic(st.On(a), z) && z in Coords(st.keys, a)
      ensures IsNextToGo(a, y, x)
    {
      hide OwnRun;
      SweepsSpareLive(st, lost, pool.explorer.Abs(), pool.explorer.lost, at, a);
    }

    /** How a name with a held pair comes to be the next one to go: one quiet refresh of an idle pool whose only eligible
        pair carries it. */
    method HoldTheVictim(a: Axis, ps: PairStats, x: string, now: int)
      requires Valid() && pool.Quiet(1) && pool.slots >= 1 && pool.pool == [] && pool.draining == []
      requires pool.EligiblePairs() == {ps} && IsNextToGo(a, Coord(ps.Key(), a), x)
      modifies pool`pool, pool`draining, pool`refreshCount
      modifies pool.explorer`stats, pool.explorer`unexplored, pool.explorer`ips, pool.explorer`snis, pool.explorer`lost
      modifies pool.explorer.stats.Values`inActivePool, pool.explorer.stats.Values`forceClosed,
               pool.explorer.stats.Values`closings, pool.explorer.stats.Values`drainStartedAt
      ensures Valid() && pool.pool == [ps] && pool.explorer.stats == old(pool.explorer.stats)
      ensures IsNextToGo(a, Coord(ps.Key(), a), x)
    {
      hide Within, OwnRun, DiscoveryFits, FitsOn, ActivePool.Valid, Timed, ActivePool.EligiblePairs, Discovery.Victim;
      hide ActivePool.Quiet;
      ghost var st, lost := pool.explorer.Abs(), pool.explorer.lost;
      FitsNow();
      ApartDiscs();
      ghost var at := pool.FillTheOne(ps, now);
      PoolHasExplorer(pool);
      StillFits(st, lost, [Sweep(IPs, at), Sweep(SNIs, at)]);
      StillNextToGo(a, st, lost, Coord(ps.Key(), a), x, at);
    }

    /** The injection that follows costs the pool its invariant, and no name is revived by it. */
    method PushOutHeld(a: Axis, ps: PairStats, x: string, now: int)
      requires Valid() && pool.Quiet(1) && pool.slots >= 1 && pool.pool == [] && pool.draining == []
      requires pool.EligiblePairs() == {ps} && IsNextToGo(a, Coord(ps.Key(), a), x)
      modifies Disc(a)`known, Disc(a)`dynamic, Disc(a)`missed, pool`pool, pool`draining, pool`refreshCount
      modifies pool.explorer`stats, pool.explorer`unexplored, pool.explorer`ips, pool.explorer`snis, pool.explorer`lost
      modifies pool.explorer.stats.Values`inActivePool, pool.explorer.stats.Values`forceClosed,
               pool.explorer.stats.Values`closings, pool.explorer.stats.Values`drainStartedAt
      ensures !Valid() && pool.pool == [ps]
    {
      hide Valid, IsNextToGo, ActivePool.EligiblePairs, ActivePool.Quiet, Spoils;
      HoldTheVictim(a, ps, x, now);
      ApartDiscs();
      HeldIsNext(a, ps, x);
      var _ := InjectInto(a, x, {}, {});
    }

    lemma HeldIsNext(a: Axis, ps: PairStats, x: string)
      requires IsNextToGo(a, Coord(ps.Key(), a), x) && Disc(a).axis == a && pool.pool == [ps]
      ensures Disc(a).Victim(x) == Some(Coord(ps.Key(), a)) && Spoils(pool, Disc(a), x)
    {
      hide Discovery.Victim, Discovery.Revives;
      OldestIsVictim(Disc(a), x);
      assert ps in pool.pool + pool.draining;
    }

    /** The first pairs of the queue, 20 at first and 10 later on, left it and were probed; an empty queue was filled again
        if it was not the first time. */
    twostate predicate Explored(first: bool)
      reads pool.explorer, pool.explorer.stats.Values
    {
      var queue, e := old(pool.explorer.unexplored), pool.explorer;
      var n := Min(if first then 20 else 10, |queue|);
      && e.stats == old(pool.explorer.stats)
      && (forall k :: k in queue[..n] ==>
            k in e.stats && e.stats[k].probed && e.stats[k].probesSent >= old(e.stats[k].probesSent) + 2)
      && if first || queue != [] then e.unexplored == queue[n..]
         else NoDup(e.unexplored) && Elems(e.unexplored) == e.stats.Keys
    }

    /** InitialExplore at the head of the health loop, or PeriodicExplore later on. */
    method Explore(first: bool)
      requires Valid()
      modifies pool.explorer`unexplored
      modifies pool.explorer.stats.Values`probesSent, pool.explorer.stats.Values`probed,
               pool.explorer.stats.Values`emaProbeLoss, pool.explorer.stats.Values`probesRecv,
               pool.explorer.stats.Values`latencySumMs, pool.explorer.stats.Values`latencyCount,
               pool.explorer.stats.Values`alive, pool.explorer.stats.Values`dataCheckFailed
      ensures Valid()
      ensures Explored(first)
    {
      hide Within, OwnRun, DiscoveryFits, FitsOn, ActivePool.Valid, IsRun, IsTop, Forgotten, Dropped;
      PoolHasExplorer(pool);
      HeldAreStored(pool);
      ghost var st, lost := pool.explorer.Abs(), pool.explorer.lost;
      FitsNow();
      ghost var steps;
      if first {
        pool.explorer.InitialExplore();
        steps := [Take(Min(INITIAL_SAMPLE, |st.queue|))];
        OneStep(st, steps[0]);
      } else {
        ghost var verified;
        steps, verified := pool.explorer.PeriodicExplore();
      }
      ExploredOwnRun(st, lost, steps, pool.explorer.Abs());
      PoolSurvives(pool);
      StillFits(st, lost, steps);
    }

    /** Initialize, when every choice it may make fits what the pool holds. */
    method Start()
      requires Valid() && pool.MayInitialize()
      modifies pool`pool, pool.explorer.stats.Values`inActivePool
      ensures Valid() && IsSelection(pool.pool, old(pool.EligiblePairs()), pool.slots)
    {
      hide Within, DiscoveryFits, FitsOn, ActivePool.Valid, ActivePool.MayInitialize, CombinationExplorer.Valid;
      PoolHasExplorer(pool);
      FitsNow();
      pool.Initialize();
      FitsAsBefore(pool.explorer.Abs());
    }

    // ---- relays ----

    method Dial()
      requires Valid() && Counted() && pool.explorer.stats != map[]
      modifies this`relays, pool.explorer.stats.Values`activeConnections, pool.explorer.stats.Values`totalConnections
      ensures Valid() && Counted()
      ensures Elems(relays) <= old(Cells())
      ensures relays != [] && relays[..|relays| - 1] == old(relays)
      ensures var ps := relays[|relays| - 1];
        && pool.explorer.InTable(ps) && (pool.pool != [] ==> ps in pool.pool)
        && ps.activeConnections == old(ps.activeConnections) + 1 && ps.totalConnections == old(ps.totalConnections) + 1
    {
      hide DiscoveryFits, FitsOn, ActivePool.Valid, CombinationExplorer.Valid;
      FitsNow();
      var ps := pool.Pick();
      assert pool.explorer.stats[ps.Key()] == ps;
      pool.Acquire(ps);
      relays := relays + [ps];
      PoolHasExplorer(pool);
      FitsAsBefore(pool.explorer.Abs());
    }

    /** A packet over a pair, wherever that is by now. */
    method RecordPacket(ps: PairStats, lost: bool)
      requires Valid()
      modifies ps`realPacketsSent, ps`realPacketsLost, ps`emaRealLoss
      ensures Valid() && ps.Condition() == old(ps.Condition()).Packet(lost)
    {
      hide DiscoveryFits, FitsOn, ActivePool.Valid, CombinationExplorer.Valid;
      FitsNow();
      pool.Carry(ps, lost);
      PoolHasExplorer(pool);
      FitsAsBefore(pool.explorer.Abs());
    }

    /** A packet of a relay has come through. */
    method Carry(i: nat)
      requires Valid() && i < |relays|
      modifies relays`realPacketsSent, relays`realPacketsLost, relays`emaRealLoss
      ensures Valid() && relays[i].Condition() == old(relays[i].Condition()).Packet(false)
    {
      RecordPacket(relays[i], false);
    }

    /** The connection of a relay is given back. */
    method Close(i: nat) returns (ps: PairStats)
      requires Valid() && Counted() && i < |relays|
      modifies this`relays, relays`activeConnections
      ensures Valid() && Counted()
      ensures ps == old(relays[i]) && relays == old(relays[..i] + relays[i + 1..])
    {
      hide DiscoveryFits, FitsOn, ActivePool.Valid, CombinationExplorer.Valid;
      FitsNow();
      ps := relays[i];
      OneHangsUp(relays, i);
      pool.Release(ps);
      relays := relays[..i] + relays[i + 1..];
      PoolHasExplorer(pool);
      FitsAsBefore(pool.explorer.Abs());
    }

    /** The relay gives its connection back; when it failed it counts a lost packet and reports. */
    method HangUp(i: nat, failed: bool, now: int)
      requires Valid() && Counted() && i < |relays|
      modifies this`relays, pool`pool, pool`draining, pool`refreshCount, pool.explorer, Cells()
      ensures Valid() && Counted()
      ensures HungUp(i, failed) && |relays| == old(|relays|) - 1 && pool.refreshCount >= old(pool.refreshCount)
      ensures forall a :: pool.explorer.On(a).ledger == old(pool.explorer.On(a).ledger)
      ensures forall ps :: ps in Cells() ==> ps in old(Cells()) || fresh(ps)
    {
      hide Valid, Health.Packet, Health.Probe, Health.CombinedLossRate;
      var ps := Close(i);
      if failed {
        Blame(ps, now);
      }
    }

    /** The relay is gone.  Its pair is as it was, or has lost a packet and a probe; if these took it to the threshold the
        pool was refreshed, and it does not serve any more. */
    twostate predicate HungUp(i: nat, failed: bool)
      reads *
    {
      && i < old(|relays|) && relays == old(relays[..i] + relays[i + 1..])
      && var ps := old(relays[i]);
      if !failed then ps.Condition() == old(ps.Condition()) && pool.refreshCount == old(pool.refreshCount)
      else
        && ps.Condition() == old(ps.Condition()).Packet(true).Probe(false, pool.explorer.deadThreshold)
        && if ps.alive && ps.CombinedLossRate() < pool.lossThreshold then pool.refreshCount == old(pool.refreshCount)
           else pool.refreshCount == old(pool.refreshCount) + 1 && (ps in old(pool.pool) ==> ps in pool.draining && ps !in pool.pool)
    }

    /** What a failed relay leaves behind: a lost packet and a lost probe on its pair, wherever that is by now, and perhaps
        a refresh. */
    method Blame(ps: PairStats, now: int)
      requires Valid()
      modifies ps`realPacketsSent, ps`realPacketsLost, ps`emaRealLoss
      modifies ps`probesSent, ps`probed, ps`emaProbeLoss, ps`probesRecv, ps`latencySumMs, ps`latencyCount, ps`alive
      modifies pool`pool, pool`draining, pool`refreshCount
      modifies pool.explorer`stats, pool.explorer`unexplored, pool.explorer`ips, pool.explorer`snis, pool.explorer`lost
      modifies pool.explorer.stats.Values`inActivePool, pool.explorer.stats.Values`forceClosed,
               pool.explorer.stats.Values`closings, pool.explorer.stats.Values`drainStartedAt
      ensures Valid()
      ensures ps.Condition() == old(ps.Condition()).Packet(true).Probe(false, pool.explorer.deadThreshold)
      ensures if ps.alive && ps.CombinedLossRate() < pool.lossThreshold then pool.refreshCount == old(pool.refreshCount)
              else pool.refreshCount == old(pool.refreshCount) + 1 && (ps in old(pool.pool) ==> ps in pool.draining && ps !in pool.pool)
      ensures forall a :: pool.explorer.On(a).ledger == old(pool.explorer.On(a).ledger)
      ensures old(Counted()) ==> Counted()
      ensures forall ps :: ps in Cells() ==> ps in old(Cells()) || fresh(ps)
    {
      hide Valid, Health.Packet, Health.Probe, Health.CombinedLossRate;
      RecordPacket(ps, true);
      Report(ps, now);
    }

    method Report(ps: PairStats, now: int)
      requires Valid()
      modifies ps`probesSent, ps`probed, ps`emaProbeLoss, ps`probesRecv, ps`latencySumMs, ps`latencyCount, ps`alive
      modifies pool`pool, pool`draining, pool`refreshCount
      modifies pool.explorer`stats, pool.explorer`unexplored, pool.explorer`ips, pool.explorer`snis, pool.explorer`lost
      modifies pool.explorer.stats.Values`inActivePool, pool.explorer.stats.Values`forceClosed,
               pool.explorer.stats.Values`closings, pool.explorer.stats.Values`drainStartedAt
      ensures Valid()
      ensures ps.Condition() == old(ps.Condition()).Probe(false, pool.explorer.deadThreshold)
      ensures if ps.alive && ps.CombinedLossRate() < pool.lossThreshold then pool.refreshCount == old(pool.refreshCount)
              else pool.refreshCount == old(pool.refreshCount) + 1 && (ps in old(pool.pool) ==> ps in pool.draining && ps !in pool.pool)
      ensures forall a :: pool.explorer.On(a).ledger == old(pool.explorer.On(a).ledger)
      ensures old(Counted()) ==> Counted()
      ensures forall ps :: ps in Cells() ==> ps in old(Cells()) || fresh(ps)
    {
      hide Within, OwnRun, DiscoveryFits, FitsOn, ActivePool.Valid, ListsAgree, ActivePool.IsTrace, SameNames, Timed;
      hide ActivePool.DropsNothing, Health.Probe, Health.CombinedLossRate;
      ghost var st, lost := pool.explorer.Abs(), pool.explorer.lost;
      FitsNow();
      var _, t := pool.ReportFailure(ps, now);
      PoolHasExplorer(pool);
      OwnRunStart(st, lost);
      ghost var steps := if t.None? then [] else t.value.Steps();
      StillFits(st, lost, steps);
    }

    // ---- whole scripts ----

    /** An event that the invariant may not survive: an injection that spoils the pool, an Initialize with a choice that
        does not fit what the pool holds; or dialling with an empty table, which has nothing to pick. */
    predicate Risky(e: Event)
      requires pool.explorer.Valid()
      reads pool, ips, snis, ips.explorer, snis.explorer, pool.explorer, pool.explorer.stats.Values
    {
      match e
      case Injects(a, x) => Spoils(pool, Disc(a), x)
      case Initializes => !pool.MayInitialize()
      case Dials => pool.explorer.stats == map[]
      case _ => false
    }

    /** Nothing else is risky: no refresh, no exploration, nothing a running relay does. */
    lemma FewAreRisky(e: Event)
      requires pool.explorer.Valid()
      ensures Risky(e) ==> e.Injects? || e.Initializes? || e.Dials?
      ensures e.Dials? ==> (Risky(e) <==> |pool.explorer.stats| == 0)
    {
      hide CombinationExplorer.Valid;
    }

    /** An injection that finds its discovery at the cap. */
    predicate PushesOut(e: Event)
      reads ips, snis, ips.explorer, snis.explorer
    {
      e.Injects? && Disc(e.a).Victim(e.x).Some?
    }

    /** Room under both caps for every name there is and every name the script brings. */
    ghost predicate Roomy(script: seq<Event>)
      reads ips, snis
    {
      forall a :: |Elems(Disc(a).dynamic) + Injected(script, a)| <= Disc(a).maxDynamic
    }

    lemma ApartDiscs()
      requires Valid()
      ensures ips != snis && Disc(IPs) == ips && Disc(SNIs) == snis && ips.axis == IPs && snis.axis == SNIs
      ensures pool.explorer.Valid()
    {
    }

    /** With nothing missed, an injection that pushes nobody out does not spoil the pool. */
    lemma NothingSpoils(a: Axis, x: string)
      requires Valid() && Disc(a).missed == {} && Disc(a).Victim(x) == None
      ensures !Spoils(pool, Disc(a), x)
    {
      hide ActivePool.Valid, CombinationExplorer.Valid, Discovery.Revives, Discovery.Victim;
      assert DiscoveryFits(a);
      Disc(a).Answers(x);
      Disc(a).RevivesUnknown(x);
    }

    /** An event of the health loop or of a relay, which is no matter of discovery. */
    /** What an event other than an injection has done. */
    twostate predicate Did(e: Event)
      reads *
    {
      && (!e.Dials? && !e.HangsUp? ==> relays == old(relays))
      && (!e.Refreshes? && !e.HangsUp? ==> pool.refreshCount == old(pool.refreshCount) && pool.draining == old(pool.draining))
      && match e
         case Injects(_, _) => true
         case Refreshes(now) =>
           && pool.refreshCount == old(pool.refreshCount) + 1
           && pool.config.Runnable()
           && (exists t :: pool.IsTrace(t, old(pool.explorer.Abs()), pool.explorer.Abs(), old(pool.explorer.stats), now))
           && (forall ps :: ps in old(pool.pool) ==>
                 if old(ps.alive && ps.CombinedLossRate() < pool.lossThreshold) then ps in pool.pool
                 else ps in pool.draining && ps !in pool.pool)
           && forall ps :: ps in old(pool.draining) ==> (ps in pool.draining <==> ps.activeConnections > 0)
         case ProbesFirst => Explored(true)
         case Initializes => old(pool.explorer.Valid()) && IsSelection(pool.pool, old(pool.EligiblePairs()), pool.slots)
         case Explores => Explored(false)
         case Dials =>
           && |relays| == old(|relays|) + 1 && relays[..old(|relays|)] == old(relays)
           && pool.explorer.InTable(relays[old(|relays|)]) && (pool.pool != [] ==> relays[old(|relays|)] in pool.pool)
         case Carries(i) => i < |relays| ==> relays[i].Condition() == old(relays[i].Condition()).Packet(false)
         case HangsUp(i, failed, _) => if i < old(|relays|) then HungUp(i, failed) else relays == old(relays)
    }

    /** What a relay does. */
    method Relay(e: Event)
      requires Valid() && Counted() && !Risky(e) && (e.Dials? || e.Carries? || e.HangsUp?)
      modifies this`relays, pool`pool, pool`draining, pool`refreshCount, pool.explorer, Cells()
      ensures Valid() && Counted() && Did(e)
      ensures |relays| == Open(old(|relays|), e)
      ensures pool.refreshCount >= old(pool.refreshCount) + if e.Refreshes? then 1 else 0
      ensures forall a :: pool.explorer.On(a).ledger == old(pool.explorer.On(a).ledger)
      ensures forall ps :: ps in Cells() ==> ps in old(Cells()) || fresh(ps)
    {
      hide Valid, HungUp, Health.Packet, Health.CombinedLossRate;
      if e.Dials? {
        hide Counted;
        Dial();
      } else if e.i < |relays| && e.Carries? {
        Carry(e.i);
      } else if e.i < |relays| {
        hide Counted;
        HangUp(e.i, e.failed, e.now);
      }
    }

    /** Everything but the injections. */
    method Work(e: Event)
      requires Valid() && Counted() && !Risky(e) && !e.Injects?
      modifies this`relays, pool`pool, pool`draining, pool`refreshCount, pool.explorer, Cells()
      ensures Valid() && Counted() && Did(e)
      ensures |relays| == Open(old(|relays|), e)
      ensures pool.refreshCount >= old(pool.refreshCount) + if e.Refreshes? then 1 else 0
      ensures forall a :: pool.explorer.On(a).ledger == old(pool.explorer.On(a).ledger)
      ensures forall ps :: ps in Cells() ==> ps in old(Cells()) || fresh(ps)
    {
      hide Valid, Counted, ActivePool.MayInitialize, Explored, ActivePool.IsTrace, IsSelection, Health.CombinedLossRate;
      if e.Refreshes? {
        ghost var t := RefreshPool(e.now);
        assert pool.IsTrace(t, old(pool.explorer.Abs()), pool.explorer.Abs(), old(pool.explorer.stats), e.now);
      } else if e.ProbesFirst? || e.Explores? {
        Explore(e.ProbesFirst?);
      } else if e.Initializes? {
        ApartDiscs();
        Start();
      } else {
        hide Did;
        Relay(e);
      }
    }

    /** The push-out that an injection brings about, if any. */
    function Oustings(a: Axis, x: string): seq<PushOut>
      reads ips, snis, ips.explorer, snis.explorer
    {
      var v := Disc(a).Victim(x);
      if v.None? then [] else [PushOut(a, v.value)]
    }

    /** An injection that does not spoil the pool, on the record. */
    method Enter(a: Axis, x: string, ghost mine: set<string>, ghost others: set<string>)
      returns (ghost outs: seq<PushOut>)
      requires Valid() && Counted() && !Spoils(pool, Disc(a), x) && Vouches(a, mine) && Vouches(a.Other(), others)
      modifies this`log, Disc(a)`known, Disc(a)`dynamic, Disc(a)`missed
      modifies pool.explorer`stats, pool.explorer`unexplored, pool.explorer`ips, pool.explorer`snis, pool.explorer`lost
      ensures Valid() && Counted() && Vouches(a, mine + {x}) && Vouches(a.Other(), others)
      ensures forall ps :: ps in Cells() ==> ps in old(Cells()) || fresh(ps)
      ensures log == old(log) + outs && outs == old(Oustings(a, x))
      ensures Disc(a).missed <= old(Disc(a).missed) + PushedOut(outs, a)
      ensures Elems(Disc(a).dynamic) <= old(Elems(Disc(a).dynamic)) + {x}
    {
      hide Valid, Counted, Cells, Discovery.Victim, Spoils, Elems, Discovery.SyncedKnown, Discovery.SyncedDynamic,
           Discovery.Partners, Introduced;
      outs := Oustings(a, x);
      var _ := InjectInto(a, x, mine, others);
      log := log + outs;
    }

    /** One event that is not risky.  Discovery then misses what it missed before and perhaps the name pushed out. */
    method Handle(e: Event, ghost onIPs: set<string>, ghost onSNIs: set<string>) returns (ghost outs: seq<PushOut>)
      requires Valid() && Counted() && !Risky(e) && Vouches(IPs, onIPs) && Vouches(SNIs, onSNIs)
      modifies this`relays, this`log, ips, snis, pool`pool, pool`draining, pool`refreshCount, pool.explorer, Cells()
      ensures Valid() && Counted()
      ensures forall ps :: ps in Cells() ==> ps in old(Cells()) || fresh(ps)
      ensures log == old(log) + outs && outs == if e.Injects? then old(Oustings(e.a, e.x)) else []
      ensures !e.Injects? ==> Did(e)
      ensures |relays| == Open(old(|relays|), e)
      ensures pool.refreshCount >= old(pool.refreshCount) + if e.Refreshes? then 1 else 0
      ensures Vouches(IPs, onIPs + Injected([e], IPs)) && Vouches(SNIs, onSNIs + Injected([e], SNIs))
      ensures forall a :: Disc(a).missed <= old(Disc(a).missed) + PushedOut(outs, a)
      ensures forall a :: Elems(Disc(a).dynamic) <= old(Elems(Disc(a).dynamic)) + Injected([e], a)
    {
      hide Valid, Counted, Cells, Discovery.Victim, Spoils, ActivePool.MayInitialize, Elems, Did, Oustings;
      ApartDiscs();
      outs := [];
      InjectedOne(e, IPs);
      InjectedOne(e, SNIs);
      hide Injected;
      assert onIPs + {} == onIPs && onSNIs + {} == onSNIs;
      if !e.Injects? {
        Work(e);
        assert log + outs == log;
      } else {
        hide Vouches, Open, PushedOut;
        if e.a.IPs? {
          outs := Enter(e.a, e.x, onIPs, onSNIs);
        } else {
          outs := Enter(e.a, e.x, onSNIs, onIPs);
        }
      }
    }

    /** A quarantined name is known to its discovery and to the ledger, or is one that discovery missed. */
    lemma QuarantineIsKnown()
      requires Valid()
      ensures forall a, x :: x in pool.explorer.On(a).quarantine && x !in Disc(a).missed ==>
        x in Disc(a).known && x in pool.explorer.On(a).ledger
    {
      hide Within, ActivePool.Valid, Vouched;
      forall a, x | x in pool.explorer.On(a).quarantine && x !in Disc(a).missed
        ensures x in Disc(a).known && x in pool.explorer.On(a).ledger
      {
        assert DiscoveryFits(a);
        assert x in Mentioned(pool.explorer.Abs(), a);
      }
    }

    /** With nothing missed, an injection that stops a script pushes a name out. */
    lemma WhatStops(e: Event)
      requires Valid() && pool.explorer.Valid() && Risky(e) && NothingMissed() && e.Injects?
      ensures PushesOut(e)
    {
      hide Valid, Spoils;
      ApartDiscs();
      if !PushesOut(e) {
        NothingSpoils(e.a, e.x);
      }
    }

    lemma RoomyPushesNobody(script: seq<Event>, i: nat, before: set<string>)
      requires Valid() && i < |script| && script[i].Injects?
      requires var a := script[i].a;
        Elems(Disc(a).dynamic) <= before + Injected(script[..i], a) && |before + Injected(script, a)| <= Disc(a).maxDynamic
      ensures !PushesOut(script[i])
    {
      hide ActivePool.Valid, CombinationExplorer.Valid, Discovery.Victim, Covered, Vouched;
      var a, x := script[i].a, script[i].x;
      assert DiscoveryFits(a);
      InjectedNext(script, i, a);
      assert script[i] in [script[i]];
      RoomForAll(Disc(a), x, before + Injected(script, a));
    }

    /** Every quarantined name is known to its discovery and to the ledger. */
    ghost predicate AllKnown()
      reads pool.explorer, ips, snis
    {
      forall a, x :: x in pool.explorer.On(a).quarantine ==> x in Disc(a).known && x in pool.explorer.On(a).ledger
    }

    ghost predicate NothingMissed()
      reads ips, snis
    {
      ips.missed == {} && snis.missed == {}
    }

    /** How far a script has come: so many relays are open, so many refreshes at least were made, and the names it brought
        are vouched for. */
    ghost predicate Reached(script: seq<Event>, done: nat, relaysAtFirst: nat, refreshesAtFirst: nat)
      requires done <= |script|
      reads this, pool, ips, snis, pool.explorer
    {
      && |relays| == OpenAfter(relaysAtFirst, script[..done])
      && pool.refreshCount >= refreshesAtFirst + Refreshings(script[..done])
      && Vouches(IPs, Injected(script[..done], IPs)) && Vouches(SNIs, Injected(script[..done], SNIs))
    }

    /** The next event of a script. */
    method Next(script: seq<Event>, i: nat, ghost n: nat, ghost r: nat) returns (ghost outs: seq<PushOut>)
      requires i < |script| && Valid() && Counted() && !Risky(script[i]) && Reached(script, i, n, r)
      modifies this`relays, this`log, ips, snis, pool`pool, pool`draining, pool`refreshCount, pool.explorer, Cells()
      ensures Valid() && Counted() && Reached(script, i + 1, n, r)
      ensures forall ps :: ps in Cells() ==> ps in old(Cells()) || fresh(ps)
      ensures log == old(log) + outs && outs == if script[i].Injects? then old(Oustings(script[i].a, script[i].x)) else []
      ensures forall a :: Disc(a).missed <= old(Disc(a).missed) + PushedOut(outs, a)
      ensures forall a :: Elems(Disc(a).dynamic) <= old(Elems(Disc(a).dynamic)) + Injected([script[i]], a)
    {
      hide Valid, Risky, Counted, Injected, Elems, PushedOut, Oustings, Cells, Did, Vouches;
      outs := Handle(script[i], Injected(script[..i], IPs), Injected(script[..i], SNIs));
      ScriptNext(n, script, i);
      InjectedNext(script, i, IPs);
      InjectedNext(script, i, SNIs);
    }

    lemma NothingInjected(script: seq<Event>)
      ensures Reached(script, 0, |relays|, pool.refreshCount)
    {
    }

    /** Any script of discovery, health loop and relays, in any order, up to the first event at which a cap pushes a name
        out or that the invariant may not survive.  Pool and both discoveries keep their invariants, every pair counts the
        relays over it, discovery misses nothing it did not miss before, and every quarantined name is known or missed.
        When nothing is missed at first, every quarantined name stays known and no injection revives one: only a push-out,
        a misfitting Initialize or a dial of an empty table can stop the script, and with room for all names no push-out. */
    method Follow(script: seq<Event>) returns (done: nat)
      requires Valid() && Counted()
      modifies this`relays, this`log, ips, snis, pool`pool, pool`draining, pool`refreshCount, pool.explorer, Cells()
      ensures Valid() && Counted() && pool.explorer.Valid() && log == old(log)
      ensures done <= |script| && (done < |script| ==> Risky(script[done]) || PushesOut(script[done]))
      ensures Reached(script, done, old(|relays|), old(pool.refreshCount))
      ensures forall a :: Disc(a).missed <= old(Disc(a).missed)
      ensures forall a, x :: x in pool.explorer.On(a).quarantine && x !in Disc(a).missed ==>
        x in Disc(a).known && x in pool.explorer.On(a).ledger
      ensures old(NothingMissed()) ==>
        && NothingMissed() && AllKnown()
        && (done < |script| && script[done].Injects? ==> PushesOut(script[done]))
      ensures old(Roomy(script)) && done < |script| ==> !PushesOut(script[done])
    {
      hide Valid, Risky, Counted, Discovery.Victim, Injected, Elems, Reached;
      ApartDiscs();
      done := 0;
      NothingInjected(script);
      while done < |script| && !Risky(script[done]) && !PushesOut(script[done])
        invariant done <= |script| && Valid() && Counted() && pool.explorer.Valid() && log == old(log)
        invariant forall ps :: ps in Cells() ==> ps in old(Cells()) || fresh(ps)
        invariant Reached(script, done, old(|relays|), old(pool.refreshCount))
        invariant forall a :: Disc(a).missed <= old(Disc(a).missed)
        invariant forall a :: Elems(Disc(a).dynamic) <= old(Elems(Disc(a).dynamic)) + Injected(script[..done], a)
      {
        InjectedNext(script, done, IPs);
        InjectedNext(script, done, SNIs);
        ghost var outs := Next(script, done, old(|relays|), old(pool.refreshCount));
        assert outs == [];
        ApartDiscs();
        done := done + 1;
      }
      QuarantineIsKnown();
      if done < |script| {
        if NothingMissed() && script[done].Injects? && Risky(script[done]) {
          WhatStops(script[done]);
        }
        if old(Roomy(script)) && script[done].Injects? {
          ghost var a := script[done].a;
          RoomyPushesNobody(script, done, old(Elems(Disc(a).dynamic)));
        }
      }
    }

    /** The same script past the push-outs, up to the first event the invariant may not survive: what discovery misses is
        what it missed before and the names pushed out on the way, and these were dynamic at first or injected since. */
    method FollowOn(script: seq<Event>) returns (done: nat)
      requires Valid() && Counted()
      modifies this`relays, this`log, ips, snis, pool`pool, pool`draining, pool`refreshCount, pool.explorer, Cells()
      ensures Valid() && Counted() && pool.explorer.Valid() && old(log) <= log
      ensures done <= |script| && (done < |script| ==> Risky(script[done]))
      ensures Reached(script, done, old(|relays|), old(pool.refreshCount))
      ensures forall a :: Disc(a).missed <= old(Disc(a).missed) + PushedOut(log[|old(log)|..], a)
      ensures forall a :: PushedOut(log[|old(log)|..], a) <= old(Elems(Disc(a).dynamic)) + Injected(script[..done], a)
      ensures forall a, x :: x in pool.explorer.On(a).quarantine && x !in Disc(a).missed ==>
        x in Disc(a).known && x in pool.explorer.On(a).ledger
    {
      hide Valid, Risky, Counted, Discovery.Victim, Injected, Elems, PushedOut, Oustings, Cells, Reached;
      ApartDiscs();
      NobodyYet();
      done := 0;
      NothingInjected(script);
      while done < |script| && !Risky(script[done])
        invariant done <= |script| && Valid() && Counted() && pool.explorer.Valid() && old(log) <= log
        invariant forall ps :: ps in Cells() ==> ps in old(Cells()) || fresh(ps)
        invariant Reached(script, done, old(|relays|), old(pool.refreshCount))
        invariant forall a :: Disc(a).missed <= old(Disc(a).missed) + PushedOut(log[|old(log)|..], a)
        invariant forall a :: PushedOut(log[|old(log)|..], a) <= old(Elems(Disc(a).dynamic)) + Injected(script[..done], a)
        invariant forall a :: Elems(Disc(a).dynamic) <= old(Elems(Disc(a).dynamic)) + Injected(script[..done], a)
      {
        forall a ensures Injected(script[..done + 1], a) == Injected(script[..done], a) + Injected([script[done]], a) {
          InjectedNext(script, done, a);
        }
        OustedAreDynamic(script[done]);
        ghost var before := log;
        ghost var outs := Next(script, done, old(|relays|), old(pool.refreshCount));
        forall a
          ensures PushedOut(log[|old(log)|..], a) == PushedOut(before[|old(log)|..], a) + PushedOut(outs, a)
          ensures PushedOut(log[|old(log)|..], a) <= old(Elems(Disc(a).dynamic)) + Injected(script[..done + 1], a)
        {
          LogGrows(before, |old(log)|, outs, a);
        }
        ApartDiscs();
        done := done + 1;
      }
      QuarantineIsKnown();
    }

    lemma NobodyYet()
      ensures forall a :: PushedOut(log[|log|..], a) == {}
    {
    }

    lemma OustedAreDynamic(e: Event)
      ensures PushedOut([], IPs) == {} == PushedOut([], SNIs)
      ensures e.Injects? ==> forall a :: PushedOut(Oustings(e.a, e.x), a) <= Elems(Disc(a).dynamic)
    {
      if e.Injects? {
        var d := Disc(e.a);
        assert d.Victim(e.x).Some? ==> d.Victim(e.x).value in Elems(d.SyncedDynamic());
      }
    }
  }

  lemma ConfiguredAreMentioned(st: State, combinations: set<PairKey>)
    requires combinations <= st.keys
    ensures Coords(combinations, SNIs) <= Mentioned(st, SNIs)
  {
  }

  /** A manager as the program builds it at a warm start: the configured explorer with the saved document restored into
      it, an idle pool, both discoveries.  What discovery misses then is exact; right after a refresh, with nothing
      forgotten, it is nothing. */
  method Build(combinations: seq<PairKey>, doc: SnapshotDoc, probeCount: int, lossThreshold: real, deadThreshold: real,
               slots: nat, drainTimeout: int, maxDraining: int, config: RefreshConfig, maxIPs: int, maxSNIs: int,
               configured: seq<string>, ghost lost: Lost, ghost saved: State, ghost recs: map<PairKey, PairState>)
    returns (m: Manager)
    requires Within(saved, lost) && IsSnapshot(doc, saved, recs) && forall k :: k in recs ==> WellFormed(recs[k])
    requires config.Runnable() && maxIPs >= 1 && maxSNIs >= 1
    requires Elems(configured) <= Coords(Elems(combinations), SNIs)
    ensures fresh(m) && m.Valid() && m.Counted() && m.relays == [] && m.ips.dynamic == [] && m.snis.dynamic == []
    ensures forall a ::
      var configured, listed, live := Coords(Elems(combinations), a), Elems(saved.On(a).active), Coords(saved.keys, a);
      m.Disc(a).missed == (listed - configured - live) + (live - configured - listed)
    ensures ListsAgree(saved, lost) ==> forall a :: m.Disc(a).missed <= lost.On(a)
  {
    hide Within, IsSnapshot, IsRestored, WellFormed, Initial, Coords, ActivePool.Valid, CombinationExplorer.Valid,
         Manager.Valid, Mentioned, ListsAgree, StaticLedger;
    var e;
    ghost var start;
    e, start := WarmStart(combinations, doc, probeCount, lossThreshold, deadThreshold, lost, saved, recs);
    forall a
      ensures
        var configured, listed, live := Coords(Elems(combinations), a), Elems(saved.On(a).active), Coords(saved.keys, a);
        Mentioned(e.Abs(), a) - Coords(e.stats.Keys, a) * e.On(a).ledger.Keys ==
        (listed - configured - live) + (live - configured - listed)
      ensures ListsAgree(saved, lost) ==>
        Mentioned(e.Abs(), a) - Coords(e.stats.Keys, a) * e.On(a).ledger.Keys <= lost.On(a)
    {
      WarmStartMisses(doc, lost, saved, recs, combinations, start, e.Abs(), Records(e), a);
    }
    ConfiguredAreMentioned(e.Abs(), Elems(combinations));
    var pool := new ActivePool(e, slots, lossThreshold, drainTimeout, maxDraining, config);
    m := new Manager(pool, maxIPs, maxSNIs, configured);
    assert m.Disc(IPs) == m.ips && m.Disc(SNIs) == m.snis;
  }
}
