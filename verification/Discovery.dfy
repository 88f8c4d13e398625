/** The inject and sync halves of internal/discovery/ipdiscovery.go and snidiscovery.go, with the axis as a parameter.
    */
module Discoveries {
  import opened Sequences
  import opened ExplorerModel
  import opened ExplorerRuns
  import opened ExplorerLaws
  import opened Pairs
  import opened Explorer

  /** Every name of an axis that the explorer holds in any form: listed, quarantined, carried by a live pair, or
      remembered as a partner. */
  ghost function Mentioned(st: State, a: Axis): set<string> {
    st.On(a).Known() + Coords(st.keys, a) + st.On(a.Other()).Remembered()
  }

  /** Discovery has heard of every mentioned name, and so has the ledger, but for the missed ones. */
  ghost predicate Covered(st: State, missed: set<string>, a: Axis, known: set<string>) {
    Mentioned(st, a) <= known + missed && Mentioned(st, a) <= st.On(a).ledger.Keys + missed
  }

  /** No step of the explorer's own mentions a name that was not mentioned before, trimmed names included: a trim
      touches neither what discovery knows nor the ledger. */
  lemma InternalStepMentions(st: State, step: Step, a: Axis)
    requires Enabled(st, step) && Internal(step)
    ensures Mentioned(Apply(st, step), a) <= Mentioned(st, a)
    ensures Apply(st, step).On(a).ledger == st.On(a).ledger
  {
    var b := a.Other();
    var st' := Apply(st, step);
    if step.Evict? {
      assert PartnersOf(st.keys, b, step.x) <= Coords(st.keys, a);
      assert st'.On(b).Remembered() <= st.On(b).Remembered() + Coords(st.keys, a) by {
        RememberedGrows(st.On(b), st'.On(b), if step.a == b then {step.x} else {}, Coords(st.keys, a));
      }
    } else if step.Restore? {
      RestoredKeysFacts(st.keys, step.a, step.x, step.others, st.On(step.a.Other()).quarantine.Keys);
      RememberedGrows(st.On(b), st'.On(b), {}, {});
      RestoredMentions(st, step.a, step.x, step.others, a);
    } else {
      RememberedGrows(st.On(b), st'.On(b), if step.Attempt? then {step.x} else Orphans(st, b), st.On(b).Remembered());
    }
  }

  lemma RememberedGrows(s: Side, s': Side, changed: set<string>, partners: set<string>)
    requires forall w :: w in s'.quarantine ==>
      (w in s.quarantine && s'.quarantine[w] == s.quarantine[w]) ||
      (w in changed && Elems(s'.quarantine[w].partners) <= partners)
    ensures s'.Remembered() <= s.Remembered() + partners
  {
    forall y | y in s'.Remembered() ensures y in s.Remembered() + partners {
      var w :| w in s'.quarantine && y in s'.quarantine[w].partners;
      assert y in Elems(s'.quarantine[w].partners);
    }
  }

  lemma RestoredMentions(st: State, c: Axis, x: string, others: seq<string>, a: Axis)
    requires Enabled(st, Restore(c, x, others))
    ensures Coords(Restored(st, c, x, others).keys, a) + Restored(st, c, x, others).On(a).Known() <= Mentioned(st, a)
  {
    RestoredKeysFacts(st.keys, c, x, others, st.On(c.Other()).quarantine.Keys);
    if a != c {
      assert a == c.Other() && a.Other() == c;
      forall y | y in others ensures y in Mentioned(st, a) {
        if st.On(c).quarantine[x].partners != [] {
          assert y in st.On(c).Remembered();
        }
      }
    }
  }

  /** Whatever the explorer and the pool do between two rounds of discovery, they mention no new name and discovery stays
      ahead of them. */
  lemma {:induction false} InternalRunKeepsCover(st: State, steps: seq<Step>, a: Axis, missed: set<string>,
                                                 known: set<string>)
    requires CanRun(st, steps) && forall s :: s in steps ==> Internal(s)
    ensures Mentioned(Run(st, steps), a) <= Mentioned(st, a) && Run(st, steps).On(a).ledger == st.On(a).ledger
    ensures Covered(st, missed, a, known) ==> Covered(Run(st, steps), missed, a, known)
    decreases |steps|
  {
    hide Apply, Enabled, Mentioned, Internal;
    if steps != [] {
      InternalStepMentions(st, steps[0], a);
      InternalRunKeepsCover(Apply(st, steps[0]), steps[1..], a, missed, known);
    }
  }

  predicate SameQuarantine(st: State, st': State) {
    st'.ips.quarantine == st.ips.quarantine && st'.snis.quarantine == st.snis.quarantine
  }

  // ---- what injecting does to the cover ----

  /** How injecting on one axis reads on the other: `met` are the names there that got a pair. */
  ghost predicate Brings(st: State, st': State, b: Axis, met: set<string>) {
    && Mentioned(st', b) <= Mentioned(st, b) + met && met <= Mentioned(st', b)
    && st'.On(b).ledger == st.On(b).ledger && st'.On(b).quarantine == st.On(b).quarantine
  }

  /** Entering a name, adding pairs and forgetting a name, as far as the cover of one axis sees it. */
  lemma OriginKeepsCover(st: State, missed: set<string>, a: Axis, known: set<string>, x: string)
    requires Covered(st, missed, a, known)
    ensures var st' := Apply(st, Step.SetOrigin(a, x, "dynamic"));
      && Covered(st', missed - {x}, a, known + {x}) && SameQuarantine(st, st')
      && st'.On(a.Other()) == st.On(a.Other()) && Mentioned(st', a.Other()) == Mentioned(st, a.Other())
      && st'.On(a).ledger == st.On(a).ledger[x := "dynamic"]
  {
    var st' := Apply(st, Step.SetOrigin(a, x, "dynamic"));
    assert st'.On(a).quarantine == st.On(a).quarantine && st'.On(a).active == st.On(a).active;
    assert Mentioned(st', a) == Mentioned(st, a);
    assert a.Other().Other() == a && st'.On(a).Remembered() == st.On(a).Remembered();
  }

  lemma AddMentions(st: State, k: PairKey, a: Axis)
    ensures Mentioned(Added(st, k), a) == Mentioned(st, a) + {Coord(k, a)}
    ensures Added(st, k).On(a).ledger == st.On(a).ledger && Added(st, k).On(a).quarantine == st.On(a).quarantine
  {
    var st' := Added(st, k);
    assert Elems(Appended(st.On(a).active, Coord(k, a))) == Elems(st.On(a).active) + {Coord(k, a)};
    assert st'.On(a.Other()).Remembered() == st.On(a.Other()).Remembered();
    if k !in st.keys {
      assert st'.On(a).active == Appended(st.On(a).active, Coord(k, a));
      assert Coords(st'.keys, a) == Coords(st.keys, a) + {Coord(k, a)};
    }
  }

  lemma ForgetMentions(st: State, a: Axis, x: string, b: Axis)
    ensures var st' := Forgot(st, a, x);
      Mentioned(st', b) <= Mentioned(st, b) && SameQuarantine(st, st')
  {
    ForgottenIs(st, a, x);
    var st' := Forgot(st, a, x);
    RemoveFirstFacts(st.On(a).active, x);
    hide Forgot, RemoveFirst;
    assert Elems(st'.On(b).active) <= Elems(st.On(b).active);
    assert Coords(st'.keys, b) <= Coords(st.keys, b);
    assert st'.On(b).quarantine == st.On(b).quarantine;
    assert st'.On(b.Other()).quarantine == st.On(b.Other()).quarantine;
    assert st'.On(b.Other()).Remembered() == st.On(b.Other()).Remembered();
  }

  lemma ForgetKeepsCover(st: State, missed: set<string>, a: Axis, known: set<string>, x: string)
    requires Covered(st, missed, a, known)
    ensures var st' := Forgot(st, a, x);
      && Covered(st', missed + {x}, a, known - {x}) && SameQuarantine(st, st')
      && st'.On(a.Other()) == st.On(a.Other()) && Brings(st, st', a.Other(), {})
      && st'.On(a).ledger == st.On(a).ledger - {x}
  {
    hide Mentioned;
    ForgetMentions(st, a, x, a);
    ForgetMentions(st, a, x, a.Other());
    ForgottenIs(st, a, x);
  }

  /** The other axis stays covered exactly when the names met there are covered, as listed names are. */
  lemma BringsCover(st: State, st': State, b: Axis, met: set<string>, missed: set<string>, known: set<string>)
    requires Brings(st, st', b, met) && Covered(st, missed, b, known)
    ensures Covered(st', missed, b, known) <==> met <= known + missed && met <= st.On(b).ledger.Keys + missed
    ensures met <= Elems(st.On(b).active) ==> Covered(st', missed, b, known)
  {
  }

  lemma BringsNoLess(st: State, mid: State, st': State, b: Axis, met: set<string>)
    requires Brings(st, mid, b, {}) && Brings(mid, st', b, met)
    ensures Brings(st, st', b, met)
  {
  }

  lemma BringsNothing(st: State, b: Axis)
    ensures Brings(st, st, b, {})
  {
  }

  /** A new explorer mentions only the names of its pairs, and all of them are in the ledger. */
  lemma NothingMissedAtFirst(st: State, combinations: seq<PairKey>, a: Axis)
    requires Initial(st, combinations) && st.On(a).ledger == StaticLedger(Elems(st.On(a).active))
    ensures Covered(st, {}, a, Coords(st.keys, a))
  {
    assert st.On(a.Other()).Remembered() == {};
  }

  lemma NextPartner(partners: seq<string>, i: nat, blocked: set<string>)
    requires i < |partners|
    ensures var y := partners[i];
      && Elems(partners[..i + 1]) - blocked == Elems(partners[..i]) - blocked + (if y in blocked then {} else {y})
      && |Without(partners[..i + 1], blocked)| == |Without(partners[..i], blocked)| + if y in blocked then 0 else 1
  {
    assert partners[..i + 1][..i] == partners[..i];
  }

  lemma NoPartners(blocked: set<string>)
    ensures Elems<string>([]) - blocked == {} && Without<string>([], blocked) == []
  {
  }

  /** In a valid explorer no live pair carries a quarantined name. */
  lemma LiveIsFree(explorer: CombinationExplorer, k: PairKey, a: Axis)
    requires explorer.Valid() && k in explorer.stats
    ensures Coord(k, a) !in explorer.On(a).quarantine
  {
  }

  // ---- what injecting does, exactly ----

  /** `x` with a pair for every one of the partners that is not quarantined. */
  function Paired(st: State, a: Axis, x: string, partners: seq<string>): State {
    if partners == [] then st
    else
      var st' := Paired(st, a, x, partners[..|partners| - 1]);
      var y := partners[|partners| - 1];
      if y in st.On(a.Other()).quarantine then st' else Added(st', KeyOn(a, x, y))
  }

  /** The name pushed out, if any, is forgotten. */
  function Cleared(st: State, a: Axis, victim: Option<string>): State {
    if victim.None? then st else Forgot(st, a, victim.value)
  }

  /** A new name has come in. */
  function Introduced(st: State, a: Axis, x: string, victim: Option<string>, partners: seq<string>): State {
    Paired(Apply(Cleared(st, a, victim), Step.SetOrigin(a, x, "dynamic")), a, x, partners)
  }

  lemma PairedNext(st: State, a: Axis, x: string, partners: seq<string>, i: nat)
    requires i < |partners|
    ensures var st', y := Paired(st, a, x, partners[..i]), partners[i];
      Paired(st, a, x, partners[..i + 1]) ==
      if y in st.On(a.Other()).quarantine then st' else Added(st', KeyOn(a, x, y))
  {
    assert partners[..i + 1][..i] == partners[..i];
  }

  lemma NothingPaired(st: State, a: Axis, x: string)
    ensures Paired(st, a, x, []) == st
  {
  }

  /** Listed, and dynamic by the ledger. */
  predicate IsDynamic(side: Side, x: string) {
    x in side.active && x in side.ledger && side.ledger[x] == "dynamic"
  }

  class Discovery {
    const explorer: CombinationExplorer
    const axis: Axis
    const maxDynamic: int
    /** The partners used when the explorer lists none: the configured SNIs for an IP, nothing for an SNI. */
    const fallback: seq<string>

    var known: set<string>
    var dynamic: seq<string>

    /** The names this discovery does not answer for: those mentioned without a live pair when it started, and those it
        pushed out at its cap. */
    ghost var missed: set<string>

    ghost predicate Valid()
      reads this, explorer
    {
      explorer.Valid() && IsAhead(explorer.Abs())
    }

    /** Discovery is ahead of an explorer in state `st`: it covers it, and its own names are in the ledger. */
    ghost predicate IsAhead(st: State)
      reads this
    {
      Ahead(st, known, dynamic, missed)
    }

    ghost predicate Ahead(st: State, known: set<string>, dynamic: seq<string>, missed: set<string>) {
      && NoDup(dynamic) && Elems(dynamic) <= known && Elems(dynamic) <= st.On(axis).ledger.Keys
      && |dynamic| <= Max(maxDynamic, 0)
      && Covered(st, missed, axis, known)
    }

    lemma Opened()
      requires Valid()
      ensures explorer.Valid() && explorer.Keyed() && IsAhead(explorer.Abs())
    {
    }

    constructor (explorer: CombinationExplorer, axis: Axis, maxDynamic: int, fallback: seq<string>)
      requires explorer.Valid()
      ensures Valid() && dynamic == [] && known == Coords(explorer.stats.Keys, axis)
      ensures missed == Mentioned(explorer.Abs(), axis) - known * explorer.On(axis).ledger.Keys
      ensures Covered(explorer.Abs(), {}, axis, known) ==> missed == {}
      ensures this.explorer == explorer && this.axis == axis && this.maxDynamic == maxDynamic && this.fallback == fallback
    {
      this.explorer, this.axis, this.maxDynamic, this.fallback := explorer, axis, maxDynamic, fallback;
      known := Coords(explorer.stats.Keys, axis);
      missed := Mentioned(explorer.Abs(), axis) - Coords(explorer.stats.Keys, axis) * explorer.On(axis).ledger.Keys;
      dynamic := [];
      new;
      hide Within, Coords, Mentioned;
      assert explorer.Abs().On(axis) == explorer.On(axis);
    }

    predicate StillDynamic(x: string)
      reads explorer
    {
      IsDynamic(explorer.On(axis), x)
    }

    /** What a synced discovery knows. */
    function SyncedKnown(): set<string>
      reads this, explorer
    {
      set x | x in known && (x in explorer.On(axis).active || x in explorer.On(axis).ledger)
    }

    /** Its dynamic names: those that were neither evicted nor given another origin, in their order. */
    function SyncedDynamic(): seq<string>
      reads this, explorer
    {
      Without(dynamic, set x | x in dynamic && !StillDynamic(x))
    }

    /** The loop of syncWithExplorer over the dynamic names. */
    method KeepDynamic() returns (dyn: seq<string>)
      requires Valid()
      ensures dyn == SyncedDynamic()
    {
      hide Within, Covered;
      var active := Elems(explorer.On(axis).active);
      ghost var leaving := set x | x in dynamic && !StillDynamic(x);
      dyn := [];
      for i := 0 to |dynamic|
        invariant dyn == Without(dynamic[..i], leaving)
      {
        assert dynamic[..i + 1][..i] == dynamic[..i];
        assert dynamic[i] in Elems(dynamic);
        var origin := explorer.LookupOrigin(axis, dynamic[i]);
        if dynamic[i] in active && origin == "dynamic" {
          dyn := dyn + [dynamic[i]];
        }
      }
      assert dynamic[..|dynamic|] == dynamic;
    }

    lemma SyncedFacts()
      requires NoDup(dynamic)
      ensures NoDup(SyncedDynamic()) && |SyncedDynamic()| <= |dynamic| && Elems(SyncedDynamic()) <= Elems(dynamic)
      ensures Elems(SyncedDynamic()) <= Elems(explorer.On(axis).active)
    {
      WithoutNoDup(dynamic, set x | x in dynamic && !StillDynamic(x));
    }

    /** syncWithExplorer: dynamic names that were evicted or are not dynamic any more are dropped; names that neither
        the list nor the ledger has any more are forgotten. */
    method SyncWithExplorer()
      requires Valid()
      modifies this`known, this`dynamic
      ensures Valid() && known == old(SyncedKnown()) && dynamic == old(SyncedDynamic())
      ensures forall x :: x in known <==> x in old(known) && (x in explorer.On(axis).active || x in explorer.On(axis).ledger)
      ensures var side := explorer.On(axis);
        forall x :: x in Elems(dynamic) <==>
          x in Elems(old(dynamic)) && x in side.active && x in side.ledger && side.ledger[x] == "dynamic"
    {
      hide Within, Covered, Without;
      SyncedFacts();
      SyncKeeps(explorer.Abs(), missed, axis, known, SyncedKnown());
      var active := Elems(explorer.On(axis).active);
      var dyn := KeepDynamic();
      dynamic := dyn;
      known := set x | x in known && (x in active || x in explorer.On(axis).ledger);
      assert known == old(SyncedKnown());
    }

    lemma OldestGoes(st: State)
      requires IsAhead(st) && dynamic != []
      ensures var st' := Forgot(st, axis, dynamic[0]);
        && Ahead(st', known - {dynamic[0]}, dynamic[1..], missed + {dynamic[0]})
        && SameQuarantine(st, st') && st'.On(axis.Other()) == st.On(axis.Other()) && Brings(st, st', axis.Other(), {})
        && st'.On(axis).ledger == st.On(axis).ledger - {dynamic[0]}
    {
      hide Covered, Forgot;
      ForgetKeepsCover(st, missed, axis, known, dynamic[0]);
      assert dynamic == [dynamic[0]] + dynamic[1..];
    }

    lemma ForgotIs(st: State, x: string)
      ensures Forgot(st, axis, x) == Apply(Apply(st, DropPairs(axis, x)), DropName(axis, x))
    {
    }

    /** The cap eviction: the oldest dynamic name is forgotten here and in the explorer. */
    method EvictOldest() returns (evicted: string)
      requires Valid() && dynamic != []
      modifies this`known, this`dynamic, this`missed
      modifies explorer`stats, explorer`unexplored, explorer`ips, explorer`snis, explorer`lost
      ensures Valid() && evicted == old(dynamic[0])
      ensures dynamic == old(dynamic)[1..] && known == old(known) - {evicted} && missed == old(missed) + {evicted}
      ensures explorer.lost == old(explorer.lost).Plus(OnAxis(axis, {evicted}))
      ensures explorer.Abs() == Forgot(old(explorer.Abs()), axis, evicted)
      ensures explorer.stats == old(explorer.stats) - Carrying(old(explorer.stats).Keys, axis, {evicted})
      ensures explorer.On(axis).ledger == old(explorer.On(axis)).ledger - {evicted}
      ensures Brings(old(explorer.Abs()), explorer.Abs(), axis.Other(), {})
      ensures SameQuarantine(old(explorer.Abs()), explorer.Abs())
      ensures explorer.On(axis.Other()) == old(explorer.On(axis.Other()))
    {
      hide Within, Covered, Forgot, Mentioned, Brings, SameQuarantine, Ahead, CombinationExplorer.Valid;
      evicted := dynamic[0];
      Opened();
      OldestGoes(explorer.Abs());
      ForgotIs(explorer.Abs(), evicted);
      dynamic := dynamic[1..];
      known := known - {evicted};
      missed := missed + {evicted};
      explorer.RemoveAllPairsFor(axis, evicted);
      explorer.RemoveBookkeeping(axis, evicted);
    }

    /** One pair, of dynamic origin on this axis. */
    method Place(x: string, y: string)
      requires explorer.Keyed()
      modifies explorer`stats, explorer`unexplored, explorer`ips, explorer`snis
      ensures var key := KeyOn(axis, x, y);
        && explorer.Keyed() && explorer.Abs() == Added(old(explorer.Abs()), key)
        && (old(explorer.Valid()) ==> (explorer.Valid() <==> Welcome(old(explorer.Abs()), key)))
        && key in explorer.stats && explorer.stats == old(explorer.stats)[key := explorer.stats[key]]
      ensures Brought(old(explorer.stats), explorer.stats, axis, x, "dynamic", old(explorer.On(axis.Other())).ledger)
      ensures forall k :: k in explorer.stats && k !in old(explorer.stats) ==>
        fresh(explorer.stats[k]) && Unused(explorer.stats[k])
    {
      hide Within, Added, Welcome, CombinationExplorer.Valid, CombinationExplorer.Keyed, Unused;
      var theirs := explorer.LookupOrigin(axis.Other(), y);
      if axis.IPs? {
        explorer.AddUnexploredPair(x, y, "dynamic", theirs);
      } else {
        explorer.AddUnexploredPair(y, x, theirs, "dynamic");
      }
    }

    lemma AddKeepsAhead(st: State, x: string, y: string)
      requires IsAhead(st) && x in known && x in st.On(axis).ledger
      ensures var st' := Added(st, KeyOn(axis, x, y));
        && IsAhead(st') && SameQuarantine(st, st') && st'.On(axis).ledger == st.On(axis).ledger
        && st'.On(axis.Other()).ledger == st.On(axis.Other()).ledger
        && Mentioned(st', axis.Other()) == Mentioned(st, axis.Other()) + {y}
    {
      hide Added, Mentioned;
      AddMentions(st, KeyOn(axis, x, y), axis);
      AddMentions(st, KeyOn(axis, x, y), axis.Other());
      assert axis.Other().Other() == axis;
    }

    /** One pair of a name that discovery and ledger know. */
    method AddOne(x: string, y: string)
      requires explorer.Keyed() && IsAhead(explorer.Abs()) && x in known && x in explorer.On(axis).ledger
      requires y !in explorer.On(axis.Other()).quarantine
      modifies explorer`stats, explorer`unexplored, explorer`ips, explorer`snis
      ensures explorer.Keyed() && IsAhead(explorer.Abs())
      ensures explorer.Abs() == Added(old(explorer.Abs()), KeyOn(axis, x, y))
      ensures old(explorer.Valid()) && x !in old(explorer.On(axis)).quarantine ==> explorer.Valid()
      ensures SameQuarantine(old(explorer.Abs()), explorer.Abs())
      ensures explorer.On(axis).ledger == old(explorer.On(axis).ledger)
      ensures explorer.On(axis.Other()).ledger == old(explorer.On(axis.Other()).ledger)
      ensures Mentioned(explorer.Abs(), axis.Other()) == Mentioned(old(explorer.Abs()), axis.Other()) + {y}
      ensures KeyOn(axis, x, y) in explorer.stats && OnlyBrought(old(explorer.stats), x)
      ensures forall k :: k in explorer.stats && k !in old(explorer.stats) ==>
        fresh(explorer.stats[k]) && Unused(explorer.stats[k])
    {
      hide Within, Added, Mentioned, IsAhead, Brought, CombinationExplorer.Valid, CombinationExplorer.Keyed, Unused;
      AddKeepsAhead(explorer.Abs(), x, y);
      Place(x, y);
      assert explorer.On(axis) == explorer.Abs().On(axis) && explorer.On(axis.Other()) == explorer.Abs().On(axis.Other());
    }

    /** The table holds what it held before, and else only pairs of `x`, of dynamic origin there and of the partner's
        origin in the ledger if it has one. */
    ghost predicate OnlyBrought(before: map<PairKey, PairStats>, x: string)
      reads explorer
    {
      Brought(before, explorer.stats, axis, x, "dynamic", explorer.On(axis.Other()).ledger)
    }

    /** Pairs of a name with the partners that are not quarantined.  Whether the name itself is quarantined is not asked:
        the explorer's invariant survives exactly if it is not, or no pair is made. */
    method AddPairs(x: string, partners: seq<string>) returns (added: nat, ghost met: set<string>)
      requires Valid() && x in known && x in explorer.On(axis).ledger
      modifies explorer`stats, explorer`unexplored, explorer`ips, explorer`snis
      ensures explorer.Keyed() && IsAhead(explorer.Abs())
      ensures explorer.Abs() == Paired(old(explorer.Abs()), axis, x, partners)
      ensures explorer.Valid() <==> x !in old(explorer.On(axis)).quarantine || met == {}
      ensures SameQuarantine(old(explorer.Abs()), explorer.Abs())
      ensures met == Elems(partners) - old(explorer.On(axis.Other())).quarantine.Keys
      ensures added == |Without(partners, old(explorer.On(axis.Other())).quarantine.Keys)|
      ensures Brings(old(explorer.Abs()), explorer.Abs(), axis.Other(), met)
      ensures explorer.On(axis).ledger == old(explorer.On(axis)).ledger
      ensures forall y :: y in met ==> KeyOn(axis, x, y) in explorer.stats
      ensures OnlyBrought(old(explorer.stats), x)
      ensures forall k :: k in explorer.stats && k !in old(explorer.stats) ==>
        fresh(explorer.stats[k]) && Unused(explorer.stats[k])
    {
      hide Within, Covered, Mentioned, Without, Elems, Unused, IsAhead, CombinationExplorer.Valid, CombinationExplorer.Keyed,
           Brought, Paired, Added;
      Opened();
      added, met := 0, {};
      NothingPaired(explorer.Abs(), axis, x);
      NoPartners(explorer.On(axis.Other()).quarantine.Keys);
      NothingBrought(explorer.stats, axis, x, "dynamic", explorer.On(axis.Other()).ledger);
      assert partners[..0] == [];
      ghost var blocked := explorer.On(axis.Other()).quarantine.Keys;
      for i := 0 to |partners|
        invariant explorer.Keyed() && IsAhead(explorer.Abs())
        invariant explorer.Abs() == Paired(old(explorer.Abs()), axis, x, partners[..i])
        invariant x !in old(explorer.On(axis)).quarantine || met == {} ==> explorer.Valid()
        invariant explorer.On(axis).ledger == old(explorer.On(axis)).ledger
        invariant SameQuarantine(old(explorer.Abs()), explorer.Abs())
        invariant met == Elems(partners[..i]) - blocked && added == |Without(partners[..i], blocked)|
        invariant Mentioned(explorer.Abs(), axis.Other()) == Mentioned(old(explorer.Abs()), axis.Other()) + met
        invariant explorer.On(axis.Other()).ledger == old(explorer.On(axis.Other()).ledger)
        invariant forall y :: y in met ==> KeyOn(axis, x, y) in explorer.stats
        invariant OnlyBrought(old(explorer.stats), x)
        invariant forall k :: k in explorer.stats && k !in old(explorer.stats) ==>
          fresh(explorer.stats[k]) && Unused(explorer.stats[k])
      {
        NextPartner(partners, i, blocked);
        PairedNext(old(explorer.Abs()), axis, x, partners, i);
        if partners[i] !in explorer.On(axis.Other()).quarantine {
          ghost var table := explorer.stats;
          AddOne(x, partners[i]);
          BroughtTwice(old(explorer.stats), table, explorer.stats, axis, x, "dynamic", explorer.On(axis.Other()).ledger);
          added := added + 1;
          met := met + {partners[i]};
        }
      }
      assert partners[..|partners|] == partners;
      if explorer.Valid() && met != {} {
        ghost var y :| y in met;
        LiveIsFree(explorer, KeyOn(axis, x, y), axis);
      }
    }

    /** Entering a new name: discovery and ledger first, so that both stay ahead of the explorer's list. */
    method Admit(x: string)
      requires Valid() && x !in known && |dynamic| < maxDynamic
      modifies this`known, this`dynamic, this`missed, explorer`ips, explorer`snis
      ensures Valid() && known == old(known) + {x} && dynamic == old(dynamic) + [x] && missed == old(missed) - {x}
      ensures explorer.Abs() == Apply(old(explorer.Abs()), Step.SetOrigin(axis, x, "dynamic"))
      ensures explorer.On(axis).ledger == old(explorer.On(axis)).ledger[x := "dynamic"]
      ensures SameQuarantine(old(explorer.Abs()), explorer.Abs())
      ensures Brings(old(explorer.Abs()), explorer.Abs(), axis.Other(), {})
      ensures explorer.On(axis.Other()) == old(explorer.On(axis.Other()))
    {
      hide Within, Covered, Mentioned, Apply;
      OriginKeepsCover(explorer.Abs(), missed, axis, known, x);
      NoDupConcat(dynamic, [x]);
      assert Elems(dynamic + [x]) == Elems(dynamic) + {x};
      known := known + {x};
      dynamic := dynamic + [x];
      missed := missed - {x};
      explorer.SetOrigin(axis, x, "dynamic");
    }

    /** The partners of a new name. */
    function Partners(): seq<string>
      reads explorer
    {
      if explorer.On(axis.Other()).active != [] then explorer.On(axis.Other()).active else fallback
    }

    /** Who is paired with a new name: every listed name of the other axis, or every one of the fallback list if none is
        listed, but nobody who is in quarantine. */
    lemma PartnersAre(y: string)
      ensures y in Elems(Partners()) - explorer.On(axis.Other()).quarantine.Keys <==>
        && y !in explorer.On(axis.Other()).quarantine
        && var listed := explorer.On(axis.Other()).active;
           if |listed| == 0 then y in fallback else y in listed
    {
    }

    function Named(name: Option<string>): set<string> {
      if name.None? then {} else {name.value}
    }

    /** How the table changes: the only new pairs carry `x`, the only lost ones the evicted name, the rest are the
        same. */
    ghost predicate Made(before: map<PairKey, PairStats>, x: string, evicted: Option<string>)
      reads explorer
    {
      && NewOnesCarry(before, explorer.stats, axis, x, "dynamic", explorer.On(axis.Other()).ledger)
      && (forall k :: k in explorer.stats ==> Coord(k, axis) !in Named(evicted))
      && forall k :: k in before ==>
        if k in explorer.stats then explorer.stats[k] == before[k] else evicted == Some(Coord(k, axis))
    }

    lemma MadeOf(before: map<PairKey, PairStats>, mid: map<PairKey, PairStats>, x: string, evicted: Option<string>)
      requires mid == before - Carrying(before.Keys, axis, Named(evicted)) && x !in Named(evicted)
      requires OnlyBrought(mid, x)
      ensures Made(before, x, evicted)
    {
    }

    function Forgetting(lost: Lost, evicted: Option<string>): Lost {
      if evicted.None? then lost else lost.Plus(OnAxis(axis, {evicted.value}))
    }

    lemma CapHolds()
      requires Valid()
      ensures |dynamic| <= Max(maxDynamic, 0) && (dynamic != [] ==> dynamic[0] in known)
    {
      assert dynamic != [] ==> dynamic[0] in Elems(dynamic);
    }

    /** At the cap the oldest dynamic name makes room. */
    method MakeRoom() returns (ghost evicted: Option<string>)
      requires Valid() && maxDynamic >= 1
      modifies this`known, this`dynamic, this`missed
      modifies explorer`stats, explorer`unexplored, explorer`ips, explorer`snis, explorer`lost
      ensures Valid() && |dynamic| < maxDynamic && Named(evicted) <= old(known)
      ensures evicted == if old(|dynamic|) < maxDynamic then None else Some(old(dynamic)[0])
      ensures known == old(known) - Named(evicted) && missed == old(missed) + Named(evicted)
      ensures dynamic == if evicted.None? then old(dynamic) else old(dynamic)[1..]
      ensures explorer.Abs() == Cleared(old(explorer.Abs()), axis, evicted)
      ensures explorer.On(axis).ledger == old(explorer.On(axis)).ledger - Named(evicted)
      ensures explorer.On(axis.Other()) == old(explorer.On(axis.Other()))
      ensures Brings(old(explorer.Abs()), explorer.Abs(), axis.Other(), {})
      ensures SameQuarantine(old(explorer.Abs()), explorer.Abs())
      ensures explorer.stats == old(explorer.stats) - Carrying(old(explorer.stats).Keys, axis, Named(evicted))
      ensures explorer.lost == Forgetting(old(explorer.lost), evicted)
    {
      hide Within, Forgot, Brings, Valid, Mentioned;
      CapHolds();
      BringsNothing(explorer.Abs(), axis.Other());
      evicted := None;
      if |dynamic| >= maxDynamic {
        var e := EvictOldest();
        evicted := Some(e);
      }
    }

    /** A new name comes in. */
    method Introduce(x: string) returns (added: nat, ghost evicted: Option<string>, ghost met: set<string>)
      requires Valid() && maxDynamic >= 1 && x !in known
      modifies this`known, this`dynamic, this`missed
      modifies explorer`stats, explorer`unexplored, explorer`ips, explorer`snis, explorer`lost
      ensures IsAhead(explorer.Abs())
      ensures explorer.Valid() <==> x !in old(explorer.On(axis)).quarantine || met == {}
      ensures evicted == if old(|dynamic|) < maxDynamic then None else Some(old(dynamic)[0])
      ensures known == old(known) - Named(evicted) + {x} && missed == old(missed) + Named(evicted) - {x}
      ensures dynamic == (if evicted.None? then old(dynamic) else old(dynamic)[1..]) + [x]
      ensures explorer.On(axis).ledger == (old(explorer.On(axis)).ledger - Named(evicted))[x := "dynamic"]
      ensures explorer.Abs() == Introduced(old(explorer.Abs()), axis, x, evicted, old(Partners()))
      ensures met == old(Elems(Partners()) - explorer.On(axis.Other()).quarantine.Keys)
      ensures added == |Without(old(Partners()), old(explorer.On(axis.Other())).quarantine.Keys)|
      ensures Brings(old(explorer.Abs()), explorer.Abs(), axis.Other(), met)
      ensures SameQuarantine(old(explorer.Abs()), explorer.Abs())
      ensures forall y :: y in met ==> KeyOn(axis, x, y) in explorer.stats
      ensures Made(old(explorer.stats), x, evicted)
      ensures forall k :: k in explorer.stats && k !in old(explorer.stats) ==>
        fresh(explorer.stats[k]) && Unused(explorer.stats[k])
      ensures explorer.lost == Forgetting(old(explorer.lost), evicted)
    {
      hide Within, Brings, Without, Unused, Valid, IsAhead, CombinationExplorer.Valid, Mentioned, Elems, Made, OnlyBrought,
           Carrying, Paired, Apply;
      ghost var st, before := explorer.Abs(), explorer.stats;
      evicted := MakeRoom();
      ghost var mid := explorer.Abs();
      Admit(x);
      BringsNoLess(st, mid, explorer.Abs(), axis.Other(), {});
      mid := explorer.Abs();
      ghost var table := explorer.stats;
      added, met := AddPairs(x, Partners());
      BringsNoLess(st, mid, explorer.Abs(), axis.Other(), met);
      MadeOf(before, table, x, evicted);
      assert forall k :: k in explorer.stats && k !in before ==> k !in table;
    }

    /** The name that injecting pushes out: only at the cap, and then the first one that survives syncing. */
    function Victim(x: string): (v: Option<string>)
      reads this, explorer
    {
      if x in SyncedKnown() || |SyncedDynamic()| < maxDynamic || SyncedDynamic() == [] then None
      else Some(SyncedDynamic()[0])
    }

    lemma Answers(x: string)
      requires Valid()
      ensures x in explorer.On(axis).quarantine && x !in missed ==> x in SyncedKnown()
    {
      hide Within;
      assert x in explorer.On(axis).quarantine ==> x in Mentioned(explorer.Abs(), axis);
    }

    /** Injecting this name puts live pairs of a quarantined name into the table: it is quarantined, not known any more,
        and some partner is not quarantined. */
    predicate Revives(x: string)
      reads this, explorer
    {
      && x in explorer.On(axis).quarantine && x !in SyncedKnown()
      && Elems(Partners()) - explorer.On(axis.Other()).quarantine.Keys != {}
    }

    lemma RevivesUnknown(x: string)
      ensures Revives(x) ==> x in explorer.On(axis).quarantine && x !in SyncedKnown()
    {
    }

    /** A quarantined name that neither its list nor the ledger has is revived as soon as it is found again, if some
        partner is listed. */
    lemma TakenForNew(x: string, y: string)
      requires x in explorer.On(axis).quarantine && x !in explorer.On(axis).active && x !in explorer.On(axis).ledger
      requires y in explorer.On(axis.Other()).active && y !in explorer.On(axis.Other()).quarantine
      ensures Revives(x)
    {
      assert explorer.On(axis.Other()).active != [] && y in Elems(Partners()) - explorer.On(axis.Other()).quarantine.Keys;
    }

    /** injectIP / injectSNI. A name that is still known is skipped. Otherwise the new name is paired with every listed
        partner that is not quarantined. The explorer's invariant survives exactly unless that revives a quarantined
        name, and no name that this discovery answers for is ever revived. */
    method Inject(x: string) returns (added: nat, ghost evicted: Option<string>, ghost met: set<string>)
      requires Valid() && maxDynamic >= 1
      modifies this`known, this`dynamic, this`missed
      modifies explorer`stats, explorer`unexplored, explorer`ips, explorer`snis, explorer`lost
      ensures IsAhead(explorer.Abs()) && evicted == old(Victim(x))
      ensures Valid() <==> explorer.Valid()
      ensures explorer.Valid() <==> !old(Revives(x))
      ensures old(Revives(x)) ==> x in old(missed)
      ensures old(x in SyncedKnown()) ==>
        && added == 0 && met == {} && explorer.Abs() == old(explorer.Abs()) && explorer.stats == old(explorer.stats)
        && known == old(SyncedKnown()) && dynamic == old(SyncedDynamic()) && missed == old(missed)
      ensures old(x !in SyncedKnown()) ==>
        && added == |Without(old(Partners()), old(explorer.On(axis.Other())).quarantine.Keys)|
        && met == old(Elems(Partners()) - explorer.On(axis.Other()).quarantine.Keys)
        && (forall y :: y in met ==> KeyOn(axis, x, y) in explorer.stats)
        && known == old(SyncedKnown()) - Named(evicted) + {x} && missed == old(missed) + Named(evicted) - {x}
        && dynamic == (if evicted.None? then old(SyncedDynamic()) else old(SyncedDynamic()[1..])) + [x]
        && explorer.On(axis).ledger == (old(explorer.On(axis)).ledger - Named(evicted))[x := "dynamic"]
        && explorer.Abs() == Introduced(old(explorer.Abs()), axis, x, evicted, old(Partners()))
      ensures Brings(old(explorer.Abs()), explorer.Abs(), axis.Other(), met)
      ensures SameQuarantine(old(explorer.Abs()), explorer.Abs())
      ensures explorer.lost == Forgetting(old(explorer.lost), evicted)
      ensures Made(old(explorer.stats), x, evicted)
      ensures forall k :: k in explorer.stats && k !in old(explorer.stats) ==>
        fresh(explorer.stats[k]) && Unused(explorer.stats[k])
    {
      hide Within, Covered, Mentioned, Brings, IsAhead, CombinationExplorer.Valid, Introduced;
      added, evicted, met := 0, None, {};
      Opened();
      Answers(x);
      BringsNothing(explorer.Abs(), axis.Other());
      SyncWithExplorer();
      if x !in known {
        added, evicted, met := Introduce(x);
      }
    }
  }

  lemma SyncKeeps(st: State, missed: set<string>, a: Axis, known: set<string>, kept: set<string>)
    requires Covered(st, missed, a, known)
    requires forall x :: x in known && (x in st.On(a).active || x in st.On(a).ledger) ==> x in kept
    ensures Covered(st, missed, a, kept)
  {
  }
}
