/** How discovery comes to revive a quarantined name: a run the program can make with any cap.  The cap pushes a name out of
    discovery, list and ledger, but the quarantine of a partner still remembers it. */
module Revivals {
  import opened Sequences
  import opened ExplorerModel
  import opened ExplorerRuns
  import opened ExplorerLaws
  import opened Explorer
  import opened Discoveries

  // ---- one injection, as the state sees it ----

  /** Neither listed nor quarantined, and without a live pair. */
  ghost predicate IsNew(st: State, a: Axis, x: string) {
    x !in st.On(a).Known() && x !in Coords(st.keys, a)
  }

  /** The name is gone from list, ledger and table, and not quarantined. */
  ghost predicate Gone(st: State, a: Axis, x: string) {
    IsNew(st, a, x) && x !in st.On(a).ledger
  }

  function Star(a: Axis, x: string, partners: set<string>): set<PairKey> {
    set y | y in partners :: KeyOn(a, x, y)
  }

  /** What adding pairs of a name with listed partners does. */
  ghost predicate Joins(st: State, st': State, a: Axis, x: string, partners: set<string>) {
    && st'.On(a.Other()) == st.On(a.Other()) && st'.keys == st.keys + Star(a, x, partners)
    && st'.On(a) == st.On(a).(active := if partners == {} then st.On(a).active else st.On(a).active + [x])
  }

  lemma AddJoins(st: State, mid: State, a: Axis, x: string, done: set<string>, y: string)
    requires IsNew(st, a, x) && Joins(st, mid, a, x, done) && y in st.On(a.Other()).active
    ensures Joins(st, Added(mid, KeyOn(a, x, y)), a, x, done + {y})
  {
    var k := KeyOn(a, x, y);
    assert Star(a, x, done + {y}) == Star(a, x, done) + {k};
    assert Coord(k, a) == x && Coord(k, a.Other()) == y;
    if k in mid.keys {
      assert k !in st.keys;
      assert y in done;
    } else {
      assert x in st.On(a).active + [x];
    }
  }

  lemma {:induction false} PairedJoins(st: State, a: Axis, x: string, partners: seq<string>)
    requires IsNew(st, a, x) && Elems(partners) <= Elems(st.On(a.Other()).active)
    ensures Joins(st, Paired(st, a, x, partners), a, x, Elems(partners) - st.On(a.Other()).quarantine.Keys)
  {
    hide Joins, Added, IsNew;
    var blocked := st.On(a.Other()).quarantine.Keys;
    if partners == [] {
      NoPartners(blocked);
      NothingJoins(st, a, x);
    } else {
      var n := |partners| - 1;
      assert partners[..|partners|] == partners && partners[n] in Elems(partners);
      NextPartner(partners, n, blocked);
      PairedJoins(st, a, x, partners[..n]);
      if partners[n] !in blocked {
        AddJoins(st, Paired(st, a, x, partners[..n]), a, x, Elems(partners[..n]) - blocked, partners[n]);
      }
    }
  }

  lemma NothingJoins(st: State, a: Axis, x: string)
    ensures Joins(st, st, a, x, {})
  {
    assert Star(a, x, {}) == {};
  }

  function Entered(st: State, a: Axis, x: string): State {
    st.With(a, st.On(a).(ledger := st.On(a).ledger[x := "dynamic"]))
  }

  /** Forgetting a name, as far as another one and the other axis see it. */
  lemma ClearedIs(st: State, a: Axis, victim: Option<string>, y: string)
    ensures var st' := Cleared(st, a, victim);
      && st'.On(a.Other()) == st.On(a.Other()) && st'.On(a).quarantine == st.On(a).quarantine && st'.keys <= st.keys
      && (IsNew(st, a, y) ==> IsNew(st', a, y)) && (Gone(st, a, y) ==> Gone(st', a, y))
      && (victim != Some(y) ==>
            && multiset(st'.On(a).active)[y] == multiset(st.On(a).active)[y]
            && (y in st.On(a).ledger <==> y in st'.On(a).ledger)
            && (y in st.On(a).ledger ==> st'.On(a).ledger[y] == st.On(a).ledger[y]))
      && (victim == Some(y) && multiset(st.On(a).active)[y] == 1 && y !in st.On(a).quarantine ==> Gone(st', a, y))
  {
    if victim.Some? {
      var x := victim.value;
      ForgottenIs(st, a, x);
      RemoveFirstFacts(st.On(a).active, x);
      RemoveFirstCount(st.On(a).active, x);
      hide RemoveFirst, Forgot, NoDup;
      var st' := Forgot(st, a, x);
      assert y in st.On(a).active <==> multiset(st.On(a).active)[y] > 0;
      assert y in Elems(st'.On(a).active) <==> y in st'.On(a).active;
    }
  }

  /** What an injection leaves of another name and of the other axis, and what becomes of the one it pushes out. */
  lemma Bystander(st: State, a: Axis, z: string, victim: Option<string>, partners: seq<string>, y: string)
    requires IsNew(st, a, z) && z != y && Elems(partners) <= Elems(st.On(a.Other()).active)
    ensures var st' := Introduced(st, a, z, victim, partners);
      && st'.On(a.Other()) == st.On(a.Other()) && st'.On(a).quarantine == st.On(a).quarantine
      && (IsNew(st, a, y) ==> IsNew(st', a, y)) && (Gone(st, a, y) ==> Gone(st', a, y))
      && (victim != Some(y) ==>
            && multiset(st'.On(a).active)[y] == multiset(st.On(a).active)[y]
            && (IsDynamic(st.On(a), y) ==> IsDynamic(st'.On(a), y)))
      && (victim == Some(y) && multiset(st.On(a).active)[y] == 1 && y !in st.On(a).quarantine ==> Gone(st', a, y))
  {
    hide Cleared, Paired;
    var mid := Cleared(st, a, victim);
    ClearedIs(st, a, victim, y);
    ClearedIs(st, a, victim, z);
    PairedJoins(Entered(mid, a, z), a, z, partners);
    OthersStay(mid, Introduced(st, a, z, victim, partners), a, z, y, Elems(partners) - st.On(a.Other()).quarantine.Keys);
    assert y in mid.On(a).active <==> multiset(mid.On(a).active)[y] > 0;
    assert y in st.On(a).active <==> multiset(st.On(a).active)[y] > 0;
  }

  lemma OthersStay(st: State, st': State, a: Axis, x: string, z: string, partners: set<string>)
    requires Joins(Entered(st, a, x), st', a, x, partners) && z != x
    ensures IsNew(st, a, z) ==> IsNew(st', a, z)
    ensures Gone(st, a, z) ==> Gone(st', a, z)
    ensures st'.On(a.Other()) == st.On(a.Other()) && st'.On(a).quarantine == st.On(a).quarantine
    ensures multiset(st'.On(a).active)[z] == multiset(st.On(a).active)[z] && (z in st.On(a).active <==> z in st'.On(a).active)
    ensures z in st.On(a).ledger <==> z in st'.On(a).ledger
    ensures z in st.On(a).ledger ==> st'.On(a).ledger[z] == st.On(a).ledger[z]
  {
    forall k | k in st'.keys && Coord(k, a) == z ensures k in st.keys {
    }
  }

  /** After its injection a new name is listed once, dynamic, and has a pair with every free partner. */
  lemma Newcomer(st: State, a: Axis, x: string, victim: Option<string>, partners: seq<string>, q: string)
    requires IsNew(st, a, x) && Elems(partners) <= Elems(st.On(a.Other()).active)
    requires q in partners && q !in st.On(a.Other()).quarantine
    ensures var st' := Introduced(st, a, x, victim, partners);
      && KeyOn(a, x, q) in st'.keys && multiset(st'.On(a).active)[x] == 1 && IsDynamic(st'.On(a), x)
  {
    hide Cleared, Paired;
    var mid := Cleared(st, a, victim);
    ClearedIs(st, a, victim, x);
    PairedJoins(Entered(mid, a, x), a, x, partners);
    assert x !in mid.On(a).active;
    assert q in Elems(partners) - st.On(a.Other()).quarantine.Keys;
  }

  // ---- the cap: later names push an earlier one out ----

  lemma {:induction false} WithoutConcat<T>(s: seq<T>, t: seq<T>, drop: set<T>)
    requires Elems(t) !! drop
    ensures Without(s + t, drop) == Without(s, drop) + t
  {
    if t == [] {
      assert s + t == s;
    } else {
      var n := |t| - 1;
      assert (s + t)[..|s + t| - 1] == s + t[..n] && t[n] in Elems(t);
      assert Elems(t[..n]) <= Elems(t);
      WithoutConcat(s, t[..n], drop);
    }
  }

  /** `x` is dynamic and listed once, and just the names of `since` have come after it. */
  ghost predicate InLine(d: Discovery, x: string, since: seq<string>)
    reads d, d.explorer
  {
    && |since| < |d.dynamic| && d.dynamic[|d.dynamic| - 1 - |since|..] == [x] + since
    && multiset(d.explorer.On(d.axis).active)[x] == 1
    && forall y :: y in [x] + since ==> d.StillDynamic(y)
  }

  /** `x` has been pushed out: neither discovery nor the explorer has it any more. */
  ghost predicate OutOfLine(d: Discovery, x: string)
    reads d, d.explorer
  {
    x !in d.known && Gone(d.explorer.Abs(), d.axis, x)
  }

  /** Syncing keeps the end of the line. */
  lemma LineSynced(d: Discovery, x: string, since: seq<string>) returns (front: seq<string>)
    requires InLine(d, x, since)
    ensures d.SyncedDynamic() == front + ([x] + since)
  {
    var cut := |d.dynamic| - 1 - |since|;
    var leaving := set y | y in d.dynamic && !d.StillDynamic(y);
    assert d.dynamic == d.dynamic[..cut] + ([x] + since);
    WithoutConcat(d.dynamic[..cut], [x] + since, leaving);
    front := Without(d.dynamic[..cut], leaving);
  }

  lemma LineGrows(front: seq<string>, x: string, since: seq<string>, z: string, line: seq<string>, victim: Option<string>)
    requires line == (if victim.None? then front + ([x] + since) else (front + ([x] + since))[1..]) + [z]
    requires victim.None? || (victim == Some((front + ([x] + since))[0]) && victim != Some(x))
    ensures |since + [z]| < |line| && line[|line| - 1 - |since + [z]|..] == [x] + (since + [z])
  {
    assert front != [] || victim.None?;
  }

  lemma VictimIsAhead(front: seq<string>, x: string, since: seq<string>, victim: string)
    requires NoDup(front + ([x] + since)) && victim == (front + ([x] + since))[0] && victim != x
    ensures victim !in since
  {
    var all := front + ([x] + since);
    assert front != [];
    assert forall j :: 0 <= j < |since| ==> all[|front| + 1 + j] == since[j];
  }

  lemma LinePasses(d: Discovery, st: State, x: string, since: seq<string>, z: string, victim: Option<string>,
                   partners: seq<string>, front: seq<string>, q: string)
    requires d.explorer.Abs() == Introduced(st, d.axis, z, victim, partners) && IsNew(st, d.axis, z)
    requires Elems(partners) <= Elems(st.On(d.axis.Other()).active) && q in partners
    requires q !in st.On(d.axis.Other()).quarantine && z !in [x] + since
    requires multiset(st.On(d.axis).active)[x] == 1 && forall y :: y in [x] + since ==> IsDynamic(st.On(d.axis), y)
    requires NoDup(front + ([x] + since))
    requires d.dynamic == (if victim.None? then front + ([x] + since) else (front + ([x] + since))[1..]) + [z]
    requires victim.None? || (victim == Some((front + ([x] + since))[0]) && victim != Some(x))
    ensures InLine(d, x, since + [z])
  {
    hide Introduced, IsNew, NoDup;
    LineGrows(front, x, since, z, d.dynamic, victim);
    if victim.Some? {
      VictimIsAhead(front, x, since, victim.value);
    }
    Newcomer(st, d.axis, z, victim, partners, q);
    Bystander(st, d.axis, z, victim, partners, x);
    forall y | y in [x] + (since + [z]) ensures d.StillDynamic(y) {
      if y != z {
        assert y in [x] + since;
        Bystander(st, d.axis, z, victim, partners, y);
      }
    }
  }

  lemma Opening(d: Discovery, z: string)
    requires d.Valid() && z !in d.known
    ensures NoDup(d.SyncedDynamic()) && d.SyncedKnown() <= d.known
    ensures z !in d.SyncedKnown()
    ensures z !in d.explorer.On(d.axis).quarantine ==> !d.Revives(z)
    ensures d.Victim(z).Some? ==> d.SyncedDynamic() != [] && d.Victim(z) == Some(d.SyncedDynamic()[0])
    ensures d.explorer.On(d.axis.Other()).active != [] ==> d.Partners() == d.explorer.On(d.axis.Other()).active
  {
    d.Opened();
    d.SyncedFacts();
  }

  lemma NewcomersStayNew(st: State, a: Axis, z: string, victim: Option<string>, partners: seq<string>)
    requires IsNew(st, a, z) && Elems(partners) <= Elems(st.On(a.Other()).active)
    ensures forall y :: y != z && IsNew(st, a, y) ==> IsNew(Introduced(st, a, z, victim, partners), a, y)
    ensures forall y :: y != z && Gone(st, a, y) ==> Gone(Introduced(st, a, z, victim, partners), a, y)
    ensures Introduced(st, a, z, victim, partners).On(a.Other()) == st.On(a.Other())
    ensures Introduced(st, a, z, victim, partners).On(a).quarantine == st.On(a).quarantine
  {
    hide IsNew, Gone, Introduced;
    Bystander(st, a, z, victim, partners, z + "x");
    forall y | y != z ensures IsNew(st, a, y) ==> IsNew(Introduced(st, a, z, victim, partners), a, y)
                      ensures Gone(st, a, y) ==> Gone(Introduced(st, a, z, victim, partners), a, y) {
      Bystander(st, a, z, victim, partners, y);
    }
  }

  /** A new name is injected while some partner is listed and free. */
  method Enter(d: Discovery, z: string, q: string) returns (ghost victim: Option<string>, ghost partners: seq<string>)
    requires d.Valid() && d.maxDynamic >= 1 && z !in d.known && IsNew(d.explorer.Abs(), d.axis, z)
    requires q in d.explorer.On(d.axis.Other()).active && q !in d.explorer.On(d.axis.Other()).quarantine
    modifies d`known, d`dynamic, d`missed
    modifies d.explorer`stats, d.explorer`unexplored, d.explorer`ips, d.explorer`snis, d.explorer`lost
    ensures d.Valid() && d.known <= old(d.known) - d.Named(victim) + {z}
    ensures partners == old(d.explorer.On(d.axis.Other()).active)
    ensures d.explorer.Abs() == Introduced(old(d.explorer.Abs()), d.axis, z, victim, partners)
    ensures victim.Some? ==> old(d.SyncedDynamic()) != [] && victim == Some(old(d.SyncedDynamic())[0])
    ensures d.dynamic == (if victim.None? then old(d.SyncedDynamic()) else old(d.SyncedDynamic())[1..]) + [z]
  {
    hide IsNew, Introduced, Within, Covered, Mentioned, Brings, NoDup, Discovery.Revives, Discovery.Victim,
         Discovery.Partners, Discovery.SyncedDynamic, Discovery.SyncedKnown, Discovery.Valid, Discovery.IsAhead,
         CombinationExplorer.Valid, Elems, SameQuarantine;
    victim, partners := d.Victim(z), d.Partners();
    Opening(d, z);
    NotNewThere(d.explorer.Abs(), d.axis, z);
    var _, _, _ := d.Inject(z);
  }

  /** One more new name is injected: `x` moves on in line or is pushed out, and once out it stays out. */
  method InjectBehind(d: Discovery, x: string, since: seq<string>, z: string, q: string)
    requires d.Valid() && d.maxDynamic >= 1 && z != x && z !in since && z !in d.known
    requires IsNew(d.explorer.Abs(), d.axis, z) && x !in d.explorer.On(d.axis).quarantine
    requires q in d.explorer.On(d.axis.Other()).active && q !in d.explorer.On(d.axis.Other()).quarantine
    requires InLine(d, x, since) || OutOfLine(d, x)
    modifies d`known, d`dynamic, d`missed
    modifies d.explorer`stats, d.explorer`unexplored, d.explorer`ips, d.explorer`snis, d.explorer`lost
    ensures d.Valid() && d.known <= old(d.known) + {z}
    ensures InLine(d, x, since + [z]) || OutOfLine(d, x)
    ensures d.explorer.On(d.axis.Other()) == old(d.explorer.On(d.axis.Other()))
    ensures d.explorer.On(d.axis).quarantine == old(d.explorer.On(d.axis).quarantine)
    ensures KeyOn(d.axis, z, q) in d.explorer.stats
    ensures forall y :: y != z && IsNew(old(d.explorer.Abs()), d.axis, y) ==> IsNew(d.explorer.Abs(), d.axis, y)
  {
    hide IsNew, Introduced, InLine, Gone, NoDup, Discovery.SyncedDynamic, Discovery.SyncedKnown, Discovery.Valid, Elems;
    ghost var st, inLine, front := d.explorer.Abs(), InLine(d, x, since), [];
    Opening(d, z);
    if inLine {
      LineFacts(d, x, since);
      front := LineSynced(d, x, since);
    }
    ghost var victim, partners := Enter(d, z, q);
    NewcomersStayNew(st, d.axis, z, victim, partners);
    Newcomer(st, d.axis, z, victim, partners, q);
    if inLine {
      if victim == Some(x) {
        Bystander(st, d.axis, z, victim, partners, x);
      } else {
        LinePasses(d, st, x, since, z, victim, partners, front, q);
      }
    }
  }

  lemma NotNewThere(st: State, a: Axis, z: string)
    requires IsNew(st, a, z)
    ensures z !in st.On(a).quarantine
  {
  }

  lemma LineFacts(d: Discovery, x: string, since: seq<string>)
    requires InLine(d, x, since)
    ensures multiset(d.explorer.On(d.axis).active)[x] == 1
    ensures forall y :: y in [x] + since ==> IsDynamic(d.explorer.On(d.axis), y)
  {
  }

  // ---- the other steps of the story ----

  lemma TwoStepsAre(st: State, s0: Step, s1: Step, st': State)
    requires IsRun(st, [s0, s1], st')
    ensures Enabled(st, s0) && Enabled(Apply(st, s0), s1) && st' == Apply(Apply(st, s0), s1)
  {
    hide Apply, Enabled;
    var mid := Apply(st, s0);
    assert [s0, s1][1..] == [s1] && [s1][1..] == [];
    assert CanRun(mid, [s1]) && Run(mid, [s1]) == st';
    assert Run(Apply(mid, s1), []) == st';
  }

  /** Discovery stays ahead of the explorer's own steps. */
  lemma StaysAhead(d: Discovery, st: State, steps: seq<Step>)
    requires d.IsAhead(st) && d.explorer.Valid() && IsRun(st, steps, d.explorer.Abs())
    requires forall s :: s in steps ==> Internal(s)
    ensures d.Valid() && d.explorer.On(d.axis).ledger == st.On(d.axis).ledger
  {
    hide Within, Covered, Internal;
    InternalRunKeepsCover(st, steps, d.axis, d.missed, d.known);
    assert d.explorer.Abs().On(d.axis) == d.explorer.On(d.axis);
  }

  /** An eviction on the other axis and its sweep: the partner remembers `x`, which keeps its place as long as another
      pair of it is alive. */
  lemma PartnerEvicted(st: State, st': State, a: Axis, p: string, others: seq<string>, origin: string, at: int, x: string,
                       q: string)
    requires IsRun(st, [Evict(a.Other(), p, others, origin, at), Sweep(a, at)], st')
    requires {KeyOn(a, x, p), KeyOn(a, x, q)} <= st.keys && p != q
    requires q in st.On(a.Other()).active && q !in st.On(a.Other()).quarantine && IsDynamic(st.On(a), x)
    ensures p in st'.On(a.Other()).quarantine && st'.On(a.Other()).quarantine[p] == Quarantined(others, origin, at, at, 0)
    ensures x in others && q in st'.On(a.Other()).active && q !in st'.On(a.Other()).quarantine
    ensures multiset(st'.On(a).active)[x] == multiset(st.On(a).active)[x] && IsDynamic(st'.On(a), x)
    ensures x !in st.On(a).quarantine ==> x !in st'.On(a).quarantine
    ensures forall z :: z != x && IsNew(st, a, z) ==> IsNew(st', a, z)
  {
    var b := a.Other();
    var evict := Evict(b, p, others, origin, at);
    TwoStepsAre(st, evict, Sweep(a, at), st');
    var mid := Apply(st, evict);
    assert b.Other() == a && mid.On(a) == st.On(a) && mid.keys <= st.keys;
    var k, l := KeyOn(a, x, p), KeyOn(a, x, q);
    assert Coord(k, a) == x == Coord(l, a) && Coord(k, b) == p && Coord(l, b) == q;
    assert x in PartnersOf(st.keys, b, p) && x in Elems(others);
    assert l in mid.keys && x in Coords(mid.keys, a);
    WithoutCount(mid.On(a).active, Orphans(mid, a), x);
    assert q in Elems(Without(st.On(b).active, {p}));
    assert x in Elems(st'.On(a).active);
    forall z | z != x && IsNew(st, a, z) ensures IsNew(st', a, z) {
      assert z !in Elems(st'.On(a).active);
    }
  }

  /** Recycling the partner brings the pair of `x` back, and nothing else of `x`. */
  lemma PartnerBack(st: State, st': State, a: Axis, p: string, others: seq<string>, t: int, cooldown: int, x: string,
                    q: string)
    requires IsRun(st, [Attempt(a.Other(), p, t, t, cooldown), Restore(a.Other(), p, others)], st')
    requires x in others && x !in st.On(a).quarantine
    requires q in st.On(a.Other()).active && q !in st.On(a.Other()).quarantine
    ensures KeyOn(a, x, p) in st'.keys && st.keys <= st'.keys && st'.On(a) == st.On(a)
    ensures q in st'.On(a.Other()).active && q !in st'.On(a.Other()).quarantine
  {
    var b := a.Other();
    TwoStepsAre(st, Attempt(b, p, t, t, cooldown), Restore(b, p, others), st');
    var mid := Apply(st, Attempt(b, p, t, t, cooldown));
    RestoredKeysFacts(mid.keys, b, p, others, mid.On(a).quarantine.Keys);
    var k := KeyOn(a, x, p);
    assert b.Other() == a && KeyOn(b, p, x) == k && Coord(k, a) == x && Coord(k, b) == p;
    assert x in Elems(others);
  }

  /** Evicting a name that is not even listed: it is quarantined all the same, and a partner with another pair stays. */
  lemma UnlistedEvicted(st: State, st': State, a: Axis, x: string, others: seq<string>, origin: string, at: int,
                        z: string, q: string)
    requires IsRun(st, [Evict(a, x, others, origin, at), Sweep(a.Other(), at)], st')
    requires x !in st.On(a).active && KeyOn(a, z, q) in st.keys && z != x
    requires q in st.On(a.Other()).active && q !in st.On(a.Other()).quarantine
    ensures x in st'.On(a).quarantine && x !in st'.On(a).active && st'.On(a).ledger == st.On(a).ledger
    ensures q in st'.On(a.Other()).active && q !in st'.On(a.Other()).quarantine
  {
    var b, l := a.Other(), KeyOn(a, z, q);
    assert Coord(l, a) == z && Coord(l, b) == q;
    var evict := Evict(a, x, others, origin, at);
    TwoStepsAre(st, evict, Sweep(b, at), st');
    var mid := Apply(st, evict);
    assert l in mid.keys && q in Coords(mid.keys, b);
    assert q in Elems(Without(mid.On(b).active, Orphans(mid, b)));
    assert x !in Elems(mid.On(a).active);
  }

  // ---- the whole story ----

  /** A partner of `x` is quarantined and remembers it, another one is listed and free; `x` itself is not quarantined. */
  ghost predicate Remembered(d: Discovery, x: string, p: string, q: string, others: seq<string>, at: int)
    reads d.explorer
  {
    var mine, theirs := d.explorer.On(d.axis), d.explorer.On(d.axis.Other());
    && p in theirs.quarantine && theirs.quarantine[p].partners == others && x in others
    && theirs.quarantine[p].lastAttempt == at
    && q in theirs.active && q !in theirs.quarantine && x !in mine.quarantine
  }

  /** `x` is injected and then the partner `p` is evicted. */
  method InjectAndEvictPartner(d: Discovery, x: string, p: string, q: string, at: int)
    returns (ghost others: seq<string>)
    requires d.Valid() && d.maxDynamic >= 1 && x !in d.known && IsNew(d.explorer.Abs(), d.axis, x)
    requires p != q && p in d.explorer.On(d.axis.Other()).active && p !in d.explorer.On(d.axis.Other()).quarantine
    requires q in d.explorer.On(d.axis.Other()).active && q !in d.explorer.On(d.axis.Other()).quarantine
    modifies d`known, d`dynamic, d`missed
    modifies d.explorer`stats, d.explorer`unexplored, d.explorer`ips, d.explorer`snis, d.explorer`lost
    ensures d.Valid() && d.known <= old(d.known) + {x} && InLine(d, x, []) && Remembered(d, x, p, q, others, at)
    ensures forall z :: z != x && IsNew(old(d.explorer.Abs()), d.axis, z) ==> IsNew(d.explorer.Abs(), d.axis, z)
  {
    hide IsNew, Introduced, NoDup, Discovery.SyncedDynamic, Discovery.SyncedKnown, Discovery.Valid, Elems, IsRun, Within,
         CombinationExplorer.Valid, Discovery.IsAhead, Evicted, Carrying;
    var a := d.axis;
    ghost var st := d.explorer.Abs();
    NotNewThere(st, a, x);
    ghost var victim, partners := Enter(d, x, q);
    NewcomersStayNew(st, a, x, victim, partners);
    Newcomer(st, a, x, victim, partners, p);
    Newcomer(st, a, x, victim, partners, q);
    ghost var mid := d.explorer.Abs();
    d.Opened();
    CarriesPair(mid.keys, a, x, p);
    ghost var steps := d.explorer.EvictName(a.Other(), p, at);
    ghost var origin;
    others, origin :| steps == [Evict(a.Other(), p, others, origin, at), Sweep(a.Other().Other(), at)];
    StaysAhead(d, mid, steps);
    PartnerEvicted(mid, d.explorer.Abs(), a, p, others, origin, at, x, q);
  }

  lemma CarriesPair(keys: set<PairKey>, a: Axis, x: string, p: string)
    requires KeyOn(a, x, p) in keys
    ensures Carrying(keys, a.Other(), {p}) != {} && Carrying(keys, a, {x}) != {}
  {
    var k := KeyOn(a, x, p);
    assert Coord(k, a) == x && Coord(k, a.Other()) == p;
    assert k in Carrying(keys, a.Other(), {p}) && k in Carrying(keys, a, {x});
  }

  /** As many new names as the cap allows are injected: `x` is pushed out. */
  method InjectAll(d: Discovery, x: string, zs: seq<string>, p: string, q: string, ghost others: seq<string>, ghost at: int)
    requires d.Valid() && |zs| == d.maxDynamic >= 1 && NoDup([x] + zs)
    requires InLine(d, x, []) && Remembered(d, x, p, q, others, at)
    requires forall z :: z in zs ==> z !in d.known && IsNew(d.explorer.Abs(), d.axis, z)
    modifies d`known, d`dynamic, d`missed
    modifies d.explorer`stats, d.explorer`unexplored, d.explorer`ips, d.explorer`snis, d.explorer`lost
    ensures d.Valid() && OutOfLine(d, x) && Remembered(d, x, p, q, others, at)
    ensures KeyOn(d.axis, zs[|zs| - 1], q) in d.explorer.stats
  {
    hide IsNew, Discovery.Valid, InLine, OutOfLine, NoDup;
    assert zs[..0] == [];
    for i := 0 to |zs|
      invariant d.Valid() && (InLine(d, x, zs[..i]) || OutOfLine(d, x)) && Remembered(d, x, p, q, others, at)
      invariant forall j :: i <= j < |zs| ==> zs[j] !in d.known && IsNew(d.explorer.Abs(), d.axis, zs[j])
      invariant i > 0 ==> KeyOn(d.axis, zs[i - 1], q) in d.explorer.stats
    {
      Distinct(x, zs, i);
      InjectBehind(d, x, zs[..i], zs[i], q);
      assert zs[..i + 1] == zs[..i] + [zs[i]];
    }
    assert zs[..|zs|] == zs;
    NotThatLong(d, x, zs);
  }

  lemma Distinct(x: string, zs: seq<string>, i: nat)
    requires NoDup([x] + zs) && i < |zs|
    ensures zs[i] != x && zs[i] !in zs[..i] && forall j :: i < j < |zs| ==> zs[j] != zs[i]
  {
    var all := [x] + zs;
    assert all[0] == x && all[i + 1] == zs[i];
    forall j | 0 <= j < |zs| && j != i ensures zs[j] != zs[i] {
      assert all[j + 1] == zs[j];
    }
  }

  lemma NotThatLong(d: Discovery, x: string, zs: seq<string>)
    requires d.Valid() && |zs| == d.maxDynamic
    ensures !InLine(d, x, zs)
  {
    d.CapHolds();
  }

  /** The partner is recycled. */
  method RecyclePartner(d: Discovery, x: string, p: string, q: string, ghost others: seq<string>, ghost since: int, t: int,
                        ghost cooldown: int)
    requires d.Valid() && OutOfLine(d, x) && Remembered(d, x, p, q, others, since) && t - since >= cooldown
    modifies d.explorer`stats, d.explorer`unexplored, d.explorer`ips, d.explorer`snis
    ensures d.Valid() && KeyOn(d.axis, x, p) in d.explorer.stats && old(d.explorer.stats).Keys <= d.explorer.stats.Keys
    ensures d.explorer.On(d.axis) == old(d.explorer.On(d.axis))
    ensures q in d.explorer.On(d.axis.Other()).active && q !in d.explorer.On(d.axis.Other()).quarantine
  {
    hide Discovery.Valid, Elems, IsRun, Within, CombinationExplorer.Valid, Discovery.IsAhead, Apply, Enabled, OutOfLine;
    var a := d.axis;
    ghost var st := d.explorer.Abs();
    d.Opened();
    var back := d.explorer.On(a.Other()).quarantine[p].partners;
    ghost var attempt := d.explorer.MarkAttempt(a.Other(), p, t, t, cooldown);
    ghost var restore := d.explorer.Reinstate(a.Other(), p, back);
    TwoSteps(st, attempt, restore);
    PartnerBack(st, d.explorer.Abs(), a, p, back, t, cooldown, x, q);
    StaysAhead(d, st, [attempt, restore]);
  }

  /** `x` is evicted in its turn, without being listed. */
  method EvictUnlisted(d: Discovery, x: string, p: string, q: string, z: string, at: int)
    requires d.Valid() && z != x && {KeyOn(d.axis, x, p), KeyOn(d.axis, z, q)} <= d.explorer.stats.Keys
    requires x !in d.explorer.On(d.axis).active && x !in d.explorer.On(d.axis).ledger
    requires q in d.explorer.On(d.axis.Other()).active && q !in d.explorer.On(d.axis.Other()).quarantine
    modifies d.explorer`stats, d.explorer`unexplored, d.explorer`ips, d.explorer`snis
    ensures d.Valid() && d.Revives(x)
  {
    hide Discovery.Valid, Elems, IsRun, Within, CombinationExplorer.Valid, Discovery.IsAhead, Carrying, Discovery.Revives;
    var a := d.axis;
    ghost var st := d.explorer.Abs();
    d.Opened();
    CarriesPair(st.keys, a, x, p);
    ghost var steps := d.explorer.EvictName(a, x, at);
    ghost var partners, origin :| steps == [Evict(a, x, partners, origin, at), Sweep(a.Other(), at)];
    UnlistedEvicted(st, d.explorer.Abs(), a, x, partners, origin, at, z, q);
    StaysAhead(d, st, steps);
    d.TakenForNew(x, q);
  }

  lemma OutMeans(d: Discovery, x: string)
    requires OutOfLine(d, x)
    ensures x !in d.explorer.On(d.axis).active && x !in d.explorer.On(d.axis).ledger
  {
  }

  /** The story from any valid discovery, whatever its cap and the names it has already, with two listed partners: `x` is
      injected, its partner `p` is evicted, as many later names as the cap allows push `x` out, `p` is recycled when its
      cooldown is over and brings its pair with `x` back, and `x` is evicted in its turn.  Discovery is as valid as before,
      but it takes `x` for new, and finding it again puts a quarantined name into the table. */
  method RevivalIsReachable(d: Discovery, x: string, zs: seq<string>, p: string, q: string, t0: int, t1: int, t2: int,
                            ghost cooldown: int)
    requires d.Valid() && |zs| == d.maxDynamic >= 1 && NoDup([x] + zs)
    requires forall z :: z in [x] + zs ==> z !in d.known && IsNew(d.explorer.Abs(), d.axis, z)
    requires p != q && p in d.explorer.On(d.axis.Other()).active && p !in d.explorer.On(d.axis.Other()).quarantine
    requires q in d.explorer.On(d.axis.Other()).active && q !in d.explorer.On(d.axis.Other()).quarantine
    requires t0 + cooldown <= t1 <= t2
    modifies d`known, d`dynamic, d`missed
    modifies d.explorer`stats, d.explorer`unexplored, d.explorer`ips, d.explorer`snis, d.explorer`lost
    ensures d.Valid() && d.Revives(x)
  {
    hide IsNew, Discovery.Valid, InLine, OutOfLine, NoDup, Remembered, Discovery.Revives;
    Distinct(x, zs, |zs| - 1);
    assert x in [x] + zs;
    ghost var others := InjectAndEvictPartner(d, x, p, q, t0);
    forall z | z in zs ensures z !in d.known && IsNew(d.explorer.Abs(), d.axis, z) {
      var i :| 0 <= i < |zs| && zs[i] == z;
      Distinct(x, zs, i);
      assert z in [x] + zs;
    }
    InjectAll(d, x, zs, p, q, others, t0);
    OutMeans(d, x);
    RecyclePartner(d, x, p, q, others, t0, t1, cooldown);
    EvictUnlisted(d, x, p, q, zs[|zs| - 1], t2);
  }
}
