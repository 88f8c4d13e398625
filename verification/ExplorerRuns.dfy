/** What every run of explorer steps keeps. */
module ExplorerRuns {
  import opened Sequences
  import opened ExplorerModel

  function Run(st: State, steps: seq<Step>): State
    requires CanRun(st, steps)
    decreases |steps|
  {
    if steps == [] then st else Run(Apply(st, steps[0]), steps[1..])
  }

  ghost predicate CanRun(st: State, steps: seq<Step>)
    decreases |steps|
  {
    steps == [] || (Enabled(st, steps[0]) && CanRun(Apply(st, steps[0]), steps[1..]))
  }

  ghost predicate IsRun(st: State, steps: seq<Step>, end: State) {
    CanRun(st, steps) && Run(st, steps) == end
  }

  function Forgotten(steps: seq<Step>): Lost
    decreases |steps|
  {
    if steps == [] then NOTHING else Dropped(steps[0]).Plus(Forgotten(steps[1..]))
  }

  // ---- one step at a time ----

  lemma EvictKeeps(st: State, lost: Lost, a: Axis, x: string, partners: seq<string>, origin: string, t: int)
    requires Within(st, lost)
    requires x in Coords(st.keys, a) && NoDup(partners) && Elems(partners) == PartnersOf(st.keys, a, x)
    ensures Enabled(st, Evict(a, x, partners, origin, t))
    ensures Apply(st, Evict(a, x, partners, origin, t)) == Evicted(st, a, x, Quarantined(partners, origin, t, t, 0))
    ensures Within(Evicted(st, a, x, Quarantined(partners, origin, t, t, 0)), lost)
  {
    var b, info := a.Other(), Quarantined(partners, origin, t, t, 0);
    var s, s' := st.On(a), Evicted(st, a, x, info).On(a);
    forall y | y in s'.Remembered() ensures y in st.On(b).Known() + lost.On(b) {
      var w :| w in s'.quarantine && y in s'.quarantine[w].partners;
      if w == x {
        assert y in PartnersOf(st.keys, a, x);
        var k :| k in st.keys && Coord(k, a) == x && Coord(k, b) == y;
      } else {
        assert w in s.quarantine && y in s.quarantine[w].partners;
      }
    }
  }

  lemma SweepKeeps(st: State, lost: Lost, a: Axis, t: int)
    requires Within(st, lost)
    ensures Enabled(st, Sweep(a, t)) && Apply(st, Sweep(a, t)) == Swept(st, a, t) && Within(Swept(st, a, t), lost)
  {
    var s, s' := st.On(a), Swept(st, a, t).On(a);
    forall y | y in s'.Remembered() ensures y in s.Remembered() {
      var w :| w in s'.quarantine && y in s'.quarantine[w].partners;
      assert w in s.quarantine;
    }
    assert s'.Known() == s.Known();
  }

  lemma {:induction false} RestoredKeysFacts(keys: set<PairKey>, a: Axis, x: string, others: seq<string>,
                                             blocked: set<string>)
    ensures var back := RestoredKeys(keys, a, x, others, blocked);
      && NoDup(back) && Elems(back) !! keys
      && forall k :: k in back <==> Coord(k, a) == x && Coord(k, a.Other()) in Elems(others) - blocked && k !in keys
  {
    if others != [] {
      var n := |others| - 1;
      RestoredKeysFacts(keys, a, x, others[..n], blocked);
      assert others == others[..n] + [others[n]];
    }
  }

  lemma RestoreKeepsOwn(st: State, lost: Lost, a: Axis, x: string, others: seq<string>)
    requires Within(st, lost)
    requires Enabled(st, Restore(a, x, others))
    ensures SideOk(Restored(st, a, x, others), a, lost)
  {
    var st' := Restored(st, a, x, others);
    var s, s' := st.On(a), st'.On(a);
    RestoredKeysFacts(st.keys, a, x, others, st.On(a.Other()).quarantine.Keys);
    assert Elems(s'.active) == Elems(s.active) + {x};
    assert st'.On(a.Other()) == st.On(a.Other());
  }

  lemma RestoreKeepsOther(st: State, lost: Lost, a: Axis, x: string, others: seq<string>)
    requires Within(st, lost)
    requires Enabled(st, Restore(a, x, others))
    ensures SideOk(Restored(st, a, x, others), a.Other(), lost)
  {
    var b := a.Other();
    var st' := Restored(st, a, x, others);
    var s, s' := st.On(a), st'.On(a);
    RestoredKeysFacts(st.keys, a, x, others, st.On(b).quarantine.Keys);
    forall y | y in others ensures y in st.On(b).Known() + lost.On(b) {
      if s.quarantine[x].partners != [] {
        assert y in s.Remembered();
      }
    }
    assert s'.Known() == s.Known();
  }

  lemma RestoreKeeps(st: State, lost: Lost, a: Axis, x: string, others: seq<string>)
    requires Within(st, lost) && x in st.On(a).quarantine
    requires var partners := st.On(a).quarantine[x].partners;
      if partners != [] then others == partners else |others| == 1 && others[0] in st.On(a.Other()).active
    ensures Enabled(st, Restore(a, x, others)) && Apply(st, Restore(a, x, others)) == Restored(st, a, x, others)
    ensures Within(Restored(st, a, x, others), lost)
  {
    hide SideOk;
    RestoreKeepsOwn(st, lost, a, x, others);
    RestoreKeepsOther(st, lost, a, x, others);
    assert a.Other().Other() == a;
  }

  lemma AddKeeps(st: State, lost: Lost, k: PairKey)
    requires Within(st, lost) && Welcome(st, k)
    ensures Within(Added(st, k), lost)
  {
    var st' := Added(st, k);
    assert st.ips.Remembered() == st'.ips.Remembered();
    assert st.snis.Remembered() == st'.snis.Remembered();
  }

  lemma EnrolOneKeeps(st: State, lost: Lost, k: PairKey)
    requires Within(st, lost) && Welcome(st, k)
    ensures Within(Added(st, k).(queue := st.queue), lost)
  {
    AddKeeps(st, lost, k);
    var st' := Added(st, k);
    assert forall a :: st'.(queue := st.queue).On(a) == st'.On(a);
  }

  lemma {:induction false} EnrolKeeps(st: State, lost: Lost, front: seq<PairKey>)
    requires Within(st, lost)
    requires forall k :: k in front ==> Welcome(st, k)
    ensures Within(Enrolled(st, front), lost)
    ensures Enrolled(st, front).keys == st.keys + Elems(front)
    ensures forall a :: Enrolled(st, front).On(a).quarantine == st.On(a).quarantine
    ensures Enrolled(st, front).queue == st.queue
  {
    hide Within, SideOk;
    if front != [] {
      var n := |front| - 1;
      EnrolKeeps(st, lost, front[..n]);
      assert front == front[..n] + [front[n]];
      var before := Enrolled(st, front[..n]);
      assert Welcome(st, front[n]);
      assert before.On(IPs).quarantine == st.On(IPs).quarantine && before.On(SNIs).quarantine == st.On(SNIs).quarantine;
      EnrolOneKeeps(before, lost, front[n]);
    }
  }

  lemma TrimKeeps(st: State, lost: Lost, a: Axis, dropped: set<string>)
    requires Within(st, lost) && dropped <= st.On(a).quarantine.Keys
    ensures Enabled(st, Trim(a, dropped)) && Dropped(Trim(a, dropped)) == OnAxis(a, dropped)
    ensures Apply(st, Trim(a, dropped)) == st.With(a, st.On(a).(quarantine := st.On(a).quarantine - dropped))
    ensures Within(Apply(st, Trim(a, dropped)), lost.Plus(OnAxis(a, dropped)))
  {
    var s, s' := st.On(a), st.On(a).(quarantine := st.On(a).quarantine - dropped);
    forall y | y in s'.Remembered() ensures y in s.Remembered() {
      var w :| w in s'.quarantine && y in s'.quarantine[w].partners;
      assert w in s.quarantine;
    }
    assert s.Known() <= s'.Known() + dropped;
  }

  lemma AttemptKeeps(st: State, lost: Lost, a: Axis, x: string, now: int, t: int, cooldown: int)
    requires Within(st, lost) && x in st.On(a).quarantine
    requires now - st.On(a).quarantine[x].lastAttempt >= cooldown && now <= t
    ensures Enabled(st, Attempt(a, x, now, t, cooldown))
    ensures var info := st.On(a).quarantine[x];
      Apply(st, Attempt(a, x, now, t, cooldown)) ==
      st.With(a, st.On(a).(quarantine := st.On(a).quarantine[x := info.(lastAttempt := t, attempts := info.attempts + 1)]))
    ensures Within(Apply(st, Attempt(a, x, now, t, cooldown)), lost)
  {
    var s, s' := st.On(a), Apply(st, Attempt(a, x, now, t, cooldown)).On(a);
    assert s'.quarantine.Keys == s.quarantine.Keys;
    forall y | y in s'.Remembered() ensures y in s.Remembered() {
      var w :| w in s'.quarantine && y in s'.quarantine[w].partners;
      assert w in s.quarantine;
    }
  }

  lemma {:induction false} RemoveFirstCount(names: seq<string>, x: string)
    ensures multiset(RemoveFirst(names, x)) == multiset(names) - multiset{x}
  {
    if names != [] {
      assert names == [names[0]] + names[1..];
      if names[0] != x {
        RemoveFirstCount(names[1..], x);
      }
    }
  }

  lemma RemoveFirstFacts(names: seq<string>, x: string)
    ensures Elems(names) - {x} <= Elems(RemoveFirst(names, x)) <= Elems(names)
    ensures x in Elems(RemoveFirst(names, x)) <==> multiset(names)[x] > 1
    ensures NoDup(names) ==> NoDup(RemoveFirst(names, x))
  {
    RemoveFirstCount(names, x);
    NoDupIsUnit(names);
    NoDupIsUnit(RemoveFirst(names, x));
    hide RemoveFirst, NoDup;
    SameMembers(names);
    SameMembers(RemoveFirst(names, x));
  }

  lemma SameMembers(names: seq<string>)
    ensures forall y :: y in Elems(names) <==> y in multiset(names)
  {
  }

  lemma DropNameKeeps(st: State, lost: Lost, a: Axis, x: string)
    requires Within(st, lost)
    ensures Within(Apply(st, DropName(a, x)), lost.Plus(OnAxis(a, {x})))
  {
    RemoveFirstFacts(st.On(a).active, x);
    var st' := Apply(st, DropName(a, x));
    assert forall b :: st'.On(b).Remembered() == st.On(b).Remembered();
  }

  /** Every step keeps the invariant, up to what it forgets. */
  lemma StepKeeps(st: State, lost: Lost, step: Step)
    requires Within(st, lost) && Enabled(st, step)
    ensures Within(Apply(st, step), lost.Plus(Dropped(step)))
  {
    PlusNothing(lost);
    match step
    case Evict(a, x, partners, origin, t) => EvictKeeps(st, lost, a, x, partners, origin, t);
    case Sweep(a, t) => SweepKeeps(st, lost, a, t);
    case Trim(a, dropped) => TrimKeeps(st, lost, a, dropped);
    case Attempt(a, x, now, t, cooldown) => AttemptKeeps(st, lost, a, x, now, t, cooldown);
    case Restore(a, x, others) => RestoreKeeps(st, lost, a, x, others);
    case Add(k) => AddKeeps(st, lost, k);
    case Prioritize(keys) =>
      EnrolKeeps(st, lost, Front(keys));
      assert Elems(Apply(st, step).queue) == Elems(Front(keys)) + Elems(Without(st.queue, Elems(Front(keys))));
    case Take(n) =>
    case Reshuffle(order) =>
    case DropPairs(a, x) =>
    case DropName(a, x) => DropNameKeeps(st, lost, a, x);
    case SetOrigin(a, x, origin) =>
      assert forall b :: Apply(st, step).On(b).Remembered() == st.On(b).Remembered();
  }

  lemma PrioritizeIsStep(st: State, lost: Lost, keys: seq<PairKey>)
    requires Within(st, lost) && forall k :: k in Front(keys) ==> Welcome(st, k)
    ensures Enabled(st, Prioritize(keys)) && Apply(st, Prioritize(keys)) == Prioritized(st, keys)
    ensures Within(Prioritized(st, keys), lost)
  {
    StepKeeps(st, lost, Prioritize(keys));
    PlusNothing(lost);
  }

  // ---- whole runs ----

  lemma {:induction false} RunsConcat(st: State, s: seq<Step>, mid: State, t: seq<Step>, end: State)
    requires IsRun(st, s, mid) && IsRun(mid, t, end)
    ensures IsRun(st, s + t, end)
    decreases |s|
  {
    hide Apply, Enabled;
    if s == [] {
      assert s + t == t;
    } else {
      assert (s + t)[1..] == s[1..] + t;
      RunsConcat(Apply(st, s[0]), s[1..], mid, t, end);
    }
  }

  lemma {:induction false} ForgottenConcat(s: seq<Step>, t: seq<Step>)
    ensures Forgotten(s + t) == Forgotten(s).Plus(Forgotten(t))
    decreases |s|
  {
    hide Dropped;
    if s == [] {
      assert s + t == t;
      PlusNothing(Forgotten(t));
    } else {
      assert (s + t)[1..] == s[1..] + t;
      ForgottenConcat(s[1..], t);
    }
  }

  /** The joint invariant over every run, whatever is evicted, swept, recycled, trimmed, injected or forgotten in it:
      only names forgotten on the way can be out of place. */
  lemma {:induction false} RunKeeps(st: State, lost: Lost, steps: seq<Step>)
    requires Within(st, lost) && CanRun(st, steps)
    ensures Within(Run(st, steps), lost.Plus(Forgotten(steps)))
    decreases |steps|
  {
    hide Apply, Enabled, Dropped, Within;
    if steps == [] {
      PlusNothing(lost);
    } else {
      StepKeeps(st, lost, steps[0]);
      RunKeeps(Apply(st, steps[0]), lost.Plus(Dropped(steps[0])), steps[1..]);
      assert lost.Plus(Forgotten(steps)) == lost.Plus(Dropped(steps[0])).Plus(Forgotten(steps[1..]));
    }
  }

  /** For the methods: a run of no, one or two steps. */
  lemma EmptyRun(st: State)
    ensures IsRun(st, [], st)
  {
  }

  lemma OneStep(st: State, s0: Step)
    requires Enabled(st, s0)
    ensures IsRun(st, [s0], Apply(st, s0)) && Forgotten([s0]) == Dropped(s0)
  {
    hide Apply, Enabled, Dropped;
    assert [s0][1..] == [];
    EmptyRun(Apply(st, s0));
    PlusNothing(Dropped(s0));
  }

  lemma TwoSteps(st: State, s0: Step, s1: Step)
    requires Enabled(st, s0) && Enabled(Apply(st, s0), s1)
    ensures IsRun(st, [s0, s1], Apply(Apply(st, s0), s1)) && Forgotten([s0, s1]) == Dropped(s0).Plus(Dropped(s1))
  {
    hide Apply, Enabled, Dropped;
    var st' := Apply(st, s0);
    OneStep(st, s0);
    OneStep(st', s1);
    RunsConcat(st, [s0], st', [s1], Apply(st', s1));
    ForgottenConcat([s0], [s1]);
    assert [s0] + [s1] == [s0, s1];
  }
}
