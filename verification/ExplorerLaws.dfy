/** What single steps of the explorer cost, and what whole runs of it promise. */
module ExplorerLaws {
  import opened Sequences
  import opened ExplorerModel
  import opened ExplorerRuns

  // ---- the start ----

  /** NewCombinationExplorer: `combinations` in configured order, queued in some shuffled order. */
  ghost predicate Initial(st: State, combinations: seq<PairKey>) {
    && st.keys == Elems(combinations)
    && multiset(st.queue) == multiset(combinations)
    && forall a :: NoDup(st.On(a).active) && Elems(st.On(a).active) == Coords(st.keys, a) && st.On(a).quarantine == map[]
  }

  lemma InitialIsJoint(st: State, combinations: seq<PairKey>)
    requires Initial(st, combinations)
    ensures Joint(st) && Elems(st.queue) == st.keys
  {
    forall k ensures k in st.queue <==> k in combinations {
      assert k in multiset(st.queue) <==> k in multiset(combinations);
    }
    assert st.On(IPs) == st.ips && st.On(SNIs) == st.snis;
  }

  /** Every run from the constructor: the joint invariant holds up to the names forgotten in the run, and outright when
      the run trimmed no quarantine and discovery forgot nothing; and no list ever repeats a name. */
  lemma EveryRunIsJoint(st: State, combinations: seq<PairKey>, steps: seq<Step>)
    requires Initial(st, combinations) && CanRun(st, steps)
    ensures Within(Run(st, steps), Forgotten(steps)) && ListedOnce(Run(st, steps))
    ensures Forgotten(steps) == NOTHING ==> Joint(Run(st, steps))
  {
    InitialIsJoint(st, combinations);
    RunKeeps(st, NOTHING, steps);
    RunKeepsLists(st, steps);
    PlusNothing(Forgotten(steps));
  }

  lemma {:induction false} EnrolKeepsList(st: State, front: seq<PairKey>, a: Axis)
    requires NoDup(st.On(a).active)
    ensures NoDup(Enrolled(st, front).On(a).active)
  {
    if front != [] {
      EnrolKeepsList(st, front[..|front| - 1], a);
    }
  }

  lemma StepKeepsList(st: State, step: Step, a: Axis)
    requires Enabled(st, step) && NoDup(st.On(a).active)
    ensures NoDup(Apply(st, step).On(a).active)
  {
    match step
    case Evict(_, x, _, _, _) => WithoutNoDup(st.On(a).active, {x});
    case Sweep(b, _) => WithoutNoDup(st.On(a).active, Orphans(st, b));
    case Prioritize(keys) => EnrolKeepsList(st, Front(keys), a);
    case DropName(_, x) => RemoveFirstFacts(st.On(a).active, x);
    case _ =>
  }

  /** No step makes a list repeat a name that did not repeat one before. */
  lemma {:induction false} RunKeepsLists(st: State, steps: seq<Step>)
    requires CanRun(st, steps) && ListedOnce(st)
    ensures ListedOnce(Run(st, steps))
    decreases |steps|
  {
    hide Apply, Enabled, NoDup;
    if steps != [] {
      forall a ensures NoDup(Apply(st, steps[0]).On(a).active) {
        StepKeepsList(st, steps[0], a);
      }
      RunKeepsLists(Apply(st, steps[0]), steps[1..]);
    }
  }

  // ---- what a forgetting step costs ----

  /** Trimming the quarantine keeps the joint invariant exactly when nothing on the other axis remembers a dropped
      name. */
  lemma TrimExact(st: State, a: Axis, dropped: set<string>)
    requires Joint(st) && dropped <= st.On(a).quarantine.Keys
    ensures Joint(Apply(st, Trim(a, dropped))) <==> dropped !! st.On(a.Other()).Remembered()
  {
    var b := a.Other();
    TrimKeeps(st, NOTHING, a, dropped);
    var st' := Apply(st, Trim(a, dropped));
    assert st'.On(a).Known() == st.On(a).Known() - dropped;
    assert st'.On(b) == st.On(b);
    if y :| y in dropped && y in st.On(b).Remembered() {
      assert y in st'.On(b).Remembered() && y !in st'.On(a).Known();
    }
  }

  /** Discovery forgetting a name keeps the joint invariant exactly when the name was not listed just once or nothing on
      the other axis remembers it. */
  lemma ForgetExact(st: State, a: Axis, x: string)
    requires Joint(st)
    ensures Joint(Forgot(st, a, x)) <==> multiset(st.On(a).active)[x] != 1 || x !in st.On(a.Other()).Remembered()
  {
    hide Forgot, RemoveFirst, Within, Elems, Side.Remembered;
    RemoveFirstFacts(st.On(a).active, x);
    ForgottenIs(st, a, x);
    ForgottenWithin(st, a, x);
    ForgetCosts(st, a, x, Forgot(st, a, x));
  }

  /** What forgetting leaves alone. */
  lemma ForgottenIs(st: State, a: Axis, x: string)
    ensures var st' := Forgot(st, a, x);
      && st'.On(a.Other()) == st.On(a.Other()) && st'.On(a).quarantine == st.On(a).quarantine
      && st'.On(a).active == RemoveFirst(st.On(a).active, x) && st'.On(a).ledger == st.On(a).ledger - {x}
      && st'.keys == st.keys - Carrying(st.keys, a, {x})
  {
  }

  lemma ForgottenWithin(st: State, a: Axis, x: string)
    requires Joint(st)
    ensures Within(Forgot(st, a, x), OnAxis(a, {x}))
  {
    hide Apply, Within;
    PlusNothing(NOTHING);
    PlusNothing(OnAxis(a, {x}));
    StepKeeps(st, NOTHING, DropPairs(a, x));
    StepKeeps(Apply(st, DropPairs(a, x)), NOTHING, DropName(a, x));
  }

  lemma ForgetCosts(st: State, a: Axis, x: string, st': State)
    requires Joint(st) && Within(st', OnAxis(a, {x}))
    requires st'.On(a.Other()) == st.On(a.Other()) && st'.On(a).quarantine == st.On(a).quarantine
    requires st'.keys == st.keys - Carrying(st.keys, a, {x})
    requires Elems(st.On(a).active) - {x} <= Elems(st'.On(a).active) <= Elems(st.On(a).active)
    requires x in Elems(st'.On(a).active) <==> multiset(st.On(a).active)[x] > 1
    ensures Joint(st') <==> multiset(st.On(a).active)[x] != 1 || x !in st.On(a.Other()).Remembered()
  {
    var b := a.Other();
    assert st'.On(a).Remembered() == st.On(a).Remembered();
    assert x in st.On(a).active <==> multiset(st.On(a).active)[x] > 0;
    if multiset(st.On(a).active)[x] == 1 && x in st.On(b).Remembered() {
      assert x !in st'.On(a).Known();
    } else {
      assert SideOk(st', a, NOTHING);
      assert SideOk(st', b, NOTHING);
    }
  }

  /** Adding a pair keeps the joint invariant exactly when the pair is already there or neither name is quarantined,
      whatever has been forgotten before. */
  lemma AddExact(st: State, lost: Lost, k: PairKey)
    requires Within(st, lost)
    ensures Within(Added(st, k), lost) <==> Welcome(st, k)
  {
    if Welcome(st, k) {
      AddKeeps(st, lost, k);
    } else {
      var st' := Added(st, k);
      assert k in st'.keys && st'.On(IPs) == st'.ips && st'.On(SNIs) == st'.snis;
      assert Coord(k, IPs) == k.ip && Coord(k, SNIs) == k.sni;
    }
  }

  lemma {:induction false} EnrolGrows(st: State, front: seq<PairKey>)
    ensures Enrolled(st, front).keys == st.keys + Elems(front)
    ensures forall a :: Enrolled(st, front).On(a).quarantine == st.On(a).quarantine
  {
    if front != [] {
      EnrolGrows(st, front[..|front| - 1]);
      assert front == front[..|front| - 1] + [front[|front| - 1]];
    }
  }

  /** Warm-start prioritising asks nothing about quarantine: it keeps the joint invariant exactly when each named pair
      is there already or free of quarantined names, whatever has been forgotten before. */
  lemma PrioritizeExact(st: State, lost: Lost, keys: seq<PairKey>)
    requires Within(st, lost)
    ensures Within(Prioritized(st, keys), lost) <==> forall k :: k in Front(keys) ==> Welcome(st, k)
  {
    var front := Front(keys);
    if forall k :: k in front ==> Welcome(st, k) {
      PrioritizeIsStep(st, lost, keys);
    } else {
      var k :| k in front && !Welcome(st, k);
      EnrolGrows(st, front);
      var st' := Prioritized(st, keys);
      assert k in Elems(front) && k in st'.keys;
      assert st'.On(IPs).quarantine == st.ips.quarantine && st'.On(SNIs).quarantine == st.snis.quarantine;
      assert Coord(k, IPs) == k.ip && Coord(k, SNIs) == k.sni;
    }
  }

  /** Why trimming costs: once an overflow drops a name that a quarantined partner remembers, recycling the partner
      brings back a live pair under a name that is in no list. */
  lemma TrimThenRecycleLeaks(st: State, a: Axis, x: string, y: string)
    requires Joint(st)
    requires x in st.On(a).quarantine && y in st.On(a).quarantine[x].partners && y in st.On(a.Other()).quarantine
    ensures var trimmed := Apply(st, Trim(a.Other(), {y}));
      var others := st.On(a).quarantine[x].partners;
      && Enabled(trimmed, Restore(a, x, others))
      && var st' := Apply(trimmed, Restore(a, x, others));
         KeyOn(a, x, y) in st'.keys && y !in st'.On(a.Other()).Known()
  {
    var b := a.Other();
    var trimmed := Apply(st, Trim(b, {y}));
    var others := st.On(a).quarantine[x].partners;
    assert trimmed.On(a) == st.On(a);
    RestoredKeysFacts(trimmed.keys, a, x, others, trimmed.On(b).quarantine.Keys);
    var st' := Apply(trimmed, Restore(a, x, others));
    assert st'.On(b) == trimmed.On(b);
    assert KeyOn(a, x, y) in st'.keys;
  }

  // ---- conservation ----

  /** The steps that neither bring a name in nor forget one. */
  predicate Conserves(step: Step) {
    !(step.Trim? || step.Add? || step.Prioritize? || step.DropName?)
  }

  /** The steps that the explorer and the pool take on their own. */
  predicate Internal(step: Step) {
    step.Evict? || step.Sweep? || step.Trim? || step.Attempt? || step.Restore? || step.Take? || step.Reshuffle?
  }

  /** A run that the explorer and the pool took on their own, with what it forgot. */
  ghost predicate OwnRun(st: State, lost: Lost, steps: seq<Step>, st': State, lost': Lost) {
    IsRun(st, steps, st') && (forall s :: s in steps ==> Internal(s)) && lost' == lost.Plus(Forgotten(steps))
  }

  lemma OwnRunsConcat(st: State, lost: Lost, s: seq<Step>, mid: State, lost1: Lost, t: seq<Step>, end: State, lost2: Lost)
    requires OwnRun(st, lost, s, mid, lost1) && OwnRun(mid, lost1, t, end, lost2)
    ensures OwnRun(st, lost, s + t, end, lost2)
  {
    hide Internal, IsRun, Forgotten;
    RunsConcat(st, s, mid, t, end);
    ForgottenConcat(s, t);
    assert lost.Plus(Forgotten(s)).Plus(Forgotten(t)) == lost.Plus(Forgotten(s).Plus(Forgotten(t)));
  }

  lemma OwnRunStart(st: State, lost: Lost)
    ensures OwnRun(st, lost, [], st, lost)
  {
    EmptyRun(st);
    PlusNothing(lost);
  }

  lemma {:induction false} ConservingForgetsNothing(steps: seq<Step>)
    requires forall s :: s in steps ==> Conserves(s)
    ensures Forgotten(steps) == NOTHING
    decreases |steps|
  {
    if steps != [] {
      assert Conserves(steps[0]);
      ConservingForgetsNothing(steps[1..]);
      PlusNothing(NOTHING);
    }
  }

  lemma ConservingOwnRun(st: State, lost: Lost, steps: seq<Step>, st': State)
    requires IsRun(st, steps, st') && forall s :: s in steps ==> Conserves(s) && Internal(s)
    ensures OwnRun(st, lost, steps, st', lost)
  {
    ConservingForgetsNothing(steps);
    PlusNothing(lost);
  }

  lemma LiveIsListed(st: State, a: Axis, x: string)
    requires Joint(st) && x in Coords(st.keys, a)
    ensures x in Elems(st.On(a).active)
  {
    var k :| k in st.keys && Coord(k, a) == x;
  }

  lemma StepConserves(st: State, step: Step, b: Axis)
    requires Joint(st) && Enabled(st, step) && Conserves(step)
    ensures Apply(st, step).On(b).Known() == st.On(b).Known()
  {
    hide Within;
    var st' := Apply(st, step);
    if step.Evict? || step.Sweep? || step.Attempt? || step.Restore? {
      var s, s' := st.On(step.a), st'.On(step.a);
      assert s'.Known() == s.Known() by {
        if step.Evict? {
          LiveIsListed(st, step.a, step.x);
        } else if step.Restore? {
          assert Elems(Appended(s.active, step.x)) == Elems(s.active) + {step.x};
        }
      }
      assert b != step.a ==> st'.On(b) == st.On(b);
    }
  }

  /** Evicting, sweeping, recycling, exploring: on each axis the listed names and the quarantined names together stay
      exactly the same set, over any run. */
  lemma {:induction false} RunConserves(st: State, steps: seq<Step>, b: Axis)
    requires Joint(st) && CanRun(st, steps)
    requires forall s :: s in steps ==> Conserves(s)
    ensures Joint(Run(st, steps)) && Run(st, steps).On(b).Known() == st.On(b).Known()
    decreases |steps|
  {
    hide Apply, Enabled, Within;
    if steps != [] {
      PlusNothing(NOTHING);
      assert Conserves(steps[0]);
      StepKeeps(st, NOTHING, steps[0]);
      StepConserves(st, steps[0], b);
      RunConserves(Apply(st, steps[0]), steps[1..], b);
    }
  }

  /** Nothing was brought in or forgotten on the way from one joint state to another. */
  ghost predicate SameNames(st: State, st': State) {
    Joint(st') && forall a :: st'.On(a).Known() == st.On(a).Known()
  }

  /** A run of the explorer's own steps whose trims drop nothing. */
  lemma {:induction false} KeepsAllNames(st: State, steps: seq<Step>, end: State)
    requires Joint(st) && IsRun(st, steps, end) && Forgotten(steps) == NOTHING
    requires forall s :: s in steps ==> Internal(s)
    ensures SameNames(st, end)
    decreases |steps|
  {
    hide Apply, Enabled, Within;
    if steps != [] {
      assert Internal(steps[0]) && Dropped(steps[0]) == NOTHING;
      var mid := Apply(st, steps[0]);
      ForgetsNothing(st, steps[0]);
      KeepsAllNames(mid, steps[1..], end);
    }
  }

  lemma ForgetsNothing(st: State, step: Step)
    requires Joint(st) && Enabled(st, step) && Internal(step) && Dropped(step) == NOTHING
    ensures SameNames(st, Apply(st, step))
  {
    hide Within;
    StepKeeps(st, NOTHING, step);
    PlusNothing(NOTHING);
    if step.Trim? {
      assert step.dropped == {} by {
        assert OnAxis(step.a, step.dropped).On(step.a) == step.dropped;
      }
      assert st.On(step.a).quarantine - {} == st.On(step.a).quarantine;
      assert Apply(st, step) == st;
    } else {
      StepConserves(st, step, IPs);
      StepConserves(st, step, SNIs);
    }
  }

  lemma QuarantineIsKnown(st: State, a: Axis)
    ensures |st.On(a).quarantine| <= |st.On(a).Known()|
  {
    SubsetSize(st.On(a).quarantine.Keys, st.On(a).Known());
  }

  lemma SubsetSize<T>(s: set<T>, t: set<T>)
    requires s <= t
    ensures |s| <= |t|
  {
    assert t == s + (t - s);
  }

  /** Each list names live pairs only, and every live name but forgotten ones is listed. */
  ghost predicate ListsAgree(st: State, lost: Lost) {
    forall a :: Coords(st.keys, a) - lost.On(a) <= Elems(st.On(a).active) <= Coords(st.keys, a)
  }

  /** The two orphan sweeps that end every refresh: afterwards each list names live pairs only, and all of them but
      forgotten names; with nothing forgotten the lists and the table agree exactly. */
  lemma SweepsAgree(st: State, lost: Lost, t: int, t': int)
    requires Within(st, lost)
    ensures var st' := Apply(Apply(st, Sweep(IPs, t)), Sweep(SNIs, t')); st'.keys == st.keys && ListsAgree(st', lost)
  {
    var mid := Apply(st, Sweep(IPs, t));
    SweepKeeps(st, lost, IPs, t);
    SweepKeeps(mid, lost, SNIs, t');
    var st' := Apply(mid, Sweep(SNIs, t'));
    forall a ensures Coords(st.keys, a) - lost.On(a) <= Elems(st'.On(a).active) <= Coords(st.keys, a) {
      assert SideOk(st', a, lost);
      assert st'.On(IPs) == mid.On(IPs);
      assert Elems(st'.On(IPs).active) == Elems(st.On(IPs).active) - Orphans(st, IPs);
      assert Elems(st'.On(SNIs).active) == Elems(mid.On(SNIs).active) - Orphans(mid, SNIs);
    }
  }

  // ---- the exploration queue ----

  lemma {:induction false} FrontFacts(keys: seq<PairKey>)
    ensures NoDup(Front(keys))
    ensures forall k :: k in Front(keys) <==> k in keys && k.ip != "" && k.sni != ""
  {
    if keys != [] {
      FrontFacts(keys[..|keys| - 1]);
      assert keys == keys[..|keys| - 1] + [keys[|keys| - 1]];
    }
  }

  /** A duplicate-free queue stays duplicate-free under every step. */
  lemma StepKeepsQueue(st: State, lost: Lost, step: Step)
    requires Within(st, lost) && NoDup(st.queue) && Enabled(st, step)
    ensures NoDup(Apply(st, step).queue)
  {
    match step
    case Evict(a, x, _, _, _) => WithoutNoDup(st.queue, Carrying(Elems(st.queue), a, {x}));
    case Sweep(a, _) => WithoutNoDup(st.queue, Carrying(Elems(st.queue), a, Orphans(st, a)));
    case DropPairs(a, x) => WithoutNoDup(st.queue, Carrying(Elems(st.queue), a, {x}));
    case Restore(a, x, others) =>
      RestoredKeysFacts(st.keys, a, x, others, st.On(a.Other()).quarantine.Keys);
      NoDupConcat(st.queue, RestoredKeys(st.keys, a, x, others, st.On(a.Other()).quarantine.Keys));
    case Add(k) => if k !in st.keys { NoDupConcat(st.queue, [k]); }
    case Prioritize(keys) =>
      FrontFacts(keys);
      WithoutNoDup(st.queue, Elems(Front(keys)));
      NoDupConcat(Front(keys), Without(st.queue, Elems(Front(keys))));
    case _ =>
  }

  lemma {:induction false} RunKeepsQueue(st: State, lost: Lost, steps: seq<Step>)
    requires Within(st, lost) && NoDup(st.queue) && CanRun(st, steps)
    ensures NoDup(Run(st, steps).queue) && Elems(Run(st, steps).queue) <= Run(st, steps).keys
    decreases |steps|
  {
    if steps != [] {
      hide Apply, Enabled, Within;
      StepKeeps(st, lost, steps[0]);
      StepKeepsQueue(st, lost, steps[0]);
      RunKeepsQueue(Apply(st, steps[0]), lost.Plus(Dropped(steps[0])), steps[1..]);
    }
  }

  /** The shuffled queue of a fresh explorer is duplicate-free exactly when the configuration repeats no pair. */
  lemma InitialQueueExact(st: State, combinations: seq<PairKey>)
    requires Initial(st, combinations)
    ensures NoDup(st.queue) <==> NoDup(combinations)
  {
    NoDupIsUnit(st.queue);
    NoDupIsUnit(combinations);
  }

  /** Everything handed to the probers in a run, in order. */
  function HandedOut(st: State, steps: seq<Step>): seq<PairKey>
    requires CanRun(st, steps)
    decreases |steps|
  {
    if steps == [] then []
    else (if steps[0].Take? then st.queue[..steps[0].n] else []) + HandedOut(Apply(st, steps[0]), steps[1..])
  }

  ghost predicate StaysLive(st: State, steps: seq<Step>, k: PairKey)
    requires CanRun(st, steps)
    decreases |steps|
  {
    k in st.keys && (steps != [] ==> StaysLive(Apply(st, steps[0]), steps[1..], k))
  }

  /** The steps that queue a stored pair anew. */
  predicate Requeues(step: Step, k: PairKey) {
    step.Reshuffle? || (step.Prioritize? && k in Front(step.front))
  }

  lemma StepHandsOut(st: State, step: Step, k: PairKey)
    requires Enabled(st, step) && !Requeues(step, k)
    requires k in st.keys && k in Apply(st, step).keys
    ensures multiset(st.queue)[k] ==
            (if step.Take? then multiset(st.queue[..step.n])[k] else 0) + multiset(Apply(st, step).queue)[k]
  {
    match step
    case Evict(a, x, _, _, _) => WithoutCount(st.queue, Carrying(Elems(st.queue), a, {x}), k);
    case DropPairs(a, x) => WithoutCount(st.queue, Carrying(Elems(st.queue), a, {x}), k);
    case Sweep(a, _) =>
      assert Coord(k, a) in Coords(st.keys, a);
      WithoutCount(st.queue, Carrying(Elems(st.queue), a, Orphans(st, a)), k);
    case Restore(a, x, others) =>
      RestoredKeysFacts(st.keys, a, x, others, st.On(a.Other()).quarantine.Keys);
    case Take(n) => assert st.queue == st.queue[..n] + st.queue[n..];
    case Prioritize(keys) => WithoutCount(st.queue, Elems(Front(keys)), k);
    case _ =>
  }

  /** Between two reshuffles, a pair that stays in the table and is not put in front by hand is handed out as often as it
      was queued: once it has been handed out it is not queued again, and if it was queued once it is handed out once or
      still waiting. */
  lemma {:induction false} HandedOutOnce(st: State, steps: seq<Step>, k: PairKey)
    requires CanRun(st, steps) && StaysLive(st, steps, k)
    requires forall s :: s in steps ==> !Requeues(s, k)
    ensures multiset(st.queue)[k] == multiset(HandedOut(st, steps))[k] + multiset(Run(st, steps).queue)[k]
    decreases |steps|
  {
    hide Apply, Enabled, Requeues;
    if steps != [] {
      var st' := Apply(st, steps[0]);
      assert StaysLive(st', steps[1..], k);
      StepHandsOut(st, steps[0], k);
      HandedOutOnce(st', steps[1..], k);
    }
  }

  // ---- the cooldown ----

  /** When a step happens, if it looks at the clock. */
  predicate NotBefore(step: Step, clock: int) {
    match step
    case Evict(_, _, _, _, t) => clock <= t
    case Sweep(_, t) => clock <= t
    case Attempt(_, _, now, t, _) => clock <= t
    case _ => true
  }

  function Clock(step: Step, clock: int): int {
    match step
    case Evict(_, _, _, _, t) => t
    case Sweep(_, t) => t
    case Attempt(_, _, _, t, _) => t
    case _ => clock
  }

  predicate Monotone(steps: seq<Step>, clock: int)
    decreases |steps|
  {
    steps == [] || (NotBefore(steps[0], clock) && Monotone(steps[1..], Clock(steps[0], clock)))
  }

  function ClockAfter(steps: seq<Step>, clock: int): int
    decreases |steps|
  {
    if steps == [] then clock else ClockAfter(steps[1..], Clock(steps[0], clock))
  }

  lemma {:induction false} MonotoneConcat(s: seq<Step>, t: seq<Step>, clock: int)
    requires Monotone(s, clock) && Monotone(t, ClockAfter(s, clock))
    ensures Monotone(s + t, clock) && ClockAfter(s + t, clock) == ClockAfter(t, ClockAfter(s, clock))
    decreases |s|
  {
    if s == [] {
      assert s + t == t;
    } else {
      assert (s + t)[1..] == s[1..] + t;
      MonotoneConcat(s[1..], t, Clock(s[0], clock));
    }
  }

  lemma {:induction false} MonotoneEarlier(steps: seq<Step>, earlier: int, clock: int)
    requires earlier <= clock && Monotone(steps, clock)
    ensures Monotone(steps, earlier) && ClockAfter(steps, earlier) <= ClockAfter(steps, clock)
    decreases |steps|
  {
    if steps != [] {
      assert Clock(steps[0], earlier) <= Clock(steps[0], clock);
      MonotoneEarlier(steps[1..], Clock(steps[0], earlier), Clock(steps[0], clock));
    }
  }

  /** Everything happens in order between two readings of the clock. */
  ghost predicate Timed(steps: seq<Step>, from: int, until: int) {
    Monotone(steps, from) && from <= until && ClockAfter(steps, from) <= until
  }

  lemma TimedConcat(s: seq<Step>, t: seq<Step>, from: int, mid: int, until: int)
    requires Timed(s, from, mid) && Timed(t, mid, until)
    ensures Timed(s + t, from, until)
  {
    MonotoneEarlier(t, ClockAfter(s, from), mid);
    MonotoneConcat(s, t, from);
  }

  lemma OneTimed(step: Step, from: int, until: int)
    requires NotBefore(step, from) && from <= until && Clock(step, from) <= until
    ensures Timed([step], from, until)
  {
    assert [step][1..] == [];
    assert Monotone([], Clock(step, from)) && ClockAfter([], Clock(step, from)) == Clock(step, from);
  }

  lemma TwoTimed(s0: Step, s1: Step, from: int, until: int)
    requires NotBefore(s0, from) && NotBefore(s1, Clock(s0, from))
    requires from <= until && Clock(s0, from) <= until && Clock(s1, Clock(s0, from)) <= until
    ensures Timed([s0, s1], from, until)
  {
    OneTimed(s0, from, Max(from, Clock(s0, from)));
    assert from <= Clock(s0, from);
    OneTimed(s1, Clock(s0, from), until);
    TimedConcat([s0], [s1], from, Clock(s0, from), until);
    assert [s0] + [s1] == [s0, s1];
  }

  /** No quarantine entry of `x` is older than `since`. */
  ghost predicate Recent(st: State, a: Axis, x: string, since: int) {
    x in st.On(a).quarantine ==> since <= st.On(a).quarantine[x].lastAttempt
  }

  lemma StepStaysRecent(st: State, step: Step, a: Axis, x: string, since: int, clock: int)
    requires Enabled(st, step) && NotBefore(step, clock) && since <= clock && Recent(st, a, x, since)
    ensures Recent(Apply(st, step), a, x, since)
  {
    var st' := Apply(st, step);
    if step.Evict? || step.Sweep? || step.Attempt? || step.Restore? || step.Trim? {
      assert a != step.a ==> st'.On(a) == st.On(a);
    } else if step.Prioritize? {
      EnrolGrows(st, Front(step.front));
    }
  }

  lemma {:induction false} StaysRecent(st: State, steps: seq<Step>, a: Axis, x: string, since: int, clock: int, j: nat)
    requires CanRun(st, steps) && Monotone(steps, clock) && since <= clock
    requires Recent(st, a, x, since)
    requires j < |steps| && steps[j].Attempt? && steps[j].a == a && steps[j].x == x
    ensures since + steps[j].cooldown <= steps[j].t
    decreases |steps|
  {
    if j > 0 {
      var st' := Apply(st, steps[0]);
      StepStaysRecent(st, steps[0], a, x, since, clock);
      StaysRecent(st', steps[1..], a, x, since, Clock(steps[0], clock), j - 1);
    }
  }

  /** Over any run on a monotone clock, two re-probes of the same name are at least the cooldown apart: also when it
      left the quarantine and came back in between. */
  lemma {:induction false} AttemptsAreSpaced(st: State, steps: seq<Step>, i: nat, j: nat, clock: int)
    requires CanRun(st, steps) && Monotone(steps, clock)
    requires i < j < |steps| && steps[i].Attempt? && steps[j].Attempt?
    requires steps[i].a == steps[j].a && steps[i].x == steps[j].x
    ensures steps[i].t + steps[j].cooldown <= steps[j].t
    decreases |steps|
  {
    var st' := Apply(st, steps[0]);
    var clock' := Clock(steps[0], clock);
    if i == 0 {
      StaysRecent(st', steps[1..], steps[0].a, steps[0].x, steps[0].t, clock', j - 1);
    } else {
      AttemptsAreSpaced(st', steps[1..], i - 1, j - 1, clock');
    }
  }
}
