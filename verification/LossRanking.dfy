/** The mean loss of a name over its pairs, which decides what is evicted. */
module LossRanking {
  import opened Sequences
  import opened ExplorerModel

  ghost function Total(losses: map<PairKey, real>, ks: set<PairKey>): real
    requires ks <= losses.Keys
  {
    if ks == {} then 0.0
    else
      var k :| k in ks;
      losses[k] + Total(losses, ks - {k})
  }

  /** The total does not depend on the order the pairs are met in. */
  lemma {:induction false} TotalRemove(losses: map<PairKey, real>, ks: set<PairKey>, k: PairKey)
    requires ks <= losses.Keys && k in ks
    ensures Total(losses, ks) == losses[k] + Total(losses, ks - {k})
    decreases |ks|
  {
    var m :| m in ks && Total(losses, ks) == losses[m] + Total(losses, ks - {m});
    if m != k {
      TotalRemove(losses, ks - {m}, k);
      TotalRemove(losses, ks - {k}, m);
      assert ks - {m} - {k} == ks - {k} - {m};
    }
  }

  ghost function Mean(losses: map<PairKey, real>, a: Axis, x: string): real
    requires Carrying(losses.Keys, a, {x}) != {}
  {
    var ks := Carrying(losses.Keys, a, {x});
    Total(losses, ks) / |ks| as real
  }

  lemma {:induction false} TotalIsBetween(losses: map<PairKey, real>, ks: set<PairKey>, t: real)
    requires ks <= losses.Keys
    ensures (forall k :: k in ks ==> losses[k] >= t) ==> Total(losses, ks) >= Times(t, |ks|)
    ensures ks != {} && (forall k :: k in ks ==> losses[k] < t) ==> Total(losses, ks) < Times(t, |ks|)
    decreases |ks|
  {
    if k :| k in ks {
      TotalRemove(losses, ks, k);
      TotalIsBetween(losses, ks - {k}, t);
      assert |ks| == |ks - {k}| + 1;
      hide Total;
    }
  }

  function Times(t: real, n: nat): real {
    if n == 0 then 0.0 else Times(t, n - 1) + t
  }

  lemma {:induction false} TimesIs(t: real, n: nat)
    ensures Times(t, n) == t * n as real
  {
    if n > 0 {
      TimesIs(t, n - 1);
    }
  }

  /** A mean that reaches a bound is that of a name with a pair that does, and likewise below. */
  lemma MeanIsBetween(losses: map<PairKey, real>, a: Axis, x: string, t: real)
    requires Carrying(losses.Keys, a, {x}) != {}
    ensures Mean(losses, a, x) >= t ==> exists k :: k in losses && Coord(k, a) == x && losses[k] >= t
    ensures Mean(losses, a, x) < t ==> exists k :: k in losses && Coord(k, a) == x && losses[k] < t
  {
    var ks := Carrying(losses.Keys, a, {x});
    TotalIsBetween(losses, ks, t);
    TimesIs(t, |ks|);
    Quotient(Total(losses, ks), |ks| as real, t);
    hide Total;
  }

  lemma Quotient(total: real, n: real, t: real)
    requires n > 0.0
    ensures total / n >= t <==> total >= t * n
  {
    assert total == total / n * n;
  }

  function Sum(values: seq<real>): real {
    if values == [] then 0.0 else Sum(values[..|values| - 1]) + values[|values| - 1]
  }

  /** `x` is one of the names whose mean loss no other name exceeds. */
  ghost predicate Weakest(losses: map<PairKey, real>, a: Axis, x: string) {
    && Carrying(losses.Keys, a, {x}) != {}
    && forall y :: Carrying(losses.Keys, a, {y}) != {} ==> Mean(losses, a, y) <= Mean(losses, a, x)
  }

  /** What eviction chooses: a weakest name if its mean reaches the threshold, nothing if no mean does. */
  ghost predicate IsChoice(choice: Option<string>, losses: map<PairKey, real>, a: Axis, threshold: real) {
    match choice
    case None => forall x :: Carrying(losses.Keys, a, {x}) != {} ==> Mean(losses, a, x) < threshold
    case Some(x) => Weakest(losses, a, x) && Mean(losses, a, x) >= threshold
  }

  method Average(values: seq<real>) returns (r: real)
    ensures r == if values == [] then 0.0 else Sum(values) / |values| as real
  {
    if values == [] {
      return 0.0;
    }
    var s := 0.0;
    for i := 0 to |values|
      invariant s == Sum(values[..i])
    {
      assert values[..i + 1][..i] == values[..i];
      s := s + values[i];
    }
    assert values[..|values|] == values;
    r := s / |values| as real;
  }

  /** The list of `y` holds the losses of its pairs among `ks`, in whatever order they were met. */
  ghost predicate ListOf(lists: map<string, seq<real>>, losses: map<PairKey, real>, ks: set<PairKey>, a: Axis, y: string)
    requires ks <= losses.Keys
  {
    var mine := Carrying(ks, a, {y});
    if y in lists then
      mine != {} && |lists[y]| == |mine| && Sum(lists[y]) == Total(losses, mine) && Holds(lists[y], losses, mine)
    else mine == {}
  }

  /** The pairs of `ks` that lost just this much. */
  function Losing(losses: map<PairKey, real>, ks: set<PairKey>, loss: real): set<PairKey>
    requires ks <= losses.Keys
  {
    set k | k in ks && losses[k] == loss
  }

  /** Every loss is in the list as often as a pair of `ks` has it. */
  ghost predicate Holds(list: seq<real>, losses: map<PairKey, real>, ks: set<PairKey>)
    requires ks <= losses.Keys
  {
    forall loss :: multiset(list)[loss] == |Losing(losses, ks, loss)|
  }

  ghost predicate ListsOf(lists: map<string, seq<real>>, losses: map<PairKey, real>, ks: set<PairKey>, a: Axis)
    requires ks <= losses.Keys
  {
    forall y :: ListOf(lists, losses, ks, a, y)
  }

  function Grown(lists: map<string, seq<real>>, x: string, loss: real): map<string, seq<real>> {
    lists[x := (if x in lists then lists[x] else []) + [loss]]
  }

  lemma CarryingGrows(ks: set<PairKey>, a: Axis, k: PairKey, y: string)
    requires k !in ks
    ensures Carrying(ks + {k}, a, {y}) == Carrying(ks, a, {y}) + if Coord(k, a) == y then {k} else {}
    ensures k !in Carrying(ks, a, {y}) && Carrying(ks, a, {y}) <= ks
  {
  }

  lemma ListGrows(list: seq<real>, losses: map<PairKey, real>, ks: set<PairKey>, k: PairKey)
    requires ks <= losses.Keys && k in losses && k !in ks
    requires |list| == |ks| && Sum(list) == Total(losses, ks)
    requires Holds(list, losses, ks)
    ensures |list + [losses[k]]| == |ks + {k}| && Sum(list + [losses[k]]) == Total(losses, ks + {k})
    ensures Holds(list + [losses[k]], losses, ks + {k})
  {
    forall loss ensures multiset(list + [losses[k]])[loss] == |Losing(losses, ks + {k}, loss)| {
      assert Losing(losses, ks + {k}, loss) == Losing(losses, ks, loss) + if losses[k] == loss then {k} else {};
    }
    assert ks + {k} - {k} == ks;
    TotalRemove(losses, ks + {k}, k);
    assert (list + [losses[k]])[..|list|] == list;
  }

  lemma ListsGrow(lists: map<string, seq<real>>, losses: map<PairKey, real>, ks: set<PairKey>, a: Axis, k: PairKey)
    requires ks <= losses.Keys && ListsOf(lists, losses, ks, a) && k in losses && k !in ks
    ensures ListsOf(Grown(lists, Coord(k, a), losses[k]), losses, ks + {k}, a)
  {
    forall y ensures ListOf(Grown(lists, Coord(k, a), losses[k]), losses, ks + {k}, a, y) {
      assert ListOf(lists, losses, ks, a, y);
      CarryingGrows(ks, a, k, y);
      if y == Coord(k, a) {
        ListGrows(if y in lists then lists[y] else [], losses, Carrying(ks, a, {y}), k);
      }
    }
  }

  /** The per-name loss lists, over the eligible pairs in map order. */
  method CollectLosses(losses: map<PairKey, real>, a: Axis) returns (lists: map<string, seq<real>>)
    ensures forall y :: y in lists <==> Carrying(losses.Keys, a, {y}) != {}
    ensures forall y :: y in lists ==> Holds(lists[y], losses, Carrying(losses.Keys, a, {y}))
    ensures forall y :: y in lists ==> lists[y] != [] && Sum(lists[y]) / |lists[y]| as real == Mean(losses, a, y)
  {
    lists := map[];
    var todo := losses.Keys;
    while todo != {}
      invariant todo <= losses.Keys
      invariant ListsOf(lists, losses, losses.Keys - todo, a)
    {
      var k :| k in todo;
      ListsGrow(lists, losses, losses.Keys - todo, a, k);
      assert losses.Keys - (todo - {k}) == losses.Keys - todo + {k};
      lists := Grown(lists, Coord(k, a), losses[k]);
      todo := todo - {k};
    }
    assert losses.Keys - todo == losses.Keys;
    forall y
      ensures y in lists <==> Carrying(losses.Keys, a, {y}) != {}
      ensures y in lists ==> Holds(lists[y], losses, Carrying(losses.Keys, a, {y}))
      ensures y in lists ==> lists[y] != [] && Sum(lists[y]) / |lists[y]| as real == Mean(losses, a, y)
    {
      assert ListOf(lists, losses, losses.Keys, a, y);
    }
  }

  /** The choice of the worst mean, for a nonnegative loss per eligible pair. */
  method FindWeakest(losses: map<PairKey, real>, a: Axis) returns (worst: Option<string>, worstAvg: real)
    requires forall k :: k in losses ==> losses[k] >= 0.0
    ensures worst.None? <==> losses == map[]
    ensures worst.Some? ==> Weakest(losses, a, worst.value) && worstAvg == Mean(losses, a, worst.value)
  {
    var lists := CollectLosses(losses, a);
    worst, worstAvg := None, -1.0;
    var names := lists.Keys;
    while names != {}
      invariant names <= lists.Keys
      invariant worst.None? ==> names == lists.Keys && worstAvg == -1.0
      invariant worst.Some? ==> worst.value in lists.Keys - names && worstAvg == Mean(losses, a, worst.value)
      invariant forall x :: x in lists.Keys - names ==> Mean(losses, a, x) <= worstAvg
    {
      var x :| x in names;
      var avg := Average(lists[x]);
      MeanNonNegative(losses, a, x);
      if avg > worstAvg {
        worst, worstAvg := Some(x), avg;
      }
      names := names - {x};
    }
    if k :| k in losses {
      assert k in Carrying(losses.Keys, a, {Coord(k, a)});
    }
  }

  method Choose(losses: map<PairKey, real>, a: Axis, threshold: real) returns (choice: Option<string>)
    requires forall k :: k in losses ==> losses[k] >= 0.0
    ensures IsChoice(choice, losses, a, threshold)
  {
    var worst, worstAvg := FindWeakest(losses, a);
    choice := if worst.None? || worstAvg < threshold then None else worst;
  }

  lemma {:induction false} TotalNonNegative(losses: map<PairKey, real>, ks: set<PairKey>)
    requires ks <= losses.Keys && forall k :: k in losses ==> losses[k] >= 0.0
    ensures Total(losses, ks) >= 0.0
    decreases |ks|
  {
    if ks != {} {
      var k :| k in ks && Total(losses, ks) == losses[k] + Total(losses, ks - {k});
      TotalNonNegative(losses, ks - {k});
    }
  }

  lemma MeanNonNegative(losses: map<PairKey, real>, a: Axis, x: string)
    requires forall k :: k in losses ==> losses[k] >= 0.0
    requires Carrying(losses.Keys, a, {x}) != {}
    ensures Mean(losses, a, x) >= 0.0
  {
    TotalNonNegative(losses, Carrying(losses.Keys, a, {x}));
  }
}
