/** weightedChoices of internal/pool/pool.go: a random choice without replacement, weighted by 1 / (loss + 0.01). */
module WeightedChoice {
  import opened Sequences
  import opened LossRanking
  import opened Pairs
  import opened PairHealth

  function Weight(loss: Rate): (w: real)
    ensures w > 0.0
  {
    1.0 / (loss + 0.01)
  }

  /** Less loss weighs more: a pair without any loss a hundred, one that loses everything hardly one. */
  lemma LessLossMoreWeight(a: Rate, b: Rate)
    ensures Weight(0.0) == 100.0 && 0.99 < Weight(1.0) < 1.0
    ensures a < b ==> Weight(a) > Weight(b)
    ensures Weight(a) * (a + 0.01) == 1.0
  {
    Inverse(a + 0.01);
    Inverse(b + 0.01);
    if a < b {
      InverseFalls(a + 0.01, b + 0.01);
    }
  }

  lemma Inverse(x: real)
    requires x > 0.0
    ensures 1.0 / x * x == 1.0
  {
  }

  lemma InverseFalls(x: real, y: real)
    requires 0.0 < x < y
    ensures 1.0 / x > 1.0 / y
  {
    var p, q := 1.0 / x, 1.0 / y;
    assert p * x == 1.0 == q * y;
  }

  ghost predicate Positive(weights: seq<real>) {
    forall i :: 0 <= i < |weights| ==> weights[i] > 0.0
  }

  lemma {:induction false} SumConcat(s: seq<real>, t: seq<real>)
    ensures Sum(s + t) == Sum(s) + Sum(t)
  {
    if t == [] {
      assert s + t == s;
    } else {
      assert (s + t)[..|s + t| - 1] == s + t[..|t| - 1];
      SumConcat(s, t[..|t| - 1]);
    }
  }

  lemma SumRemove(s: seq<real>, i: nat)
    requires i < |s|
    ensures Sum(s[..i] + s[i + 1..]) == Sum(s) - s[i]
  {
    SumConcat(s[..i], s[i + 1..]);
    SumConcat(s[..i], [s[i]]);
    SumConcat(s[..i] + [s[i]], s[i + 1..]);
    assert s == s[..i] + [s[i]] + s[i + 1..];
    assert [s[i]][..0] == [];
  }

  lemma {:induction false} SumPositive(s: seq<real>)
    requires Positive(s)
    ensures Sum(s) >= 0.0 && (s != [] ==> Sum(s) > 0.0)
  {
    if s != [] {
      SumPositive(s[..|s| - 1]);
    }
  }

  /** The slice of [0, total) that belongs to index `i`. */
  ghost predicate Owns(weights: seq<real>, i: nat, r: real) {
    i < |weights| && Sum(weights[..i]) <= r < Sum(weights[..i + 1])
  }

  /** The slices are disjoint and none is empty ... */
  lemma SlicesAreDisjoint(weights: seq<real>, i: nat, j: nat, r: real)
    requires Positive(weights) && i < |weights| && j < |weights|
    ensures Owns(weights, i, Sum(weights[..i]))
    ensures Owns(weights, i, r) && Owns(weights, j, r) ==> i == j
  {
    assert weights[..i + 1][..i] == weights[..i];
    PrefixSums(weights, i + 1, j);
    PrefixSums(weights, j + 1, i);
  }

  lemma SlicesAreInside(weights: seq<real>, o: nat, r: real)
    requires Positive(weights) && Owns(weights, o, r)
    ensures 0.0 <= r < Sum(weights)
  {
    PrefixSums(weights, 0, o);
    PrefixSums(weights, o + 1, |weights|);
    assert weights[..|weights|] == weights;
  }

  /** ... and together they are [0, total): every item can be picked, and every r picks one item. */
  lemma SlicesPartition(weights: seq<real>, r: real)
    requires Positive(weights)
    ensures forall i: nat :: i < |weights| ==> Owns(weights, i, Sum(weights[..i]))
    ensures forall i: nat, j: nat :: Owns(weights, i, r) && Owns(weights, j, r) ==> i == j
    ensures 0.0 <= r < Sum(weights) <==> exists o: nat :: Owns(weights, o, r)
  {
    SomeOwner(weights, r);
    if o: nat :| Owns(weights, o, r) {
      SlicesAreInside(weights, o, r);
    }
    forall i: nat | i < |weights| ensures Owns(weights, i, Sum(weights[..i])) {
      SlicesAreDisjoint(weights, i, i, r);
    }
    forall i: nat, j: nat | Owns(weights, i, r) && Owns(weights, j, r) ensures i == j {
      SlicesAreDisjoint(weights, i, j, r);
    }
    hide Owns;
  }

  lemma {:induction false} SomeOwner(weights: seq<real>, r: real)
    requires Positive(weights)
    ensures 0.0 <= r < Sum(weights) ==> exists o: nat :: Owns(weights, o, r)
  {
    if weights != [] {
      var n := |weights| - 1;
      SomeOwner(weights[..n], r);
      assert weights[..n + 1] == weights;
      if o: nat :| Owns(weights[..n], o, r) {
        assert weights[..n][..o] == weights[..o] && weights[..n][..o + 1] == weights[..o + 1];
        assert Owns(weights, o, r);
      } else if 0.0 <= r < Sum(weights) {
        assert Owns(weights, n, r);
      }
    }
  }

  lemma PrefixSums(weights: seq<real>, i: nat, j: nat)
    requires Positive(weights) && i <= |weights| && j <= |weights|
    ensures i <= j ==> Sum(weights[..i]) <= Sum(weights[..j])
  {
    if i <= j {
      assert weights[..j] == weights[..i] + weights[i..j];
      SumConcat(weights[..i], weights[i..j]);
      SumPositive(weights[i..j]);
    }
  }

  /** The inner loop: the item whose slice contains r. */
  method PickIndex(weights: seq<real>, r: real) returns (idx: nat)
    requires weights != [] && Positive(weights)
    ensures idx < |weights|
    ensures 0.0 <= r < Sum(weights) ==> Owns(weights, idx, r)
  {
    var cum := 0.0;
    for i := 0 to |weights|
      invariant cum == Sum(weights[..i])
      invariant 0.0 <= r ==> cum <= r
    {
      assert weights[..i + 1][..i] == weights[..i];
      cum := cum + weights[i];
      if r < cum {
        return i;
      }
    }
    assert weights[..|weights|] == weights;
    idx := 0;
  }

  /** The index whose slice contains r. */
  ghost function Owner(weights: seq<real>, r: real): nat {
    if exists o: nat :: Owns(weights, o, r) then
      var o: nat :| Owns(weights, o, r);
      o
    else 0
  }

  /** What is left to choose from, its weights, and what has been chosen. */
  datatype Urn<T> = Urn(items: seq<T>, weights: seq<real>, chosen: seq<T>)

  /** Choosing by a row of draws: each takes the item that owns it among those left. */
  ghost function DrawAll<T>(urn: Urn<T>, draws: seq<real>): Urn<T> {
    if draws == [] then urn
    else
      var u := DrawAll(urn, draws[..|draws| - 1]);
      var i := Owner(u.weights, draws[|draws| - 1]);
      if i < |u.items| && i < |u.weights|
      then Urn(u.items[..i] + u.items[i + 1..], u.weights[..i] + u.weights[i + 1..], u.chosen + [u.items[i]])
      else u
  }

  lemma DrawOne<T>(urn: Urn<T>, draws: seq<real>, r: real, i: nat)
    requires var u := DrawAll(urn, draws); Positive(u.weights) && |u.items| == |u.weights| && Owns(u.weights, i, r)
    ensures var u := DrawAll(urn, draws);
      DrawAll(urn, draws + [r]) ==
        Urn(u.items[..i] + u.items[i + 1..], u.weights[..i] + u.weights[i + 1..], u.chosen + [u.items[i]])
  {
    var u := DrawAll(urn, draws);
    assert (draws + [r])[..|draws|] == draws;
    SlicesAreDisjoint(u.weights, i, Owner(u.weights, r), r);
  }

  function WeightsOf(pairs: seq<PairStats>): (weights: seq<real>)
    reads pairs
    ensures |weights| == |pairs| && Positive(weights)
  {
    seq(|pairs|, i requires 0 <= i < |pairs| reads pairs => Weight(pairs[i].CombinedLossRate()))
  }

  /** The pairs in front of a choice, weighted by their loss. */
  function FullUrn(pairs: seq<PairStats>): Urn<PairStats>
    reads pairs
  {
    Urn(pairs, WeightsOf(pairs), [])
  }

  /** In front of a choice every pair is there with the weight of its loss. */
  lemma UrnIsExact(pairs: seq<PairStats>, i: nat)
    requires i < |pairs|
    ensures var urn := FullUrn(pairs);
      urn.items == pairs && |urn.weights| == |pairs| && urn.weights[i] * (pairs[i].CombinedLossRate() + 0.01) == 1.0
  {
    LessLossMoreWeight(pairs[i].CombinedLossRate(), 0.0);
  }

  /** All weights and their total. */
  method Weigh(pairs: seq<PairStats>) returns (tw: seq<real>, total: real)
    ensures tw == WeightsOf(pairs) && total == Sum(tw)
  {
    tw := [];
    for i := 0 to |pairs|
      invariant tw == WeightsOf(pairs)[..i]
    {
      tw := tw + [Weight(pairs[i].CombinedLossRate())];
    }
    total := 0.0;
    for i := 0 to |tw|
      invariant total == Sum(tw[..i])
    {
      assert tw[..i + 1][..i] == tw[..i];
      total := total + tw[i];
    }
    assert tw[..|tw|] == tw;
  }

  /** The whole choice: each draw, anywhere below the total weight of what is left, takes the pair that owns it.  The
      bound is looked up again on the shrinking list, so at most half the items, rounded up, are ever chosen. */
  method WeightedChoices(pairs: seq<PairStats>, n: nat) returns (chosen: seq<PairStats>, ghost draws: seq<real>)
    requires NoDup(pairs)
    ensures NoDup(chosen) && Elems(chosen) <= Elems(pairs)
    ensures |chosen| == Min(n, (|pairs| + 1) / 2) == |draws|
    ensures chosen == DrawAll(FullUrn(pairs), draws).chosen
    ensures forall j :: 0 <= j < |draws| ==> 0.0 <= draws[j] < Sum(DrawAll(FullUrn(pairs), draws[..j]).weights)
  {
    hide DrawAll, Owner;
    var tc := pairs;
    var tw, total := Weigh(pairs);
    chosen, draws := [], [];
    ghost var urn := FullUrn(pairs);
    NoDraw(urn);
    while |chosen| < Min(n, |tc|)
      invariant |tc| == |tw| == |pairs| - |chosen|
      invariant |chosen| <= Min(n, (|pairs| + 1) / 2)
      invariant Positive(tw) && total == Sum(tw)
      invariant NoDup(tc) && NoDup(chosen) && Elems(tc) !! Elems(chosen)
      invariant Elems(tc) + Elems(chosen) == Elems(pairs)
      invariant |draws| == |chosen| && DrawAll(urn, draws) == Urn(tc, tw, chosen)
      invariant forall j :: 0 <= j < |draws| ==> 0.0 <= draws[j] < Sum(DrawAll(urn, draws[..j]).weights)
      decreases |tc|
    {
      SumPositive(tw);
      var r: real :| 0.0 <= r < total;
      var idx := PickIndex(tw, r);
      DrawOne(urn, draws, r, idx);
      NextDraw(draws, r);
      draws := draws + [r];
      SumRemove(tw, idx);
      MoveOne(tc, chosen, idx);
      chosen := chosen + [tc[idx]];
      total := total - tw[idx];
      tc := tc[..idx] + tc[idx + 1..];
      tw := tw[..idx] + tw[idx + 1..];
    }
  }

  lemma NoDraw<T>(urn: Urn<T>)
    ensures DrawAll(urn, []) == urn
  {
  }

  lemma NextDraw(draws: seq<real>, r: real)
    ensures forall j :: 0 <= j < |draws| ==> (draws + [r])[..j] == draws[..j]
    ensures (draws + [r])[..|draws|] == draws
  {
  }

  lemma MoveOne<T>(tc: seq<T>, chosen: seq<T>, idx: nat)
    requires idx < |tc| && NoDup(tc) && NoDup(chosen) && Elems(tc) !! Elems(chosen)
    ensures var tc', chosen' := tc[..idx] + tc[idx + 1..], chosen + [tc[idx]];
      && NoDup(tc') && NoDup(chosen') && Elems(tc') !! Elems(chosen')
      && Elems(tc') + Elems(chosen') == Elems(tc) + Elems(chosen)
  {
    var tc', chosen' := tc[..idx] + tc[idx + 1..], chosen + [tc[idx]];
    assert tc == tc[..idx] + [tc[idx]] + tc[idx + 1..];
    assert tc[idx] in Elems(tc);
    forall x ensures x in Elems(tc') <==> x in Elems(tc) && x != tc[idx] {
      if x in tc && x != tc[idx] {
        var j :| 0 <= j < |tc| && tc[j] == x;
        assert j < idx ==> tc'[j] == x;
        assert j > idx ==> tc'[j - 1] == x;
      }
    }
    assert Elems(chosen') == Elems(chosen) + {tc[idx]};
    NoDupConcat(chosen, [tc[idx]]);
  }
}
