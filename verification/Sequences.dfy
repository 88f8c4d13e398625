/** Vocabulary shared by the pool and the discovery modules, most of it about sequences. */
module Sequences {

  datatype Option<+T> = None | Some(value: T)

  function Min(a: int, b: int): int {
    if a < b then a else b
  }

  function Max(a: int, b: int): int {
    if a < b then b else a
  }

  ghost predicate NoDup<T>(s: seq<T>) {
    forall i, j :: 0 <= i < j < |s| ==> s[i] != s[j]
  }

  function Elems<T>(s: seq<T>): set<T> {
    set x | x in s
  }

  /** The elements of `s` outside `drop`, in their order: what every filtering loop of pool.go keeps. */
  function Without<T(==)>(s: seq<T>, drop: set<T>): (r: seq<T>)
    ensures Elems(r) == Elems(s) - drop
    ensures |r| <= |s|
  {
    if s == [] then []
    else
      var r := Without(s[..|s| - 1], drop);
      assert Elems(s) == Elems(s[..|s| - 1]) + {s[|s| - 1]};
      assert Elems(r + [s[|s| - 1]]) == Elems(r) + {s[|s| - 1]};
      if s[|s| - 1] in drop then r else r + [s[|s| - 1]]
  }

  lemma {:induction false} WithoutNoDup<T>(s: seq<T>, drop: set<T>)
    requires NoDup(s)
    ensures NoDup(Without(s, drop))
  {
    if s != [] {
      WithoutNoDup(s[..|s| - 1], drop);
      assert s[|s| - 1] !in Elems(s[..|s| - 1]);
      assert s[|s| - 1] !in Elems(Without(s[..|s| - 1], drop));
    }
  }

  lemma {:induction false} WithoutCount<T>(s: seq<T>, drop: set<T>, x: T)
    requires x !in drop
    ensures multiset(Without(s, drop))[x] == multiset(s)[x]
  {
    if s != [] {
      WithoutCount(s[..|s| - 1], drop, x);
      assert s == s[..|s| - 1] + [s[|s| - 1]];
    }
  }

  /** Filtering away something absent changes nothing. */
  lemma {:induction false} WithoutAbsent<T>(s: seq<T>, drop: set<T>)
    requires Elems(s) !! drop
    ensures Without(s, drop) == s
  {
    if s != [] {
      WithoutAbsent(s[..|s| - 1], drop);
      assert s == s[..|s| - 1] + [s[|s| - 1]];
    }
  }

  /** Concatenation, the other way round in brackets. */
  lemma Shift<T>(a: seq<T>, b: seq<T>, c: seq<T>)
    ensures a + (b + c) == a + b + c
  {
  }

  lemma NoDupConcat<T>(s: seq<T>, t: seq<T>)
    requires NoDup(s) && NoDup(t) && Elems(s) !! Elems(t)
    ensures NoDup(s + t)
  {
    forall i, j | 0 <= i < j < |s + t| ensures (s + t)[i] != (s + t)[j] {
      assert i < |s| ==> s[i] in Elems(s);
      assert j >= |s| ==> t[j - |s|] in Elems(t);
    }
  }

  lemma {:induction false} NoDupIsUnit<T>(s: seq<T>)
    ensures NoDup(s) <==> forall x :: multiset(s)[x] <= 1
  {
    if s != [] {
      var n := |s| - 1;
      assert s == s[..n] + [s[n]];
      NoDupIsUnit(s[..n]);
      assert NoDup(s) <==> NoDup(s[..n]) && s[n] !in s[..n];
      assert s[n] in s[..n] <==> multiset(s[..n])[s[n]] >= 1;
      forall x ensures multiset(s)[x] == multiset(s[..n])[x] + (if x == s[n] then 1 else 0) {}
      if !NoDup(s[..n]) {
        var x :| multiset(s[..n])[x] > 1;
        assert multiset(s)[x] > 1;
      }
    }
  }

  /** A permutation has the same elements, and is as free of duplicates. */
  lemma PermutationFacts<T>(s: seq<T>, t: seq<T>)
    requires multiset(s) == multiset(t)
    ensures Elems(s) == Elems(t) && (NoDup(s) <==> NoDup(t)) && |s| == |t|
  {
    assert |multiset(s)| == |s| && |multiset(t)| == |t|;
    NoDupIsUnit(s);
    NoDupIsUnit(t);
    assert forall x :: x in s <==> x in multiset(s);
    assert forall x :: x in t <==> x in multiset(t);
  }

  lemma NothingIn<T>(s: seq<T>)
    ensures (forall x :: x !in s) ==> s == []
  {
    assert s == [] || s[0] in s;
  }

  lemma NoDupCardinality<T>(s: seq<T>)
    requires NoDup(s)
    ensures |Elems(s)| == |s|
  {
    if s != [] {
      var n := |s| - 1;
      assert s == s[..n] + [s[n]];
      NoDupCardinality(s[..n]);
      assert Elems(s) == Elems(s[..n]) + {s[n]};
    }
  }

  lemma SubsetOfSameSize<T>(s: set<T>, t: set<T>)
    requires s <= t && |s| == |t|
    ensures s == t
  {
    assert t == s + (t - s);
  }

  /** Some n elements of a set, each once. */
  lemma {:induction false} Select<T>(eligible: set<T>, n: nat) returns (chosen: seq<T>)
    requires n <= |eligible|
    ensures NoDup(chosen) && Elems(chosen) <= eligible && |chosen| == n && (n == |eligible| ==> Elems(chosen) == eligible)
    decreases n
  {
    chosen := [];
    if n > 0 {
      var x :| x in eligible;
      var rest := Select(eligible - {x}, n - 1);
      assert x !in Elems(rest);
      chosen := [x] + rest;
      assert Elems(chosen) == {x} + Elems(rest);
    }
  }

  /** The filtering loop itself. */
  method Filter<T(==)>(s: seq<T>, drop: set<T>) returns (r: seq<T>)
    ensures r == Without(s, drop)
  {
    r := [];
    for i := 0 to |s|
      invariant r == Without(s[..i], drop)
    {
      assert s[..i + 1][..i] == s[..i];
      if s[i] !in drop {
        r := r + [s[i]];
      }
    }
    assert s[..|s|] == s;
  }

  /** Iterating over a Go map or set: every element once, in any order. */
  method Listed<T(==)>(s: set<T>) returns (r: seq<T>)
    ensures NoDup(r) && Elems(r) == s
  {
    r := [];
    var todo := s;
    while todo != {}
      invariant todo <= s
      invariant NoDup(r) && Elems(r) == s - todo
    {
      var x :| x in todo;
      assert x !in Elems(r);
      assert Elems(r + [x]) == Elems(r) + {x};
      r := r + [x];
      todo := todo - {x};
    }
  }
}
