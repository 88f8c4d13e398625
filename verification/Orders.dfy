/** The random and the sorted orders that pool.go puts its lists in. */
module Orders {

  /** rand.Shuffle: any permutation. */
  method Shuffle<T>(s: seq<T>) returns (r: seq<T>)
    ensures multiset(r) == multiset(s)
  {
    r := s;
    var i := |s|;
    while i > 1
      invariant |r| == |s| && multiset(r) == multiset(s)
    {
      i := i - 1;
      var j :| 0 <= j <= i;
      r := r[i := r[j]][j := r[i]];
    }
  }

  /** No element is less than one before it. */
  ghost predicate SortedBy<T>(s: seq<T>, less: (T, T) -> bool) {
    forall i, j :: 0 <= i < j < |s| ==> !less(s[j], s[i])
  }

  /** The order of a Go comparison: asymmetric, and "not less" is transitive. */
  ghost predicate WeakOrder<T(!new)>(less: (T, T) -> bool) {
    && (forall x, y :: less(x, y) ==> !less(y, x))
    && (forall x, y, z :: !less(x, y) && !less(y, z) ==> !less(x, z))
  }

  /** sortStrings, sortIPAgeKeys and sortAgeKeysSNI: the same insertion sort over three element types. */
  method InsertionSort<T(!new)>(a: array<T>, less: (T, T) -> bool)
    requires WeakOrder(less)
    modifies a
    ensures SortedBy(a[..], less)
    ensures multiset(a[..]) == old(multiset(a[..]))
  {
    if a.Length == 0 {
      return;
    }
    for i := 1 to a.Length
      invariant SortedBy(a[..i], less)
      invariant multiset(a[..]) == old(multiset(a[..]))
    {
      var j := i;
      while j > 0 && less(a[j], a[j - 1])
        invariant 0 <= j <= i
        invariant forall p, q :: 0 <= p < q <= i && q != j ==> !less(a[q], a[p])
        invariant multiset(a[..]) == old(multiset(a[..]))
      {
        a[j], a[j - 1] := a[j - 1], a[j];
        j := j - 1;
      }
    }
    assert a[..a.Length] == a[..];
  }

  /** A list, sorted. */
  method Sorted<T(!new)>(s: seq<T>, less: (T, T) -> bool) returns (r: seq<T>)
    requires WeakOrder(less)
    ensures SortedBy(r, less) && multiset(r) == multiset(s)
  {
    var a := new T[|s|](i requires 0 <= i < |s| => s[i]);
    assert a[..] == s;
    InsertionSort(a, less);
    r := a[..];
  }

  // ---- strings in Go's order ----

  predicate StringLess(s: string, t: string) {
    if t == [] then false
    else if s == [] then true
    else if s[0] != t[0] then s[0] < t[0]
    else StringLess(s[1..], t[1..])
  }

  lemma {:induction false} StringLessIsWeak(s: string, t: string, u: string)
    ensures StringLess(s, t) ==> !StringLess(t, s)
    ensures !StringLess(s, t) && !StringLess(t, u) ==> !StringLess(s, u)
    ensures !StringLess(s, t) && !StringLess(t, s) ==> s == t
  {
    if s != [] && t != [] && s[0] == t[0] {
      if u != [] && t[0] == u[0] {
        StringLessIsWeak(s[1..], t[1..], u[1..]);
      } else {
        StringLessIsWeak(s[1..], t[1..], []);
      }
      assert s == [s[0]] + s[1..] && t == [t[0]] + t[1..];
    }
  }

  /** Behind what they share, the string that ends comes first, and else the one with the smaller character. */
  lemma {:induction false} ComesFirst(common: string, s: string, t: string)
    requires s == [] || t == [] || s[0] != t[0]
    ensures StringLess(common + s, common + t) <==> t != [] && (s == [] || (s[0] as int) < (t[0] as int))
  {
    if common == [] {
      assert common + s == s && common + t == t;
    } else {
      ComesFirst(common[1..], s, t);
      assert (common + s)[1..] == common[1..] + s && (common + t)[1..] == common[1..] + t;
    }
  }

  lemma StringOrder()
    ensures WeakOrder(StringLess)
  {
    forall s, t, u
      ensures StringLess(s, t) ==> !StringLess(t, s)
      ensures !StringLess(s, t) && !StringLess(t, u) ==> !StringLess(s, u)
    {
      StringLessIsWeak(s, t, u);
    }
  }

  /** A list of names, sorted. */
  method SortStrings(names: seq<string>) returns (r: seq<string>)
    ensures SortedBy(r, StringLess) && multiset(r) == multiset(names)
  {
    StringOrder();
    r := Sorted(names, StringLess);
  }
}
