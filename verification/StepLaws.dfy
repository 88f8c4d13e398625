/** What the steps of internal/pool/pool.go do to the explorer, read off its tables, lists and queue name by name. */
module StepLaws {
  import opened Sequences
  import opened ExplorerModel
  import opened ExplorerLaws

  /** Both axes read the same keys, each its own half. */
  lemma AxesAre(x: string, y: string)
    ensures Coord(PairKey(x, y), IPs) == x && Coord(PairKey(x, y), SNIs) == y
    ensures IPs.Other() == SNIs && SNIs.Other() == IPs
    ensures KeyOn(IPs, x, y) == PairKey(x, y) && KeyOn(SNIs, x, y) == PairKey(y, x)
  {
  }

  /** Filtering goes element by element, in order. */
  lemma {:induction false} WithoutConcat<T>(s: seq<T>, t: seq<T>, drop: set<T>)
    ensures Without(s + t, drop) == Without(s, drop) + Without(t, drop)
  {
    hide Elems;
    if t == [] {
      assert s + t == s;
    } else {
      var n := |t| - 1;
      WithoutConcat(s, t[..n], drop);
      assert (s + t)[..|s + t| - 1] == s + t[..n];
    }
  }

  lemma WithoutOne<T>(x: T, drop: set<T>)
    ensures Without([x], drop) == if x in drop then [] else [x]
  {
    assert [x][..0] == [];
  }

  lemma InElems<T>(s: seq<T>, x: T)
    ensures x in s <==> x in Elems(s)
  {
  }

  /** The pairs of a name leave the table and the queue, the name leaves its list, and its entry remembers just the partners
      it had; nothing else changes. */
  lemma EvictMeans(st: State, a: Axis, x: string, partners: seq<string>, origin: string, t: int)
    requires Enabled(st, Evict(a, x, partners, origin, t))
    ensures var st' := Apply(st, Evict(a, x, partners, origin, t));
      && st'.On(a.Other()) == st.On(a.Other()) && st'.On(a).ledger == st.On(a).ledger
      && (forall k :: k in st'.keys <==> k in st.keys && Coord(k, a) != x)
      && (forall k :: k in Elems(st'.queue) <==> k in Elems(st.queue) && Coord(k, a) != x)
      && (forall y :: y in Elems(st'.On(a).active) <==> y in Elems(st.On(a).active) && y != x)
      && st'.On(a).quarantine == st.On(a).quarantine[x := Quarantined(partners, origin, t, t, 0)]
    ensures NoDup(partners) && forall y :: y in partners <==> KeyOn(a, x, y) in st.keys
  {
    forall y ensures y in partners <==> KeyOn(a, x, y) in st.keys {
      InElems(partners, y);
      var k := KeyOn(a, x, y);
      assert Coord(k, a) == x && Coord(k, a.Other()) == y;
    }
  }

  /** The listed names without a pair that are not in quarantine go there, remembering nobody, with the origin of the ledger
      or "static" if it knows none. */
  lemma SweepMeans(st: State, a: Axis, t: int)
    ensures var st' := Apply(st, Sweep(a, t));
      && st'.keys == st.keys && st'.On(a.Other()) == st.On(a.Other()) && st'.On(a).ledger == st.On(a).ledger
      && forall y :: var orphaned := y in Elems(st.On(a).active) && y !in Coords(st.keys, a) && y !in st.On(a).quarantine;
        && (y in Elems(st'.On(a).active) <==> y in Elems(st.On(a).active) && !orphaned)
        && (y in st'.On(a).quarantine <==> y in st.On(a).quarantine || orphaned)
        && (y in st.On(a).quarantine ==> st'.On(a).quarantine[y] == st.On(a).quarantine[y])
        && (orphaned ==> IsOrphanEntry(st'.On(a).quarantine[y], st.On(a).ledger, y, t))
    ensures forall k :: k in Elems(Apply(st, Sweep(a, t)).queue) <==>
      k in Elems(st.queue) && (Coord(k, a) in Elems(st.On(a).active) ==> Coord(k, a) in Coords(st.keys, a) + st.On(a).quarantine.Keys)
  {
  }

  predicate IsOrphanEntry(entry: Quarantined, ledger: map<string, string>, x: string, t: int) {
    && entry.partners == [] && entry.evictedAt == t && entry.lastAttempt == t && entry.attempts == 0
    && entry.origin != "" && if x in ledger && ledger[x] != "" then entry.origin == ledger[x] else entry.origin == "static"
  }

  /** An attempt changes the two fields that count it. */
  lemma AttemptMeans(st: State, a: Axis, x: string, now: int, t: int, cooldown: int)
    requires Enabled(st, Attempt(a, x, now, t, cooldown))
    ensures var st', old_ := Apply(st, Attempt(a, x, now, t, cooldown)), st.On(a).quarantine[x];
      && st'.keys == st.keys && st'.queue == st.queue && st'.On(a.Other()) == st.On(a.Other())
      && st'.On(a).active == st.On(a).active && st'.On(a).ledger == st.On(a).ledger
      && st'.On(a).quarantine.Keys == st.On(a).quarantine.Keys
      && (forall y :: y in st.On(a).quarantine && y != x ==> st'.On(a).quarantine[y] == st.On(a).quarantine[y])
      && st'.On(a).quarantine[x] == Quarantined(old_.partners, old_.origin, old_.evictedAt, t, old_.attempts + 1)
  {
  }

  lemma {:induction false} RestoredAre(keys: set<PairKey>, a: Axis, x: string, others: seq<string>, blocked: set<string>)
    ensures var back := RestoredKeys(keys, a, x, others, blocked);
      && NoDup(back)
      && forall k :: k in back <==> k !in keys && Coord(k, a) == x && Coord(k, a.Other()) in others
                                    && Coord(k, a.Other()) !in blocked
  {
    if others != [] {
      var n := |others| - 1;
      RestoredAre(keys, a, x, others[..n], blocked);
      var key := KeyOn(a, x, others[n]);
      assert Coord(key, a) == x && Coord(key, a.Other()) == others[n];
      forall k ensures Coord(k, a) == x && Coord(k, a.Other()) == others[n] ==> k == key {
      }
    }
  }

  /** A name comes back: out of the quarantine, onto its list, and with a pair for each partner that is not itself in
      quarantine; the pairs it did not have are queued behind all others. */
  lemma RestoreMeans(st: State, a: Axis, x: string, others: seq<string>)
    requires Enabled(st, Restore(a, x, others))
    ensures var st' := Apply(st, Restore(a, x, others));
      && st'.On(a.Other()) == st.On(a.Other()) && st'.On(a).ledger == st.On(a).ledger
      && st'.On(a).quarantine == st.On(a).quarantine - {x}
      && st'.On(a).active == (if x in st.On(a).active then st.On(a).active else st.On(a).active + [x])
      && st.queue <= st'.queue && NoDup(st'.queue[|st.queue|..])
      && (forall k :: k in st'.queue[|st.queue|..] <==> k in st'.keys && k !in st.keys)
      && forall k :: k in st'.keys <==>
          (k in st.keys || (Coord(k, a) == x && Coord(k, a.Other()) in others && Coord(k, a.Other()) !in st.On(a.Other()).quarantine))
  {
    var st' := Apply(st, Restore(a, x, others));
    var back := RestoredKeys(st.keys, a, x, others, st.On(a.Other()).quarantine.Keys);
    RestoredAre(st.keys, a, x, others, st.On(a.Other()).quarantine.Keys);
    assert st'.queue[|st.queue|..] == back;
    assert forall k :: k in back <==> k in Elems(back);
  }

  /** A pair that is there already changes nothing; another one is queued last, and its names are listed if they were not. */
  lemma AddMeans(st: State, k: PairKey)
    requires Enabled(st, Add(k))
    ensures var st' := Apply(st, Add(k));
      if k in st.keys then st' == st
      else
        && st'.keys == st.keys + {k} && st'.queue == st.queue + [k]
        && st'.ips.active == (if k.ip in st.ips.active then st.ips.active else st.ips.active + [k.ip])
        && st'.snis.active == (if k.sni in st.snis.active then st.snis.active else st.snis.active + [k.sni])
        && st'.ips.quarantine == st.ips.quarantine && st'.snis.quarantine == st.snis.quarantine
        && st'.ips.ledger == st.ips.ledger && st'.snis.ledger == st.snis.ledger
  {
  }

  lemma {:induction false} EnrolledAre(st: State, front: seq<PairKey>)
    ensures var st' := Enrolled(st, front);
      && st'.keys == st.keys + Elems(front)
      && st'.ips.quarantine == st.ips.quarantine && st'.snis.quarantine == st.snis.quarantine
      && st'.ips.ledger == st.ips.ledger && st'.snis.ledger == st.snis.ledger
      && st.ips.active <= st'.ips.active && st.snis.active <= st'.snis.active
      && forall k :: k in front && k !in st.keys ==> k.ip in st'.ips.active && k.sni in st'.snis.active
  {
    if front != [] {
      var n := |front| - 1;
      EnrolledAre(st, front[..n]);
      assert front == front[..n] + [front[n]];
      assert Elems(front) == Elems(front[..n]) + {front[n]};
    }
  }

  /** What comes later in the list comes later in the front. */
  lemma FrontGrows(keys: seq<PairKey>, k: PairKey)
    ensures Front(keys) <= Front(keys + [k])
  {
    assert (keys + [k])[..|keys|] == keys;
  }

  /** The given pairs are handed out first, in their order and each once; the others follow as they were queued. */
  lemma PrioritizeMeans(st: State, keys: seq<PairKey>)
    requires Enabled(st, Prioritize(keys))
    ensures var st', front := Apply(st, Prioritize(keys)), Front(keys);
      && st'.keys == st.keys + Elems(front) && front <= st'.queue
      && (forall k :: k in front <==> k in keys && k.ip != "" && k.sni != "")
      && st'.queue == front + Without(st.queue, Elems(front))
  {
    EnrolledAre(st, Front(keys));
    FrontFacts(keys);
    hide Front, Enrolled;
  }

  /** Forgetting a name: its pairs leave table and queue, its first listing and its ledger entry go; the quarantine is not
      looked at. */
  lemma ForgetMeans(st: State, a: Axis, x: string)
    ensures var st' := Forgot(st, a, x);
      && st'.On(a.Other()) == st.On(a.Other()) && st'.On(a).quarantine == st.On(a).quarantine
      && (forall k :: k in st'.keys <==> k in st.keys && Coord(k, a) != x)
      && (forall k :: k in Elems(st'.queue) <==> k in Elems(st.queue) && Coord(k, a) != x)
      && st'.On(a).ledger == st.On(a).ledger - {x}
      && multiset(st'.On(a).active) == multiset(st.On(a).active) - multiset{x}
  {
    var mid := Apply(st, DropPairs(a, x));
    FirstGoes(mid.On(a).active, x);
  }

  lemma {:induction false} FirstGoes(names: seq<string>, x: string)
    ensures multiset(RemoveFirst(names, x)) == multiset(names) - multiset{x}
  {
    if names != [] {
      assert names == [names[0]] + names[1..];
      if names[0] != x {
        FirstGoes(names[1..], x);
      }
    }
  }
}
