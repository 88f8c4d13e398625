/** Snapshot and Restore of internal/pool/lastgood.go: what survives a restart of the explorer. */
module LastGood {
  import opened Sequences
  import opened Orders
  import opened PairHealth
  import opened ExplorerModel
  import opened ExplorerLaws
  import opened Pairs
  import opened Explorer
  import opened Discoveries

  datatype StatsRecord = StatsRecord(emaProbeLoss: Rate, emaRealLoss: Rate, latencySumMs: real, latencyCount: nat,
                                     probed: bool, alive: bool)

  /** IPState and SNIState. */
  datatype NameState = NameState(name: string, origin: string, state: string, quarantinedAt: int)

  datatype PairState = PairState(key: PairKey, state: string, stats: Option<StatsRecord>)

  datatype SnapshotDoc = SnapshotDoc(savedAt: int, ips: seq<NameState>, snis: seq<NameState>, pairs: seq<PairState>) {
    function On(a: Axis): seq<NameState> {
      if a.IPs? then ips else snis
    }
  }

  // ---- taking a snapshot ----

  function NameRecord(side: Side, x: string): NameState {
    if x in side.quarantine
    then NameState(x, LedgerOr(side.ledger, x), "quarantined", side.quarantine[x].evictedAt)
    else NameState(x, LedgerOr(side.ledger, x), "live", 0)
  }

  function RecordOf(ps: PairStats): StatsRecord
    reads ps
  {
    StatsRecord(ps.emaProbeLoss, ps.emaRealLoss, ps.latencySumMs, ps.latencyCount, ps.probed, ps.alive)
  }

  function StateOf(alive: bool, inActivePool: bool): string {
    if !alive then "dead" else if inActivePool then "active" else "live"
  }

  /** What is recorded of a stored pair. */
  function PairRecord(ps: PairStats): PairState
    reads ps
  {
    PairState(ps.Key(), StateOf(ps.alive, ps.inActivePool), Some(RecordOf(ps)))
  }

  /** A pair is recorded as dead, or else by whether it is in service; its probe and packet counts are not recorded. */
  lemma PairRecordMeans(ps: PairStats)
    ensures var p := PairRecord(ps);
      && p.key == PairKey(ps.ip, ps.sni) && p.state in ["dead", "active", "live"]
      && (p.state == "dead" <==> !ps.alive) && (p.state == "active" <==> ps.alive && ps.inActivePool)
      && p.stats ==
        Some(StatsRecord(ps.emaProbeLoss, ps.emaRealLoss, ps.latencySumMs, ps.latencyCount, ps.probed, ps.alive))
  {
  }

  lemma NameRecordMeans(side: Side, x: string)
    ensures var n := NameRecord(side, x);
      && n.name == x && n.state in ["live", "quarantined"] && (n.state == "quarantined" <==> x in side.quarantine)
      && n.quarantinedAt == (if x in side.quarantine then side.quarantine[x].evictedAt else 0)
      && n.origin == if x !in side.ledger || side.ledger[x] == "" then "static" else side.ledger[x]
  {
  }

  method SnapshotNames(side: Side) returns (names: seq<NameState>)
    ensures |names| == |side.active| && forall i :: 0 <= i < |names| ==> names[i] == NameRecord(side, side.active[i])
  {
    names := [];
    for i := 0 to |side.active|
      invariant |names| == i && forall j :: 0 <= j < i ==> names[j] == NameRecord(side, side.active[j])
    {
      names := names + [NameRecord(side, side.active[i])];
    }
  }

  /** Snapshot: the two active lists in their order, and every pair once, in map order. */
  method Snapshot(e: CombinationExplorer, now: int) returns (doc: SnapshotDoc)
    requires e.Valid()
    ensures doc.savedAt == now
    ensures forall a :: IsNameList(doc.On(a), e.On(a))
    ensures |doc.pairs| == |e.stats| && NoDup(KeysOf(doc.pairs)) && Elems(KeysOf(doc.pairs)) == e.stats.Keys
    ensures forall p :: p in doc.pairs ==> p.key in e.stats && p == PairRecord(e.stats[p.key])
  {
    hide Within, StateOf, RecordOf;
    var ips := SnapshotNames(e.ips);
    var snis := SnapshotNames(e.snis);
    var keys := Listed(e.stats.Keys);
    NoDupCardinality(keys);
    var pairs := [];
    for i := 0 to |keys|
      invariant |pairs| == i && forall j :: 0 <= j < i ==> keys[j] in e.stats && pairs[j] == PairRecord(e.stats[keys[j]])
    {
      assert keys[i] in Elems(keys);
      pairs := pairs + [PairRecord(e.stats[keys[i]])];
    }
    doc := SnapshotDoc(now, ips, snis, pairs);
    assert KeysOf(pairs) == keys;
  }

  ghost predicate IsNameList(names: seq<NameState>, side: Side) {
    |names| == |side.active| && forall i :: 0 <= i < |names| ==> names[i] == NameRecord(side, side.active[i])
  }

  function KeysOf(pairs: seq<PairState>): seq<PairKey> {
    seq(|pairs|, i requires 0 <= i < |pairs| => pairs[i].key)
  }

  function NamesOf(names: seq<NameState>): seq<string> {
    seq(|names|, i requires 0 <= i < |names| => names[i].name)
  }

  // ---- restoring one ----

  /** The names that only the pairs mention, in order of first mention. */
  function Unlisted(pairs: seq<PairState>, a: Axis, seen: set<string>): seq<string> {
    if pairs == [] then []
    else
      var before := Unlisted(pairs[..|pairs| - 1], a, seen);
      var x := Coord(pairs[|pairs| - 1].key, a);
      if x in seen || x in before then before else before + [x]
  }

  function LedgerOf(names: seq<NameState>): map<string, string> {
    if names == [] then map[]
    else LedgerOf(names[..|names| - 1])[names[|names| - 1].name := names[|names| - 1].origin]
  }

  /** The entries for the names a document has in quarantine; the zero time of Go counts as no time at all. */
  function QuarantineOf(names: seq<NameState>, now: int): map<string, Quarantined> {
    if names == [] then map[]
    else
      var before := QuarantineOf(names[..|names| - 1], now);
      var n := names[|names| - 1];
      // a restored entry remembers no partner and has never been tried
      var evictedAt := if n.quarantinedAt == NEVER then now else n.quarantinedAt;
      if n.state == "quarantined" then before[n.name := Quarantined([], n.origin, evictedAt, NEVER, 0)] else before
  }

  /** The zero time of a restored LastAttempt: older than any clock reading. */
  const NEVER := -62135596800

  /** Entry i of a document is the last one in quarantine of this name. */
  predicate LastQuarantined(names: seq<NameState>, x: string, i: nat) {
    && i < |names| && names[i].name == x && names[i].state == "quarantined"
    && forall j :: i < j < |names| && names[j].name == x ==> names[j].state != "quarantined"
  }

  /** A name comes back into quarantine exactly if the document has it there, from its last such entry: with its origin and
      the time of its eviction, remembering nobody and last tried at the zero of Go's clock. */
  lemma {:induction false} QuarantineIsRead(names: seq<NameState>, x: string, now: int)
    ensures x in QuarantineOf(names, now) <==> exists i: nat :: LastQuarantined(names, x, i)
    ensures forall i: nat :: LastQuarantined(names, x, i) ==>
      var evictedAt := if names[i].quarantinedAt == -62_135_596_800 then now else names[i].quarantinedAt;
      QuarantineOf(names, now)[x] == Quarantined([], names[i].origin, evictedAt, -62_135_596_800, 0)
  {
    if names != [] {
      var n := |names| - 1;
      QuarantineIsRead(names[..n], x, now);
      var newer := names[n].name == x && names[n].state == "quarantined";
      assert newer ==> LastQuarantined(names, x, n);
      assert forall i: nat :: i < n ==> (LastQuarantined(names, x, i) <==> LastQuarantined(names[..n], x, i) && !newer);
    }
  }

  predicate LastNamed(names: seq<NameState>, x: string, i: nat) {
    i < |names| && names[i].name == x && forall j :: i < j < |names| ==> names[j].name != x
  }

  /** Every named origin enters the ledger, the last one of a name staying. */
  lemma {:induction false} LedgerIsRead(names: seq<NameState>, x: string)
    ensures x in LedgerOf(names) <==> exists i: nat :: LastNamed(names, x, i)
    ensures forall i: nat :: LastNamed(names, x, i) ==> LedgerOf(names)[x] == names[i].origin
  {
    if names != [] {
      var n := |names| - 1;
      LedgerIsRead(names[..n], x);
      assert names[n].name == x ==> LastNamed(names, x, n);
      assert forall i: nat :: i < n ==> (LastNamed(names, x, i) <==> LastNamed(names[..n], x, i) && names[n].name != x);
    }
  }

  method RestoreNames(side: Side, names: seq<NameState>, now: int) returns (r: Side, seen: set<string>)
    ensures r == Side(side.active + NamesOf(names), side.quarantine + QuarantineOf(names, now), side.ledger + LedgerOf(names))
    ensures seen == Elems(NamesOf(names))
  {
    var active, quarantine, ledger := [], map[], map[];
    for i := 0 to |names|
      invariant active == NamesOf(names[..i]) && quarantine == QuarantineOf(names[..i], now)
      invariant ledger == LedgerOf(names[..i])
    {
      var n := names[i];
      assert names[..i + 1][..i] == names[..i];
      active := active + [n.name];
      ledger := ledger[n.name := n.origin];
      if n.state == "quarantined" {
        var evictedAt := n.quarantinedAt;
        if evictedAt == NEVER {
          evictedAt := now;
        }
        quarantine := quarantine[n.name := Quarantined([], n.origin, evictedAt, NEVER, 0)];
      }
    }
    assert names[..|names|] == names;
    r := Side(side.active + active, side.quarantine + quarantine, side.ledger + ledger);
    seen := Elems(active);
  }

  /** A pair object made from a record: new, out of service, unprobed by count, with the recorded averages and
      verdicts. */
  predicate MadeFrom(ps: PairStats, p: PairState)
    reads ps
  {
    && ps.Key() == p.key && !ps.inActivePool && !ps.dataCheckFailed && ps.activeConnections == 0
    && ps.probesSent == 0 && ps.probesRecv == 0 && ps.realPacketsSent == 0
    && RecordOf(ps) == if p.stats.Some? then p.stats.value else StatsRecord(0.0, 0.0, 0.0, 0, false, true)
  }

  method RestorePair(p: PairState, ipOrigin: string, sniOrigin: string) returns (ps: PairStats)
    ensures fresh(ps) && MadeFrom(ps, p) && ps.ipOrigin == ipOrigin && ps.sniOrigin == sniOrigin
  {
    ps := new PairStats(p.key.ip, p.key.sni, ipOrigin, sniOrigin);
    if p.stats.Some? {
      var r := p.stats.value;
      ps.emaProbeLoss, ps.emaRealLoss := r.emaProbeLoss, r.emaRealLoss;
      ps.latencySumMs, ps.latencyCount := r.latencySumMs, r.latencyCount;
      ps.probed, ps.alive := r.probed, r.alive;
    }
    ps.inActivePool := false;
  }

  /** The record that a key is restored from: its last one. */
  function LastRecord(pairs: seq<PairState>, k: PairKey): (p: PairState)
    requires k in KeysOf(pairs)
    ensures p in pairs && p.key == k
  {
    var n := |pairs| - 1;
    if pairs[n].key == k then pairs[n]
    else
      assert forall i :: 0 <= i < n ==> KeysOf(pairs)[i] == KeysOf(pairs[..n])[i];
      LastRecord(pairs[..n], k)
  }

  /** The table after the first `pairs` have been restored over `before`. */
  ghost predicate TableOf(table: map<PairKey, PairStats>, before: map<PairKey, PairStats>, pairs: seq<PairState>)
    reads table.Values
  {
    && table.Keys == before.Keys + Elems(KeysOf(pairs))
    && forall k :: k in table ==>
      if k in KeysOf(pairs) then MadeFrom(table[k], LastRecord(pairs, k)) else k in before && table[k] == before[k]
  }

  ghost predicate SideRestored(before: Side, after: Side, names: seq<NameState>, pairs: seq<PairState>, a: Axis) {
    && (exists now :: after.quarantine == before.quarantine + QuarantineOf(names, now))
    && after.ledger == before.ledger + LedgerOf(names)
    && SortedBy(after.active, StringLess)
    && multiset(after.active) ==
       multiset(before.active + NamesOf(names) + Unlisted(pairs, a, Elems(NamesOf(names))))
  }

  /** The pair loop, as far as the name list of one axis goes: a name nobody listed yet is listed. */
  method ListNew(pairs: seq<PairState>, a: Axis, seen: set<string>) returns (names: seq<string>)
    ensures names == Unlisted(pairs, a, seen)
  {
    names := [];
    var listed := seen;
    for i := 0 to |pairs|
      invariant names == Unlisted(pairs[..i], a, seen) && listed == seen + Elems(names)
    {
      assert pairs[..i + 1][..i] == pairs[..i];
      var x := Coord(pairs[i].key, a);
      if x !in listed {
        assert Elems(names + [x]) == Elems(names) + {x};
        names := names + [x];
        listed := listed + {x};
      }
    }
    assert pairs[..|pairs|] == pairs;
  }

  /** The origins of a pair are those of the ledger, as far as that has its names. */
  predicate ToldOrigin(e: CombinationExplorer, ps: PairStats)
    reads e`ips, e`snis
  {
    && (ps.ip in e.ips.ledger ==> ps.ipOrigin == e.ips.ledger[ps.ip])
    && (ps.sni in e.snis.ledger ==> ps.sniOrigin == e.snis.ledger[ps.sni])
  }

  lemma LookedUp(e: CombinationExplorer, ps: PairStats)
    requires e.IsOrigin(IPs, ps.ip, ps.ipOrigin) && e.IsOrigin(SNIs, ps.sni, ps.sniOrigin)
    ensures ToldOrigin(e, ps)
  {
  }

  /** The pair loop, as far as the table goes. */
  method RestorePairs(e: CombinationExplorer, pairs: seq<PairState>)
    modifies e`stats
    ensures TableOf(e.stats, old(e.stats), pairs)
    ensures KeysStored(e.stats, pairs)
    ensures forall k :: k in KeysOf(pairs) ==> fresh(e.stats[k]) && ToldOrigin(e, e.stats[k])
  {
    hide TableOf, ToldOrigin;
    EmptyTable(e.stats);
    for i := 0 to |pairs|
      invariant TableOf(e.stats, old(e.stats), pairs[..i])
      invariant KeysStored(e.stats, pairs[..i])
      invariant forall k :: k in KeysOf(pairs[..i]) ==> fresh(e.stats[k]) && ToldOrigin(e, e.stats[k])
    {
      var p := pairs[i];
      var ipOrigin := e.LookupOrigin(IPs, p.key.ip);
      var sniOrigin := e.LookupOrigin(SNIs, p.key.sni);
      ghost var mid := e.stats;
      var ps := RestorePair(p, ipOrigin, sniOrigin);
      LookedUp(e, ps);
      e.stats := e.stats[p.key := ps];
      TableGrows(mid, e.stats, old(e.stats), pairs, i);
      assert KeysOf(pairs[..i + 1]) == KeysOf(pairs[..i]) + [p.key];
    }
    assert pairs[..|pairs|] == pairs;
  }

  predicate KeysStored(table: map<PairKey, PairStats>, pairs: seq<PairState>) {
    forall k :: k in KeysOf(pairs) ==> k in table
  }

  lemma EmptyTable(table: map<PairKey, PairStats>)
    ensures TableOf(table, table, [])
  {
    assert KeysOf([]) == [];
  }

  lemma TableGrows(mid: map<PairKey, PairStats>, table: map<PairKey, PairStats>, before: map<PairKey, PairStats>,
                   pairs: seq<PairState>, i: nat)
    requires i < |pairs| && TableOf(mid, before, pairs[..i])
    requires pairs[i].key in table && table == mid[pairs[i].key := table[pairs[i].key]]
    requires MadeFrom(table[pairs[i].key], pairs[i])
    ensures TableOf(table, before, pairs[..i + 1])
  {
    var keys, keys' := KeysOf(pairs[..i]), KeysOf(pairs[..i + 1]);
    assert pairs[..i + 1][..i] == pairs[..i];
    assert keys' == keys + [pairs[i].key];
    forall k | k in table
      ensures if k in keys' then MadeFrom(table[k], LastRecord(pairs[..i + 1], k)) else k in before && table[k] == before[k]
    {
      if k != pairs[i].key {
        assert k in keys' <==> k in keys;
      }
    }
  }

  /** Restore: names with their origins and quarantine, pairs with their averages and verdicts and out of service, both
      lists sorted, the restored pairs in front of the queue. */
  method Restore(e: CombinationExplorer, doc: SnapshotDoc, now: int) returns (count: nat)
    modifies e`stats, e`ips, e`snis, e`unexplored
    ensures count == |doc.pairs|
    ensures TableOf(e.stats, old(e.stats), doc.pairs)
    ensures KeysStored(e.stats, doc.pairs)
    ensures forall k :: k in KeysOf(doc.pairs) ==> fresh(e.stats[k]) && ToldOrigin(e, e.stats[k])
    ensures SideRestored(old(e.ips), e.ips, doc.ips, doc.pairs, IPs)
    ensures SideRestored(old(e.snis), e.snis, doc.snis, doc.pairs, SNIs)
    ensures e.ips.quarantine == old(e.ips).quarantine + QuarantineOf(doc.ips, now)
    ensures e.snis.quarantine == old(e.snis).quarantine + QuarantineOf(doc.snis, now)
    ensures e.unexplored == KeysOf(doc.pairs) + Without(old(e.unexplored), Elems(KeysOf(doc.pairs)))
  {
    hide TableOf, SideRestored, KeysStored, ToldOrigin;
    var ips := RestoreSide(e.ips, doc.ips, doc.pairs, IPs, now);
    var snis := RestoreSide(e.snis, doc.snis, doc.pairs, SNIs, now);
    e.ips, e.snis := ips, snis;
    RestorePairs(e, doc.pairs);
    var front := KeysOf(doc.pairs);
    if front != [] {
      var rest := Filter(e.unexplored, Elems(front));
      e.unexplored := front + rest;
    } else {
      WithoutAbsent(e.unexplored, Elems(front));
      assert front + e.unexplored == e.unexplored;
    }
    count := |doc.pairs|;
  }

  /** One axis: the recorded names, then the names only the pairs mention, all of it sorted. */
  method RestoreSide(before: Side, names: seq<NameState>, pairs: seq<PairState>, a: Axis, now: int) returns (after: Side)
    ensures SideRestored(before, after, names, pairs, a)
    ensures after.quarantine == before.quarantine + QuarantineOf(names, now)
  {
    var listed, seen := RestoreNames(before, names, now);
    var unlisted := ListNew(pairs, a, seen);
    var sorted := SortStrings(listed.active + unlisted);
    after := listed.(active := sorted);
  }

  // ---- what survives a restart ----

  /** The document records this explorer: `recs` is what it stores for each pair. */
  ghost predicate IsSnapshot(doc: SnapshotDoc, st: State, recs: map<PairKey, PairState>) {
    && (forall a :: IsNameList(doc.On(a), st.On(a)))
    && recs.Keys == st.keys && NoDup(KeysOf(doc.pairs)) && Elems(KeysOf(doc.pairs)) == st.keys
    && forall p :: p in doc.pairs ==> p.key in recs && p == recs[p.key]
  }

  /** This explorer is what restoring the document made of one in state `start`. */
  ghost predicate IsRestored(doc: SnapshotDoc, start: State, st: State, recs: map<PairKey, PairState>) {
    && (forall a :: SideRestored(start.On(a), st.On(a), doc.On(a), doc.pairs, a))
    && st.keys == start.keys + Elems(KeysOf(doc.pairs)) && recs.Keys == st.keys
    && st.queue == KeysOf(doc.pairs) + Without(start.queue, Elems(KeysOf(doc.pairs)))
    && forall k :: k in KeysOf(doc.pairs) ==> k in recs && recs[k] == Retired(LastRecord(doc.pairs, k))
  }

  const NOBODY := Side([], map[], map[])
  /** An explorer without pairs. */
  const NOTHING_CONFIGURED := State({}, [], NOBODY, NOBODY)

  /** A record as a restart leaves it: nothing is in service. */
  function Retired(p: PairState): PairState {
    if p.state == "active" then p.(state := "live") else p
  }

  lemma {:induction false} NothingUnlisted(pairs: seq<PairState>, a: Axis, seen: set<string>)
    requires forall k :: k in KeysOf(pairs) ==> Coord(k, a) in seen
    ensures Unlisted(pairs, a, seen) == []
  {
    if pairs != [] {
      var n := |pairs| - 1;
      assert forall i :: 0 <= i < n ==> KeysOf(pairs)[i] == KeysOf(pairs[..n])[i];
      NothingUnlisted(pairs[..n], a, seen);
      assert pairs[n].key == KeysOf(pairs)[n];
    }
  }

  lemma {:induction false} RecordedLedger(names: seq<NameState>, x: string, origin: string)
    requires forall i :: 0 <= i < |names| && names[i].name == x ==> names[i].origin == origin
    ensures x in LedgerOf(names) <==> x in NamesOf(names)
    ensures x in LedgerOf(names) ==> LedgerOf(names)[x] == origin
  {
    if names != [] {
      var n := |names| - 1;
      RecordedLedger(names[..n], x, origin);
      assert NamesOf(names) == NamesOf(names[..n]) + [names[n].name];
    }
  }

  lemma {:induction false} LiveNamesOnly(names: seq<NameState>, now: int)
    requires forall i :: 0 <= i < |names| ==> names[i].state == "live"
    ensures QuarantineOf(names, now) == map[]
  {
    if names != [] {
      LiveNamesOnly(names[..|names| - 1], now);
    }
  }

  /** Under the explorer's invariant the quarantine is never saved: every recorded name is live, so the document says
      nothing of a quarantined name.  After a restart such a name is live again if it is configured, and unknown if it is
      not. */
  lemma QuarantineIsNotSaved(doc: SnapshotDoc, st: State, lost: Lost, recs: map<PairKey, PairState>, a: Axis)
    requires Within(st, lost) && IsSnapshot(doc, st, recs)
    ensures forall i :: 0 <= i < |doc.On(a)| ==> doc.On(a)[i].state == "live"
    ensures NamesOf(doc.On(a)) == st.On(a).active
    ensures forall x :: x in st.On(a).quarantine ==> x !in NamesOf(doc.On(a))
  {
    assert IsNameList(doc.On(a), st.On(a)) && SideOk(st, a, lost);
    forall i | 0 <= i < |doc.On(a)| ensures doc.On(a)[i].state == "live" && doc.On(a)[i].name == st.On(a).active[i] {
      assert st.On(a).active[i] in Elems(st.On(a).active);
    }
    assert NamesOf(doc.On(a)) == st.On(a).active;
    assert forall x :: x in st.On(a).quarantine ==> x !in Elems(st.On(a).active);
  }

  /** The recorded origins come back: what the ledger said, "static" where it said nothing. */
  lemma LedgerRoundTrip(names: seq<NameState>, side: Side)
    requires IsNameList(names, side)
    ensures LedgerOf(names).Keys == Elems(side.active)
    ensures forall x :: x in side.active ==> LedgerOf(names)[x] == LedgerOr(side.ledger, x)
  {
    forall i | 0 <= i < |names| ensures names[i].name == side.active[i]
                                     && names[i].origin == LedgerOr(side.ledger, side.active[i]) {
      assert names[i] == NameRecord(side, side.active[i]);
    }
    assert NamesOf(names) == side.active;
    forall x
      ensures x in LedgerOf(names) <==> x in side.active
      ensures x in LedgerOf(names) ==> LedgerOf(names)[x] == LedgerOr(side.ledger, x)
    {
      RecordedLedger(names, x, LedgerOr(side.ledger, x));
    }
  }

  /** One axis after a restart: the same names, sorted, with their origins, and an empty quarantine. */
  ghost predicate SideSurvives(s: Side, s': Side) {
    && multiset(s'.active) == multiset(s.active) && SortedBy(s'.active, StringLess) && s'.quarantine == map[]
    && s'.ledger.Keys == Elems(s.active) && forall x :: x in s.active ==> s'.ledger[x] == LedgerOr(s.ledger, x)
  }

  lemma SideRoundTrip(names: seq<NameState>, pairs: seq<PairState>, s: Side, s': Side, a: Axis)
    requires IsNameList(names, s) && NamesOf(names) == s.active
    requires forall i :: 0 <= i < |names| ==> names[i].state == "live"
    requires forall k :: k in KeysOf(pairs) ==> Coord(k, a) in Elems(s.active)
    requires SideRestored(NOBODY, s', names, pairs, a)
    ensures SideSurvives(s, s')
  {
    hide SortedBy, QuarantineOf, LedgerOf, Unlisted, IsNameList, NamesOf, KeysOf, Coord;
    var now :| s'.quarantine == NOBODY.quarantine + QuarantineOf(names, now);
    assert QuarantineOf(names, now) == map[] by {
      LiveNamesOnly(names, now);
    }
    assert Unlisted(pairs, a, Elems(NamesOf(names))) == [] by {
      NothingUnlisted(pairs, a, Elems(NamesOf(names)));
    }
    LedgerRoundTrip(names, s);
    assert [] + s.active + [] == s.active;
  }

  lemma AxisRestarts(doc: SnapshotDoc, st: State, recs: map<PairKey, PairState>, st': State, recs': map<PairKey, PairState>,
                     a: Axis)
    requires Joint(st) && IsSnapshot(doc, st, recs) && IsRestored(doc, NOTHING_CONFIGURED, st', recs')
    ensures SideSurvives(st.On(a), st'.On(a))
  {
    assert IsNameList(doc.On(a), st.On(a));
    assert NOTHING_CONFIGURED.On(a) == NOBODY && SideRestored(NOBODY, st'.On(a), doc.On(a), doc.pairs, a);
    forall k | k in KeysOf(doc.pairs) ensures Coord(k, a) in Elems(st.On(a).active) {
      assert k in Elems(KeysOf(doc.pairs)) && SideOk(st, a, NOTHING);
    }
    QuarantineIsNotSaved(doc, st, NOTHING, recs, a);
    hide Within, SideOk, SideRestored, SideSurvives, IsNameList, NamesOf, KeysOf;
    SideRoundTrip(doc.On(a), doc.pairs, st.On(a), st'.On(a), a);
  }

  lemma SurvivingSideOk(st: State, st': State, a: Axis)
    requires SideOk(st, a, NOTHING) && SideSurvives(st.On(a), st'.On(a)) && st'.keys == st.keys
    ensures SideOk(st', a, NOTHING) && Elems(st'.On(a).active) == Elems(st.On(a).active)
    ensures NoDup(st'.On(a).active) <==> NoDup(st.On(a).active)
  {
    PermutationFacts(st'.On(a).active, st.On(a).active);
    assert st'.On(a).Remembered() == {};
  }

  /** Restoring a snapshot into an explorer without pairs: the same pairs with the same averages, latencies and verdicts,
      none in service, the same names in sorted lists, every pair queued once, and the joint invariant. */
  lemma RestartKeeps(doc: SnapshotDoc, st: State, recs: map<PairKey, PairState>, st': State, recs': map<PairKey, PairState>)
    requires Joint(st) && IsSnapshot(doc, st, recs) && IsRestored(doc, NOTHING_CONFIGURED, st', recs')
    ensures st'.keys == st.keys && recs'.Keys == recs.Keys && forall k :: k in recs ==> recs'[k] == Retired(recs[k])
    ensures NoDup(st'.queue) && Elems(st'.queue) == st'.keys
    ensures SideSurvives(st.ips, st'.ips) && SideSurvives(st.snis, st'.snis)
    ensures Joint(st')
  {
    hide SideSurvives, SideOk, SideRestored, IsNameList, IsRestored, IsSnapshot, Retired;
    RecordsSurvive(doc, st, recs, st', recs');
    AxisRestarts(doc, st, recs, st', recs', IPs);
    AxisRestarts(doc, st, recs, st', recs', SNIs);
    SurvivingSideOk(st, st', IPs);
    SurvivingSideOk(st, st', SNIs);
  }

  lemma RecordsSurvive(doc: SnapshotDoc, st: State, recs: map<PairKey, PairState>, st': State, recs': map<PairKey, PairState>)
    requires IsSnapshot(doc, st, recs) && IsRestored(doc, NOTHING_CONFIGURED, st', recs')
    ensures st'.keys == st.keys && recs'.Keys == recs.Keys && forall k :: k in recs ==> recs'[k] == Retired(recs[k])
    ensures NoDup(st'.queue) && Elems(st'.queue) == st'.keys
  {
    hide SideRestored, IsNameList, Retired;
    assert st'.queue == KeysOf(doc.pairs) + [];
    forall k | k in recs ensures recs'[k] == Retired(recs[k]) {
      assert k in Elems(KeysOf(doc.pairs));
    }
  }

  /** The record of a name in a list that has no quarantined names. */
  lemma RecordsAgree(names: seq<NameState>, side: Side, x: string)
    requires IsNameList(names, side) && forall y :: y in side.active ==> y !in side.quarantine
    ensures x in side.active <==> NameState(x, LedgerOr(side.ledger, x), "live", 0) in names
    ensures forall n :: n in names ==> n == NameState(n.name, LedgerOr(side.ledger, n.name), "live", 0)
  {
    if x in side.active {
      var i :| 0 <= i < |side.active| && side.active[i] == x;
      assert names[i] == NameRecord(side, x);
    }
    forall n | n in names ensures n == NameState(n.name, LedgerOr(side.ledger, n.name), "live", 0) && n.name in side.active {
      var i :| 0 <= i < |names| && names[i] == n;
      assert n == NameRecord(side, side.active[i]);
    }
  }

  lemma SecondList(names: seq<NameState>, s: Side, names': seq<NameState>, s': Side)
    requires IsNameList(names, s) && IsNameList(names', s') && SideSurvives(s, s')
    requires forall y :: y in s.active ==> y !in s.quarantine
    ensures Elems(names') == Elems(names) && |names'| == |names|
  {
    PermutationFacts(s'.active, s.active);
    assert forall y :: y in s.active <==> y in Elems(s'.active);
    forall n: NameState ensures n in names <==> n in names' {
      RecordsAgree(names, s, n.name);
      RecordsAgree(names', s', n.name);
    }
  }

  lemma SecondAxis(doc: SnapshotDoc, st: State, recs: map<PairKey, PairState>, st': State, recs': map<PairKey, PairState>,
                   doc': SnapshotDoc, a: Axis)
    requires Joint(st) && IsSnapshot(doc, st, recs) && IsRestored(doc, NOTHING_CONFIGURED, st', recs')
    requires IsSnapshot(doc', st', recs')
    ensures Elems(doc'.On(a)) == Elems(doc.On(a)) && |doc'.On(a)| == |doc.On(a)|
  {
    assert SideOk(st, a, NOTHING) && IsNameList(doc.On(a), st.On(a)) && IsNameList(doc'.On(a), st'.On(a));
    assert forall y :: y in st.On(a).active ==> y in Elems(st.On(a).active);
    hide Within, SideOk, SideRestored, SideSurvives, IsNameList, KeysOf, IsSnapshot, IsRestored;
    AxisRestarts(doc, st, recs, st', recs', a);
    SecondList(doc.On(a), st.On(a), doc'.On(a), st'.On(a));
  }

  /** A second snapshot is the first one, but for the order of its lists, the time, and pairs in service becoming
      live. */
  lemma SecondSnapshot(doc: SnapshotDoc, st: State, recs: map<PairKey, PairState>, st': State, recs': map<PairKey, PairState>,
                       doc': SnapshotDoc)
    requires Joint(st) && IsSnapshot(doc, st, recs) && IsRestored(doc, NOTHING_CONFIGURED, st', recs')
    requires IsSnapshot(doc', st', recs')
    ensures forall a :: Elems(doc'.On(a)) == Elems(doc.On(a)) && |doc'.On(a)| == |doc.On(a)|
    ensures Elems(doc'.pairs) == set p | p in doc.pairs :: Retired(p)
    ensures |doc'.pairs| == |doc.pairs|
  {
    hide *;
    SecondTable(doc, st, recs, st', recs', doc');
    forall a ensures Elems(doc'.On(a)) == Elems(doc.On(a)) && |doc'.On(a)| == |doc.On(a)| {
      SecondAxis(doc, st, recs, st', recs', doc', a);
    }
  }

  lemma SecondTable(doc: SnapshotDoc, st: State, recs: map<PairKey, PairState>, st': State, recs': map<PairKey, PairState>,
                    doc': SnapshotDoc)
    requires Joint(st) && IsSnapshot(doc, st, recs) && IsRestored(doc, NOTHING_CONFIGURED, st', recs')
    requires IsSnapshot(doc', st', recs')
    ensures Elems(doc'.pairs) == set p | p in doc.pairs :: Retired(p)
    ensures |doc'.pairs| == |doc.pairs|
  {
    hide Joint, Retired, IsNameList, SideRestored, SideSurvives;
    RestartKeeps(doc, st, recs, st', recs');
    NoDupCardinality(KeysOf(doc.pairs));
    NoDupCardinality(KeysOf(doc'.pairs));
    SecondPairs(doc, recs, doc', recs');
  }

  lemma SecondPairs(doc: SnapshotDoc, recs: map<PairKey, PairState>, doc': SnapshotDoc, recs': map<PairKey, PairState>)
    requires recs'.Keys == recs.Keys && forall k :: k in recs ==> recs'[k] == Retired(recs[k])
    requires Elems(KeysOf(doc.pairs)) == recs.Keys && forall p :: p in doc.pairs ==> p.key in recs && p == recs[p.key]
    requires Elems(KeysOf(doc'.pairs)) == recs'.Keys && forall p :: p in doc'.pairs ==> p.key in recs' && p == recs'[p.key]
    ensures Elems(doc'.pairs) == set p | p in doc.pairs :: Retired(p)
  {
    forall q ensures q in doc'.pairs <==> exists p :: p in doc.pairs && q == Retired(p) {
      if q in doc'.pairs {
        assert q.key in Elems(KeysOf(doc.pairs));
        var i :| 0 <= i < |doc.pairs| && KeysOf(doc.pairs)[i] == q.key;
        assert doc.pairs[i] == recs[q.key];
      }
      if p :| p in doc.pairs && q == Retired(p) {
        assert p.key in Elems(KeysOf(doc'.pairs));
        var i :| 0 <= i < |doc'.pairs| && KeysOf(doc'.pairs)[i] == p.key;
        assert doc'.pairs[i] == recs'[p.key];
      }
    }
  }

  // ---- a warm start ----

  /** The names of one axis that the document mentions, in its list or in its pairs. */
  function Mentions(doc: SnapshotDoc, a: Axis): set<string> {
    Elems(NamesOf(doc.On(a))) + Coords(Elems(KeysOf(doc.pairs)), a)
  }

  lemma {:induction false} UnlistedFacts(pairs: seq<PairState>, a: Axis, seen: set<string>)
    ensures NoDup(Unlisted(pairs, a, seen))
    ensures Elems(Unlisted(pairs, a, seen)) == Coords(Elems(KeysOf(pairs)), a) - seen
  {
    if pairs == [] {
      assert KeysOf(pairs) == [];
    } else {
      var n := |pairs| - 1;
      var before, x := Unlisted(pairs[..n], a, seen), Coord(pairs[n].key, a);
      UnlistedFacts(pairs[..n], a, seen);
      assert KeysOf(pairs) == KeysOf(pairs[..n]) + [pairs[n].key];
      assert Elems(KeysOf(pairs)) == Elems(KeysOf(pairs[..n])) + {pairs[n].key};
      CoordsGrow(Elems(KeysOf(pairs[..n])), pairs[n].key, a);
      assert Elems(before + [x]) == Elems(before) + {x};
    }
  }

  /** How often a name is listed after a restore: as before, plus once for each of its records, or once if only pairs
      mention it. */
  lemma RestoredListing(doc: SnapshotDoc, s: Side, s': Side, a: Axis, x: string)
    requires SideRestored(s, s', doc.On(a), doc.pairs, a)
    ensures multiset(s'.active)[x] == multiset(s.active)[x] + multiset(NamesOf(doc.On(a)))[x]
         + if x in Mentions(doc, a) && x !in NamesOf(doc.On(a)) then 1 else 0
  {
    var names := NamesOf(doc.On(a));
    var unlisted := Unlisted(doc.pairs, a, Elems(names));
    UnlistedFacts(doc.pairs, a, Elems(names));
    hide Unlisted, NamesOf, Coords, KeysOf;
    NoDupIsUnit(unlisted);
    assert x in unlisted <==> x in Elems(unlisted);
    assert x in names <==> x in Elems(names);
    assert multiset(unlisted)[x] == if x in unlisted then 1 else 0;
  }

  /** So a restore repeats no name exactly when nothing was repeated and nothing it mentions was listed before. */
  lemma RestoredOnceExactly(doc: SnapshotDoc, s: Side, s': Side, a: Axis)
    requires SideRestored(s, s', doc.On(a), doc.pairs, a)
    ensures Elems(s'.active) == Elems(s.active) + Mentions(doc, a)
    ensures NoDup(s'.active) <==>
      NoDup(s.active) && NoDup(NamesOf(doc.On(a))) && Mentions(doc, a) !! Elems(s.active)
  {
    hide SideRestored, NamesOf;
    var names := NamesOf(doc.On(a));
    NoDupIsUnit(s.active);
    NoDupIsUnit(s'.active);
    NoDupIsUnit(names);
    hide NoDup;
    forall x
      ensures multiset(s'.active)[x] == multiset(s.active)[x] + multiset(names)[x]
           + if x in Mentions(doc, a) && x !in names then 1 else 0
    {
      RestoredListing(doc, s, s', a, x);
    }
    CountsDecide(s.active, names, s'.active, Mentions(doc, a));
  }

  lemma CountsDecide(s: seq<string>, names: seq<string>, s': seq<string>, mentions: set<string>)
    requires Elems(names) <= mentions
    requires forall x :: multiset(s')[x] == multiset(s)[x] + multiset(names)[x] + if x in mentions && x !in names then 1 else 0
    ensures Elems(s') == Elems(s) + mentions
    ensures (forall x :: multiset(s')[x] <= 1) <==>
      (forall x :: multiset(s)[x] <= 1) && (forall x :: multiset(names)[x] <= 1) && mentions !! Elems(s)
  {
    assert forall x :: x in s <==> multiset(s)[x] >= 1;
    assert forall x :: x in s' <==> multiset(s')[x] >= 1;
    assert forall x :: x in names <==> multiset(names)[x] >= 1;
    if forall x :: multiset(s')[x] <= 1 {
      forall x ensures multiset(s)[x] <= 1 && multiset(names)[x] <= 1 {
        assert multiset(s')[x] <= 1;
      }
      forall x | x in mentions ensures x !in Elems(s) {
        assert multiset(s')[x] <= 1 && (x in names || x !in names);
      }
    }
    if (forall x :: multiset(s)[x] <= 1) && (forall x :: multiset(names)[x] <= 1) && mentions !! Elems(s) {
      forall x ensures multiset(s')[x] <= 1 {
        assert multiset(s)[x] <= 1 && multiset(names)[x] <= 1;
        assert x in s ==> x in Elems(s);
        assert x in names ==> x in Elems(names);
      }
    }
  }

  predicate NoneRecordedQuarantined(names: seq<NameState>) {
    forall i :: 0 <= i < |names| ==> names[i].state != "quarantined"
  }

  lemma {:induction false} RecordedQuarantine(names: seq<NameState>, now: int)
    ensures QuarantineOf(names, now).Keys <= Elems(NamesOf(names))
    ensures NoneRecordedQuarantined(names) <==> QuarantineOf(names, now) == map[]
    ensures forall x :: x in QuarantineOf(names, now) ==> QuarantineOf(names, now)[x].partners == []
  {
    if names != [] {
      var n := |names| - 1;
      RecordedQuarantine(names[..n], now);
      assert NamesOf(names) == NamesOf(names[..n]) + [names[n].name];
      assert forall i :: 0 <= i < n ==> names[..n][i] == names[i];
      assert names[n].state == "quarantined" ==> names[n].name in QuarantineOf(names, now);
    }
  }

  /** The part of the invariant that a restore can break: no name is quarantined and also listed or live. */
  ghost predicate Clean(st: State, a: Axis) {
    && Elems(st.On(a).active) !! st.On(a).quarantine.Keys
    && forall k :: k in st.keys ==> Coord(k, a) !in st.On(a).quarantine
  }

  lemma CleanExact(doc: SnapshotDoc, lost: Lost, st: State, st': State, a: Axis)
    requires SideOk(st, a, lost) && SideRestored(st.On(a), st'.On(a), doc.On(a), doc.pairs, a)
    requires st'.keys == st.keys + Elems(KeysOf(doc.pairs))
    ensures Clean(st', a) <==> NoneRecordedQuarantined(doc.On(a)) && Mentions(doc, a) !! st.On(a).quarantine.Keys
  {
    RestoredOnceExactly(doc, st.On(a), st'.On(a), a);
    var now :| st'.On(a).quarantine == st.On(a).quarantine + QuarantineOf(doc.On(a), now);
    RecordedQuarantine(doc.On(a), now);
    hide QuarantineOf, NoneRecordedQuarantined, NamesOf, KeysOf, SortedBy, NoDup, LedgerOf, Unlisted;
    var quarantined := QuarantineOf(doc.On(a), now);
    assert st'.On(a).quarantine.Keys == st.On(a).quarantine.Keys + quarantined.Keys;
    if quarantined.Keys == {} {
      assert quarantined == map[];
      assert forall k :: k in Elems(KeysOf(doc.pairs)) ==> Coord(k, a) in Mentions(doc, a);
    } else {
      var x :| x in quarantined.Keys;
      assert x in Elems(st'.On(a).active) && x in st'.On(a).quarantine.Keys;
    }
    if x :| x in Mentions(doc, a) && x in st.On(a).quarantine.Keys {
      assert x in Elems(st'.On(a).active) && x in st'.On(a).quarantine.Keys;
    }
  }

  /** The rest of the invariant always survives. */
  lemma SideExact(doc: SnapshotDoc, lost: Lost, st: State, st': State, a: Axis)
    requires SideOk(st, a, lost) && SideRestored(st.On(a), st'.On(a), doc.On(a), doc.pairs, a)
    requires SideRestored(st.On(a.Other()), st'.On(a.Other()), doc.On(a.Other()), doc.pairs, a.Other())
    requires st'.keys == st.keys + Elems(KeysOf(doc.pairs))
    ensures SideOk(st', a, lost) <==> Clean(st', a)
  {
    var b := a.Other();
    RestoredOnceExactly(doc, st.On(a), st'.On(a), a);
    RestoredOnceExactly(doc, st.On(b), st'.On(b), b);
    var now :| st'.On(a).quarantine == st.On(a).quarantine + QuarantineOf(doc.On(a), now);
    RecordedQuarantine(doc.On(a), now);
    hide QuarantineOf, NoneRecordedQuarantined, NamesOf, KeysOf, SortedBy, NoDup, LedgerOf, Unlisted;
    assert st.On(b).Known() <= st'.On(b).Known();
    forall y | y in st'.On(a).Remembered() ensures y in st.On(a).Remembered() {
      var w :| w in st'.On(a).quarantine && y in st'.On(a).quarantine[w].partners;
      assert w in st.On(a).quarantine && w !in QuarantineOf(doc.On(a), now);
    }
    forall k | k in st'.keys ensures Coord(k, a) in Elems(st'.On(a).active) + lost.On(a) {
      if k !in st.keys {
        assert Coord(k, a) in Mentions(doc, a);
      }
    }
  }

  /** Restoring into an explorer keeps its invariant exactly when the document records no name as quarantined and mentions
      none that is quarantined there. */
  lemma RestoreExact(doc: SnapshotDoc, lost: Lost, st: State, st': State, recs': map<PairKey, PairState>)
    requires Within(st, lost) && IsRestored(doc, st, st', recs')
    ensures Within(st', lost) <==>
      forall a :: NoneRecordedQuarantined(doc.On(a)) && Mentions(doc, a) !! st.On(a).quarantine.Keys
  {
    hide SideOk, SideRestored, NoneRecordedQuarantined, Mentions, Clean, IsRestored;
    RestoredParts(doc, st, st', recs');
    assert Elems(st.queue) <= st.keys;
    forall a
      ensures SideOk(st', a, lost) <==> NoneRecordedQuarantined(doc.On(a)) && Mentions(doc, a) !! st.On(a).quarantine.Keys
    {
      assert a == IPs || a == SNIs;
      CleanExact(doc, lost, st, st', a);
      SideExact(doc, lost, st, st', a);
    }
  }

  lemma RestoredParts(doc: SnapshotDoc, st: State, st': State, recs': map<PairKey, PairState>)
    requires IsRestored(doc, st, st', recs')
    ensures st'.keys == st.keys + Elems(KeysOf(doc.pairs))
    ensures Elems(st.queue) <= st.keys ==> Elems(st'.queue) <= st'.keys
    ensures forall a :: SideRestored(st.On(a), st'.On(a), doc.On(a), doc.pairs, a)
  {
    hide SideRestored;
    assert Elems(st'.queue) == Elems(KeysOf(doc.pairs)) + Elems(Without(st.queue, Elems(KeysOf(doc.pairs))));
  }

  /** What the program does at a warm start, a new explorer for the configured pairs and the document of an explorer that
      kept its invariant restored into it, always gives an explorer that keeps it.  Nothing is quarantined in it, and all
      configured pairs are live, also those whose names were quarantined at the save. */
  lemma WarmStartIsJoint(doc: SnapshotDoc, lost: Lost, saved: State, recs: map<PairKey, PairState>,
                         combinations: seq<PairKey>, start: State, st: State, recs': map<PairKey, PairState>)
    requires Within(saved, lost) && IsSnapshot(doc, saved, recs) && Initial(start, combinations)
    requires IsRestored(doc, start, st, recs')
    ensures Joint(st) && st.keys == Elems(combinations) + saved.keys
    ensures forall a :: st.On(a).quarantine == map[]
  {
    InitialIsJoint(start, combinations);
    forall a
      ensures NoneRecordedQuarantined(doc.On(a)) && Mentions(doc, a) !! start.On(a).quarantine.Keys
      ensures st.On(a).quarantine == map[]
    {
      QuarantineIsNotSaved(doc, saved, lost, recs, a);
      assert SideRestored(start.On(a), st.On(a), doc.On(a), doc.pairs, a);
      var now :| st.On(a).quarantine == start.On(a).quarantine + QuarantineOf(doc.On(a), now);
      RecordedQuarantine(doc.On(a), now);
    }
    RestoreExact(doc, NOTHING, start, st, recs');
  }

  /** Every restart lists each configured name once more than it was listed at the save: the list of an explorer that has
      been restarted n times holds it n + 1 times, as long as it is listed at every save. */
  lemma ConfiguredNamesPileUp(doc: SnapshotDoc, lost: Lost, saved: State, recs: map<PairKey, PairState>,
                              combinations: seq<PairKey>, start: State, st: State, recs': map<PairKey, PairState>,
                              a: Axis, x: string)
    requires Within(saved, lost) && IsSnapshot(doc, saved, recs) && Initial(start, combinations)
    requires IsRestored(doc, start, st, recs')
    ensures var configured, listed := Coords(Elems(combinations), a), multiset(saved.On(a).active)[x];
      multiset(st.On(a).active)[x] == (if x in configured then 1 else 0) + listed
                                    + if listed == 0 && x in Coords(saved.keys, a) then 1 else 0
    ensures NoDup(st.On(a).active) <==>
      NoDup(saved.On(a).active) && Coords(Elems(combinations), a) !! Elems(saved.On(a).active) + Coords(saved.keys, a)
  {
    assert SideRestored(start.On(a), st.On(a), doc.On(a), doc.pairs, a);
    QuarantineIsNotSaved(doc, saved, lost, recs, a);
    hide SideRestored, IsSnapshot, NamesOf, KeysOf, Within;
    RestoredListing(doc, start.On(a), st.On(a), a, x);
    RestoredOnceExactly(doc, start.On(a), st.On(a), a);
    SnapshotMentions(doc, saved, recs, a);
    NoDupIsUnit(start.On(a).active);
    assert x in start.On(a).active <==> x in Elems(start.On(a).active);
    assert x in saved.On(a).active <==> multiset(saved.On(a).active)[x] > 0;
    assert x in saved.On(a).active <==> x in Elems(saved.On(a).active);
  }

  /** What discovery misses after a warm start: the names listed at the save that have no pair, now or then, and those
      that had a pair without being listed or configured.  Right after a refresh, when the lists agree with the table,
      only forgotten names can be among them. */
  lemma WarmStartMisses(doc: SnapshotDoc, lost: Lost, saved: State, recs: map<PairKey, PairState>,
                        combinations: seq<PairKey>, start: State, st: State, recs': map<PairKey, PairState>, a: Axis)
    requires Within(saved, lost) && IsSnapshot(doc, saved, recs) && Initial(start, combinations)
    requires start.On(a).ledger == StaticLedger(Elems(start.On(a).active)) && IsRestored(doc, start, st, recs')
    ensures var configured, listed, live := Coords(Elems(combinations), a), Elems(saved.On(a).active), Coords(saved.keys, a);
      var missed := Mentioned(st, a) - Coords(st.keys, a) * st.On(a).ledger.Keys;
      && missed == (listed - configured - live) + (live - configured - listed)
      && (Covered(st, {}, a, Coords(st.keys, a)) <==> listed <= configured + live && live <= configured + listed)
      && (ListsAgree(saved, lost) ==> missed <= lost.On(a))
  {
    hide Within, IsSnapshot, SideRestored, Initial, IsNameList, NamesOf, KeysOf, LedgerOf, Mentions, NoDup, Coords, Joint,
         SortedBy, StringLess;
    WarmStartIsJoint(doc, lost, saved, recs, combinations, start, st, recs');
    RestoredAxis(doc, lost, saved, recs, combinations, start, st, recs', a);
    BothCoords(Elems(combinations), saved.keys, a);
    assert st.On(a.Other()).Remembered() == {};
  }

  lemma BothCoords(keys: set<PairKey>, more: set<PairKey>, a: Axis)
    ensures Coords(keys + more, a) == Coords(keys, a) + Coords(more, a)
  {
  }

  /** The list and the ledger of one axis after a warm start. */
  lemma RestoredAxis(doc: SnapshotDoc, lost: Lost, saved: State, recs: map<PairKey, PairState>,
                     combinations: seq<PairKey>, start: State, st: State, recs': map<PairKey, PairState>, a: Axis)
    requires Within(saved, lost) && IsSnapshot(doc, saved, recs) && Initial(start, combinations)
    requires start.On(a).ledger == StaticLedger(Elems(start.On(a).active)) && IsRestored(doc, start, st, recs')
    ensures Elems(st.On(a).active) ==
      Coords(Elems(combinations), a) + Elems(saved.On(a).active) + Coords(saved.keys, a)
    ensures st.On(a).ledger.Keys == Coords(Elems(combinations), a) + Elems(saved.On(a).active)
  {
    hide SideRestored, IsRestored, IsSnapshot, Initial, NamesOf, KeysOf, Within, IsNameList, LedgerOf, Mentions, NoDup,
         Unlisted, SortedBy, Coords;
    AxisParts(doc, saved, recs, combinations, start, st, recs', a);
    QuarantineIsNotSaved(doc, saved, lost, recs, a);
    RestoredOnceExactly(doc, start.On(a), st.On(a), a);
    SnapshotMentions(doc, saved, recs, a);
    LedgerRoundTrip(doc.On(a), saved.On(a));
  }

  lemma AxisParts(doc: SnapshotDoc, saved: State, recs: map<PairKey, PairState>, combinations: seq<PairKey>, start: State,
                  st: State, recs': map<PairKey, PairState>, a: Axis)
    requires IsSnapshot(doc, saved, recs) && Initial(start, combinations) && IsRestored(doc, start, st, recs')
    ensures IsNameList(doc.On(a), saved.On(a)) && SideRestored(start.On(a), st.On(a), doc.On(a), doc.pairs, a)
    ensures Elems(start.On(a).active) == Coords(Elems(combinations), a)
    ensures st.On(a).ledger == start.On(a).ledger + LedgerOf(doc.On(a))
  {
    hide IsNameList, NoDup, SortedBy, KeysOf, Unlisted, LedgerOf;
  }

  lemma SnapshotMentions(doc: SnapshotDoc, st: State, recs: map<PairKey, PairState>, a: Axis)
    requires IsSnapshot(doc, st, recs) && NamesOf(doc.On(a)) == st.On(a).active
    ensures Mentions(doc, a) == Elems(st.On(a).active) + Coords(st.keys, a)
  {
  }

  /** The probe counters are not saved, so the recorded loss of a restored pair does not count until its third probe:
      a pair recorded as probed and alive is stable at once, whatever its averages were. */
  lemma RestoredIsStable(e: CombinationExplorer, ps: PairStats, p: PairState)
    requires MadeFrom(ps, p) && p.stats.Some? && e.lossThreshold > 0.0
    ensures e.IsStable(ps) <==> p.stats.value.probed && p.stats.value.alive
  {
    assert ps.CombinedLossRate() == 0.0;
    assert RecordOf(ps) == p.stats.value;
  }

  // ---- the whole restart ----

  ghost function Records(e: CombinationExplorer): (recs: map<PairKey, PairState>)
    reads e, e.stats.Values
    ensures recs.Keys == e.stats.Keys
  {
    map k | k in e.stats :: PairRecord(e.stats[k])
  }

  lemma SnapshotIsSnapshot(e: CombinationExplorer, doc: SnapshotDoc)
    requires forall a :: IsNameList(doc.On(a), e.On(a))
    requires NoDup(KeysOf(doc.pairs)) && Elems(KeysOf(doc.pairs)) == e.stats.Keys
    requires forall p :: p in doc.pairs ==> p.key in e.stats && p == PairRecord(e.stats[p.key])
    ensures IsSnapshot(doc, e.Abs(), Records(e))
  {
    assert forall a :: e.Abs().On(a) == e.On(a);
  }

  /** Out of service and without connections. */
  predicate IsIdle(k: PairKey, ps: PairStats)
    reads ps
  {
    ps.Key() == k && !ps.inActivePool && ps.activeConnections == 0
  }

  lemma RestoreIsRestored(e: CombinationExplorer, doc: SnapshotDoc, lost: Lost, st: State, recs: map<PairKey, PairState>,
                          start: State, before: map<PairKey, PairStats>)
    requires IsSnapshot(doc, st, recs) && forall k :: k in recs ==> WellFormed(recs[k])
    requires before.Keys == start.keys && forall k :: k in before ==> IsIdle(k, before[k])
    requires TableOf(e.stats, before, doc.pairs)
    requires SideRestored(start.ips, e.ips, doc.ips, doc.pairs, IPs)
    requires SideRestored(start.snis, e.snis, doc.snis, doc.pairs, SNIs)
    requires e.unexplored == KeysOf(doc.pairs) + Without(start.queue, Elems(KeysOf(doc.pairs)))
    ensures IsRestored(doc, start, e.Abs(), Records(e))
    ensures forall k :: k in e.stats ==> IsIdle(k, e.stats[k])
  {
    hide SideRestored, IsNameList;
    forall k | k in KeysOf(doc.pairs)
      ensures k in e.stats && PairRecord(e.stats[k]) == Retired(LastRecord(doc.pairs, k)) && IsIdle(k, e.stats[k])
    {
      assert k in Elems(KeysOf(doc.pairs));
    }
  }

  /** The state of a recorded pair says no more than its record and its service flag. */
  predicate WellFormed(p: PairState) {
    p.stats.Some? && exists inPool :: p.state == StateOf(p.stats.value.alive, inPool)
  }

  lemma RecordsAreWellFormed(e: CombinationExplorer)
    requires e.Valid()
    ensures Within(e.Abs(), e.lost) && forall k :: k in Records(e) ==> WellFormed(Records(e)[k])
  {
  }

  lemma NoneIsServing(e: CombinationExplorer)
    requires forall k :: k in e.stats ==> StaticPair(k, e.stats[k])
    ensures forall k :: k in e.stats ==> IsIdle(k, e.stats[k])
  {
  }

  /** BuildConnectionManager with a saved document: a new explorer for the configured pairs, then the document restored
      into it, at whatever time. */
  method WarmStart(combinations: seq<PairKey>, doc: SnapshotDoc, probeCount: int, lossThreshold: real, deadThreshold: real,
                   ghost lost: Lost, ghost st: State, ghost recs: map<PairKey, PairState>)
    returns (e: CombinationExplorer, ghost start: State)
    requires Within(st, lost) && IsSnapshot(doc, st, recs) && forall k :: k in recs ==> WellFormed(recs[k])
    ensures fresh(e) && e.Valid() && e.lost == NOTHING && Initial(start, combinations)
    ensures forall a :: start.On(a).ledger == StaticLedger(Elems(start.On(a).active))
    ensures IsRestored(doc, start, e.Abs(), Records(e)) && e.stats.Keys == Elems(combinations) + st.keys
    ensures forall k :: k in e.stats ==> IsIdle(k, e.stats[k])
  {
    hide Within, IsSnapshot, IsRestored, TableOf, SideRestored, KeysStored, IsNameList, WellFormed, Retired, Initial;
    hide StaticPair, StaticLedger, SortedBy;
    e := new CombinationExplorer(combinations, probeCount, lossThreshold, deadThreshold);
    NoneIsServing(e);
    start := e.Abs();
    ghost var before := e.stats;
    var now: int := *;
    var _ := Restore(e, doc, now);
    RestoreIsRestored(e, doc, lost, st, recs, start, before);
    WarmStartIsJoint(doc, lost, st, recs, combinations, start, e.Abs(), Records(e));
  }

  /** Saving and starting over: a new explorer for the configured pairs with everything recorded of the old one. */
  method Restart(e: CombinationExplorer, combinations: seq<PairKey>, now: int)
    returns (e': CombinationExplorer, doc: SnapshotDoc, ghost start: State)
    requires e.Valid()
    ensures fresh(e') && e'.Valid() && e'.lost == NOTHING && Initial(start, combinations)
    ensures IsSnapshot(doc, e.Abs(), Records(e)) && IsRestored(doc, start, e'.Abs(), Records(e'))
    ensures forall k :: k in e'.stats ==> IsIdle(k, e'.stats[k])
  {
    hide *;
    ghost var st, recs := e.Abs(), Records(e);
    RecordsAreWellFormed(e);
    doc := Snapshot(e, now);
    SnapshotIsSnapshot(e, doc);
    e', start := WarmStart(combinations, doc, e.probeCount, e.lossThreshold, e.deadThreshold, e.lost, st, recs);
  }
}
