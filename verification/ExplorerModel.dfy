/** The pair explorer of internal/pool/pool.go on values: its state, one step for each thing a public
    operation does to it, and what every run of steps keeps.

    The source writes every operation twice, once for IPs and once for SNIs, with the roles of the two
    exchanged; here one definition takes the axis as a parameter.  The class in Explorer.dfy is proved
    to do these steps. */
module ExplorerModel {
  import opened Sequences

  datatype PairKey = PairKey(ip: string, sni: string)

  datatype Axis = IPs | SNIs {
    function Other(): Axis {
      if IPs? then SNIs else IPs
    }
  }

  function Coord(k: PairKey, a: Axis): string {
    if a.IPs? then k.ip else k.sni
  }

  /** The key carrying `x` on axis `a` and `y` on the other one. */
  function KeyOn(a: Axis, x: string, y: string): PairKey {
    if a.IPs? then PairKey(x, y) else PairKey(y, x)
  }

  /** The names that the keys carry on one axis. */
  function Coords(keys: set<PairKey>, a: Axis): set<string> {
    set k | k in keys :: Coord(k, a)
  }

  /** The partners, on the other axis, of a name. */
  function PartnersOf(keys: set<PairKey>, a: Axis, x: string): set<string> {
    set k | k in keys && Coord(k, a) == x :: Coord(k, a.Other())
  }

  datatype Quarantined = Quarantined(partners: seq<string>, origin: string, evictedAt: int, lastAttempt: int,
                                     attempts: nat)

  /** One axis: the active list (AllIPs / AllSNIs), the quarantine and the origin ledger. */
  datatype Side = Side(active: seq<string>, quarantine: map<string, Quarantined>, ledger: map<string, string>) {
    function Known(): set<string> {
      Elems(active) + quarantine.Keys
    }

    /** Every name that some quarantined name of this axis remembers as a partner. */
    ghost function Remembered(): set<string> {
      set x, y | x in quarantine && y in quarantine[x].partners :: y
    }
  }

  datatype State = State(keys: set<PairKey>, queue: seq<PairKey>, ips: Side, snis: Side) {
    function On(a: Axis): Side {
      if a.IPs? then ips else snis
    }

    function With(a: Axis, s: Side): (r: State)
      ensures r.On(a) == s && r.On(a.Other()) == On(a.Other()) && r.keys == keys && r.queue == queue
    {
      if a.IPs? then this.(ips := s) else this.(snis := s)
    }
  }

  // ---- the steps ----

  datatype Step =
    | Evict(a: Axis, x: string, partners: seq<string>, origin: string, t: int)
    | Sweep(a: Axis, t: int)
    | Trim(a: Axis, dropped: set<string>)
    | Attempt(a: Axis, x: string, now: int, t: int, cooldown: int)
    | Restore(a: Axis, x: string, others: seq<string>)
    | Add(k: PairKey)
    | Prioritize(front: seq<PairKey>)
    | Take(n: nat)
    | Reshuffle(order: seq<PairKey>)
    | DropPairs(a: Axis, x: string)
    | DropName(a: Axis, x: string)
    | SetOrigin(a: Axis, x: string, origin: string)

  function Carrying(ks: set<PairKey>, a: Axis, names: set<string>): set<PairKey> {
    set k | k in ks && Coord(k, a) in names
  }

  /** The queue without the keys that carry one of `names`. */
  function Purge(queue: seq<PairKey>, a: Axis, names: set<string>): seq<PairKey> {
    Without(queue, Carrying(Elems(queue), a, names))
  }

  function Evicted(st: State, a: Axis, x: string, info: Quarantined): State {
    var s := st.On(a);
    st.With(a, s.(active := Without(s.active, {x}), quarantine := s.quarantine[x := info]))
      .(keys := st.keys - Carrying(st.keys, a, {x}), queue := Purge(st.queue, a, {x}))
  }

  function Orphans(st: State, a: Axis): set<string> {
    Elems(st.On(a).active) - Coords(st.keys, a) - st.On(a).quarantine.Keys
  }

  function LedgerOr(ledger: map<string, string>, x: string): string {
    if x in ledger && ledger[x] != "" then ledger[x] else "static"
  }

  /** The quarantine entries of orphans: no remembered partner, the origin of the ledger. */
  function OrphanEntries(ledger: map<string, string>, orphans: set<string>, t: int): map<string, Quarantined> {
    map x | x in orphans :: Quarantined([], LedgerOr(ledger, x), t, t, 0)
  }

  function Swept(st: State, a: Axis, t: int): State {
    var s := st.On(a);
    var orphans := Orphans(st, a);
    var entries := OrphanEntries(s.ledger, orphans, t);
    st.With(a, s.(active := Without(s.active, orphans), quarantine := s.quarantine + entries))
      .(queue := Purge(st.queue, a, orphans))
  }

  /** The partners that a restored name gets its pairs back with: none that is itself quarantined. */
  function RestoredKeys(keys: set<PairKey>, a: Axis, x: string, others: seq<string>, blocked: set<string>): seq<PairKey> {
    if others == [] then []
    else
      var done := RestoredKeys(keys, a, x, others[..|others| - 1], blocked);
      var y := others[|others| - 1];
      var k := KeyOn(a, x, y);
      if y in blocked || k in keys || k in done then done else done + [k]
  }

  function Appended(names: seq<string>, x: string): seq<string> {
    if x in names then names else names + [x]
  }

  function Restored(st: State, a: Axis, x: string, others: seq<string>): State {
    var s := st.On(a);
    var back := RestoredKeys(st.keys, a, x, others, st.On(a.Other()).quarantine.Keys);
    st.With(a, s.(active := Appended(s.active, x), quarantine := s.quarantine - {x}))
      .(keys := st.keys + Elems(back), queue := st.queue + back)
  }

  function Added(st: State, k: PairKey): State {
    if k in st.keys then st
    else State(st.keys + {k}, st.queue + [k],
               st.ips.(active := Appended(st.ips.active, k.ip)),
               st.snis.(active := Appended(st.snis.active, k.sni)))
  }

  /** The given keys that become the front of the queue: named on both axes, first occurrence only. */
  function Front(keys: seq<PairKey>): (r: seq<PairKey>)
  {
    if keys == [] then []
    else
      var done := Front(keys[..|keys| - 1]);
      var k := keys[|keys| - 1];
      if k.ip == "" || k.sni == "" || k in done then done else done + [k]
  }

  /** The pairs of `front` enter the table; the queue is dealt with in Prioritized. */
  function Enrolled(st: State, front: seq<PairKey>): State {
    if front == [] then st
    else
      var before := Enrolled(st, front[..|front| - 1]);
      Added(before, front[|front| - 1]).(queue := before.queue)
  }

  function Prioritized(st: State, keys: seq<PairKey>): State {
    var front := Front(keys);
    Enrolled(st, front).(queue := front + Without(st.queue, Elems(front)))
  }

  function RemoveFirst(names: seq<string>, x: string): seq<string> {
    if names == [] then []
    else if names[0] == x then names[1..]
    else [names[0]] + RemoveFirst(names[1..], x)
  }

  function Apply(st: State, step: Step): State
    requires Enabled(st, step)
  {
    match step
    case Evict(a, x, partners, origin, t) => Evicted(st, a, x, Quarantined(partners, origin, t, t, 0))
    case Sweep(a, t) => Swept(st, a, t)
    case Trim(a, dropped) => st.With(a, st.On(a).(quarantine := st.On(a).quarantine - dropped))
    case Attempt(a, x, _, t, _) =>
      var info := st.On(a).quarantine[x];
      st.With(a, st.On(a).(quarantine := st.On(a).quarantine[x := info.(lastAttempt := t, attempts := info.attempts + 1)]))
    case Restore(a, x, others) => Restored(st, a, x, others)
    case Add(k) => Added(st, k)
    case Prioritize(keys) => Prioritized(st, keys)
    case Take(n) => st.(queue := st.queue[n..])
    case Reshuffle(order) => st.(queue := order)
    case DropPairs(a, x) => st.(keys := st.keys - Carrying(st.keys, a, {x}), queue := Purge(st.queue, a, {x}))
    case DropName(a, x) =>
      st.With(a, st.On(a).(active := RemoveFirst(st.On(a).active, x), ledger := st.On(a).ledger - {x}))
    case SetOrigin(a, x, origin) => st.With(a, st.On(a).(ledger := st.On(a).ledger[x := origin]))
  }

  /** Discovery asks before it adds: the pair is there already, or neither of its names is quarantined. */
  predicate Welcome(st: State, k: PairKey) {
    k in st.keys || (k.ip !in st.ips.quarantine && k.sni !in st.snis.quarantine)
  }

  ghost predicate Enabled(st: State, step: Step) {
    match step
    case Evict(a, x, partners, _, _) =>
      x in Coords(st.keys, a) && NoDup(partners) && Elems(partners) == PartnersOf(st.keys, a, x)
    case Sweep(_, _) => true
    case Trim(a, dropped) => dropped <= st.On(a).quarantine.Keys
    case Attempt(a, x, now, t, cooldown) =>
      x in st.On(a).quarantine && now - st.On(a).quarantine[x].lastAttempt >= cooldown && now <= t
    case Restore(a, x, others) =>
      x in st.On(a).quarantine &&
      var partners := st.On(a).quarantine[x].partners;
      if partners != [] then others == partners
      else |others| == 1 && others[0] in st.On(a.Other()).active
    case Add(k) => Welcome(st, k)
    case Prioritize(keys) => forall k :: k in Front(keys) ==> Welcome(st, k)
    case Take(n) => n <= |st.queue|
    case Reshuffle(order) => NoDup(order) && Elems(order) == st.keys
    case DropPairs(_, _) => true
    case DropName(_, _) => true
    case SetOrigin(_, _, _) => true
  }

  /** Discovery forgetting a name: all its pairs, then its first listing and its origin. */
  function Forgot(st: State, a: Axis, x: string): State {
    Apply(Apply(st, DropPairs(a, x)), DropName(a, x))
  }

  // ---- the joint invariant ----

  /** Names that trimming or discovery has forgotten, by axis. */
  datatype Lost = Lost(ips: set<string>, snis: set<string>) {
    function On(a: Axis): set<string> {
      if a.IPs? then ips else snis
    }

    function Plus(l: Lost): Lost {
      Lost(ips + l.ips, snis + l.snis)
    }
  }

  const NOTHING := Lost({}, {})

  lemma PlusNothing(l: Lost)
    ensures l.Plus(NOTHING) == l == NOTHING.Plus(l)
  {
  }

  function OnAxis(a: Axis, names: set<string>): Lost {
    if a.IPs? then Lost(names, {}) else Lost({}, names)
  }

  /** What one step forgets. */
  function Dropped(step: Step): Lost {
    match step
    case Trim(a, dropped) => OnAxis(a, dropped)
    case DropName(a, x) => OnAxis(a, {x})
    case _ => NOTHING
  }

  ghost predicate SideOk(st: State, a: Axis, lost: Lost) {
    var s := st.On(a);
    && Elems(s.active) !! s.quarantine.Keys
    && (forall k :: k in st.keys ==> Coord(k, a) !in s.quarantine)
    && (forall k :: k in st.keys ==> Coord(k, a) in Elems(s.active) + lost.On(a))
    && s.Remembered() <= st.On(a.Other()).Known() + lost.On(a.Other())
  }

  /** The invariant of every run, up to the names forgotten so far. */
  ghost predicate Within(st: State, lost: Lost) {
    SideOk(st, IPs, lost) && SideOk(st, SNIs, lost) && Elems(st.queue) <= st.keys
  }

  /** No live pair is quarantined on either axis, every live name is listed, no name is listed and quarantined, and
      every remembered partner is a known name. */
  ghost predicate Joint(st: State) {
    Within(st, NOTHING)
  }

  /** No list repeats a name.  A warm start breaks this, so it is no part of the invariant above. */
  ghost predicate ListedOnce(st: State) {
    forall a :: NoDup(st.On(a).active)
  }
}
