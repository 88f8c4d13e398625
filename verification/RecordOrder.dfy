/** When a tlshello layer writes its records in order: a layer that takes all its delays for zero holds back the records
    without delay, and an upside-down range such as "5-0" gives a delay all the same. */
module RecordOrder {
  import opened Bytes
  import opened TlsRecords
  import opened MaskRuns

  // ---- one run ----

  predicate Holds(round: Round) {
    round.Cut? && round.length > 0 && round.delay == 0
  }

  predicate Sends(round: Round) {
    round.Cut? && round.length > 0 && round.delay != 0
  }

  /** A record that carries something is held back, and a later one is not. */
  ghost predicate Overtaken(plan: seq<Round>) {
    exists i, j :: 0 <= i < j < |plan| && Holds(plan[i]) && Sends(plan[j])
  }

  lemma {:induction false} NothingHeld(data: seq<Byte>, plan: seq<Round>)
    requires Offset(plan) <= |data| && forall i :: 0 <= i < |plan| ==> !Holds(plan[i])
    ensures Joined(HeldPieces(data, plan, true)) == []
  {
    if plan != [] {
      var before, last := plan[..|plan| - 1], plan[|plan| - 1];
      NothingHeld(data, before);
      var held := HeldPieces(data, before, true);
      assert held + [] == held;
      if last.Cut? {
        assert !Holds(last);
        var piece := data[Offset(before)..Offset(plan)];
        assert (held + [piece])[..|held|] == held;
      }
    }
  }

  lemma StillOvertaken(before: seq<Round>, last: Round)
    ensures Overtaken(before) ==> Overtaken(before + [last])
  {
    if i, j :| 0 <= i < j < |before| && Holds(before[i]) && Sends(before[j]) {
      var plan := before + [last];
      assert Holds(plan[i]) && Sends(plan[j]);
    }
  }

  /** Where nothing is overtaken the pieces join to the data. */
  lemma {:induction false} InOrderJoins(data: seq<Byte>, plan: seq<Round>)
    requires Offset(plan) <= |data| && !Overtaken(plan)
    ensures Joined(SentPieces(data, plan, true)) + Joined(HeldPieces(data, plan, true)) == data[..Offset(plan)]
  {
    if plan != [] {
      var before, last := plan[..|plan| - 1], plan[|plan| - 1];
      assert plan == before + [last];
      StillOvertaken(before, last);
      InOrderJoins(data, before);
      assert forall i :: 0 <= i < |before| ==> before[i] == plan[i];
      if Sends(last) {
        NothingHeld(data, before);
      }
      OneMoreRound(data, before, last);
    }
  }

  lemma JoinedStep(s: seq<seq<Byte>>, piece: seq<Byte>)
    ensures Joined(s + [piece]) == Joined(s) + piece
  {
    assert (s + [piece])[..|s|] == s;
  }

  /** The bytes of a round that starts at `from`. */
  function PieceOf(data: seq<Byte>, from: nat, round: Round): seq<Byte>
    requires from + (if round.Cut? then round.length else 0) <= |data|
  {
    if round.Cut? then data[from..from + round.length] else []
  }

  lemma PiecesStep(data: seq<Byte>, before: seq<Round>, last: Round)
    requires Offset(before + [last]) <= |data|
    ensures Offset(before + [last]) == Offset(before) + if last.Cut? then last.length else 0
    ensures var plan, piece := before + [last], PieceOf(data, Offset(before), last);
      && Joined(SentPieces(data, plan, true)) == Joined(SentPieces(data, before, true)) + (if last.delay == 0 then [] else piece)
      && Joined(HeldPieces(data, plan, true)) == Joined(HeldPieces(data, before, true)) + if last.delay == 0 then piece else []
  {
    hide Joined;
    var plan := before + [last];
    assert plan[..|plan| - 1] == before;
    var sent, held := SentPieces(data, before, true), HeldPieces(data, before, true);
    assert sent + [] == sent && held + [] == held;
    assert Joined(sent) + [] == Joined(sent) && Joined(held) + [] == Joined(held);
    if last.Cut? {
      JoinedStep(sent, PieceOf(data, Offset(before), last));
      JoinedStep(held, PieceOf(data, Offset(before), last));
    }
  }

  lemma OneMoreRound(data: seq<Byte>, before: seq<Round>, last: Round)
    requires Offset(before + [last]) <= |data| && Offset(before) <= Offset(before + [last])
    requires Joined(SentPieces(data, before, true)) + Joined(HeldPieces(data, before, true)) == data[..Offset(before)]
    requires Sends(last) ==> Joined(HeldPieces(data, before, true)) == []
    ensures var plan := before + [last];
      Joined(SentPieces(data, plan, true)) + Joined(HeldPieces(data, plan, true)) == data[..Offset(plan)]
  {
    hide Joined, SentPieces, HeldPieces, Offset;
    var sent, held := Joined(SentPieces(data, before, true)), Joined(HeldPieces(data, before, true));
    PiecesStep(data, before, last);
    PieceGrows(data, Offset(before), last);
    var piece := PieceOf(data, Offset(before), last);
    if last.delay == 0 {
      Extended(sent, held, data[..Offset(before)], [], piece);
    } else {
      Extended(sent, held, data[..Offset(before)], piece, []);
    }
  }

  lemma PieceGrows(data: seq<Byte>, from: nat, round: Round)
    requires from + (if round.Cut? then round.length else 0) <= |data|
    ensures var piece := PieceOf(data, from, round);
      && data[..from + if round.Cut? then round.length else 0] == data[..from] + piece
      && piece + [] == piece && [] + piece == piece
      && (round.delay != 0 && !Sends(round) ==> piece == [])
  {
  }

  lemma Extended(sent: seq<Byte>, held: seq<Byte>, done: seq<Byte>, now: seq<Byte>, later: seq<Byte>)
    requires sent + held == done && (now == [] || (later == [] && held == []))
    ensures (sent + now) + (held + later) == done + (now + later)
  {
  }

  /** Data that marks its own pieces: 1 in those sent at once, 0 in those held back. */
  function Marked(plan: seq<Round>): (data: seq<Byte>)
    ensures |data| == Offset(plan)
  {
    if plan == [] then []
    else
      var last := plan[|plan| - 1];
      Marked(plan[..|plan| - 1]) +
      match last
      case Idle(_) => []
      case Cut(l, delay) => seq(l, _ => if delay == 0 then 0 else 1)
  }

  ghost predicate All(s: seq<Byte>, b: Byte) {
    forall i :: 0 <= i < |s| ==> s[i] == b
  }

  lemma {:induction false} MarksAreTrue(data: seq<Byte>, plan: seq<Round>)
    requires Offset(plan) <= |data| && data[..Offset(plan)] == Marked(plan)
    ensures All(Joined(SentPieces(data, plan, true)), 1) && All(Joined(HeldPieces(data, plan, true)), 0)
  {
    if plan != [] {
      var before, last := plan[..|plan| - 1], plan[|plan| - 1];
      assert data[..Offset(before)] == data[..Offset(plan)][..Offset(before)] == Marked(before);
      MarksAreTrue(data, before);
      var sent, held := SentPieces(data, before, true), HeldPieces(data, before, true);
      assert sent + [] == sent && held + [] == held;
      if last.Cut? {
        var piece := data[Offset(before)..Offset(plan)];
        assert piece == data[..Offset(plan)][Offset(before)..];
        assert (sent + [piece])[..|sent|] == sent && (held + [piece])[..|held|] == held;
      }
    }
  }

  /** The byte of a round that carries one bears the round's mark. */
  lemma {:induction false} MarkOf(plan: seq<Round>, i: nat) returns (x: nat)
    requires i < |plan| && plan[i].Cut? && plan[i].length > 0
    ensures Offset(plan[..i]) <= x < Offset(plan[..i + 1]) <= |Marked(plan)|
    ensures Marked(plan)[x] == if plan[i].delay == 0 then 0 else 1
  {
    var before := plan[..|plan| - 1];
    if i == |plan| - 1 {
      assert plan[..i] == before && plan[..i + 1] == plan;
      x := Offset(before);
    } else {
      x := MarkOf(before, i);
      assert before[..i] == plan[..i] && before[..i + 1] == plan[..i + 1];
    }
  }

  lemma {:induction false} OffsetGrows(plan: seq<Round>, i: nat, j: nat)
    requires i <= j <= |plan|
    ensures Offset(plan[..i]) <= Offset(plan[..j])
  {
    if i < j {
      OffsetGrows(plan, i, j - 1);
      assert plan[..j][..j - 1] == plan[..j - 1];
    }
  }

  /** Where something is overtaken, the marked data arrives in another order. */
  lemma OvertakenDiffers(plan: seq<Round>)
    requires Overtaken(plan)
    ensures Joined(Wire(Marked(plan), plan, true)) != Marked(plan)
  {
    var data := Marked(plan);
    var i, j :| 0 <= i < j < |plan| && Holds(plan[i]) && Sends(plan[j]);
    var x := MarkOf(plan, i);
    var y := MarkOf(plan, j);
    OffsetGrows(plan, i + 1, j);
    assert data[..Offset(plan)] == data;
    MarksAreTrue(data, plan);
    var sent, held := SentPieces(data, plan, true), HeldPieces(data, plan, true);
    JoinedConcat(sent, held);
    hide Marked, Joined, SentPieces, HeldPieces;
    MarksAreSorted(Joined(sent), Joined(held), data, x, y);
  }

  lemma MarksAreSorted(ones: seq<Byte>, zeros: seq<Byte>, data: seq<Byte>, x: nat, y: nat)
    requires All(ones, 1) && All(zeros, 0) && x < y < |data| && data[x] == 0 && data[y] == 1
    ensures ones + zeros != data
  {
    if |ones + zeros| == |data| {
      var k := if x < |ones| then x else y;
      assert (ones + zeros)[k] != data[k];
    }
  }

  /** A payload in one record, written by such a run, is read as it was for all payloads exactly when nothing is
      overtaken. */
  lemma RunIsSame(p: seq<Byte>, plan: seq<Round>, allZero: bool)
    requires Complete(p) && |p| > 5 && Offset(plan) == HeaderLength(p) - 5
    requires allZero ==> !Overtaken(plan)
    ensures Same(p, Flat(HelloEmissions(p, plan, allZero)))
  {
    var data := p[5..HeaderLength(p)];
    assert data[..Offset(plan)] == data;
    hide Flat, HelloEmissions, Same, Overtaken, Joined;
    HelloIsSame(p, plan, allZero);
    JoinedConcat(SentPieces(data, plan, allZero), HeldPieces(data, plan, allZero));
    if allZero {
      InOrderJoins(data, plan);
    } else {
      AllSent(data, plan);
      PiecesJoin(data, plan);
      assert Pieces(data, plan) + [] == Pieces(data, plan);
    }
  }

  lemma RunIsNotSame(plan: seq<Round>) returns (p: seq<Byte>)
    requires Overtaken(plan) && Offset(plan) < 0x10000
    ensures p == Frame(0x16, 3, 1, Marked(plan)) && Complete(p) && HeaderLength(p) == |p| == 5 + Offset(plan) && |p| > 5
    ensures !Same(p, Flat(HelloEmissions(p, plan, true)))
  {
    hide Flat, HelloEmissions, Same, Joined, Frame, Marked, Put16, U16, Wire;
    var i, j :| 0 <= i < j < |plan| && Holds(plan[i]) && Sends(plan[j]);
    var _ := MarkOf(plan, i);
    p := Frame(0x16, 3, 1, Marked(plan));
    FrameIsComplete(0x16, 3, 1, Marked(plan));
    OvertakenDiffers(plan);
    HelloIsSame(p, plan, true);
  }

  lemma FrameIsComplete(contentType: Byte, major: Byte, minor: Byte, payload: seq<Byte>)
    requires |payload| < 0x10000
    ensures var p := Frame(contentType, major, minor, payload);
      Complete(p) && HeaderLength(p) == |p| && p[0] == contentType && p[5..|p|] == payload
  {
    hide Put16, U16;
    var p, size := Frame(contentType, major, minor, payload), Put16(|payload|);
    assert p[3] == size[0] && p[4] == size[1];
  }

  // ---- the settings ----

  /** The longest payload of a record. */
  const MAX_PAYLOAD := 0xFFFF

  function Low(s: Settings, k: nat): nat
    requires s.WellFormed()
  {
    s.LengthRange(k).from
  }

  function High(s: Settings, k: nat): nat
    requires s.WellFormed()
  {
    if s.LengthRange(k).to <= s.LengthRange(k).from then s.LengthRange(k).from else s.LengthRange(k).to
  }

  /** Round `k` may idle. */
  predicate MaySkip(s: Settings, k: nat)
    requires s.WellFormed()
  {
    Low(s, k) == 0 && k < |s.lengths| - 1
  }

  /** The bytes taken before round `j` when every length is picked as small as can be, but round `i` carries one. */
  function LeastBytes(s: Settings, i: nat, j: nat): nat
    requires s.WellFormed()
  {
    if j == 0 then 0
    else LeastBytes(s, i, j - 1) + if j - 1 == i && Low(s, i) == 0 then 1 else Low(s, j - 1)
  }

  /** The cuts before round `j` that cannot be idled away, that of round `i` among them. */
  function Forced(s: Settings, i: nat, j: nat): nat
    requires s.WellFormed()
  {
    if j == 0 then 0 else Forced(s, i, j - 1) + if j - 1 == i || !MaySkip(s, j - 1) then 1 else 0
  }

  /** The rounds before `j` that may idle or cut. */
  function Optional(s: Settings, i: nat, j: nat): nat
    requires s.WellFormed()
  {
    if j == 0 then 0
    else Optional(s, i, j - 1) + if j - 1 != i && MaySkip(s, j - 1) && High(s, j - 1) > 0 then 1 else 0
  }

  function MostSplits(s: Settings): int {
    if s.maxSplit.to <= s.maxSplit.from then s.maxSplit.from else s.maxSplit.to
  }

  /**
   * Round `i` has no delay and can carry a byte, round `j` after it has one and can carry a byte as well, with `c` cuts
   * more than need be in between. A length above 0 lets a round carry one, as long as splits are left; a length of 0
   * does when the round is the last split, which takes all the rest.
   */
  predicate Swap(s: Settings, i: nat, j: nat, c: nat)
    requires s.WellFormed()
  {
    && i < j && s.DelayRange(i).from == 0 && s.DelayRange(j).from > 0
    && High(s, i) > 0 && c <= Optional(s, i, j) && LeastBytes(s, i, j) + c < MAX_PAYLOAD
    && if High(s, j) > 0 then c == 0 && (s.maxSplit.from == 0 || Forced(s, i, j) < MostSplits(s))
       else j >= |s.lengths| - 1 && s.maxSplit.May(Forced(s, i, j) + c + 1)
  }

  /** No round past this one behaves differently. */
  function Reach(s: Settings): nat
    requires s.WellFormed()
  {
    |s.lengths| + |s.delays| + MostSplits(s)
  }

  /** Whether a tlshello layer with these settings always writes its records in order, judged by the settings alone. */
  predicate KeepsOrder(s: Settings)
    requires s.WellFormed()
  {
    s.AllDelaysZero() ==> forall i, j, c :: 0 <= i < j < Reach(s) && 0 <= c <= j ==> !Swap(s, i, j, c)
  }

  // ---- a swap of the settings is a run ----

  /** A run up to round `j` in which round `i` carries a byte. */
  lemma {:induction false} Build(s: Settings, m: int, n: nat, i: nat, j: nat, c: nat) returns (plan: seq<Round>)
    requires s.WellFormed() && High(s, i) > 0 && c <= Optional(s, i, j)
    requires LeastBytes(s, i, j) + c < n && (m <= 0 || Forced(s, i, j) + c < m)
    ensures |plan| == j && IsRun(s, m, n, plan)
    ensures Offset(plan) == LeastBytes(s, i, j) + c && Cuts(plan) == Forced(s, i, j) + c
    ensures i < j ==> plan[i].Cut? && plan[i].length > 0 && plan[i].delay == s.DelayRange(i).from
  {
    plan := [];
    if j > 0 {
      var k := j - 1;
      var less := if c <= Optional(s, i, k) then c else c - 1;
      var before := Build(s, m, n, i, k, less);
      var delay := s.DelayRange(k).from;
      var length := if (k == i && Low(s, k) == 0) || less < c then 1 else Low(s, k);
      assert s.DelayRange(k).May(delay) && s.LengthRange(k).May(length);
      var round := if length == 0 && k < |s.lengths| - 1 then Idle(delay) else Cut(length, delay);
      assert Makes(s, m, n, before, length, round);
      Extend(s, m, n, before, round);
      plan := before + [round];
    }
  }

  /** A run to the end of `n` bytes in which something is overtaken. */
  ghost predicate Fails(s: Settings, m: int, n: nat, plan: seq<Round>)
    requires s.WellFormed()
  {
    && s.maxSplit.May(m) && IsRun(s, m, n, plan) && Offset(plan) == n <= MAX_PAYLOAD && Overtaken(plan)
  }

  lemma SwapFails(s: Settings, i: nat, j: nat, c: nat) returns (m: int, n: nat, plan: seq<Round>)
    requires s.WellFormed() && Swap(s, i, j, c)
    ensures Fails(s, m, n, plan)
  {
    var early := High(s, j) > 0;
    m := if early then (if s.maxSplit.from == 0 then 0 else MostSplits(s)) else Forced(s, i, j) + c + 1;
    n := LeastBytes(s, i, j) + c + 1;
    var before := Build(s, m, n, i, j, c);
    var length := if early && Low(s, j) == 0 then 1 else Low(s, j);
    var delay := s.DelayRange(j).from;
    assert s.DelayRange(j).May(delay) && s.LengthRange(j).May(length);
    var round := Cut(1, delay);
    assert Makes(s, m, n, before, length, round);
    Extend(s, m, n, before, round);
    plan := before + [round];
    assert Holds(plan[i]) && Sends(plan[j]);
  }

  // ---- a failing run is a swap of the settings ----

  lemma {:induction false} PrefixIsRun(s: Settings, m: int, n: nat, plan: seq<Round>, k: nat)
    requires s.WellFormed() && IsRun(s, m, n, plan) && k < |plan|
    ensures IsRun(s, m, n, plan[..k]) && MayFollow(s, m, n, plan[..k], plan[k])
  {
    if k < |plan| - 1 {
      var before := plan[..|plan| - 1];
      PrefixIsRun(s, m, n, before, k);
      assert before[..k] == plan[..k];
    }
  }

  /** What a run costs that is not at its end yet. */
  lemma {:induction false} Costs(s: Settings, m: int, n: nat, plan: seq<Round>, i: nat)
    requires s.WellFormed() && IsRun(s, m, n, plan) && Offset(plan) < n
    requires i < |plan| ==> plan[i].Cut? && plan[i].length > 0
    ensures Forced(s, i, |plan|) <= Cuts(plan) <= Forced(s, i, |plan|) + Optional(s, i, |plan|)
    ensures LeastBytes(s, i, |plan|) + (Cuts(plan) - Forced(s, i, |plan|)) <= Offset(plan)
    ensures i < |plan| ==> High(s, i) > 0 && plan[i].delay >= s.DelayRange(i).from
  {
    if plan != [] {
      var k := |plan| - 1;
      var before, last := plan[..k], plan[k];
      Costs(s, m, n, before, i);
      var length :| s.LengthRange(k).May(length) && Makes(s, m, n, before, length, last);
      assert Low(s, k) <= length <= High(s, k);
    }
  }

  /** From the end of both lists on, all rounds are alike. */
  function Settled(s: Settings): nat
    requires s.WellFormed()
  {
    if |s.lengths| > |s.delays| then |s.lengths| - 1 else |s.delays| - 1
  }

  lemma {:induction false} CostsGrow(s: Settings, i: nat, j: nat, k: nat)
    requires s.WellFormed() && j <= k
    ensures LeastBytes(s, i, j) <= LeastBytes(s, i, k) && Forced(s, i, j) <= Forced(s, i, k)
  {
    if j < k {
      CostsGrow(s, i, j, k - 1);
    }
  }

  /** Every round from the last length on is a cut. */
  lemma {:induction false} ForcedAtLeast(s: Settings, i: nat, j: nat)
    requires s.WellFormed()
    ensures Forced(s, i, j) >= j - (|s.lengths| - 1)
  {
    if j > 0 {
      ForcedAtLeast(s, i, j - 1);
    }
  }

  lemma {:induction false} OptionalAtMost(s: Settings, i: nat, j: nat)
    requires s.WellFormed()
    ensures Optional(s, i, j) <= j
  {
    if j > 0 {
      OptionalAtMost(s, i, j - 1);
    }
  }

  /** A later round that carries a byte by its length: the first one that does it like that will do. */
  lemma EarlySwap(s: Settings, i: nat, j: nat)
    requires s.WellFormed() && s.AllDelaysZero() && i < j && High(s, i) > 0 && High(s, j) > 0
    requires s.DelayRange(i).from == 0 && s.DelayRange(j).from > 0 && LeastBytes(s, i, j) < MAX_PAYLOAD
    requires s.maxSplit.from == 0 || Forced(s, i, j) < MostSplits(s)
    ensures !KeepsOrder(s)
  {
    hide LeastBytes, Forced, Optional;
    var k := if j < Settled(s) then j else Settled(s);
    CostsGrow(s, i, k, j);
    assert Swap(s, i, k, 0);
  }

  /** A later round that carries the rest as the last split. */
  lemma LateSwap(s: Settings, i: nat, j: nat, c: nat)
    requires s.WellFormed() && s.AllDelaysZero() && Swap(s, i, j, c) && High(s, j) == 0
    ensures !KeepsOrder(s)
  {
    hide LeastBytes, Forced, Optional;
    ForcedAtLeast(s, i, j);
    OptionalAtMost(s, i, j);
  }

  /** A round that is overtaken and one that overtakes it, in any run to the end, show in the settings. */
  lemma FailSwaps(s: Settings, m: int, n: nat, plan: seq<Round>)
    requires s.WellFormed() && s.AllDelaysZero() && Fails(s, m, n, plan)
    ensures !KeepsOrder(s)
  {
    hide KeepsOrder, IsRun, Cuts, LeastBytes, Forced, Optional;
    var i, j :| 0 <= i < j < |plan| && Holds(plan[i]) && Sends(plan[j]);
    var before := plan[..j];
    PrefixIsRun(s, m, n, plan, j);
    RunStaysInside(s, m, n, before);
    Costs(s, m, n, before, i);
    var length :| s.LengthRange(j).May(length) && Makes(s, m, n, before, length, plan[j]);
    DelaysAreStarts(s, m, n, plan, i);
    DelaysAreStarts(s, m, n, plan, j);
    if High(s, j) > 0 {
      EarlySwap(s, i, j);
    } else {
      LateSwap(s, i, j, Cuts(before) - Forced(s, i, j));
    }
  }

  lemma DelaysAreStarts(s: Settings, m: int, n: nat, plan: seq<Round>, k: nat)
    requires s.WellFormed() && s.AllDelaysZero() && IsRun(s, m, n, plan) && k < |plan|
    ensures plan[k].delay == s.DelayRange(k).from
  {
    PrefixIsRun(s, m, n, plan, k);
  }

  // ---- the exact condition ----

  /** A write that a tlshello layer cuts up, and a run over it to the end. */
  ghost predicate IsWrite(s: Settings, m: int, p: seq<Byte>, plan: seq<Round>)
    requires s.WellFormed()
  {
    && |p| > 5 && p[0] == 0x16 && Complete(p) && s.maxSplit.May(m)
    && IsRun(s, m, HeaderLength(p) - 5, plan) && Offset(plan) == HeaderLength(p) - 5
  }

  /** Whatever is written and picked, a receiver cannot tell. */
  ghost predicate AlwaysSame(s: Settings)
    requires s.WellFormed()
  {
    forall m: int, p: seq<Byte>, plan: seq<Round> :: IsWrite(s, m, p, plan) ==>
      Same(p, Flat(HelloEmissions(p, plan, s.AllDelaysZero())))
  }

  lemma WriteIsSame(s: Settings, m: int, p: seq<Byte>, plan: seq<Round>)
    requires s.WellFormed() && KeepsOrder(s) && Complete(p) && |p| > 5 && s.maxSplit.May(m)
    requires IsRun(s, m, HeaderLength(p) - 5, plan) && Offset(plan) == HeaderLength(p) - 5
    ensures Same(p, Flat(HelloEmissions(p, plan, s.AllDelaysZero())))
  {
    hide KeepsOrder, Same, Flat, HelloEmissions, Overtaken;
    if s.AllDelaysZero() && Overtaken(plan) {
      FailSwaps(s, m, HeaderLength(p) - 5, plan);
    } else {
      RunIsSame(p, plan, s.AllDelaysZero());
    }
  }

  /** A tlshello layer is invisible to the receiver, for every write and everything it picks, exactly when its settings
      keep the order. */
  lemma OrderExact(s: Settings)
    requires s.WellFormed()
    ensures AlwaysSame(s) <==> KeepsOrder(s)
  {
    if KeepsOrder(s) {
      forall m: int, p: seq<Byte>, plan: seq<Round> | IsWrite(s, m, p, plan)
        ensures Same(p, Flat(HelloEmissions(p, plan, s.AllDelaysZero())))
      {
        WriteIsSame(s, m, p, plan);
      }
    } else {
      var i, j, c :| 0 <= i < j < Reach(s) && 0 <= c <= j && Swap(s, i, j, c);
      var m, n, plan := SwapFails(s, i, j, c);
      var p := RunIsNotSame(plan);
      assert IsWrite(s, m, p, plan);
    }
  }
}
