/** The fragment loop of internal/finalmask/finalmask.go: its runs, when it ends, and what it writes. */
module MaskRuns {
  import opened Bytes
  import opened TlsRecords

  /** Int32Range. */
  datatype Range = Range(from: int, to: int) {
    /** The values that Pick may return. */
    predicate May(v: int) {
      if to <= from then v == from else from <= v <= to
    }
  }

  method Pick(r: Range) returns (v: int)
    ensures r.May(v)
  {
    if r.to <= r.from {
      return r.from;
    }
    v :| r.from <= v <= r.to;
  }

  /** A masked chunk with the delay that follows it; an idle round has no data. */
  datatype Emission = Emission(data: seq<Byte>, delay: int)

  /** The settings of a layer, as NewFragmentLayer leaves them: never without a length or a delay range, and parsed
      ranges never start below zero. */
  datatype Settings = Settings(tlshello: bool, packetsFrom: int, packetsTo: int, lengths: seq<Range>, delays: seq<Range>,
                               maxSplit: Range)
  {
    predicate WellFormed() {
      && lengths != [] && delays != [] && maxSplit.from >= 0
      && (forall i :: 0 <= i < |lengths| ==> lengths[i].from >= 0)
      && (forall i :: 0 <= i < |delays| ==> delays[i].from >= 0)
    }

    function LengthRange(i: nat): Range
      requires lengths != []
    {
      if i < |lengths| then lengths[i] else lengths[|lengths| - 1]
    }

    function DelayRange(i: nat): Range
      requires delays != []
    {
      if i < |delays| then delays[i] else delays[|delays| - 1]
    }

    /** allDelaysZero, which looks at the upper ends only. */
    predicate AllDelaysZero() {
      forall i :: 0 <= i < |delays| ==> delays[i].to == 0
    }

    /** The loops come to an end on every input: the last length moves on, or the splits run out. */
    predicate Terminating()
      requires lengths != []
    {
      lengths[|lengths| - 1].from >= 1 || maxSplit.from >= 1
    }
  }

  // ---- runs of the fragment loop ----

  /** One round of the loop: idle, or a cut of some length. */
  datatype Round = Idle(delay: int) | Cut(length: nat, delay: int)

  function Offset(plan: seq<Round>): nat {
    if plan == [] then 0
    else
      var last := plan[|plan| - 1];
      Offset(plan[..|plan| - 1]) + if last.Cut? then last.length else 0
  }

  function Cuts(plan: seq<Round>): nat {
    if plan == [] then 0
    else Cuts(plan[..|plan| - 1]) + if plan[|plan| - 1].Cut? then 1 else 0
  }

  /** Where a cut that starts at `from` and is `length` long ends. */
  function CutEnd(from: nat, length: int, n: nat, splits: nat, maxSplit: int): int {
    if from + length > n || (maxSplit > 0 && splits >= maxSplit) then n else from + length
  }

  /** What one round may do after `before`, over n bytes, when maxSplit was picked. */
  ghost predicate MayFollow(s: Settings, maxSplit: int, n: nat, before: seq<Round>, round: Round)
    requires s.lengths != [] && s.delays != []
  {
    var i := |before|;
    && Offset(before) < n
    && s.DelayRange(i).May(round.delay)
    && exists length :: s.LengthRange(i).May(length) && Makes(s, maxSplit, n, before, length, round)
  }

  /** The round that a picked length makes. */
  predicate Makes(s: Settings, maxSplit: int, n: nat, before: seq<Round>, length: int, round: Round) {
    match round
    case Idle(_) => length <= 0 && |before| < |s.lengths| - 1
    case Cut(l, _) =>
      && (length > 0 || |before| >= |s.lengths| - 1)
      && l == CutEnd(Offset(before), length, n, Cuts(before) + 1, maxSplit) - Offset(before)
  }

  /** A run of the loop so far. */
  ghost predicate IsRun(s: Settings, maxSplit: int, n: nat, plan: seq<Round>)
    requires s.lengths != [] && s.delays != []
  {
    plan == [] ||
    (IsRun(s, maxSplit, n, plan[..|plan| - 1]) && MayFollow(s, maxSplit, n, plan[..|plan| - 1], plan[|plan| - 1]))
  }

  lemma Extend(s: Settings, maxSplit: int, n: nat, plan: seq<Round>, round: Round)
    requires s.WellFormed() && IsRun(s, maxSplit, n, plan) && MayFollow(s, maxSplit, n, plan, round)
    ensures IsRun(s, maxSplit, n, plan + [round])
    ensures Offset(plan + [round]) == Offset(plan) + (if round.Cut? then round.length else 0)
    ensures Cuts(plan + [round]) == Cuts(plan) + if round.Cut? then 1 else 0
  {
    assert (plan + [round])[..|plan|] == plan;
  }

  // ---- termination ----

  lemma {:induction false} RunStaysInside(s: Settings, maxSplit: int, n: nat, plan: seq<Round>)
    requires s.WellFormed() && IsRun(s, maxSplit, n, plan)
    ensures Offset(plan) <= n
    ensures maxSplit > 0 ==> Cuts(plan) <= maxSplit && (Cuts(plan) == maxSplit ==> Offset(plan) == n)
  {
    if plan != [] {
      RunStaysInside(s, maxSplit, n, plan[..|plan| - 1]);
    }
  }

  function Positive(v: int): nat {
    if v > 0 then v else 0
  }

  /** Every round costs a byte, a split or a skippable length, and these run out. */
  lemma {:induction false} RunIsBounded(s: Settings, maxSplit: int, n: nat, plan: seq<Round>)
    requires s.WellFormed() && s.Terminating() && s.maxSplit.May(maxSplit) && IsRun(s, maxSplit, n, plan)
    ensures |plan| <= |s.lengths| + Offset(plan) + (if maxSplit > 0 then Cuts(plan) else 0)
    ensures |plan| <= |s.lengths| + n + Positive(maxSplit)
  {
    RunStaysInside(s, maxSplit, n, plan);
    if plan != [] {
      RunIsBounded(s, maxSplit, n, plan[..|plan| - 1]);
    }
  }

  /** The bytes that the lengths before the last one take when each is picked as small as possible. */
  function LeastTaken(s: Settings, i: nat): nat
    requires s.WellFormed() && i <= |s.lengths|
  {
    if i == 0 then 0 else LeastTaken(s, i - 1) + s.lengths[i - 1].from
  }

  lemma LeastGrows(s: Settings, i: nat, j: nat)
    requires s.WellFormed() && i <= j <= |s.lengths|
    ensures LeastTaken(s, i) <= LeastTaken(s, j)
  {
    if i < j {
      LeastGrows(s, i, j - 1);
    }
  }

  /** When the last length may be 0 and maxSplit may be 0, there is an input on which the loop has runs of every length
      without reaching the end. */
  lemma {:induction false} RunForever(s: Settings, n: nat, rounds: nat) returns (plan: seq<Round>)
    requires s.WellFormed() && !s.Terminating() && n > LeastTaken(s, |s.lengths| - 1)
    ensures |plan| == rounds && IsRun(s, 0, n, plan)
    ensures Offset(plan) == LeastTaken(s, if rounds < |s.lengths| then rounds else |s.lengths| - 1) < n
  {
    plan := [];
    if rounds > 0 {
      var before := RunForever(s, n, rounds - 1);
      var i, last := rounds - 1, |s.lengths| - 1;
      LeastGrows(s, if rounds < |s.lengths| then rounds else last, last);
      var length, delay := s.LengthRange(i).from, s.DelayRange(i).from;
      assert s.LengthRange(i).May(length) && s.DelayRange(i).May(delay);
      var round := if length == 0 && i < last then Idle(delay) else Cut(length, delay);
      Extend(s, 0, n, before, round);
      plan := before + [round];
    }
  }

  ghost predicate BoundedBy(s: Settings, maxSplit: int, n: nat, bound: nat)
    requires s.lengths != [] && s.delays != []
  {
    forall plan :: IsRun(s, maxSplit, n, plan) ==> |plan| <= bound
  }

  /** The loop over n bytes ends within some number of rounds, whatever it picks. */
  ghost predicate Ends(s: Settings, maxSplit: int, n: nat)
    requires s.lengths != [] && s.delays != []
  {
    exists bound: nat :: BoundedBy(s, maxSplit, n, bound)
  }

  /** The fragment loop ends on every input, whatever is picked, exactly when the last length range starts at 1 or
      more or the maxSplit range does. */
  lemma TerminationExact(s: Settings)
    requires s.WellFormed()
    ensures s.Terminating() <==> forall maxSplit: int, n: nat :: s.maxSplit.May(maxSplit) ==> Ends(s, maxSplit, n)
  {
    if s.Terminating() {
      forall maxSplit: int, n: nat | s.maxSplit.May(maxSplit) ensures Ends(s, maxSplit, n) {
        forall plan | IsRun(s, maxSplit, n, plan) ensures |plan| <= |s.lengths| + n + Positive(maxSplit) {
          RunIsBounded(s, maxSplit, n, plan);
        }
        assert BoundedBy(s, maxSplit, n, |s.lengths| + n + Positive(maxSplit));
      }
    } else {
      var n := LeastTaken(s, |s.lengths| - 1) + 1;
      assert s.maxSplit.May(0);
      if Ends(s, 0, n) {
        var bound: nat :| BoundedBy(s, 0, n, bound);
        var _ := RunForever(s, n, bound + 1);
      }
    }
  }

  /** Positive length ranges never cut an empty piece. */
  lemma {:induction false} NoEmptyCut(s: Settings, maxSplit: int, n: nat, plan: seq<Round>, i: nat)
    requires s.WellFormed() && IsRun(s, maxSplit, n, plan) && i < |plan|
    requires forall j :: 0 <= j < |s.lengths| ==> s.lengths[j].from >= 1
    ensures plan[i].Cut? && plan[i].length > 0
  {
    RunStaysInside(s, maxSplit, n, plan[..|plan| - 1]);
    if i < |plan| - 1 {
      NoEmptyCut(s, maxSplit, n, plan[..|plan| - 1], i);
    }
  }

  // ---- what a run emits ----

  /** The pieces that a run cuts data into. */
  function Pieces(data: seq<Byte>, plan: seq<Round>): seq<seq<Byte>>
    requires Offset(plan) <= |data|
  {
    if plan == [] then []
    else
      var before := plan[..|plan| - 1];
      match plan[|plan| - 1]
      case Idle(_) => Pieces(data, before)
      case Cut(l, _) => Pieces(data, before) + [data[Offset(before)..Offset(before) + l]]
  }

  lemma {:induction false} PiecesJoin(data: seq<Byte>, plan: seq<Round>)
    requires Offset(plan) <= |data|
    ensures Joined(Pieces(data, plan)) == data[..Offset(plan)]
    ensures |Pieces(data, plan)| == Cuts(plan)
  {
    if plan != [] {
      var before, last := plan[..|plan| - 1], plan[|plan| - 1];
      PiecesJoin(data, before);
      if last.Cut? {
        var done, piece := Pieces(data, before), data[Offset(before)..Offset(plan)];
        assert (done + [piece])[..|done|] == done;
        assert data[..Offset(plan)] == data[..Offset(before)] + piece;
      }
    }
  }

  function Datas(emissions: seq<Emission>): (r: seq<seq<Byte>>)
    ensures |r| == |emissions|
  {
    seq(|emissions|, i requires 0 <= i < |emissions| => emissions[i].data)
  }

  /** The bytes of the emissions, in order. */
  function Flat(emissions: seq<Emission>): seq<Byte> {
    Joined(Datas(emissions))
  }

  lemma FlatConcat(s: seq<Emission>, t: seq<Emission>)
    ensures Flat(s + t) == Flat(s) + Flat(t)
  {
    assert Datas(s + t) == Datas(s) + Datas(t);
    JoinedConcat(Datas(s), Datas(t));
  }

  lemma FlatOne(e: Emission)
    ensures Flat([e]) == e.data
  {
    assert Datas([e]) == [e.data];
    assert [e.data][..0] == [];
    assert Joined([e.data]) == Joined([e.data][..0]) + e.data == [] + e.data;
  }

  /** An idle round shows only if it is a pause. */
  function Paused(delay: int): seq<Emission> {
    if delay > 0 then [Emission([], delay)] else []
  }

  /** What a stream layer emits for one round that starts at `from`. */
  function Streamed(p: seq<Byte>, from: nat, round: Round): seq<Emission>
    requires round.Cut? ==> from + round.length <= |p|
  {
    match round
    case Idle(delay) => Paused(delay)
    case Cut(l, delay) => [Emission(p[from..from + l], delay)]
  }

  /** A stream layer emits each piece with its delay. */
  function StreamEmissions(p: seq<Byte>, plan: seq<Round>): seq<Emission>
    requires Offset(plan) <= |p|
  {
    if plan == [] then []
    else
      var before := plan[..|plan| - 1];
      StreamEmissions(p, before) + Streamed(p, Offset(before), plan[|plan| - 1])
  }

  lemma FlatStreamed(p: seq<Byte>, from: nat, to: nat, round: Round)
    requires from <= to <= |p| && to == from + if round.Cut? then round.length else 0
    ensures Flat(Streamed(p, from, round)) == p[from..to]
    ensures p[..from] + p[from..to] == p[..to]
  {
    hide Flat;
    match round
    case Idle(delay) => FlatPaused(delay);
    case Cut(_, delay) => FlatOne(Emission(p[from..to], delay));
  }

  /** Stream layers leave the bytes as they are. */
  lemma {:induction false} StreamIsIdentity(p: seq<Byte>, plan: seq<Round>)
    requires Offset(plan) <= |p|
    ensures Flat(StreamEmissions(p, plan)) == p[..Offset(plan)]
  {
    hide Flat, Streamed;
    if plan == [] {
      FlatNothing();
    } else {
      var before, last := plan[..|plan| - 1], plan[|plan| - 1];
      StreamIsIdentity(p, before);
      FlatConcat(StreamEmissions(p, before), Streamed(p, Offset(before), last));
      FlatStreamed(p, Offset(before), Offset(plan), last);
    }
  }

  /** The record of one piece under the header of p. */
  function RecordOf(p: seq<Byte>, piece: seq<Byte>): seq<Byte>
    requires |p| >= 5
  {
    Frame(p[0], p[1], p[2], piece)
  }

  /** What a tlshello layer emits right away ... */
  function Emitted(p: seq<Byte>, data: seq<Byte>, plan: seq<Round>, allZero: bool): seq<Emission>
    requires |p| >= 5 && Offset(plan) <= |data|
  {
    if plan == [] then []
    else
      var before := plan[..|plan| - 1];
      Emitted(p, data, before, allZero) +
      match plan[|plan| - 1]
      case Idle(delay) => Paused(delay)
      case Cut(l, delay) =>
        if delay == 0 && allZero then []
        else [Emission(RecordOf(p, data[Offset(before)..Offset(before) + l]), delay)]
  }

  /** ... and what it holds back for one write at the end. */
  function Merged(p: seq<Byte>, data: seq<Byte>, plan: seq<Round>, allZero: bool): seq<Byte>
    requires |p| >= 5 && Offset(plan) <= |data|
  {
    if plan == [] then []
    else
      var before := plan[..|plan| - 1];
      Merged(p, data, before, allZero) +
      match plan[|plan| - 1]
      case Idle(_) => []
      case Cut(l, delay) =>
        if delay == 0 && allZero then RecordOf(p, data[Offset(before)..Offset(before) + l]) else []
  }

  /** All emissions of a tlshello layer for a write that starts with a whole handshake record. */
  function HelloEmissions(p: seq<Byte>, plan: seq<Round>, allZero: bool): seq<Emission>
    requires Complete(p) && Offset(plan) <= HeaderLength(p) - 5
  {
    var n := HeaderLength(p);
    var merged := Merged(p, p[5..n], plan, allZero);
    var emissions := Emitted(p, p[5..n], plan, allZero) + Unless(merged == [], merged) + Unless(|p| == n, p[n..]);
    if emissions == [] then [Emission(p, 0)] else emissions
  }

  lemma FramedStep(a: Byte, b: Byte, c: Byte, pieces: seq<seq<Byte>>, piece: seq<Byte>)
    ensures Framed(a, b, c, pieces + [piece]) == Framed(a, b, c, pieces) + Frame(a, b, c, piece)
  {
    assert (pieces + [piece])[..|pieces|] == pieces;
  }

  /** The pieces that a tlshello layer writes at once ... */
  function SentPieces(data: seq<Byte>, plan: seq<Round>, allZero: bool): seq<seq<Byte>>
    requires Offset(plan) <= |data|
  {
    if plan == [] then []
    else
      var before := plan[..|plan| - 1];
      SentPieces(data, before, allZero) +
      match plan[|plan| - 1]
      case Idle(_) => []
      case Cut(l, delay) => if delay == 0 && allZero then [] else [data[Offset(before)..Offset(before) + l]]
  }

  /** ... and those it holds back. */
  function HeldPieces(data: seq<Byte>, plan: seq<Round>, allZero: bool): seq<seq<Byte>>
    requires Offset(plan) <= |data|
  {
    if plan == [] then []
    else
      var before := plan[..|plan| - 1];
      HeldPieces(data, before, allZero) +
      match plan[|plan| - 1]
      case Idle(_) => []
      case Cut(l, delay) => if delay == 0 && allZero then [data[Offset(before)..Offset(before) + l]] else []
  }

  /** What one more round adds to each of them. */
  lemma RoundIsWritten(p: seq<Byte>, data: seq<Byte>, plan: seq<Round>, allZero: bool)
    requires |p| >= 5 && plan != [] && Offset(plan) <= |data|
    ensures var before, last := plan[..|plan| - 1], plan[|plan| - 1];
      var piece := data[Offset(before)..Offset(plan)];
      var sent, held := last.Cut? && !(last.delay == 0 && allZero), last.Cut? && last.delay == 0 && allZero;
      && Emitted(p, data, plan, allZero) == Emitted(p, data, before, allZero) +
        (if last.Idle? then Paused(last.delay) else if sent then [Emission(RecordOf(p, piece), last.delay)] else [])
      && Merged(p, data, plan, allZero) == Merged(p, data, before, allZero) + (if held then RecordOf(p, piece) else [])
      && SentPieces(data, plan, allZero) == SentPieces(data, before, allZero) + (if sent then [piece] else [])
      && HeldPieces(data, plan, allZero) == HeldPieces(data, before, allZero) + (if held then [piece] else [])
  {
    hide RecordOf, Paused;
  }

  /** Each of them is written in a record of its own. */
  lemma {:induction false} WrittenInRecords(p: seq<Byte>, data: seq<Byte>, plan: seq<Round>, allZero: bool)
    requires |p| >= 5 && Offset(plan) <= |data|
    ensures Flat(Emitted(p, data, plan, allZero)) == Framed(p[0], p[1], p[2], SentPieces(data, plan, allZero))
    ensures Merged(p, data, plan, allZero) == Framed(p[0], p[1], p[2], HeldPieces(data, plan, allZero))
  {
    hide Flat, Emitted, Merged, SentPieces, HeldPieces, Paused, Framed, Frame;
    if plan == [] {
      NothingIsWritten(p, data, allZero);
    } else {
      var before, last := plan[..|plan| - 1], plan[|plan| - 1];
      WrittenInRecords(p, data, before, allZero);
      RoundIsWritten(p, data, plan, allZero);
      var piece, done := data[Offset(before)..Offset(plan)], Emitted(p, data, before, allZero);
      FlatConcat(done, Paused(last.delay));
      FlatPaused(last.delay);
      FlatConcat(done, [Emission(RecordOf(p, piece), last.delay)]);
      FlatOne(Emission(RecordOf(p, piece), last.delay));
      FramedStep(p[0], p[1], p[2], SentPieces(data, before, allZero), piece);
      FramedStep(p[0], p[1], p[2], HeldPieces(data, before, allZero), piece);
      NothingMore(done);
      NothingMore(Merged(p, data, before, allZero));
      NothingMore(SentPieces(data, before, allZero));
      NothingMore(HeldPieces(data, before, allZero));
      NothingMore(Flat(done));
    }
  }

  lemma NothingMore<T>(s: seq<T>)
    ensures s + [] == s
  {
  }

  lemma NothingIsWritten(p: seq<Byte>, data: seq<Byte>, allZero: bool)
    requires |p| >= 5
    ensures Flat(Emitted(p, data, [], allZero)) == Framed(p[0], p[1], p[2], SentPieces(data, [], allZero))
    ensures Merged(p, data, [], allZero) == Framed(p[0], p[1], p[2], HeldPieces(data, [], allZero))
  {
    FlatNothing();
  }

  /** Some upper end not zero: every piece is written at once, in order. */
  lemma {:induction false} AllSent(data: seq<Byte>, plan: seq<Round>)
    requires Offset(plan) <= |data|
    ensures SentPieces(data, plan, false) == Pieces(data, plan) && HeldPieces(data, plan, false) == []
  {
    if plan != [] {
      AllSent(data, plan[..|plan| - 1]);
    }
  }

  /** No delay anywhere: every piece is held back, in order. */
  lemma {:induction false} AllHeld(data: seq<Byte>, plan: seq<Round>)
    requires Offset(plan) <= |data| && forall i :: 0 <= i < |plan| ==> plan[i].delay == 0
    ensures HeldPieces(data, plan, true) == Pieces(data, plan) && SentPieces(data, plan, true) == []
  {
    if plan != [] {
      AllHeld(data, plan[..|plan| - 1]);
    }
  }

  lemma FlatPaused(delay: int)
    ensures Flat(Paused(delay)) == []
  {
    if delay > 0 {
      FlatOne(Emission([], delay));
    }
  }

  /** An emission that is left out when it would be empty. */
  function Unless(empty: bool, data: seq<Byte>): seq<Emission> {
    if empty then [] else [Emission(data, 0)]
  }

  lemma FlatUnless(empty: bool, data: seq<Byte>)
    requires empty ==> data == []
    ensures Flat(Unless(empty, data)) == data
  {
    if !empty {
      FlatOne(Emission(data, 0));
    }
  }

  /** What a tlshello layer puts on the wire: the first record split up, the pieces written at once in front of those
      held back, then everything after the record. */
  lemma HelloIsResplit(p: seq<Byte>, plan: seq<Round>, allZero: bool)
    requires Complete(p) && |p| > 5 && Offset(plan) == HeaderLength(p) - 5
    ensures var n := HeaderLength(p);
      Flat(HelloEmissions(p, plan, allZero)) == Framed(p[0], p[1], p[2], Wire(p[5..n], plan, allZero)) + p[n..]
  {
    hide Flat, Emitted, Merged, Framed, SentPieces, HeldPieces;
    var n := HeaderLength(p);
    var data := p[5..n];
    var emitted, merged := Emitted(p, data, plan, allZero), Merged(p, data, plan, allZero);
    WrittenInRecords(p, data, plan, allZero);
    FramedConcat(p[0], p[1], p[2], SentPieces(data, plan, allZero), HeldPieces(data, plan, allZero));
    var held, after := Unless(merged == [], merged), Unless(|p| == n, p[n..]);
    FlatUnless(merged == [], merged);
    FlatUnless(|p| == n, p[n..]);
    FlatConcat(emitted + held, after);
    FlatConcat(emitted, held);
    if emitted + held + after == [] {
      FlatNothing();
      NothingWritten(p, data, plan, allZero);
    }
  }

  /** All pieces in the order they are written. */
  function Wire(data: seq<Byte>, plan: seq<Round>, allZero: bool): seq<seq<Byte>>
    requires Offset(plan) <= |data|
  {
    SentPieces(data, plan, allZero) + HeldPieces(data, plan, allZero)
  }

  lemma {:induction false} FramedConcat(a: Byte, b: Byte, c: Byte, s: seq<seq<Byte>>, t: seq<seq<Byte>>)
    ensures Framed(a, b, c, s + t) == Framed(a, b, c, s) + Framed(a, b, c, t)
  {
    hide Frame;
    if t == [] {
      assert s + t == s;
    } else {
      assert (s + t)[..|s + t| - 1] == s + t[..|t| - 1];
      FramedConcat(a, b, c, s, t[..|t| - 1]);
    }
  }

  /** Only an empty payload leaves nothing to write. */
  lemma {:induction false} NothingWritten(p: seq<Byte>, data: seq<Byte>, plan: seq<Round>, allZero: bool)
    requires |p| >= 5 && Offset(plan) <= |data|
    requires Emitted(p, data, plan, allZero) == [] && Merged(p, data, plan, allZero) == []
    ensures Offset(plan) == 0
  {
    if plan != [] {
      NothingWritten(p, data, plan[..|plan| - 1], allZero);
    }
  }

  lemma FlatNothing()
    ensures Flat([]) == []
  {
  }

  lemma {:induction false} FramedLength(a: Byte, b: Byte, c: Byte, pieces: seq<seq<Byte>>)
    ensures |Framed(a, b, c, pieces)| == 5 * |pieces| + |Joined(pieces)|
  {
    if pieces != [] {
      FramedLength(a, b, c, pieces[..|pieces| - 1]);
    }
  }

  lemma {:induction false} PiecesAreShort(data: seq<Byte>, plan: seq<Round>, allZero: bool)
    requires Offset(plan) <= |data|
    ensures forall piece :: piece in SentPieces(data, plan, allZero) ==> |piece| <= |data|
    ensures forall piece :: piece in HeldPieces(data, plan, allZero) ==> |piece| <= |data|
  {
    if plan != [] {
      PiecesAreShort(data, plan[..|plan| - 1], allZero);
    }
  }

  lemma {:induction false} WireIsWhole(data: seq<Byte>, plan: seq<Round>, allZero: bool)
    requires Offset(plan) <= |data|
    ensures |Joined(SentPieces(data, plan, allZero))| + |Joined(HeldPieces(data, plan, allZero))| == Offset(plan)
  {
    if plan != [] {
      var before, last := plan[..|plan| - 1], plan[|plan| - 1];
      WireIsWhole(data, before, allZero);
      var sent, held := SentPieces(data, before, allZero), HeldPieces(data, before, allZero);
      assert sent + [] == sent && held + [] == held;
      if last.Cut? {
        var piece := data[Offset(before)..Offset(plan)];
        assert (sent + [piece])[..|sent|] == sent && (held + [piece])[..|held|] == held;
      }
    }
  }

  lemma WireIsShort(data: seq<Byte>, plan: seq<Round>, allZero: bool)
    requires Offset(plan) <= |data|
    ensures forall piece :: piece in Wire(data, plan, allZero) ==> |piece| <= |data|
    ensures |Joined(Wire(data, plan, allZero))| == Offset(plan)
  {
    PiecesAreShort(data, plan, allZero);
    WireIsWhole(data, plan, allZero);
    JoinedConcat(SentPieces(data, plan, allZero), HeldPieces(data, plan, allZero));
  }

  /** A receiver cannot tell exactly when the pieces, as written, still join to the payload. */
  lemma HelloIsSame(p: seq<Byte>, plan: seq<Round>, allZero: bool)
    requires Complete(p) && |p| > 5 && Offset(plan) == HeaderLength(p) - 5
    ensures Same(p, Flat(HelloEmissions(p, plan, allZero)))
       <==> Joined(Wire(p[5..HeaderLength(p)], plan, allZero)) == p[5..HeaderLength(p)]
  {
    hide HelloEmissions, Framed, Flat, Wire, Offset, Joined;
    var n := HeaderLength(p);
    var wire := Wire(p[5..n], plan, allZero);
    HelloIsResplit(p, plan, allZero);
    WireIsShort(p[5..n], plan, allZero);
    FramedIsRead(p[0], p[1], p[2], wire, p[n..]);
    TagsDiffer(p[0], p[1], p[2], p[5..n], Joined(wire), Content(p[n..]));
  }

  lemma TagsDiffer(a: Byte, b: Byte, c: Byte, s: seq<Byte>, t: seq<Byte>, rest: seq<Tagged>)
    ensures Tag(a, b, c, s) + rest == Tag(a, b, c, t) + rest <==> s == t
  {
    if Tag(a, b, c, s) + rest == Tag(a, b, c, t) + rest {
      var u, v := Tag(a, b, c, s), Tag(a, b, c, t);
      assert |u + rest| == |v + rest|;
      assert forall i :: 0 <= i < |u| ==> (u + rest)[i] == u[i] && (v + rest)[i] == v[i];
      assert forall i :: 0 <= i < |s| ==> u[i].value == s[i] && v[i].value == t[i];
    }
  }

  /** Nothing is never sent in place of something. */
  lemma HelloIsSomething(p: seq<Byte>, plan: seq<Round>, allZero: bool)
    requires Complete(p) && |p| > 5 && Offset(plan) == HeaderLength(p) - 5
    ensures Flat(HelloEmissions(p, plan, allZero)) != []
  {
    var n := HeaderLength(p);
    HelloIsResplit(p, plan, allZero);
    FramedLength(p[0], p[1], p[2], Wire(p[5..n], plan, allZero));
    WireIsShort(p[5..n], plan, allZero);
  }

  /** One more round of the loop, and the measure that it brings down. */
  lemma IdleFollows(s: Settings, maxSplit: int, n: nat, plan: seq<Round>, length: int, delay: int)
    requires s.WellFormed() && s.Terminating() && s.maxSplit.May(maxSplit) && IsRun(s, maxSplit, n, plan)
    requires Offset(plan) < n && length <= 0 && |plan| < |s.lengths| - 1
    requires s.LengthRange(|plan|).May(length) && s.DelayRange(|plan|).May(delay)
    ensures IsRun(s, maxSplit, n, plan + [Idle(delay)]) && Offset(plan + [Idle(delay)]) == Offset(plan)
    ensures Cuts(plan + [Idle(delay)]) == Cuts(plan)
    ensures |plan| + 1 <= |s.lengths| + n + Positive(maxSplit)
  {
    Extend(s, maxSplit, n, plan, Idle(delay));
    RunIsBounded(s, maxSplit, n, plan + [Idle(delay)]);
  }

  lemma CutFollows(s: Settings, maxSplit: int, n: nat, plan: seq<Round>, length: int, delay: int, to: int)
    requires s.WellFormed() && s.Terminating() && s.maxSplit.May(maxSplit) && IsRun(s, maxSplit, n, plan)
    requires Offset(plan) < n && (length > 0 || |plan| >= |s.lengths| - 1)
    requires s.LengthRange(|plan|).May(length) && s.DelayRange(|plan|).May(delay)
    requires to == CutEnd(Offset(plan), length, n, Cuts(plan) + 1, maxSplit)
    ensures Offset(plan) <= to <= n
    ensures var round := Cut(to - Offset(plan), delay);
      IsRun(s, maxSplit, n, plan + [round]) && Offset(plan + [round]) == to && Cuts(plan + [round]) == Cuts(plan) + 1
    ensures |plan| + 1 <= |s.lengths| + n + Positive(maxSplit)
  {
    CutIsNatural(s, |plan|, length);
    var round := Cut(to - Offset(plan), delay);
    Extend(s, maxSplit, n, plan, round);
    RunIsBounded(s, maxSplit, n, plan + [round]);
  }

  lemma EmitsIdle(p: seq<Byte>, data: seq<Byte>, plan: seq<Round>, delay: int, allZero: bool)
    requires |p| >= 5 && Offset(plan) <= |data|
    ensures Offset(plan + [Idle(delay)]) == Offset(plan)
    ensures Emitted(p, data, plan + [Idle(delay)], allZero) == Emitted(p, data, plan, allZero) + Paused(delay)
    ensures Merged(p, data, plan + [Idle(delay)], allZero) == Merged(p, data, plan, allZero)
  {
    assert (plan + [Idle(delay)])[..|plan|] == plan;
  }

  lemma EmitsCut(p: seq<Byte>, data: seq<Byte>, plan: seq<Round>, to: nat, delay: int, allZero: bool)
    requires |p| >= 5 && Offset(plan) <= to <= |data|
    ensures Offset(plan + [Cut(to - Offset(plan), delay)]) == to
    ensures var after := plan + [Cut(to - Offset(plan), delay)];
      var record := RecordOf(p, data[Offset(plan)..to]);
      var held := delay == 0 && allZero;
      && Emitted(p, data, after, allZero) == Emitted(p, data, plan, allZero) + (if held then [] else [Emission(record, delay)])
      && Merged(p, data, after, allZero) == Merged(p, data, plan, allZero) + if held then record else []
  {
    assert (plan + [Cut(to - Offset(plan), delay)])[..|plan|] == plan;
  }

  lemma CutIsNatural(s: Settings, i: nat, length: int)
    requires s.WellFormed() && s.LengthRange(i).May(length)
    ensures length >= 0
  {
  }
}
