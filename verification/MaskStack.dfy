/** What a stack of fragment layers of internal/finalmask/finalmask.go puts on the wire, write by write and chunk by chunk. */
module MaskStacks {
  import opened Bytes
  import opened TlsRecords
  import opened MaskRuns

  /** A run of the loop that got to the end of n bytes. */
  ghost predicate Ran(s: Settings, n: nat, plan: seq<Round>)
    requires s.lengths != [] && s.delays != []
  {
    Offset(plan) == n && exists maxSplit :: s.maxSplit.May(maxSplit) && IsRun(s, maxSplit, n, plan)
  }

  /** The writes that a stream layer applies to. */
  predicate Applies(s: Settings, count: nat) {
    (s.packetsFrom == 0 && s.packetsTo == 0) || s.packetsFrom <= count <= s.packetsTo
  }

  /** What one layer may make of its write number `count`. */
  ghost predicate Emits(s: Settings, count: nat, p: seq<Byte>, emissions: seq<Emission>)
    requires s.WellFormed()
  {
    if s.tlshello then
      if count == 1 && |p| > 5 && p[0] == 0x16 && Complete(p)
      then exists plan :: Ran(s, HeaderLength(p) - 5, plan) && emissions == HelloEmissions(p, plan, s.AllDelaysZero())
      else emissions == [Emission(p, 0)]
    else if Applies(s, count) && p != [] then exists plan :: Ran(s, |p|, plan) && emissions == StreamEmissions(p, plan)
    else emissions == [Emission(p, 0)]
  }

  /** The emissions that are more than a pause: each of them is a write to the next layer. */
  function Written(emissions: seq<Emission>): seq<seq<Byte>> {
    if emissions == [] then []
    else
      var last := emissions[|emissions| - 1].data;
      Written(emissions[..|emissions| - 1]) + if last == [] then [] else [last]
  }

  ghost predicate AllWellFormed(ss: seq<Settings>) {
    forall i :: 0 <= i < |ss| ==> ss[i].WellFormed()
  }

  /** One write through a stack of layers that have counted so many writes: the chunks that come out of it and the new
      counts, or, when a chunk cannot be written, the chunks before that one. */
  ghost predicate Passes(ss: seq<Settings>, counts: seq<nat>, data: seq<Byte>, chunks: seq<seq<Byte>>, counts': seq<nat>,
                         ok: bool)
    requires |ss| == |counts| && AllWellFormed(ss)
    decreases |ss|, 0
  {
    && |counts'| == |ss|
    && if ss == [] then chunks == if ok then [data] else []
       else
         && counts'[0] == counts[0] + 1
         && exists emissions :: Emits(ss[0], counts[0] + 1, data, emissions)
              && PassesAll(ss[1..], counts[1..], Written(emissions), chunks, counts'[1..], ok)
  }

  /** Some writes, one after the other, up to the first that fails. */
  ghost predicate PassesAll(ss: seq<Settings>, counts: seq<nat>, writes: seq<seq<Byte>>, chunks: seq<seq<Byte>>,
                            counts': seq<nat>, ok: bool)
    requires |ss| == |counts| && AllWellFormed(ss)
    decreases |ss|, |writes|
  {
    && |counts'| == |ss|
    && if writes == [] then ok && chunks == [] && counts' == counts
       else
         var n := |writes| - 1;
         || (!ok && PassesAll(ss, counts, writes[..n], chunks, counts', false))
         || exists front, mid ::
              && PassesAll(ss, counts, writes[..n], front, mid, true) && front <= chunks
              && Passes(ss, mid, writes[n], chunks[|front|..], counts', ok)
  }

  lemma NothingPasses(ss: seq<Settings>, counts: seq<nat>)
    requires |ss| == |counts| && AllWellFormed(ss)
    ensures PassesAll(ss, counts, [], [], counts, true)
  {
  }

  lemma PassesMore(ss: seq<Settings>, counts: seq<nat>, writes: seq<seq<Byte>>, front: seq<seq<Byte>>, mid: seq<nat>,
                   data: seq<Byte>, chunks: seq<seq<Byte>>, counts': seq<nat>, ok: bool)
    requires |ss| == |counts| && AllWellFormed(ss) && PassesAll(ss, counts, writes, front, mid, true)
    requires front <= chunks && Passes(ss, mid, data, chunks[|front|..], counts', ok)
    ensures PassesAll(ss, counts, writes + [data], chunks, counts', ok)
  {
    var all := writes + [data];
    assert all[..|all| - 1] == writes && all[|all| - 1] == data;
    assert PassesAll(ss, counts, all[..|all| - 1], front, mid, true);
  }

  /** What has failed stays as it is. */
  lemma {:induction false} FailedStays(ss: seq<Settings>, counts: seq<nat>, writes: seq<seq<Byte>>, more: seq<seq<Byte>>,
                                       chunks: seq<seq<Byte>>, counts': seq<nat>)
    requires |ss| == |counts| && AllWellFormed(ss) && PassesAll(ss, counts, writes, chunks, counts', false)
    ensures PassesAll(ss, counts, writes + more, chunks, counts', false)
    decreases |more|
  {
    hide Passes;
    if more == [] {
      assert writes + more == writes;
    } else {
      var n := |more| - 1;
      FailedStays(ss, counts, writes, more[..n], chunks, counts');
      assert (writes + more)[..|writes + more| - 1] == writes + more[..n];
    }
  }

  lemma WrittenStep(emissions: seq<Emission>, i: nat)
    requires i < |emissions|
    ensures Written(emissions[..i + 1]) ==
      Written(emissions[..i]) + if emissions[i].data == [] then [] else [emissions[i].data]
  {
    assert emissions[..i + 1][..i] == emissions[..i];
  }

  lemma {:induction false} WrittenGrows(emissions: seq<Emission>, i: nat) returns (more: seq<seq<Byte>>)
    requires i <= |emissions|
    ensures Written(emissions) == Written(emissions[..i]) + more
    decreases |emissions| - i
  {
    more := [];
    if i == |emissions| {
      assert emissions[..i] == emissions;
    } else {
      var rest := WrittenGrows(emissions, i + 1);
      WrittenStep(emissions, i);
      more := (if emissions[i].data == [] then [] else [emissions[i].data]) + rest;
    }
  }

  // ---- how long the layer waits ----

  /** What the emissions make the writer wait for; the delay behind each of them counts if it is positive. */
  function Waited(emissions: seq<Emission>): int {
    if emissions == [] then 0
    else
      var delay := emissions[|emissions| - 1].delay;
      Waited(emissions[..|emissions| - 1]) + if delay > 0 then delay else 0
  }

  /** What the rounds of a run picked. */
  function Planned(plan: seq<Round>): int {
    if plan == [] then 0
    else
      var delay := plan[|plan| - 1].delay;
      Planned(plan[..|plan| - 1]) + if delay > 0 then delay else 0
  }

  lemma {:induction false} WaitedConcat(s: seq<Emission>, t: seq<Emission>)
    ensures Waited(s + t) == Waited(s) + Waited(t)
  {
    if t == [] {
      assert s + t == s;
    } else {
      var n := |t| - 1;
      WaitedConcat(s, t[..n]);
      assert (s + t)[..|s + t| - 1] == s + t[..n];
    }
  }

  lemma WaitedOne(e: Emission)
    ensures Waited([e]) == if e.delay > 0 then e.delay else 0
  {
    assert [e][..0] == [];
  }

  lemma {:induction false} StreamWaits(p: seq<Byte>, plan: seq<Round>)
    requires Offset(plan) <= |p|
    ensures Waited(StreamEmissions(p, plan)) == Planned(plan)
  {
    hide Waited, Offset;
    if plan == [] {
      WaitedNothing();
    } else {
      var before, last := plan[..|plan| - 1], plan[|plan| - 1];
      OffsetStep(plan);
      StreamWaits(p, before);
      WaitedConcat(StreamEmissions(p, before), Streamed(p, Offset(before), last));
      match last
      case Idle(delay) => PauseWaits(delay);
      case Cut(l, delay) => WaitedOne(Emission(p[Offset(before)..Offset(before) + l], delay));
    }
  }

  lemma WaitedNothing()
    ensures Waited([]) == 0
  {
  }

  lemma OffsetStep(plan: seq<Round>)
    requires plan != []
    ensures var last := plan[|plan| - 1];
      Offset(plan) == Offset(plan[..|plan| - 1]) + if last.Cut? then last.length else 0
  {
  }

  lemma PauseWaits(delay: int)
    ensures Waited(Paused(delay)) == if delay > 0 then delay else 0
  {
    if delay > 0 {
      WaitedOne(Emission([], delay));
    }
  }

  lemma {:induction false} EmittedWaits(p: seq<Byte>, data: seq<Byte>, plan: seq<Round>, allZero: bool)
    requires |p| >= 5 && Offset(plan) <= |data|
    ensures Waited(Emitted(p, data, plan, allZero)) == Planned(plan)
  {
    hide Waited, Offset, Emitted, RecordOf;
    if plan == [] {
      WaitedNothing();
      assert Emitted(p, data, plan, allZero) == [] by { hide *; NothingEmitted(p, data, allZero); }
    } else {
      var before, last := plan[..|plan| - 1], plan[|plan| - 1];
      OffsetStep(plan);
      EmittedWaits(p, data, before, allZero);
      RoundIsWritten(p, data, plan, allZero);
      var piece := data[Offset(before)..Offset(plan)];
      WaitedConcat(Emitted(p, data, before, allZero), Paused(last.delay));
      WaitedConcat(Emitted(p, data, before, allZero), [Emission(RecordOf(p, piece), last.delay)]);
      PauseWaits(last.delay);
      WaitedOne(Emission(RecordOf(p, piece), last.delay));
      assert Emitted(p, data, before, allZero) + [] == Emitted(p, data, before, allZero);
    }
  }

  lemma NothingEmitted(p: seq<Byte>, data: seq<Byte>, allZero: bool)
    requires |p| >= 5
    ensures Emitted(p, data, [], allZero) == []
  {
  }

  lemma HelloWaits(p: seq<Byte>, plan: seq<Round>, allZero: bool)
    requires Complete(p) && Offset(plan) <= HeaderLength(p) - 5
    ensures Waited(HelloEmissions(p, plan, allZero)) == Planned(plan)
  {
    hide Offset, Emitted, Merged, Waited;
    var n := HeaderLength(p);
    var merged := Merged(p, p[5..n], plan, allZero);
    var emitted := Emitted(p, p[5..n], plan, allZero);
    var held, rest := Unless(merged == [], merged), Unless(|p| == n, p[n..]);
    EmittedWaits(p, p[5..n], plan, allZero);
    WaitedConcat(emitted + held, rest);
    WaitedConcat(emitted, held);
    WaitedNothing();
    WaitedOne(Emission(merged, 0));
    WaitedOne(Emission(p[n..], 0));
    WaitedOne(Emission(p, 0));
  }

  /** However a write is cut up, the layer waits for just what its rounds picked, and for nothing if it hands the write on. */
  lemma LayerWaits(s: Settings, count: nat, p: seq<Byte>, emissions: seq<Emission>) returns (plan: seq<Round>)
    requires s.WellFormed() && Emits(s, count, p, emissions)
    ensures Waited(emissions) == Planned(plan)
    ensures emissions == [Emission(p, 0)] ==> Waited(emissions) == 0
    ensures plan == [] || (Offset(plan) <= |p| && Ran(s, Offset(plan), plan))
  {
    hide Waited, Planned, HelloEmissions, StreamEmissions, Offset, IsRun;
    WaitedOne(Emission(p, 0));
    plan := [];
    assert Planned([]) == 0 by { hide *; NothingPlanned(); }
    if emissions == [Emission(p, 0)] {
    } else if s.tlshello {
      plan :| Ran(s, HeaderLength(p) - 5, plan) && emissions == HelloEmissions(p, plan, s.AllDelaysZero());
      HelloWaits(p, plan, s.AllDelaysZero());
    } else {
      plan :| Ran(s, |p|, plan) && emissions == StreamEmissions(p, plan);
      StreamWaits(p, plan);
    }
  }

  lemma NothingPlanned()
    ensures Planned([]) == 0
  {
  }

  // ---- how long the chunks are ----

  /** All lengths lie between 1 and m, and nothing limits the number of cuts. */
  predicate CutsShort(s: Settings, m: nat) {
    && s.maxSplit == Range(0, 0)
    && forall i :: 0 <= i < |s.lengths| ==> 1 <= s.lengths[i].from <= m && s.lengths[i].to <= m
  }

  lemma {:induction false} RunIsShort(s: Settings, m: nat, n: nat, plan: seq<Round>)
    requires s.WellFormed() && CutsShort(s, m) && IsRun(s, 0, n, plan)
    ensures forall i :: 0 <= i < |plan| ==> plan[i].Cut? && 1 <= plan[i].length <= m
  {
    if plan != [] {
      var k := |plan| - 1;
      RunIsShort(s, m, n, plan[..k]);
      assert forall i :: 0 <= i < k ==> plan[..k][i] == plan[i];
      RunStaysInside(s, 0, n, plan[..k]);
    }
  }

  predicate Short(chunks: seq<seq<Byte>>, m: nat) {
    forall i :: 0 <= i < |chunks| ==> 1 <= |chunks[i]| <= m
  }

  lemma {:induction false} StreamIsShort(p: seq<Byte>, plan: seq<Round>, m: nat)
    requires Offset(plan) <= |p| && forall i :: 0 <= i < |plan| ==> plan[i].Cut? && 1 <= plan[i].length <= m
    ensures Short(Written(StreamEmissions(p, plan)), m)
  {
    hide Written, StreamEmissions, Offset;
    if plan == [] {
      NothingStreamed(p);
    } else {
      var last := StreamStep(p, plan);
      StreamIsShort(p, plan[..|plan| - 1], m);
      WrittenOneMore(StreamEmissions(p, plan[..|plan| - 1]), last);
    }
  }

  lemma NothingStreamed(p: seq<Byte>)
    ensures Written(StreamEmissions(p, [])) == []
  {
  }

  lemma StreamStep(p: seq<Byte>, plan: seq<Round>) returns (last: Emission)
    requires Offset(plan) <= |p| && plan != [] && plan[|plan| - 1].Cut? && plan[|plan| - 1].length > 0
    ensures Offset(plan[..|plan| - 1]) <= |p|
    ensures StreamEmissions(p, plan) == StreamEmissions(p, plan[..|plan| - 1]) + [last]
    ensures |last.data| == plan[|plan| - 1].length
  {
    var from := Offset(plan[..|plan| - 1]);
    last := Emission(p[from..from + plan[|plan| - 1].length], plan[|plan| - 1].delay);
  }

  lemma WrittenOneMore(done: seq<Emission>, last: Emission)
    requires last.data != []
    ensures Written(done + [last]) == Written(done) + [last.data]
  {
    assert (done + [last])[..|done|] == done;
  }

  /** Behind one stream layer that applies to every write, no chunk is longer than the lengths allow. */
  lemma {:induction false} StreamChunksAreShort(s: Settings, m: nat, counts: seq<nat>, writes: seq<seq<Byte>>,
                                                chunks: seq<seq<Byte>>, counts': seq<nat>, ok: bool)
    requires s.WellFormed() && CutsShort(s, m) && !s.tlshello && s.packetsFrom == 0 && s.packetsTo == 0
    requires |counts| == 1 && PassesAll([s], counts, writes, chunks, counts', ok)
    ensures Short(chunks, m)
    decreases |writes|
  {
    if writes != [] {
      var n := |writes| - 1;
      if !ok && PassesAll([s], counts, writes[..n], chunks, counts', false) {
        StreamChunksAreShort(s, m, counts, writes[..n], chunks, counts', false);
      } else {
        var front, mid :| PassesAll([s], counts, writes[..n], front, mid, true) && front <= chunks
          && Passes([s], mid, writes[n], chunks[|front|..], counts', ok);
        StreamChunksAreShort(s, m, counts, writes[..n], front, mid, true);
        OneWriteIsShort(s, m, mid, writes[n], chunks[|front|..], counts', ok);
        assert forall i :: |front| <= i < |chunks| ==> chunks[i] == chunks[|front|..][i - |front|];
      }
    }
  }

  /** The same for one write in the window of the layer. */
  lemma OneWriteIsShort(s: Settings, m: nat, counts: seq<nat>, p: seq<Byte>, chunks: seq<seq<Byte>>, counts': seq<nat>,
                        ok: bool)
    requires s.WellFormed() && CutsShort(s, m) && !s.tlshello && |counts| == 1
    requires (s.packetsFrom == 0 && s.packetsTo == 0) || s.packetsFrom <= counts[0] + 1 <= s.packetsTo
    requires Passes([s], counts, p, chunks, counts', ok)
    ensures Short(chunks, m)
  {
    hide Passes, PassesAll, StreamEmissions, Offset, Written;
    var emissions := OneLayer(s, counts, p, chunks, counts', ok);
    NothingWritten();
    if p != [] {
      var plan :| Ran(s, |p|, plan) && emissions == StreamEmissions(p, plan);
      var maxSplit :| s.maxSplit.May(maxSplit) && IsRun(s, maxSplit, |p|, plan);
      RunIsShort(s, m, |p|, plan);
      StreamIsShort(p, plan, m);
    }
  }

  lemma NothingWritten()
    ensures Written([Emission([], 0)]) == []
  {
    assert [Emission([], 0)][..0] == [];
  }

  /** Outside its window a stream layer hands a write on as it is; so does a tlshello layer unless it is the first and starts
      with a whole handshake record. */
  lemma OtherWritesAreWhole(s: Settings, counts: seq<nat>, p: seq<Byte>, chunks: seq<seq<Byte>>, counts': seq<nat>)
    requires s.WellFormed() && |counts| == 1 && p != [] && Passes([s], counts, p, chunks, counts', true)
    requires if s.tlshello
             then counts[0] > 0 || |p| <= 5 || p[0] != 0x16 || |p| < 5 + U16(p[3], p[4])
             else (s.packetsFrom != 0 || s.packetsTo != 0) && !(s.packetsFrom <= counts[0] + 1 <= s.packetsTo)
    ensures chunks == [p]
  {
    var emissions := OneLayer(s, counts, p, chunks, counts', true);
    WrittenOneMore([], emissions[0]);
    assert [] + [emissions[0]] == emissions;
  }

  /** The piece number i is as long as range number i allows, the last range standing for all further ones, or ends the
      data. */
  lemma {:induction false} CutsFollowRanges(s: Settings, n: nat, plan: seq<Round>, i: nat)
    requires s.WellFormed() && IsRun(s, 0, n, plan) && i < |plan|
    requires forall j :: 0 <= j < |s.lengths| ==> 1 <= s.lengths[j].from <= s.lengths[j].to
    ensures plan[i].Cut?
    ensures var range := if i < |s.lengths| then s.lengths[i] else s.lengths[|s.lengths| - 1];
      plan[i].length <= range.to && (range.from <= plan[i].length || Offset(plan[..i + 1]) == n)
  {
    var k := |plan| - 1;
    if i < k {
      CutsFollowRanges(s, n, plan[..k], i);
      assert plan[..k][..i + 1] == plan[..i + 1];
    } else {
      assert plan[..i + 1] == plan;
    }
  }

  /** Behind a single layer the chunks are what it emits, pauses aside, or the first of them. */
  lemma OneLayer(s: Settings, counts: seq<nat>, p: seq<Byte>, chunks: seq<seq<Byte>>, counts': seq<nat>, ok: bool)
    returns (emissions: seq<Emission>)
    requires s.WellFormed() && |counts| == 1 && Passes([s], counts, p, chunks, counts', ok)
    ensures Emits(s, counts[0] + 1, p, emissions) && chunks <= Written(emissions) && (ok ==> chunks == Written(emissions))
  {
    assert [s][1..] == [] && counts[1..] == [];
    emissions :| Emits(s, counts[0] + 1, p, emissions)
      && PassesAll([], [], Written(emissions), chunks, counts'[1..], ok);
    NoLayer(Written(emissions), chunks, counts'[1..], ok);
  }

  lemma {:induction false} NoLayer(writes: seq<seq<Byte>>, chunks: seq<seq<Byte>>, counts': seq<nat>, ok: bool)
    requires PassesAll([], [], writes, chunks, counts', ok)
    ensures chunks <= writes && (ok ==> chunks == writes)
    decreases |writes|
  {
    if writes != [] {
      var n := |writes| - 1;
      if !ok && PassesAll([], [], writes[..n], chunks, counts', false) {
        NoLayer(writes[..n], chunks, counts', false);
      } else {
        var front, mid :| PassesAll([], [], writes[..n], front, mid, true) && front <= chunks
          && Passes([], mid, writes[n], chunks[|front|..], counts', ok);
        NoLayer(writes[..n], front, mid, true);
      }
    }
  }

  /** The records of the first hello behind one tlshello layer: each of them carries as much as the lengths allow, and what
      follows the hello stays behind them. */
  lemma HelloRecordsAreShort(s: Settings, m: nat, p: seq<Byte>, chunks: seq<seq<Byte>>, counts': seq<nat>)
    returns (pieces: seq<seq<Byte>>)
    requires s.WellFormed() && CutsShort(s, m) && s.tlshello
    requires |p| > 5 && p[0] == 0x16 && Complete(p) && Passes([s], [0], p, chunks, counts', true)
    ensures Short(pieces, m) && |Joined(pieces)| == HeaderLength(p) - 5
    ensures Joined(chunks) == Framed(p[0], p[1], p[2], pieces) + p[HeaderLength(p)..]
  {
    var n := HeaderLength(p);
    var emissions, plan := HelloRun(s, m, p, chunks, counts');
    hide Passes, Framed, Flat, Joined, HelloEmissions, Wire, Written, Offset;
    var allZero := s.AllDelaysZero();
    pieces := Wire(p[5..n], plan, allZero);
    WireIsCutShort(p[5..n], plan, allZero, m);
    WireIsShort(p[5..n], plan, allZero);
    HelloIsResplit(p, plan, allZero);
    WrittenIsFlat(emissions);
  }

  lemma HelloRun(s: Settings, m: nat, p: seq<Byte>, chunks: seq<seq<Byte>>, counts': seq<nat>)
    returns (emissions: seq<Emission>, plan: seq<Round>)
    requires s.WellFormed() && CutsShort(s, m) && s.tlshello
    requires |p| > 5 && p[0] == 0x16 && Complete(p) && Passes([s], [0], p, chunks, counts', true)
    ensures chunks == Written(emissions) && Offset(plan) == HeaderLength(p) - 5
    ensures emissions == HelloEmissions(p, plan, s.AllDelaysZero())
    ensures forall i :: 0 <= i < |plan| ==> plan[i].Cut? && 1 <= plan[i].length <= m
  {
    hide Passes, HelloEmissions, Offset;
    var n := HeaderLength(p);
    emissions := OneLayer(s, [0], p, chunks, counts', true);
    plan :| Ran(s, n - 5, plan) && emissions == HelloEmissions(p, plan, s.AllDelaysZero());
    var maxSplit :| s.maxSplit.May(maxSplit) && IsRun(s, maxSplit, n - 5, plan);
    RunIsShort(s, m, n - 5, plan);
  }

  lemma {:induction false} WireIsCutShort(data: seq<Byte>, plan: seq<Round>, allZero: bool, m: nat)
    requires Offset(plan) <= |data| && forall i :: 0 <= i < |plan| ==> plan[i].Cut? && 1 <= plan[i].length <= m
    ensures Short(SentPieces(data, plan, allZero), m) && Short(HeldPieces(data, plan, allZero), m)
    ensures Short(Wire(data, plan, allZero), m)
  {
    if plan != [] {
      var k := |plan| - 1;
      assert forall i :: 0 <= i < k ==> plan[..k][i] == plan[i];
      WireIsCutShort(data, plan[..k], allZero, m);
    }
  }

  lemma {:induction false} WrittenIsFlat(emissions: seq<Emission>)
    ensures Joined(Written(emissions)) == Flat(emissions)
  {
    if emissions == [] {
      FlatNothing();
    } else {
      var n := |emissions| - 1;
      var last := emissions[n];
      WrittenIsFlat(emissions[..n]);
      FlatConcat(emissions[..n], [last]);
      FlatOne(last);
      assert emissions == emissions[..n] + [last];
      hide Flat;
      if last.data != [] {
        var done := Written(emissions[..n]);
        assert (done + [last.data])[..|done|] == done;
      } else {
        assert Written(emissions[..n]) + [] == Written(emissions[..n]);
      }
    }
  }
}
