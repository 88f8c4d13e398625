/** The finalmask fragment layers of internal/finalmask/finalmask.go, one by one and in a stack. */
module FinalMask {
  import opened Bytes
  import opened TlsRecords
  import opened MaskRuns
  import opened MaskStacks
  import opened RecordOrder

  // ---- the layer ----

  class FragmentLayer {
    const s: Settings
    const allDelaysZero: bool
    var count: nat

    predicate Ready()
    {
      s.WellFormed() && s.Terminating() && allDelaysZero == s.AllDelaysZero()
    }

    constructor (s: Settings)
      requires s.WellFormed() && s.Terminating()
      ensures this.s == s && count == 0 && Ready()
    {
      this.s := s;
      var zero := true;
      for i := 0 to |s.delays|
        invariant zero <==> forall j :: 0 <= j < i ==> s.delays[j].to == 0
      {
        if s.delays[i].to != 0 {
          zero := false;
          break;
        }
      }
      allDelaysZero := zero;
      count := 0;
    }

    method PickLength(i: nat) returns (v: int)
      requires s.lengths != []
      ensures s.LengthRange(i).May(v)
    {
      if i < |s.lengths| {
        v := Pick(s.lengths[i]);
      } else {
        v := Pick(s.lengths[|s.lengths| - 1]);
      }
    }

    method PickDelay(i: nat) returns (v: int)
      requires s.delays != []
      ensures s.DelayRange(i).May(v)
    {
      if i < |s.delays| {
        v := Pick(s.delays[i]);
      } else {
        v := Pick(s.delays[|s.delays| - 1]);
      }
    }

    /** One round of either loop: pick a length and a delay, then idle or find the end of the next cut. */
    method NextRound(i: nat, from: nat, n: nat, splitNum: nat, maxSplit: int, ghost plan: seq<Round>)
      returns (idle: bool, to: nat, delay: int, ghost round: Round)
      requires Ready() && s.maxSplit.May(maxSplit) && IsRun(s, maxSplit, n, plan)
      requires i == |plan| && from == Offset(plan) < n && splitNum == Cuts(plan)
      ensures from <= to <= n && (idle ==> to == from)
      ensures round == if idle then Idle(delay) else Cut(to - from, delay)
      ensures IsRun(s, maxSplit, n, plan + [round])
      ensures Offset(plan + [round]) == to && Cuts(plan + [round]) == splitNum + if idle then 0 else 1
      ensures |plan| < |s.lengths| + n + Positive(maxSplit)
    {
      hide IsRun, Offset, Cuts;
      var length := PickLength(i);
      delay := PickDelay(i);
      if length <= 0 && i < |s.lengths| - 1 {
        IdleFollows(s, maxSplit, n, plan, length, delay);
        return true, from, delay, Idle(delay);
      }
      CutIsNatural(s, i, length);
      to := from + length;
      if to > n || (maxSplit > 0 && splitNum + 1 >= maxSplit) {
        to := n;
      }
      CutFollows(s, maxSplit, n, plan, length, delay, to);
      idle, round := false, Cut(to - from, delay);
    }

    lemma NothingCutYet(p: seq<Byte>, data: seq<Byte>, maxSplit: int)
      requires |p| >= 5 && s.WellFormed()
      ensures IsRun(s, maxSplit, |data|, []) && Offset([]) == 0 && Cuts([]) == 0
      ensures Emitted(p, data, [], allDelaysZero) == [] && Merged(p, data, [], allDelaysZero) == []
    {
    }

    /** The fragment loop of a tlshello layer: records written at once, and records held back. */
    method CutHello(p: seq<Byte>, data: seq<Byte>, maxSplit: int)
      returns (emissions: seq<Emission>, concat: seq<Byte>, ghost plan: seq<Round>)
      requires Ready() && |p| >= 5 && s.maxSplit.May(maxSplit)
      ensures IsRun(s, maxSplit, |data|, plan) && Offset(plan) == |data|
      ensures emissions == Emitted(p, data, plan, allDelaysZero) && concat == Merged(p, data, plan, allDelaysZero)
    {
      hide IsRun, MayFollow, Emitted, Merged, Offset, Cuts, RecordOf;
      emissions, concat, plan := [], [], [];
      var splitNum, i, from, n := 0, 0, 0, |data|;
      NothingCutYet(p, data, maxSplit);
      while from < n
        invariant i == |plan| && from == Offset(plan) <= n && splitNum == Cuts(plan)
        invariant IsRun(s, maxSplit, n, plan)
        invariant emissions == Emitted(p, data, plan, allDelaysZero) && concat == Merged(p, data, plan, allDelaysZero)
        decreases |s.lengths| + n + Positive(maxSplit) - i
      {
        var idle, to, delay;
        ghost var round;
        idle, to, delay, round := NextRound(i, from, n, splitNum, maxSplit, plan);
        i := i + 1;
        if idle {
          EmitsIdle(p, data, plan, delay, allDelaysZero);
          plan := plan + [round];
          if delay > 0 {
            emissions := emissions + [Emission([], delay)];
          }
          continue;
        }
        splitNum := splitNum + 1;
        EmitsCut(p, data, plan, to, delay, allDelaysZero);
        plan := plan + [round];
        var record := RecordOf(p, data[from..to]);
        from := to;
        if delay == 0 && allDelaysZero {
          concat := concat + record;
        } else {
          emissions := emissions + [Emission(record, delay)];
        }
      }
    }

    /** The first write of a connection, if it starts with a whole handshake record, is cut up inside that record. */
    method ProcessTlsHello(p: seq<Byte>) returns (emissions: seq<Emission>, ghost plan: seq<Round>)
      requires Ready()
      ensures if count == 1 && |p| > 5 && p[0] == 0x16 && Complete(p)
              then Ran(s, HeaderLength(p) - 5, plan) && emissions == HelloEmissions(p, plan, allDelaysZero)
              else emissions == [Emission(p, 0)]
    {
      hide IsRun, Emitted, Merged, Offset;
      plan := [];
      if count != 1 || |p| <= 5 || p[0] != 0x16 {
        return [Emission(p, 0)], plan;
      }
      var recordLen := 5 + U16(p[3], p[4]);
      if |p| < recordLen {
        return [Emission(p, 0)], plan;
      }
      var maxSplit := Pick(s.maxSplit);
      var concat;
      emissions, concat, plan := CutHello(p, p[5..recordLen], maxSplit);
      if concat != [] {
        emissions := emissions + [Emission(concat, 0)];
      }
      if |p| > recordLen {
        emissions := emissions + [Emission(p[recordLen..], 0)];
      }
      if emissions == [] {
        emissions := [Emission(p, 0)];
      }
    }

    method ProcessStream(p: seq<Byte>) returns (emissions: seq<Emission>, ghost plan: seq<Round>)
      requires Ready()
      ensures if Applies(s, count) && p != []
              then Ran(s, |p|, plan) && emissions == StreamEmissions(p, plan)
              else emissions == [Emission(p, 0)]
    {
      plan := [];
      if !((s.packetsFrom == 0 && s.packetsTo == 0) || s.packetsFrom <= count <= s.packetsTo) {
        return [Emission(p, 0)], plan;
      }
      var n := |p|;
      if n == 0 {
        return [Emission(p, 0)], plan;
      }
      var maxSplit := Pick(s.maxSplit);
      emissions := [];
      var splitNum, i, from := 0, 0, 0;
      assert IsRun(s, maxSplit, n, []) && StreamEmissions(p, []) == [];
      hide IsRun, MayFollow, StreamEmissions;
      while from < n
        invariant i == |plan| && from == Offset(plan) <= n && splitNum == Cuts(plan)
        invariant IsRun(s, maxSplit, n, plan) && emissions == StreamEmissions(p, plan)
        decreases |s.lengths| + n + Positive(maxSplit) - i
      {
        var idle, to, delay;
        ghost var round;
        idle, to, delay, round := NextRound(i, from, n, splitNum, maxSplit, plan);
        plan := plan + [round];
        i := i + 1;
        if idle {
          if delay > 0 {
            emissions := emissions + [Emission([], delay)];
          }
          continue;
        }
        splitNum := splitNum + 1;
        emissions := emissions + [Emission(p[from..to], delay)];
        from := to;
      }
    }

    /** Process: the write is counted, then cut up. A tlshello layer touches the first write only and, if its settings
        keep the order, leaves the receiver none the wiser; a stream layer leaves every byte where it was. */
    method Process(chunk: seq<Byte>) returns (emissions: seq<Emission>)
      requires Ready()
      modifies this`count
      ensures count == old(count) + 1 && Emits(s, count, chunk, emissions)
      ensures Flat(emissions) == chunk || (s.tlshello && old(count) == 0)
      ensures (s.tlshello ==> KeepsOrder(s)) ==> Same(chunk, Flat(emissions))
      ensures chunk != [] ==> Flat(emissions) != []
    {
      count := count + 1;
      ghost var plan;
      FlatOne(Emission(chunk, 0));
      if s.tlshello {
        emissions, plan := ProcessTlsHello(chunk);
        if emissions != [Emission(chunk, 0)] {
          ghost var maxSplit :| s.maxSplit.May(maxSplit) && IsRun(s, maxSplit, HeaderLength(chunk) - 5, plan);
          HelloIsSomething(chunk, plan, allDelaysZero);
          if KeepsOrder(s) {
            WriteIsSame(s, maxSplit, chunk, plan);
          }
        }
      } else {
        emissions, plan := ProcessStream(chunk);
        if emissions != [Emission(chunk, 0)] {
          StreamIsIdentity(chunk, plan);
          assert chunk[..|chunk|] == chunk;
        }
      }
    }
  }

  // ---- the stack ----

  /** Where the masked chunks go; a write may fail, and then the sink is broken. */
  class Sink {
    var received: seq<seq<Byte>>
    var broken: bool

    constructor ()
      ensures received == [] && !broken
    {
      received, broken := [], false;
    }

    method Write(chunk: seq<Byte>) returns (ok: bool)
      modifies this
      ensures received == if ok then old(received) + [chunk] else old(received)
      ensures broken <==> old(broken) || !ok
    {
      ok := *;
      if ok {
        received := received + [chunk];
      } else {
        broken := true;
      }
    }

    ghost function Stream(): seq<Byte>
      reads this
    {
      Joined(received)
    }
  }

  /** A stack of distinct layers, outermost first, those that split records keeping them in order. */
  ghost predicate IsStack(layers: seq<FragmentLayer>) {
    && (forall i, j :: 0 <= i < j < |layers| ==> layers[i] != layers[j])
    && forall i :: 0 <= i < |layers| ==> layers[i].Ready() && (layers[i].s.tlshello ==> KeepsOrder(layers[i].s))
  }

  function SettingsOf(layers: seq<FragmentLayer>): (ss: seq<Settings>)
    ensures |ss| == |layers| && forall i :: 0 <= i < |layers| ==> ss[i] == layers[i].s
  {
    seq(|layers|, i requires 0 <= i < |layers| => layers[i].s)
  }

  function CountsOf(layers: seq<FragmentLayer>): (counts: seq<nat>)
    reads layers
    ensures |counts| == |layers| && forall i :: 0 <= i < |layers| ==> counts[i] == layers[i].count
  {
    if layers == [] then []
    else
      assert forall i :: 0 <= i < |layers| - 1 ==> layers[1..][i] == layers[i + 1];
      [layers[0].count] + CountsOf(layers[1..])
  }

  /** The state of a connection: the receiver cannot tell what went in from what came out, a layer that has seen no
      write has had nothing go by, and where `exact` is claimed there are stream layers alone and no byte has changed.
      */
  ghost predicate Tracks(layers: seq<FragmentLayer>, sent: seq<Byte>, out: seq<Byte>, exact: bool)
    reads layers
  {
    && Same(sent, out)
    && (exact ==> sent == out && forall i :: 0 <= i < |layers| ==> !layers[i].s.tlshello)
    && forall i :: 0 <= i < |layers| ==> layers[i].count == 0 ==> sent == []
  }

  lemma RestOf(layers: seq<FragmentLayer>)
    requires layers != []
    ensures SettingsOf(layers)[1..] == SettingsOf(layers[1..]) && CountsOf(layers)[1..] == CountsOf(layers[1..])
  {
  }

  lemma TracksRest(layers: seq<FragmentLayer>, sent: seq<Byte>, out: seq<Byte>, exact: bool)
    requires IsStack(layers) && Tracks(layers, sent, out, exact)
    ensures Same(sent, out) && (exact ==> sent == out && forall i :: 0 <= i < |layers| ==> !layers[i].s.tlshello)
    ensures layers != [] ==>
      && IsStack(layers[1..]) && Tracks(layers[1..], sent, out, exact) && layers[0] !in layers[1..]
      && (layers[0].count == 0 ==> sent == [])
  {
  }

  lemma AllDelivered(layers: seq<FragmentLayer>, sent: seq<Byte>, out: seq<Byte>, exact: bool)
    requires layers == [] && Same(sent, out) && (exact ==> sent == out)
    ensures Tracks(layers, sent, out, exact)
  {
  }

  /** sendThrough: one write through the rest of the stack.  The sink gets the chunks that the layers, one behind the other,
      may make of it, up to the first that cannot be written. */
  method SendThrough(layers: seq<FragmentLayer>, sink: Sink, data: seq<Byte>, ghost sent: seq<Byte>, ghost exact: bool)
    returns (ok: bool)
    requires IsStack(layers) && Tracks(layers, sent, sink.Stream(), exact)
    modifies sink, layers`count
    ensures ok ==> Tracks(layers, sent + data, sink.Stream(), exact)
    ensures old(sink.received) <= sink.received && (sink.broken <==> old(sink.broken) || !ok)
    ensures Passes(SettingsOf(layers), old(CountsOf(layers)), data, sink.received[|old(sink.received)|..], CountsOf(layers), ok)
    decreases |layers|, 0
  {
    hide Same, Flat, Joined, Emits, PassesAll, CountsOf, Tracks, SettingsOf;
    TracksRest(layers, sent, sink.Stream(), exact);
    if layers == [] {
      ok := sink.Write(data);
      if ok {
        DeliveredTracks(sent, old(sink.received), data);
        AllDelivered(layers, sent + data, sink.Stream(), exact);
      }
      return;
    }
    var outer, rest := layers[0], layers[1..];
    RestOf(layers);
    var emissions := outer.Process(data);
    ok := SendEmissions(rest, sink, emissions, sent, exact);
    RestOf(layers);
    if ok {
      StackTracks(layers, sent, data, Flat(emissions), sink.Stream(), old(outer.count), exact);
    }
  }

  /** Its loop: what one layer emits goes through those behind it, pauses aside. */
  method SendEmissions(layers: seq<FragmentLayer>, sink: Sink, emissions: seq<Emission>, ghost sent: seq<Byte>,
                       ghost exact: bool)
    returns (ok: bool)
    requires IsStack(layers) && Tracks(layers, sent, sink.Stream(), exact)
    modifies sink, layers`count
    ensures ok ==> Tracks(layers, sent + Flat(emissions), sink.Stream(), exact)
    ensures old(sink.received) <= sink.received && (sink.broken <==> old(sink.broken) || !ok)
    ensures PassesAll(SettingsOf(layers), old(CountsOf(layers)), Written(emissions), sink.received[|old(sink.received)|..],
                      CountsOf(layers), ok)
    decreases |layers|, 1
  {
    hide Same, Flat, Joined, PassesAll, Passes, CountsOf, Written, Tracks;
    ghost var ss, n, before := SettingsOf(layers), |sink.received|, CountsOf(layers);
    NothingSent(emissions);
    NothingPasses(ss, before);
    assert sent + [] == sent && sink.received[n..] == [];
    ok := true;
    for i := 0 to |emissions|
      invariant IsStack(layers) && Tracks(layers, sent + Flat(emissions[..i]), sink.Stream(), exact)
      invariant old(sink.received) <= sink.received && sink.broken == old(sink.broken)
      invariant PassesAll(ss, before, Written(emissions[..i]), sink.received[n..], CountsOf(layers), true)
    {
      FlatStep(emissions, i);
      WrittenStep(emissions, i);
      assert sent + Flat(emissions[..i + 1]) == sent + Flat(emissions[..i]) + emissions[i].data;
      if emissions[i].data != [] {
        ghost var so, mid, done := sink.received, CountsOf(layers), Written(emissions[..i]);
        ok := SendThrough(layers, sink, emissions[i].data, sent + Flat(emissions[..i]), exact);
        assert sink.received[n..][|so[n..]|..] == sink.received[|so|..];
        PassesMore(ss, before, done, so[n..], mid, emissions[i].data, sink.received[n..], CountsOf(layers), ok);
        if !ok {
          ghost var more := WrittenGrows(emissions, i + 1);
          FailedStays(ss, before, done + [emissions[i].data], more, sink.received[n..], CountsOf(layers));
          return;
        }
      } else {
        assert sent + Flat(emissions[..i + 1]) == sent + Flat(emissions[..i]);
        assert Written(emissions[..i]) + [] == Written(emissions[..i]);
      }
    }
    assert emissions[..|emissions|] == emissions;
  }

  lemma NothingSent(emissions: seq<Emission>)
    ensures Flat(emissions[..0]) == [] && Written(emissions[..0]) == []
  {
    assert emissions[..0] == [];
    FlatNothing();
  }

  lemma DeliveredTracks(sent: seq<Byte>, received: seq<seq<Byte>>, data: seq<Byte>)
    requires Same(sent, Joined(received))
    ensures Same(sent + data, Joined(received + [data]))
    ensures sent == Joined(received) ==> sent + data == Joined(received + [data])
  {
    SameThenSame(sent, Joined(received), data);
    assert (received + [data])[..|received|] == received;
  }

  lemma FlatStep(emissions: seq<Emission>, i: nat)
    requires i < |emissions|
    ensures Flat(emissions[..i + 1]) == Flat(emissions[..i]) + emissions[i].data
  {
    assert emissions[..i + 1] == emissions[..i] + [emissions[i]];
    FlatConcat(emissions[..i], [emissions[i]]);
    FlatOne(emissions[i]);
  }

  /** One layer more: what it emitted for the write went through the rest of the stack. */
  lemma StackTracks(layers: seq<FragmentLayer>, sent: seq<Byte>, data: seq<Byte>, emitted: seq<Byte>, out: seq<Byte>,
                    before: int, exact: bool)
    requires layers != [] && IsStack(layers) && layers[0].count != 0 && Tracks(layers[1..], sent + emitted, out, exact)
    requires before == 0 ==> sent == []
    requires exact ==> forall i :: 0 <= i < |layers| ==> !layers[i].s.tlshello
    requires emitted == data || (layers[0].s.tlshello && before == 0)
    requires Same(data, emitted) && (data != [] ==> emitted != [])
    ensures Tracks(layers, sent + data, out, exact)
  {
    var rest := layers[1..];
    if emitted != data {
      assert sent + data == data && sent + emitted == emitted;
    }
    forall i | 0 <= i < |layers| && layers[i].count == 0 ensures sent + data == [] {
      assert layers[i] == rest[i - 1];
      assert |sent + emitted| == 0;
    }
  }

  /** FinalMasker. */
  class FinalMasker {
    const layers: seq<FragmentLayer>

    constructor (layers: seq<FragmentLayer>)
      ensures this.layers == layers
    {
      this.layers := layers;
    }

    /** Clone: the same layers, in the same order, with counters of their own at zero. */
    method Clone() returns (m: FinalMasker)
      requires IsStack(layers)
      ensures fresh(m) && IsStack(m.layers) && |m.layers| == |layers|
      ensures forall i :: 0 <= i < |layers| ==>
        fresh(m.layers[i]) && m.layers[i].s == layers[i].s && m.layers[i].count == 0
    {
      var copies := [];
      for i := 0 to |layers|
        invariant |copies| == i && IsStack(copies)
        invariant forall j :: 0 <= j < i ==> fresh(copies[j]) && copies[j].s == layers[j].s && copies[j].count == 0
      {
        var copy := new FragmentLayer(layers[i].s);
        copies := copies + [copy];
      }
      m := new FinalMasker(copies);
    }

    /** Send: one write of the connection. */
    method Send(sink: Sink, data: seq<Byte>, ghost sent: seq<Byte>, ghost exact: bool)
    returns (ok: bool)
      requires IsStack(layers) && Tracks(layers, sent, sink.Stream(), exact)
      modifies sink, layers`count
      ensures ok ==> Tracks(layers, sent + data, sink.Stream(), exact)
      ensures old(sink.received) <= sink.received && (sink.broken <==> old(sink.broken) || !ok)
      ensures Passes(SettingsOf(layers), old(CountsOf(layers)), data, sink.received[|old(sink.received)|..], CountsOf(layers), ok)
    {
      ok := SendThrough(layers, sink, data, sent, exact);
    }
  }

  /** A whole connection over any masker: whatever the layers pick, and however the caller chops up its writes, the
      receiver reads the same content under the same record types and versions, and stream layers alone change no
      byte.  The chunks are those that the layers may make of the writes, up to the first that cannot be written. */
  method Connection(template: FinalMasker, writes: seq<seq<Byte>>) returns (ok: bool, sink: Sink, ghost counts: seq<nat>)
    requires IsStack(template.layers)
    ensures ok ==> Same(Joined(writes), sink.Stream())
    ensures ok && (forall i :: 0 <= i < |template.layers| ==> !template.layers[i].s.tlshello) ==>
      sink.Stream() == Joined(writes)
    ensures ok <==> !sink.broken
    ensures PassesAll(SettingsOf(template.layers), Zeros(|template.layers|), writes, sink.received, counts, ok)
  {
    hide Same, Joined, PassesAll, Passes, CountsOf, Tracks;
    ghost var exact := forall i :: 0 <= i < |template.layers| ==> !template.layers[i].s.tlshello;
    var m := template.Clone();
    sink := new Sink();
    NothingTracks(m.layers, exact);
    ghost var zeros := CountsOf(m.layers);
    assert zeros == Zeros(|template.layers|) && SettingsOf(m.layers) == SettingsOf(template.layers);
    assert sink.Stream() == [];
    ok := SendWrites(m, sink, writes, exact);
    counts := CountsOf(m.layers);
    if ok {
      TracksMeans(m.layers, Joined(writes), sink.Stream(), exact);
    }
  }

  /** The writes of a connection, one after the other. */
  method SendWrites(m: FinalMasker, sink: Sink, writes: seq<seq<Byte>>, ghost exact: bool) returns (ok: bool)
    requires IsStack(m.layers) && Tracks(m.layers, [], sink.Stream(), exact) && !sink.broken && sink.received == []
    modifies sink, m.layers`count
    ensures ok ==> Tracks(m.layers, Joined(writes), sink.Stream(), exact)
    ensures ok <==> !sink.broken
    ensures PassesAll(SettingsOf(m.layers), old(CountsOf(m.layers)), writes, sink.received, CountsOf(m.layers), ok)
  {
    hide Same, Joined, PassesAll, Passes, CountsOf, Tracks;
    ghost var ss, before := SettingsOf(m.layers), CountsOf(m.layers);
    NothingJoined();
    NothingPasses(ss, before);
    assert writes[..0] == [];
    ok := true;
    for i := 0 to |writes|
      invariant IsStack(m.layers) && Tracks(m.layers, Joined(writes[..i]), sink.Stream(), exact) && !sink.broken
      invariant PassesAll(ss, before, writes[..i], sink.received, CountsOf(m.layers), true)
    {
      assert writes[..i + 1] == writes[..i] + [writes[i]];
      JoinedStep(writes, i);
      ghost var so, mid := sink.received, CountsOf(m.layers);
      ok := m.Send(sink, writes[i], Joined(writes[..i]), exact);
      PassesMore(ss, before, writes[..i], so, mid, writes[i], sink.received, CountsOf(m.layers), ok);
      if !ok {
        assert writes == writes[..i + 1] + writes[i + 1..];
        FailedStays(ss, before, writes[..i + 1], writes[i + 1..], sink.received, CountsOf(m.layers));
        return;
      }
    }
    assert writes[..|writes|] == writes;
  }

  lemma TracksMeans(layers: seq<FragmentLayer>, sent: seq<Byte>, out: seq<Byte>, exact: bool)
    requires Tracks(layers, sent, out, exact)
    ensures Same(sent, out) && (exact ==> sent == out)
  {
  }

  lemma NothingTracks(layers: seq<FragmentLayer>, exact: bool)
    requires exact ==> forall i :: 0 <= i < |layers| ==> !layers[i].s.tlshello
    ensures Tracks(layers, [], [], exact) && Joined([]) == []
  {
  }

  function Zeros(n: nat): (s: seq<nat>)
    ensures |s| == n && forall i :: 0 <= i < n ==> s[i] == 0
  {
    seq(n, _ => 0)
  }

  lemma JoinedStep(writes: seq<seq<Byte>>, i: nat)
    requires i < |writes|
    ensures Joined(writes[..i + 1]) == Joined(writes[..i]) + writes[i]
  {
    assert writes[..i + 1][..i] == writes[..i];
  }
}
