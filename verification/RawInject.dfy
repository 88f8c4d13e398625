/** The packet automaton of internal/forward/rawinject_unix.go: what each sighted packet does to a registered port. */
module RawInjection {
  import opened Sequences
  import opened Bytes
  import opened RawFrame

  const FIN := 0x01
  const SYN := 0x02
  const RST := 0x04
  const ACK := 0x10
  const ETH_IP := 0x0800

  // ---- reading a packet ----

  datatype Segment = Segment(ipOff: nat, srcPort: nat, dstPort: nat, seqNo: nat, ackNo: nat, flags: Byte, payload: nat)

  /** Where the IP header starts: after an Ethernet header if there seems to be one, else at once. */
  function IpOffset(pkt: seq<Byte>): Option<nat> {
    if |pkt| >= 14 + 20 + 20 && WordAt(pkt, 12) == ETH_IP then Some(14)
    else if |pkt| >= 40 && pkt[0] / 16 == 4 then Some(0)
    else None
  }

  function Parse(pkt: seq<Byte>): (r: Option<Segment>) {
    if IpOffset(pkt).None? then None
    else
      var ipOff := IpOffset(pkt).value;
      var ip := pkt[ipOff..];
      if ip[0] / 16 != 4 || ip[9] != 6 || |ip| < (ip[0] % 16) * 4 + 20 then None
      else
        var tcp := ip[(ip[0] % 16) * 4..];
        var headerLength := (tcp[12] / 16) * 4;
        if |tcp| < headerLength then None
        else Some(Segment(ipOff, WordAt(tcp, 0), WordAt(tcp, 2), U32(tcp[4..8]), U32(tcp[8..12]), tcp[13],
                          |tcp| - headerLength))
  }

  /** A packet in parts, as IPv4 and TCP lay it out; `link` is empty or an Ethernet header. */
  predicate IsPacket(link: seq<Byte>, iph: seq<Byte>, tcph: seq<Byte>) {
    && (link == [] || (|link| == 14 && WordAt(link, 12) == ETH_IP))
    && 20 <= |iph| && iph[0] / 16 == 4 && (iph[0] % 16) * 4 == |iph| && iph[9] == 6
    && 20 <= |tcph| && (tcph[12] / 16) * 4 == |tcph|
  }

  function Fields(link: seq<Byte>, tcph: seq<Byte>, payload: nat): Segment
    requires |tcph| >= 20
  {
    Segment(|link|, WordAt(tcph, 0), WordAt(tcph, 2), U32(tcph[4..8]), U32(tcph[8..12]), tcph[13], payload)
  }

  /** A bare packet from 8.0.0.0/16 carries the EtherType of IPv4 where an Ethernet header would. */
  predicate LooksFramed(iph: seq<Byte>, rest: nat)
    requires |iph| >= 20
  {
    |iph| + rest >= 54 && iph[12] == 8 && iph[13] == 0
  }

  /** The offset is right on every framed packet, and on a bare one exactly when it does not look framed. */
  lemma OffsetIsExact(link: seq<Byte>, iph: seq<Byte>, tcph: seq<Byte>, data: seq<Byte>)
    requires IsPacket(link, iph, tcph)
    ensures IpOffset(link + iph + tcph + data) == Some(|link|)
       <==> (link == [] ==> !LooksFramed(iph, |tcph| + |data|))
  {
    var pkt := link + iph + tcph + data;
    if link != [] {
      assert pkt[12] == link[12] && pkt[13] == link[13];
    } else {
      assert pkt[0] == iph[0] && pkt[12] == iph[12] && pkt[13] == iph[13];
    }
  }

  /** Every well-formed packet whose offset is found is read field by field. */
  lemma ParseReads(link: seq<Byte>, iph: seq<Byte>, tcph: seq<Byte>, data: seq<Byte>)
    requires IsPacket(link, iph, tcph) && IpOffset(link + iph + tcph + data) == Some(|link|)
    ensures Parse(link + iph + tcph + data) == Some(Fields(link, tcph, |data|))
  {
    var pkt := link + iph + tcph + data;
    var ip := pkt[|link|..];
    assert ip == iph + (tcph + data);
    assert ip[0] == iph[0] && ip[9] == iph[9];
    var tcp := ip[|iph|..];
    assert tcp == tcph + data;
    assert tcp[4..8] == tcph[4..8] && tcp[8..12] == tcph[8..12];
  }

  /** Which packets are read at all, well-formed or not. */
  lemma EveryPacketIsRead(pkt: seq<Byte>)
    ensures Parse(pkt).Some? <==>
      && |pkt| >= 40
      && var off := if |pkt| >= 54 && pkt[12] == 8 && pkt[13] == 0 then 14 else 0;
      && 64 <= pkt[off] <= 79 && pkt[off + 9] == 6
      && off + 4 * (pkt[off] - 64) + 20 <= |pkt|
      && off + 4 * (pkt[off] - 64) + pkt[off + 4 * (pkt[off] - 64) + 12] / 16 * 4 <= |pkt|
    ensures Parse(pkt).Some? ==>
      Parse(pkt).value.ipOff == if |pkt| >= 54 && pkt[12] == 8 && pkt[13] == 0 then 14 else 0
  {
    hide U32;
  }

  /** Where each field of a segment comes from, well-formed or not. */
  lemma EveryFieldIsRead(pkt: seq<Byte>)
    requires Parse(pkt).Some?
    ensures var s, at := Parse(pkt).value, Parse(pkt).value.ipOff + pkt[Parse(pkt).value.ipOff] % 16 * 4;
      && at + 20 <= |pkt| && at + pkt[at + 12] / 16 * 4 + s.payload == |pkt|
      && s.srcPort == Number(pkt[at..at + 2]) && s.dstPort == Number(pkt[at + 2..at + 4])
      && s.seqNo == Number(pkt[at + 4..at + 8]) && s.ackNo == Number(pkt[at + 8..at + 12]) && s.flags == pkt[at + 13]
  {
    var off := Parse(pkt).value.ipOff;
    var at := off + pkt[off] % 16 * 4;
    var tcp := pkt[off..][at - off..];
    assert tcp == pkt[at..];
    FieldsAreRead(pkt, at);
    hide Number, U32;
  }

  lemma FieldsAreRead(pkt: seq<Byte>, at: nat)
    requires at + 20 <= |pkt|
    ensures WordAt(pkt[at..], 0) == Number(pkt[at..at + 2]) && WordAt(pkt[at..], 2) == Number(pkt[at + 2..at + 4])
    ensures U32(pkt[at..][4..8]) == Number(pkt[at + 4..at + 8]) && U32(pkt[at..][8..12]) == Number(pkt[at + 8..at + 12])
  {
    TwoBytes(pkt[at..at + 2]);
    TwoBytes(pkt[at + 2..at + 4]);
    FourBytes(pkt[at + 4..at + 8]);
    FourBytes(pkt[at + 8..at + 12]);
    assert pkt[at..][4..8] == pkt[at + 4..at + 8] && pkt[at..][8..12] == pkt[at + 8..at + 12];
    hide Number, U32;
  }

  // ---- what a packet means ----

  /** A SYN leaving with this initial sequence number; an empty ACK leaving; an empty ACK coming back. */
  datatype Sighting = Syn(isn: nat) | Handshake(template: seq<Byte>, ipOff: nat) | Reply(ack: nat)

  datatype Sight = Nothing | Seen(port: nat, what: Sighting)

  predicate Has(flags: Byte, bit: nat)
    requires bit in {1, 2, 4, 16}
  {
    flags / bit % 2 == 1
  }

  predicate IsEmptyAck(s: Segment) {
    Has(s.flags, ACK) && !Has(s.flags, SYN) && !Has(s.flags, FIN) && !Has(s.flags, RST) && s.payload == 0
  }

  function Look(pkt: seq<Byte>, remotePort: nat): Sight {
    match Parse(pkt)
    case None => Nothing
    case Some(s) =>
      if s.dstPort == remotePort then
        if Has(s.flags, SYN) && !Has(s.flags, ACK) then Seen(s.srcPort, Syn(s.seqNo))
        else if IsEmptyAck(s) then Seen(s.srcPort, Handshake(pkt, s.ipOff))
        else Nothing
      else if s.srcPort == remotePort && IsEmptyAck(s) then Seen(s.dstPort, Reply(s.ackNo))
      else Nothing
  }

  ghost predicate Sane(what: Sighting) {
    match what
    case Syn(isn) => isn < U32_SIZE
    case Handshake(template, ipOff) => IsTemplate(template, ipOff)
    case Reply(ack) => ack < U32_SIZE
  }

  /** What is taken for the handshake ACK has whole headers inside it, so the frame builder never reads outside it. */
  lemma LookIsSane(pkt: seq<Byte>, remotePort: nat)
    ensures Look(pkt, remotePort).Seen? ==> Sane(Look(pkt, remotePort).what)
  {
    if Parse(pkt).Some? && IsEmptyAck(Parse(pkt).value) {
    }
    hide Parse, IsTemplate, IsEmptyAck;
  }

  /** What a packet means, by the bytes of its TCP header: ports in the first four, then sequence and acknowledgment number,
      the flags in the fourteenth, FIN, SYN, RST and ACK being its bits 0, 1, 2 and 4. */
  lemma LookIsExact(link: seq<Byte>, iph: seq<Byte>, tcph: seq<Byte>, data: seq<Byte>, remotePort: nat)
    requires IsPacket(link, iph, tcph) && IpOffset(link + iph + tcph + data) == Some(|link|)
    ensures var source, destination := Number(tcph[0..2]), Number(tcph[2..4]);
      var fin, syn, rst, ack := tcph[13] % 2 == 1, tcph[13] / 2 % 2 == 1, tcph[13] / 4 % 2 == 1, tcph[13] / 16 % 2 == 1;
      Look(link + iph + tcph + data, remotePort) ==
      if destination == remotePort && syn && !ack then Seen(source, Syn(Number(tcph[4..8])))
      else if !ack || fin || syn || rst || data != [] then Nothing
      else if destination == remotePort then Seen(source, Handshake(link + iph + tcph + data, |link|))
      else if source == remotePort then Seen(destination, Reply(Number(tcph[8..12])))
      else Nothing
  {
    ParseReads(link, iph, tcph, data);
    TwoBytes(tcph[0..2]);
    TwoBytes(tcph[2..4]);
    FourBytes(tcph[4..8]);
    FourBytes(tcph[8..12]);
    hide Parse, IpOffset, Number, U32;
  }

  /** The IPv4 header of a bare packet, in bytes: version and length, lengths and lifetime, TCP, the addresses. */
  const IP_EXAMPLE: seq<Byte> :=
    [0x45, 0, 0, 40, 0, 1, 0x40, 0, 64, 6, 0, 0, 192, 168, 0, 2, 93, 184, 216, 34]

  const SYN_EXAMPLE: seq<Byte> :=
    [0x9C, 0x40, 0x01, 0xBB, 0, 0, 0x03, 0xE8, 0, 0, 0, 0, 0x50, 0x02, 0xFF, 0xFF, 0, 0, 0, 0]

  const ETHERNET_EXAMPLE: seq<Byte> := [1, 1, 1, 1, 1, 1, 2, 2, 2, 2, 2, 2, 0x08, 0x00]

  /** A SYN from port 40000 to port 443 with sequence number 1000, bare and in an Ethernet frame, byte by byte. */
  lemma SynIsSeen()
    ensures Look(IP_EXAMPLE + SYN_EXAMPLE, 443) == Seen(40000, Syn(1000))
    ensures Look(ETHERNET_EXAMPLE + IP_EXAMPLE + SYN_EXAMPLE, 443) == Seen(40000, Syn(1000))
  {
    ExampleIsPacket();
    ExampleReads();
    hide *;
    SynByNumbers([], IP_EXAMPLE, SYN_EXAMPLE, 40000, 443, 1000);
    SynByNumbers(ETHERNET_EXAMPLE, IP_EXAMPLE, SYN_EXAMPLE, 40000, 443, 1000);
    assert [] + IP_EXAMPLE == IP_EXAMPLE;
  }

  lemma SynByNumbers(link: seq<Byte>, iph: seq<Byte>, tcph: seq<Byte>, source: nat, destination: nat, isn: nat)
    requires IsPacket(link, iph, tcph) && (link == [] ==> !LooksFramed(iph, |tcph|))
    requires Number(tcph[0..2]) == source && Number(tcph[2..4]) == destination && Number(tcph[4..8]) == isn
    requires tcph[13] == 2
    ensures Look(link + iph + tcph, destination) == Seen(source, Syn(isn))
  {
    OffsetIsExact(link, iph, tcph, []);
    LookIsExact(link, iph, tcph, [], destination);
    hide Look, IpOffset, Number;
    assert link + iph + tcph + [] == link + iph + tcph;
  }

  lemma ExampleIsPacket()
    ensures IsPacket([], IP_EXAMPLE, SYN_EXAMPLE) && !LooksFramed(IP_EXAMPLE, |SYN_EXAMPLE|)
    ensures IsPacket(ETHERNET_EXAMPLE, IP_EXAMPLE, SYN_EXAMPLE)
  {
  }

  lemma ExampleReads()
    ensures |SYN_EXAMPLE| == 20 && SYN_EXAMPLE[13] == 2
    ensures Number(SYN_EXAMPLE[0..2]) == 40000 && Number(SYN_EXAMPLE[2..4]) == 443 && Number(SYN_EXAMPLE[4..8]) == 1000
  {
    TwoBytes(SYN_EXAMPLE[0..2]);
    TwoBytes(SYN_EXAMPLE[2..4]);
    FourBytes(SYN_EXAMPLE[4..8]);
  }

  /** An empty ACK is missed as soon as the link pads it: the length is the captured one, not the IP header's. */
  lemma PaddedAckIsMissed(link: seq<Byte>, iph: seq<Byte>, tcph: seq<Byte>, padding: seq<Byte>, remotePort: nat)
    requires IsPacket(link, iph, tcph) && IpOffset(link + iph + tcph + padding) == Some(|link|)
    requires IsEmptyAck(Fields(link, tcph, 0)) && remotePort in {WordAt(tcph, 0), WordAt(tcph, 2)}
    ensures Look(link + iph + tcph + padding, remotePort) == Nothing <==> padding != []
  {
    ParseReads(link, iph, tcph, padding);
  }

  // ---- one registration ----

  datatype Port = Port(hello: seq<Byte>, synSeq: nat, fakeSent: bool, confirmed: bool)

  function Fresh(hello: seq<Byte>): Port {
    Port(hello, 0, false, false)
  }

  /** The number a server acknowledges that has received the SYN and nothing else. */
  function Next(isn: nat): nat {
    (isn + 1) % U32_SIZE
  }

  function Hear(p: Port, what: Sighting): Port {
    match what
    case Syn(isn) => p.(synSeq := isn)
    case Handshake(_, _) => p.(fakeSent := true)
    case Reply(ack) => if p.fakeSent && ack == Next(p.synSeq) then p.(confirmed := true) else p
  }

  function After(hello: seq<Byte>, heard: seq<Sighting>): Port {
    if heard == [] then Fresh(hello) else Hear(After(hello, heard[..|heard| - 1]), heard[|heard| - 1])
  }

  /** The initial sequence number of the last SYN, 0 when none was seen. */
  function LastIsn(heard: seq<Sighting>): nat {
    if heard == [] then 0
    else match heard[|heard| - 1] {
      case Syn(isn) => isn
      case _ => LastIsn(heard[..|heard| - 1])
    }
  }

  predicate HandshakeAt(heard: seq<Sighting>, i: nat) {
    i < |heard| && heard[i].Handshake?
  }

  predicate IsFirstHandshake(heard: seq<Sighting>, i: nat) {
    HandshakeAt(heard, i) && forall k :: 0 <= k < i ==> !heard[k].Handshake?
  }

  /** The reply at `j`, after the handshake at `i`, acknowledges just the SYN known by then. */
  predicate ConfirmsAt(heard: seq<Sighting>, i: nat, j: nat) {
    HandshakeAt(heard, i) && i < j < |heard| && heard[j] == Reply((LastIsn(heard[..j]) + 1) % 0x1_0000_0000)
  }

  /** The state of a registration, from its history alone. */
  lemma {:induction false} AfterMeans(hello: seq<Byte>, heard: seq<Sighting>)
    ensures After(hello, heard).hello == hello
    ensures After(hello, heard).synSeq == LastIsn(heard)
    ensures After(hello, heard).fakeSent <==> exists i: nat :: HandshakeAt(heard, i)
    ensures After(hello, heard).confirmed <==> exists i: nat, j: nat :: ConfirmsAt(heard, i, j)
  {
    if heard != [] {
      var n := |heard| - 1;
      var before := heard[..n];
      AfterMeans(hello, before);
      SawHandshake(heard);
      forall i: nat, j: nat ensures ConfirmsAt(before, i, j) <==> ConfirmsAt(heard, i, j) && j < n {
        if i < j < n {
          assert before[..j] == heard[..j];
        }
      }
      if After(hello, heard).confirmed && !After(hello, before).confirmed {
        var i: nat :| HandshakeAt(before, i);
        assert ConfirmsAt(heard, i, n);
      }
      if i: nat, j: nat :| ConfirmsAt(heard, i, j) {
        if j < n {
          assert ConfirmsAt(before, i, j);
        } else {
          assert HandshakeAt(before, i);
        }
      }
    }
  }

  lemma SawHandshake(heard: seq<Sighting>)
    requires heard != []
    ensures var before := heard[..|heard| - 1];
      (exists i: nat :: HandshakeAt(heard, i)) <==> (exists i: nat :: HandshakeAt(before, i)) || heard[|heard| - 1].Handshake?
  {
    var before := heard[..|heard| - 1];
    if i: nat :| HandshakeAt(before, i) {
      assert HandshakeAt(heard, i);
    }
    if heard[|heard| - 1].Handshake? {
      assert HandshakeAt(heard, |heard| - 1);
    }
    if i: nat :| HandshakeAt(heard, i) {
      assert i < |heard| - 1 ==> HandshakeAt(before, i);
    }
  }
}
