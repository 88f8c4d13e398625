/** The fake frame of internal/forward/rawinject_unix.go: a captured ACK patched in place to carry a ClientHello the
    server must not accept. */
module RawFrame {
  import opened Bytes
  import opened Checksum

  const PSH := 0x08

  // ---- header fields ----

  function HeaderLengthAt(pkt: seq<Byte>, ipOff: nat): nat
    requires ipOff < |pkt|
  {
    (pkt[ipOff] % 16) * 4
  }

  function TcpLengthAt(pkt: seq<Byte>, tcpOff: nat): nat
    requires tcpOff + 12 < |pkt|
  {
    (pkt[tcpOff + 12] / 16) * 4
  }

  /** What handlePacket has checked of a packet it takes for a template: the TCP header lies inside, whole. */
  predicate IsTemplate(pkt: seq<Byte>, ipOff: nat) {
    && ipOff < |pkt|
    && var tcpOff := ipOff + HeaderLengthAt(pkt, ipOff);
    && tcpOff + 20 <= |pkt| && 20 <= TcpLengthAt(pkt, tcpOff) && tcpOff + TcpLengthAt(pkt, tcpOff) <= |pkt|
  }

  function WordAt(s: seq<Byte>, i: nat): nat
    requires i + 2 <= |s|
  {
    U16(s[i], s[i + 1])
  }

  function SetWord(s: seq<Byte>, i: nat, v: nat): (r: seq<Byte>)
    requires i + 2 <= |s|
    ensures |r| == |s| && WordAt(r, i) == v % WORD
    ensures forall j :: 0 <= j < |s| && j != i && j != i + 1 ==> r[j] == s[j]
  {
    s[i := v / 256 % 256][i + 1 := v % 256]
  }

  function WithPush(flags: Byte): (r: Byte)
    ensures r / 8 % 2 == 1 && r % 8 == flags % 8 && r / 16 == flags / 16
  {
    if flags / 8 % 2 == 1 then flags else flags + PSH
  }

  /** The IPv4 pseudo-header of a TCP segment (section 3.1 of RFC 9293). */
  function PseudoHeader(iph: seq<Byte>, length: nat): seq<Byte>
    requires |iph| >= 20
  {
    iph[12..16] + iph[16..20] + [0, 6] + Put16(length)
  }

  /** Source and destination address, a zero, the protocol number of TCP, the length of the segment. */
  lemma PseudoHeaderIs(iph: seq<Byte>, length: nat)
    requires |iph| >= 20
    ensures var h := PseudoHeader(iph, length);
      && |h| == 12 && (forall k :: 0 <= k < 8 ==> h[k] == iph[12 + k]) && h[8] == 0 && h[9] == 6
      && 256 * h[10] as int + h[11] == length % 65536
  {
  }

  /** The receiver's check of the IPv4 header. */
  predicate HeaderVerifies(pkt: seq<Byte>, ipOff: nat, tcpOff: nat)
    requires ipOff <= tcpOff <= |pkt|
  {
    Verifies(WordSum(pkt[ipOff..tcpOff]))
  }

  /** The receiver's check of the segment that fills the rest of the packet. */
  predicate SegmentVerifies(pkt: seq<Byte>, ipOff: nat, tcpOff: nat)
    requires ipOff + 20 <= |pkt| && tcpOff <= |pkt|
  {
    Verifies(WordSum(PseudoHeader(pkt[ipOff..], |pkt| - tcpOff)) + WordSum(pkt[tcpOff..]))
  }

  // ---- sums of patched headers ----

  /** A word written over a zero word at an even offset adds its value to the sum. */
  lemma PatchedSum(s: seq<Byte>, i: nat, v: nat)
    requires i % 2 == 0 && i + 2 <= |s| && s[i] == 0 && s[i + 1] == 0 && v < WORD
    ensures WordSum(SetWord(s, i, v)) == WordSum(s) + v
  {
    var r := SetWord(s, i, v);
    SumAround(s, i);
    SumAround(r, i);
    assert r[..i] == s[..i] && r[i + 2..] == s[i + 2..];
  }

  lemma SumAround(s: seq<Byte>, i: nat)
    requires i % 2 == 0 && i + 2 <= |s|
    ensures WordSum(s) == WordSum(s[..i]) + WordAt(s, i) + WordSum(s[i + 2..])
  {
    var rest := s[i..];
    assert s == s[..i] + rest && rest[2..] == s[i + 2..];
    WordSumConcat(s[..i], rest);
  }

  /** Folding before adding makes no difference to the folded total. */
  lemma ResidueAdds(a: nat, b: nat)
    ensures Residue(Residue(a) + Residue(b)) == Residue(a + b)
  {
    if a > 0 && b > 0 {
      var p, q := (a - 1) / 0xFFFF, (b - 1) / 0xFFFF;
      assert a == p * 0xFFFF + Residue(a) && b == q * 0xFFFF + Residue(b);
      assert a + b - 1 == (Residue(a) + Residue(b) - 1) + 0xFFFF * (p + q);
      ModAdd(Residue(a) + Residue(b) - 1, p + q);
    } else if a > 0 {
      ResidueIsFolded(a);
    } else {
      ResidueIsFolded(b);
    }
  }

  lemma ResidueIsFolded(a: nat)
    ensures Residue(Residue(a)) == Residue(a)
  {
  }

  method IpChecksum(iph: seq<Byte>) returns (c: nat)
    requires |iph| <= 60
    ensures c == 0xFFFF - Residue(WordSum(iph)) && c < WORD
  {
    var s := Sum16(iph);
    ResidueIsFolded(WordSum(iph));
    c := ChecksumFold(s);
  }

  /**
   * tcpChecksum: the pseudo-header is filled in a buffer of its own. The addresses are sliced out of the bytes that
   * follow the start of the IP header, whatever length that header claims.
   */
  method TcpChecksum(ip: seq<Byte>, segment: seq<Byte>) returns (c: nat)
    requires |ip| >= 20
    ensures c < WORD
    ensures c == 0xFFFF - Residue(WordSum(PseudoHeader(ip, |segment|)) + WordSum(segment) % U32_SIZE)
    ensures |segment| <= 131074 ==> c == 0xFFFF - Residue(WordSum(PseudoHeader(ip, |segment|)) + WordSum(segment))
  {
    hide WordSum, Residue;
    var pseudo := new Byte[12](_ => 0);
    for i := 0 to 8
      invariant forall j :: 0 <= j < i ==> pseudo[j] == ip[12 + j]
      invariant forall j :: i <= j < 12 ==> pseudo[j] == 0
    {
      pseudo[i] := ip[12 + i];
    }
    pseudo[9] := 6;
    PutWord(pseudo, 10, |segment|);
    assert pseudo[..] == PseudoHeader(ip, |segment|);
    var a := Sum16(pseudo[..]);
    var b := Sum16(segment);
    ResidueAdds(WordSum(pseudo[..]), WordSum(segment) % U32_SIZE);
    SmallSum(segment);
    c := ChecksumFold(a + b);
  }

  method PutWord(a: array<Byte>, i: nat, v: nat)
    requires i + 2 <= a.Length
    modifies a
    ensures a[..] == SetWord(old(a[..]), i, v)
  {
    a[i] := v / 256 % 256;
    a[i + 1] := v % 256;
  }

  // ---- buildFakeFrame ----

  /** The sequence number that makes a payload of this length end just before ISN + 1, mod 2^32. */
  function OutSeq(isn: nat, length: nat): (s: nat)
    ensures s < U32_SIZE
  {
    (isn + 1 - length) % U32_SIZE
  }

  /** The bytes buildFakeFrame may change: total length, ID and checksum of the IP header, sequence number, flags and
      checksum of the TCP header. */
  predicate Patched(ipOff: nat, tcpOff: nat, k: nat) {
    ipOff + 2 <= k < ipOff + 6 || ipOff + 10 <= k < ipOff + 12 || InTcpFields(tcpOff, k)
  }

  predicate InTcpFields(tcpOff: nat, k: nat) {
    tcpOff + 4 <= k < tcpOff + 8 || k == tcpOff + 13 || tcpOff + 16 <= k < tcpOff + 18
  }

  /** The complement of the sum of the rest, put in the checksum field, makes the header verify. */
  lemma HeaderPatched(s: seq<Byte>, ipOff: nat, tcpOff: nat, c: nat)
    requires ipOff + 12 <= tcpOff <= |s| && (tcpOff - ipOff) % 2 == 0
    requires WordAt(s, ipOff + 10) == 0 && c == 0xFFFF - Residue(WordSum(s[ipOff..tcpOff]))
    ensures HeaderVerifies(SetWord(s, ipOff + 10, c), ipOff, tcpOff)
  {
    var before := s[ipOff..tcpOff];
    PatchedSum(before, 10, c);
    ComplementVerifies(WordSum(before));
    hide WordSum, Residue;
    assert SetWord(s, ipOff + 10, c)[ipOff..tcpOff] == SetWord(before, 10, c);
  }

  lemma SegmentPatched(s: seq<Byte>, ipOff: nat, tcpOff: nat, c: nat)
    requires ipOff + 4 <= tcpOff && tcpOff + 20 <= |s| && WordAt(s, tcpOff + 16) == 0
    requires c == 0xFFFF - Residue(WordSum(PseudoHeader(s[ipOff..], |s| - tcpOff)) + WordSum(s[tcpOff..]))
    ensures SegmentVerifies(SetWord(s, tcpOff + 16, c), ipOff, tcpOff)
  {
    var before, r := s[tcpOff..], SetWord(s, tcpOff + 16, c);
    PatchedSum(before, 16, c);
    ComplementVerifies(WordSum(PseudoHeader(s[ipOff..], |s| - tcpOff)) + WordSum(before));
    hide WordSum, Residue;
    assert r[tcpOff..] == SetWord(before, 16, c);
    assert r[ipOff..][12..16] == s[ipOff..][12..16] && r[ipOff..][16..20] == s[ipOff..][16..20];
  }

  /** Writes the checksum of the IP header over it. */
  method PatchIpChecksum(out: array<Byte>, ipOff: nat, ihl: nat)
    requires ihl <= 60 && ipOff + 12 <= out.Length && ipOff + ihl <= out.Length
    modifies out
    ensures forall k :: 0 <= k < out.Length && k != ipOff + 10 && k != ipOff + 11 ==> out[k] == old(out[k])
    ensures ihl >= 12 && ihl % 2 == 0 ==> HeaderVerifies(out[..], ipOff, ipOff + ihl)
  {
    hide WordSum, Residue, HeaderVerifies, SetWord, U16;
    PutWord(out, ipOff + 10, 0);
    ghost var s := out[..];
    assert out[ipOff..ipOff + ihl] == s[ipOff..ipOff + ihl];
    var c := IpChecksum(out[ipOff..ipOff + ihl]);
    PutWord(out, ipOff + 10, c);
    if ihl >= 12 && ihl % 2 == 0 {
      HeaderPatched(s, ipOff, ipOff + ihl, c);
    }
  }

  /** Writes the checksum of the segment over it. */
  method PatchTcpChecksum(out: array<Byte>, ipOff: nat, tcpOff: nat)
    requires ipOff + 20 <= out.Length && ipOff <= tcpOff && tcpOff + 20 <= out.Length
    modifies out
    ensures forall k :: 0 <= k < out.Length && k != tcpOff + 16 && k != tcpOff + 17 ==> out[k] == old(out[k])
    ensures tcpOff >= ipOff + 4 && out.Length - tcpOff <= 131074 ==> SegmentVerifies(out[..], ipOff, tcpOff)
  {
    hide WordSum, Residue, SegmentVerifies, PseudoHeader, SetWord, U16;
    PutWord(out, tcpOff + 16, 0);
    ghost var s := out[..];
    assert out[ipOff..] == s[ipOff..] && out[tcpOff..] == s[tcpOff..];
    var c := TcpChecksum(out[ipOff..], out[tcpOff..]);
    PutWord(out, tcpOff + 16, c);
    if tcpOff >= ipOff + 4 && out.Length - tcpOff <= 131074 {
      SegmentPatched(s, ipOff, tcpOff, c);
    }
  }

  /** Total length, ID and checksum. */
  method PatchIpHeader(out: array<Byte>, ipOff: nat, ihl: nat)
    requires ihl <= 60 && ipOff + 12 <= out.Length && ipOff + ihl <= out.Length
    modifies out
    ensures forall k :: 0 <= k < out.Length && !(ipOff + 2 <= k < ipOff + 6) && !(ipOff + 10 <= k < ipOff + 12) ==>
      out[k] == old(out[k])
    ensures WordAt(out[..], ipOff + 2) == (out.Length - ipOff) % WORD
    ensures WordAt(out[..], ipOff + 4) == (old(WordAt(out[..], ipOff + 4)) + 1) % WORD
    ensures ihl >= 12 && ihl % 2 == 0 ==> HeaderVerifies(out[..], ipOff, ipOff + ihl)
  {
    hide HeaderVerifies, SetWord, U16;
    PutWord(out, ipOff + 2, out.Length - ipOff);
    PutWord(out, ipOff + 4, U16(out[ipOff + 4], out[ipOff + 5]) + 1);
    PatchIpChecksum(out, ipOff, ihl);
  }

  lemma U32OfWords(s: seq<Byte>, v: nat)
    requires |s| == 4 && v < U32_SIZE && WordAt(s, 0) == v / WORD % WORD && WordAt(s, 2) == v % WORD
    ensures U32(s) == v
  {
  }

  /** PSH flag, sequence number and checksum. */
  method PatchTcpHeader(out: array<Byte>, ipOff: nat, tcpOff: nat, seqNo: nat)
    requires ipOff + 20 <= out.Length && ipOff <= tcpOff && tcpOff + 20 <= out.Length && seqNo < U32_SIZE
    modifies out
    ensures forall k :: 0 <= k < out.Length && !InTcpFields(tcpOff, k) ==> out[k] == old(out[k])
    ensures out[tcpOff + 13] == WithPush(old(out[tcpOff + 13]))
    ensures U32(out[tcpOff + 4..tcpOff + 8]) == seqNo
    ensures tcpOff >= ipOff + 4 && out.Length - tcpOff <= 131074 ==> SegmentVerifies(out[..], ipOff, tcpOff)
  {
    hide SegmentVerifies, SetWord, U16, U32, WithPush;
    out[tcpOff + 13] := WithPush(out[tcpOff + 13]);
    PutWord(out, tcpOff + 4, seqNo / WORD);
    PutWord(out, tcpOff + 6, seqNo);
    ghost var field := out[tcpOff + 4..tcpOff + 8];
    assert WordAt(field, 0) == WordAt(out[..], tcpOff + 4) && WordAt(field, 2) == WordAt(out[..], tcpOff + 6);
    U32OfWords(field, seqNo);
    PatchTcpChecksum(out, ipOff, tcpOff);
    assert out[tcpOff + 4..tcpOff + 8] == field;
  }

  lemma HeaderUntouched(s: seq<Byte>, r: seq<Byte>, ipOff: nat, tcpOff: nat)
    requires ipOff <= tcpOff <= |s| == |r| && s[ipOff..tcpOff] == r[ipOff..tcpOff]
    ensures HeaderVerifies(s, ipOff, tcpOff) ==> HeaderVerifies(r, ipOff, tcpOff)
  {
  }

  /**
   * A fake for this template: the template's headers and the payload, nothing changed but the patched fields, and
   * these as the receiver expects them. Both checksums verify. An IP header that claims less than its fields take up, as
   * the sniffer lets through, has the TCP fields written into it, so its ID and the checksums need a length that keeps
   * them clear of one another.
   */
  predicate IsFakeFrame(out: seq<Byte>, template: seq<Byte>, isn: nat, fake: seq<Byte>, ipOff: nat)
    requires IsTemplate(template, ipOff)
  {
    var tcpOff := ipOff + HeaderLengthAt(template, ipOff);
    var end := tcpOff + TcpLengthAt(template, tcpOff);
    && |out| == end + |fake| && out[end..] == fake
    && (forall k :: 0 <= k < end && !Patched(ipOff, tcpOff, k) ==> out[k] == template[k])
    && WordAt(out, ipOff + 2) == (|out| - ipOff) % WORD
    && out[tcpOff + 13] == WithPush(template[tcpOff + 13])
    && U32(out[tcpOff + 4..tcpOff + 8]) == OutSeq(isn, |fake|)
    && (tcpOff >= ipOff + 4 ==> WordAt(out, ipOff + 4) == (WordAt(template, ipOff + 4) + 1) % WORD)
    && (tcpOff >= ipOff + 12 ==> HeaderVerifies(out, ipOff, tcpOff))
    && (tcpOff >= ipOff + 4 && |out| - tcpOff <= 131074 ==> SegmentVerifies(out, ipOff, tcpOff))
  }

  lemma TemplateSizes(template: seq<Byte>, ipOff: nat)
    requires IsTemplate(template, ipOff)
    ensures ipOff < |template| && HeaderLengthAt(template, ipOff) <= 60 && HeaderLengthAt(template, ipOff) % 4 == 0
    ensures var tcpOff := ipOff + HeaderLengthAt(template, ipOff);
      tcpOff + 20 <= |template| && tcpOff + 20 <= tcpOff + TcpLengthAt(template, tcpOff) <= |template|
  {
  }

  /** buildFakeFrame: copies the headers and the payload into a buffer and patches the headers in place. */
  method BuildFakeFrame(template: seq<Byte>, isn: nat, fake: seq<Byte>, ipOff: nat) returns (out: array<Byte>)
    requires isn < U32_SIZE && IsTemplate(template, ipOff)
    ensures fresh(out) && IsFakeFrame(out[..], template, isn, fake, ipOff)
  {
    hide HeaderVerifies, SegmentVerifies, SetWord, U16, U32, WithPush, HeaderLengthAt, TcpLengthAt, IsTemplate;
    TemplateSizes(template, ipOff);
    var ihl := HeaderLengthAt(template, ipOff);
    var tcpOff := ipOff + ihl;
    var end := tcpOff + TcpLengthAt(template, tcpOff);
    var bytes := template[..end] + fake;
    out := new Byte[|bytes|](i requires 0 <= i < |bytes| => bytes[i]);
    PatchIpHeader(out, ipOff, ihl);
    ghost var patched := out[..];
    PatchTcpHeader(out, ipOff, tcpOff, OutSeq(isn, |fake|));
    if ihl >= 12 {
      HeaderUntouched(patched, out[..], ipOff, tcpOff);
    }
  }

  /** The fake ends exactly where the real stream begins. */
  lemma FakeEndsAtFirstByte(isn: nat, length: nat)
    ensures (OutSeq(isn, length) + length) % U32_SIZE == (isn + 1) % U32_SIZE
  {
    var x, q := isn + 1 - length, (isn + 1 - length) / U32_SIZE;
    assert x == q * U32_SIZE + OutSeq(isn, length);
    assert isn + 1 == OutSeq(isn, length) + length + q * U32_SIZE;
    WrapShift(OutSeq(isn, length) + length, q);
  }

  /** Distance from `from` up to `to`, in sequence space. */
  function Ahead(from: int, to: int): (d: nat)
    ensures d < U32_SIZE
  {
    (to - from) % U32_SIZE
  }

  /** The acceptability test for a segment of nonzero length (section 3.4 of RFC 9293). */
  predicate Acceptable(seqNo: nat, length: nat, next: nat, window: nat)
    requires length > 0
  {
    window > 0 && (Ahead(next, seqNo) < window || Ahead(next, seqNo + length - 1) < window)
  }

  /**
   * A server that has just received the SYN waits for ISN + 1: it rejects the fake exactly when the window and the
   * fake together do not span the whole sequence space.
   */
  lemma FakeIsRejected(isn: nat, length: nat, window: nat)
    requires 0 < length < U32_SIZE && window < U32_SIZE
    ensures Acceptable(OutSeq(isn, length), length, (isn + 1) % U32_SIZE, window) <==> window + length > U32_SIZE
  {
    var next, start := (isn + 1) % U32_SIZE, OutSeq(isn, length);
    FakeEndsAtFirstByte(isn, length);
    var q, p := (start + length) / U32_SIZE, (isn + 1) / U32_SIZE;
    assert start + length == q * U32_SIZE + next;
    WrapShift(0 - length, q);
    WrapShift(0 - 1, q);
    assert start - next == 0 - length + q * U32_SIZE && start + length - 1 - next == 0 - 1 + q * U32_SIZE;
  }
}
