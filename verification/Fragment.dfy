/** The ways internal/tlsutil/fragment.go cuts a ClientHello up, and what a receiver puts together again. */
module Fragments {
  import opened Sequences
  import opened Bytes
  import opened TlsRecords
  import opened ClientHellos

  const CHUNK := 24

  // ---- finding the host name ----

  predicate Printable(s: seq<Byte>) {
    forall i :: 0 <= i < |s| ==> 0x20 <= s[i] < 0x7F
  }

  function NameLength(data: seq<Byte>, pos: nat): nat
    requires pos + 9 <= |data|
  {
    U16(data[pos + 7], data[pos + 8])
  }

  /** What looks like a server_name extension with a printable host name starts here. */
  predicate LooksLikeSni(data: seq<Byte>, pos: nat) {
    && pos + 10 < |data| && data[pos] == 0 && data[pos + 1] == 0
    && 4 < U16(data[pos + 2], data[pos + 3]) < 256
    && data[pos + 6] == 0 && 0 < NameLength(data, pos) < 256 && pos + 9 + NameLength(data, pos) <= |data|
    && Printable(data[pos + 9..pos + 9 + NameLength(data, pos)])
  }

  /** The shape, byte by byte: type 0, a length from 5 to 255, name type 0, a name of 1 to 255 printable characters. */
  lemma ShapeIsExact(data: seq<Byte>, pos: nat)
    ensures LooksLikeSni(data, pos) <==>
      && pos + 11 <= |data|
      && data[pos] == 0 && data[pos + 1] == 0 && data[pos + 2] == 0 && 5 <= data[pos + 3] <= 255 && data[pos + 6] == 0
      && data[pos + 7] == 0 && 1 <= data[pos + 8] <= 255 && pos + 9 + data[pos + 8] <= |data|
      && forall k :: pos + 9 <= k < pos + 9 + data[pos + 8] ==> 32 <= data[k] <= 126
    ensures LooksLikeSni(data, pos) ==> NameLength(data, pos) == data[pos + 8]
  {
    if pos + 11 <= |data| && pos + 9 + data[pos + 8] <= |data| {
      var name := data[pos + 9..pos + 9 + data[pos + 8]];
      assert forall k :: pos + 9 <= k < pos + 9 + data[pos + 8] ==> data[k] == name[k - pos - 9];
    }
  }

  predicate IsFirstSni(data: seq<Byte>, pos: nat) {
    LooksLikeSni(data, pos) && forall p: nat :: p < pos ==> !LooksLikeSni(data, p)
  }

  /** findSNIOffset: the first place that looks like one, (-1, 0) exactly when there is none. */
  method FindSniOffset(data: seq<Byte>) returns (offset: int, length: int)
    ensures offset == -1 <==> forall p: nat :: !LooksLikeSni(data, p)
    ensures offset == -1 ==> length == 0
    ensures offset != -1 ==> offset >= 9 && IsFirstSni(data, offset - 9) && length == NameLength(data, offset - 9)
  {
    var pos := 0;
    while pos < |data| - 10
      invariant 0 <= pos
      invariant forall p: nat :: p < pos ==> !LooksLikeSni(data, p)
    {
      if data[pos] == 0 && data[pos + 1] == 0 {
        var extLen := U16(data[pos + 2], data[pos + 3]);
        if extLen > 4 && extLen < 256 {
          var nameType := data[pos + 6];
          var nameLen := U16(data[pos + 7], data[pos + 8]);
          if nameType == 0 && nameLen > 0 && nameLen < 256 {
            var sniStart := pos + 9;
            if sniStart + nameLen <= |data| {
              var printable := AllPrintable(data[sniStart..sniStart + nameLen]);
              if printable {
                assert LooksLikeSni(data, pos);
                return sniStart, nameLen;
              }
            }
          }
        }
      }
      pos := pos + 1;
    }
    offset, length := -1, 0;
  }

  method AllPrintable(s: seq<Byte>) returns (printable: bool)
    ensures printable <==> Printable(s)
  {
    for i := 0 to |s|
      invariant Printable(s[..i])
    {
      if s[i] < 0x20 || s[i] >= 0x7F {
        return false;
      }
    }
    printable := true;
  }

  ghost predicate OnlyFirst(data: seq<Byte>, pos: nat) {
    forall p: nat :: IsFirstSni(data, p) ==> p == pos
  }

  lemma FirstIsUnique(data: seq<Byte>, pos: nat)
    requires IsFirstSni(data, pos)
    ensures OnlyFirst(data, pos) && pos + 9 + NameLength(data, pos) <= |data| && NameLength(data, pos) > 0
  {
    assert LooksLikeSni(data, pos);
    forall p: nat | IsFirstSni(data, p) ensures p == pos {
      assert LooksLikeSni(data, p);
    }
  }

  // ---- the strategies ----

  method FragmentAtSni(data: seq<Byte>) returns (fragments: seq<seq<Byte>>)
    requires |data| >= 10
    ensures |fragments| == 2 && fragments[0] + fragments[1] == data && fragments[0] != [] && fragments[1] != []
    ensures (forall p: nat :: !LooksLikeSni(data, p)) ==> |fragments[0]| == |data| / 2
    ensures forall p: nat :: IsFirstSni(data, p) ==> |fragments[0]| == p + 9 + NameLength(data, p) / 2
  {
    var sniOffset, sniLen := FindSniOffset(data);
    assert sniOffset != -1 ==> OnlyFirst(data, sniOffset - 9) by {
      if sniOffset != -1 {
        FirstIsUnique(data, sniOffset - 9);
      }
    }
    hide LooksLikeSni;
    if sniOffset < 0 {
      var mid := |data| / 2;
      return [data[..mid], data[mid..]];
    }
    var splitPoint := sniOffset + sniLen / 2;
    fragments := [data[..splitPoint], data[splitPoint..]];
  }

  /**
   * Where nothing earlier looks like a server_name, the cut falls inside the host name of the real one: it is found,
   * unless its name is a single byte at the very end of the data.
   */
  lemma CutIsInsideName(before: seq<Byte>, name: seq<Byte>, after: seq<Byte>)
    requires 1 <= |name| <= 250 && Printable(name)
    requires var data := before + EncodeExtension(Extension(SERVER_NAME, ServerNameBody(name, []))) + after;
      forall p: nat :: p < |before| ==> !LooksLikeSni(data, p)
    ensures var data := before + EncodeExtension(Extension(SERVER_NAME, ServerNameBody(name, []))) + after;
      && (IsFirstSni(data, |before|) <==> |name| + |after| >= 2) && NameLength(data, |before|) == |name|
      && data[|before| + 9..|before| + 9 + |name|] == name
  {
    hide EncodeExtension, ServerNameBody, Printable, Put16, LooksLikeSni, U16, Long, NameLength;
    var ext := EncodeExtension(Extension(SERVER_NAME, ServerNameBody(name, [])));
    ExtensionInside(before, ext, name, after);
    LooksExactly(before + ext + after, |before|, name, |after|);
  }

  lemma ExtensionInside(before: seq<Byte>, ext: seq<Byte>, name: seq<Byte>, after: seq<Byte>)
    requires |name| <= 250 && ext == EncodeExtension(Extension(SERVER_NAME, ServerNameBody(name, [])))
    ensures var data, n := before + ext + after, |before|;
      && |data| == n + 9 + |name| + |after| && data[n + 9..n + 9 + |name|] == name
      && data[n] == 0 && data[n + 1] == 0 && data[n + 6] == 0
      && U16(data[n + 2], data[n + 3]) == |name| + 5 && NameLength(data, n) == |name|
  {
    hide EncodeExtension, ServerNameBody, Put16, U16, Long;
    SniBytes(name);
  }

  lemma LooksExactly(data: seq<Byte>, n: nat, name: seq<Byte>, rest: nat)
    requires 1 <= |name| <= 250 && Printable(name) && |data| == n + 9 + |name| + rest
    requires data[n] == 0 && data[n + 1] == 0 && data[n + 6] == 0 && data[n + 9..n + 9 + |name|] == name
    requires U16(data[n + 2], data[n + 3]) == |name| + 5 && NameLength(data, n) == |name|
    ensures LooksLikeSni(data, n) <==> |name| + rest >= 2
  {
    hide U16, Printable;
  }

  /** The extension, field by field. */
  lemma SniBytes(name: seq<Byte>)
    ensures EncodeExtension(Extension(SERVER_NAME, ServerNameBody(name, [])))
         == [0, 0] + Put16(|name| + 5) + (Put16(|name| + 3) + ([0x00] + Put16(|name|) + name))
  {
    assert Put16(SERVER_NAME) == [0, 0];
    hide Put16;
    assert [0x00] + Long(name) + [] == [0x00] + Put16(|name|) + name;
  }

  /** fragmentMulti: chunks of one size and a rest that is no longer. */
  method FragmentMulti(data: seq<Byte>, chunkSize: int) returns (fragments: seq<seq<Byte>>)
    ensures var size := if chunkSize <= 0 then CHUNK else chunkSize;
      && Joined(fragments) == data
      && (forall i :: 0 <= i < |fragments| ==> 1 <= |fragments[i]| <= size)
      && (forall i :: 0 <= i < |fragments| - 1 ==> |fragments[i]| == size)
  {
    var size := if chunkSize <= 0 then CHUNK else chunkSize;
    fragments := [];
    var i := 0;
    while i < |data|
      invariant 0 <= i && Joined(fragments) == data[..if i < |data| then i else |data|]
      invariant forall k :: 0 <= k < |fragments| ==> 1 <= |fragments[k]| <= size
      invariant forall k :: 0 <= k < |fragments| && (k < |fragments| - 1 || i < |data|) ==> |fragments[k]| == size
    {
      var end := i + size;
      if end > |data| {
        end := |data|;
      }
      assert (fragments + [data[i..end]])[..|fragments|] == fragments;
      assert data[..i] + data[i..end] == data[..end];
      fragments := fragments + [data[i..end]];
      i := i + size;
    }
    assert data[..|data|] == data;
  }

  /** tlsRecordFragment: the payload in two records of the same version. */
  method TlsRecordFragment(data: seq<Byte>) returns (fragments: seq<seq<Byte>>)
    ensures fragments == InTwoRecords(data)
  {
    if |data| < 6 || data[0] != 0x16 {
      return [data];
    }
    var handshakeData := data[5..];
    var mid := |handshakeData| / 2;
    var part1, part2 := handshakeData[..mid], handshakeData[mid..];
    var record1 := [0x16, data[1], data[2], |part1| / 256 % 256, |part1| % 256];
    Put16Is(|part1|);
    Put16Is(|part2|);
    hide Put16;
    assert record1 == [0x16, data[1], data[2]] + Put16(|part1|);
    record1 := record1 + part1;
    var record2 := [0x16, data[1], data[2], |part2| / 256 % 256, |part2| % 256];
    assert record2 == [0x16, data[1], data[2]] + Put16(|part2|);
    record2 := record2 + part2;
    fragments := [record1, record2];
  }

  function InTwoRecords(data: seq<Byte>): seq<seq<Byte>> {
    if |data| < 6 || data[0] != 0x16 then [data]
    else
      var payload := data[5..];
      var mid := |payload| / 2;
      [Frame(0x16, data[1], data[2], payload[..mid]), Frame(0x16, data[1], data[2], payload[mid..])]
  }

  /** The content of a stream is never longer than the stream without its record headers. */
  lemma {:induction false} ContentIsShorter(s: seq<Byte>)
    ensures |Content(s)| <= |s| && (Content(s) != [] || |s| >= 5 ==> |Content(s)| < |s|)
    decreases |s|
  {
    if Complete(s) {
      ContentIsShorter(s[HeaderLength(s)..]);
    }
  }

  /**
   * Two records carry the same content as one, so long as the data is that one record and nothing more. (Anything else
   * that starts like a handshake the strategy would wrap up as handshake payload.)  All other data passes as it is.
   */
  lemma TwoRecordsAreTheSame(data: seq<Byte>)
    requires |data| < 5 + 0x1FFFF
    ensures Same(Joined(InTwoRecords(data)), data) <==>
      |data| < 6 || data[0] != 0x16 || (Complete(data) && HeaderLength(data) == |data|)
  {
    if |data| < 6 || data[0] != 0x16 {
      JoinOne(data);
    } else {
      var payload := data[5..];
      TwoRecordsContent(data);
      hide InTwoRecords, Joined;
      if Complete(data) && HeaderLength(data) == |data| {
        OneRecordContent(data);
      } else if Complete(data) {
        ContentIsShorter(data[HeaderLength(data)..]);
        assert |Content(data)| < |payload| || Tail(data) != [];
      }
    }
  }

  /**
   * What a receiver reads of data of any length that the strategy has wrapped up: the first half as far as its length
   * goes, which wraps at 65536, and then whatever the rest of it, the second header and the second half read as.
   */
  lemma TwoRecordsAreRead(data: seq<Byte>)
    requires |data| >= 6 && data[0] == 0x16
    ensures var payload := data[5..];
      var p, q := payload[..|payload| / 2], payload[|payload| / 2..];
      var w := |p| % 0x10000;
      var rest := p[w..] + Frame(0x16, data[1], data[2], q);
      && Content(Joined(InTwoRecords(data))) == Tag(0x16, data[1], data[2], p[..w]) + Content(rest)
      && Tail(Joined(InTwoRecords(data))) == Tail(rest)
  {
    hide Content, Tail, Frame, Joined, Tag;
    var payload := data[5..];
    var p, q := payload[..|payload| / 2], payload[|payload| / 2..];
    FrameIsReadSoFar(0x16, data[1], data[2], p, Frame(0x16, data[1], data[2], q));
    JoinTwo(Frame(0x16, data[1], data[2], p), Frame(0x16, data[1], data[2], q));
  }

  /**
   * Data this long is never one record, but the two records can read the same all the same: when the lengths of both
   * halves wrap to 0, the data starts with an empty record, and its first half ends with a record.
   */
  lemma WrappedHeadersAreEmpty(data: seq<Byte>, half: nat)
    requires |data| == 5 + 2 * half && half > 0 && half % 0x10000 == 0
    requires data[0] == 0x16 && data[3] == 0 && data[4] == 0 && Tail(data[5..5 + half]) == []
    ensures Same(Joined(InTwoRecords(data)), data) && Complete(data) && HeaderLength(data) != |data|
  {
    hide Joined, InTwoRecords, Frame, Content, Tail, Tag, Complete, HeaderLength;
    var payload := data[5..];
    var p, q := payload[..half], payload[half..];
    var wrapped := Frame(0x16, data[1], data[2], q);
    assert p == data[5..5 + half] && p + q == payload;
    TwoRecordsAreRead(data);
    StartsEmpty(data);
    EmptyFrame(data[1], data[2], q);
    ReadOnAfter(p, q);
    ReadOnAfter(p, wrapped);
    assert p[..0] == [] && p[0..] == p;
    NothingTagged(data[1], data[2], Content(p + wrapped));
  }

  /** What follows a stream that ends with a record is read by itself. */
  lemma ReadOnAfter(s: seq<Byte>, x: seq<Byte>)
    requires Tail(s) == []
    ensures Content(s + x) == Content(s) + Content(x) && Tail(s + x) == Tail(x)
  {
    hide Content, Tail;
    ReadOn(s, x);
    assert [] + x == x;
  }

  lemma NothingTagged(major: Byte, minor: Byte, content: seq<Tagged>)
    ensures Tag(0x16, major, minor, []) + content == content
  {
  }

  lemma StartsEmpty(data: seq<Byte>)
    requires |data| >= 5 && data[3] == 0 && data[4] == 0
    ensures Complete(data) && HeaderLength(data) == 5 && Content(data) == Content(data[5..]) && Tail(data) == Tail(data[5..])
  {
    assert data[5..5] == [];
  }

  lemma EmptyFrame(major: Byte, minor: Byte, q: seq<Byte>)
    requires |q| % 0x10000 == 0
    ensures Content(Frame(0x16, major, minor, q)) == Content(q) && Tail(Frame(0x16, major, minor, q)) == Tail(q)
  {
    hide Content, Tail, Frame;
    FrameIsReadSoFar(0x16, major, minor, q, []);
    assert q[..0] == [] && q[0..] + [] == q && Frame(0x16, major, minor, q) + [] == Frame(0x16, major, minor, q);
    NothingTagged(major, minor, Content(q));
  }

  function Zeros(n: nat): seq<Byte> {
    seq(n, _ => 0)
  }

  lemma {:induction false} EmptyRecordsAreRead(s: seq<Byte>, n: nat)
    requires |s| == 5 * n && forall i :: 0 <= i < |s| ==> s[i] == 0
    ensures Tail(s) == []
    decreases n
  {
    hide Tail, Content, Complete, HeaderLength, U16;
    EmptyContent();
    if n > 0 {
      StartsEmpty(s);
      EmptyRecordsAreRead(s[5..], n - 1);
    }
  }

  /** Such data exists: an empty record, and twice a record of one byte in front of 13106 empty ones. */
  lemma LongDataCanPass() returns (data: seq<Byte>)
    ensures |data| == 131077 && data[0] == 0x16 && Same(Joined(InTwoRecords(data)), data)
    ensures Complete(data) && HeaderLength(data) != |data|
  {
    var half := [0, 0, 0, 0, 1, 0] + Zeros(65530);
    EmptyRecordsAreRead(Zeros(65530), 13106);
    assert half[6..] == Zeros(65530);
    assert Complete(half) && HeaderLength(half) == 6;
    data := [0x16, 3, 1, 0, 0] + half + half;
    assert data[5..5 + 65536] == half;
    hide Same, Joined, InTwoRecords, Tail;
    WrappedHeadersAreEmpty(data, 65536);
  }

  lemma OneRecordContent(data: seq<Byte>)
    requires Complete(data) && HeaderLength(data) == |data|
    ensures Content(data) == Tag(data[0], data[1], data[2], data[5..]) && Tail(data) == []
  {
    EmptyContent();
    assert data[|data|..] == [] && data[5..|data|] == data[5..];
  }

  lemma TwoRecordsContent(data: seq<Byte>)
    requires |data| >= 6 && data[0] == 0x16 && |data| < 5 + 0x1FFFF
    ensures Content(Joined(InTwoRecords(data))) == Tag(0x16, data[1], data[2], data[5..])
    ensures Tail(Joined(InTwoRecords(data))) == []
  {
    hide Frame, Framed, Content, Tail, Tag, Joined;
    var payload := data[5..];
    var p, q := payload[..|payload| / 2], payload[|payload| / 2..];
    TwoFramed(0x16, data[1], data[2], p, q);
    FramedAlone(0x16, data[1], data[2], [p, q]);
    JoinTwo(p, q);
    assert p + q == payload;
  }

  lemma FramedAlone(contentType: Byte, major: Byte, minor: Byte, payloads: seq<seq<Byte>>)
    requires forall p :: p in payloads ==> |p| < 0x10000
    ensures Content(Framed(contentType, major, minor, payloads)) == Tag(contentType, major, minor, Joined(payloads))
    ensures Tail(Framed(contentType, major, minor, payloads)) == []
  {
    hide Frame, Framed, Content, Tag, Joined;
    FramedIsRead(contentType, major, minor, payloads, []);
    EmptyContent();
    assert Framed(contentType, major, minor, payloads) + [] == Framed(contentType, major, minor, payloads);
    var tagged := Tag(contentType, major, minor, Joined(payloads));
    assert tagged + [] == tagged;
  }

  lemma TwoFramed(contentType: Byte, major: Byte, minor: Byte, p: seq<Byte>, q: seq<Byte>)
    ensures Joined([Frame(contentType, major, minor, p), Frame(contentType, major, minor, q)])
         == Framed(contentType, major, minor, [p, q])
  {
    var f, g := Frame(contentType, major, minor, p), Frame(contentType, major, minor, q);
    JoinTwo(f, g);
    assert [p, q][..1] == [p] && |[p][..0]| == 0;
    assert Framed(contentType, major, minor, [p]) == f;
  }

  // ---- the choice of strategy ----

  /** Which cuts a strategy makes: in the middle of the host name, in the middle of the data, every 24 bytes, in two records,
      or none. */
  method FragmentClientHello(data: seq<Byte>, strategy: string) returns (fragments: seq<seq<Byte>>)
    ensures strategy == "tls_record_frag" && |data| >= 10 ==> fragments == InTwoRecords(data)
    ensures strategy != "tls_record_frag" || |data| < 10 ==> Joined(fragments) == data
    ensures strategy in {"sni_split", "half"} && |data| >= 10 ==>
      |fragments| == 2 && fragments[0] != [] && fragments[1] != []
    ensures strategy == "sni_split" && |data| >= 10 ==>
      && ((forall p: nat :: !LooksLikeSni(data, p)) ==> |fragments[0]| == |data| / 2)
      && forall p: nat :: IsFirstSni(data, p) ==> |fragments[0]| == p + 9 + NameLength(data, p) / 2
    ensures strategy == "half" && |data| >= 10 ==> |fragments[0]| == |data| / 2
    ensures strategy == "multi" && |data| >= 10 ==>
      && (forall i :: 0 <= i < |fragments| ==> 1 <= |fragments[i]| <= 24)
      && forall i :: 0 <= i < |fragments| - 1 ==> |fragments[i]| == 24
    ensures strategy == "tls_record_frag" && |data| >= 10 && data[0] == 22 ==>
      |fragments| == 2 && |fragments[0]| == 5 + (|data| - 5) / 2 && |fragments[1]| == 5 + (|data| - 4) / 2
    ensures strategy == "tls_record_frag" && |data| >= 10 && data[0] != 22 ==> fragments == [data]
    ensures strategy !in {"sni_split", "half", "multi", "tls_record_frag"} || |data| < 10 ==> fragments == [data]
  {
    hide LooksLikeSni, NameLength;
    if strategy == "none" || |data| < 10 {
      return [data];
    }
    match strategy {
      case "sni_split" =>
        fragments := FragmentAtSni(data);
        JoinTwo(fragments[0], fragments[1]);
      case "half" =>
        var mid := |data| / 2;
        fragments := [data[..mid], data[mid..]];
        JoinTwo(data[..mid], data[mid..]);
      case "multi" =>
        fragments := FragmentMulti(data, CHUNK);
      case "tls_record_frag" =>
        fragments := TlsRecordFragment(data);
      case _ =>
        fragments := [data];
    }
  }

  lemma JoinOne(a: seq<Byte>)
    ensures Joined([a]) == a
  {
    assert |[a][..0]| == 0;
  }

  lemma JoinTwo(a: seq<Byte>, b: seq<Byte>)
    ensures Joined([a, b]) == a + b
  {
    assert [a, b][..1] == [a];
    JoinOne(a);
  }

  /** A receiver that gets handshake records and puts their payload back into one. */
  function Rejoined(content: seq<Tagged>): seq<Byte> {
    if content == [] then []
    else Frame(content[0].contentType, content[0].major, content[0].minor, Values(content))
  }

  function Values(content: seq<Tagged>): seq<Byte> {
    seq(|content|, i requires 0 <= i < |content| => content[i].value)
  }

  /**
   * Whatever the strategy, the parser finds in the reassembled fragments just what it finds in the hello: fragments
   * of bytes are put end to end, fragments in records are read as records.
   */
  lemma FragmentsAreParsed(major: Byte, minor: Byte, h: Hello, fragments: seq<seq<Byte>>, spare: seq<Byte>)
    requires WellFormed(h)
    requires var data := Encode(major, minor, h); Joined(fragments) == data || fragments == InTwoRecords(data)
    ensures Same(Joined(fragments), Encode(major, minor, h))
    ensures Parsed(Rejoined(Content(Joined(fragments))), spare)
         == Some(Info(0x16, [major, minor], true, h.version, h.random, h.sessionId, HostName(h.extensions)))
  {
    var data := Encode(major, minor, h);
    HelloIsOneRecord(major, minor, h);
    if fragments == InTwoRecords(data) {
      TwoRecordsAreTheSame(data);
    }
    ParsedEncoded(major, minor, h, spare);
  }

  lemma HelloIsOneRecord(major: Byte, minor: Byte, h: Hello)
    requires WellFormed(h)
    ensures var data := Encode(major, minor, h);
      && 10 <= |data| < 5 + 0x10000 && data[0] == 0x16 && Complete(data) && HeaderLength(data) == |data|
      && Rejoined(Content(data)) == data
  {
    assert |Body(h)| >= 34 && |Handshake(h)| >= 4 + |Body(h)|;
    hide Handshake, Body, Frame, Content, Rejoined, Complete;
    RecordIsRead(0x16, major, minor, Handshake(h));
    assert Encode(major, minor, h) == Frame(0x16, major, minor, Handshake(h));
  }

  /** One record with a payload is read as one and put together again as it was. */
  lemma RecordIsRead(contentType: Byte, major: Byte, minor: Byte, payload: seq<Byte>)
    requires 1 <= |payload| < 0x10000
    ensures var data := Frame(contentType, major, minor, payload);
      && data[0] == contentType && Complete(data) && HeaderLength(data) == |data| && Rejoined(Content(data)) == data
  {
    hide Content, Put16, U16;
    var data, size := Frame(contentType, major, minor, payload), Put16(|payload|);
    var tagged := Tag(contentType, major, minor, payload);
    assert data[3] == size[0] && data[4] == size[1];
    FrameIsRead(contentType, major, minor, payload, []);
    assert data + [] == data;
    EmptyContent();
    assert tagged + Content([]) == tagged;
    assert Values(tagged) == payload;
  }

  lemma EmptyContent()
    ensures Content([]) == [] && Tail([]) == []
  {
  }

  // ---- FragmentData ----

  /** The cuts that the sizes ask for, negative ones counting as 0; the last piece gets the rest. */
  function Cuts(data: seq<Byte>, sizes: seq<int>): seq<seq<Byte>>
    decreases |sizes|
  {
    if data == [] then []
    else if |sizes| <= 1 then [data]
    else
      var size := if sizes[0] < 0 then 0 else sizes[0];
      var end := if size > |data| then |data| else size;
      [data[..end]] + Cuts(data[end..], sizes[1..])
  }

  /** The first of the cuts. */
  lemma FirstCut(data: seq<Byte>, sizes: seq<int>)
    requires data != []
    ensures |sizes| <= 1 ==> Cuts(data, sizes) == [data] + Cuts([], sizes)
    ensures |sizes| > 1 ==>
      var size := if sizes[0] < 0 then 0 else sizes[0];
      var end := if size > |data| then |data| else size;
      Cuts(data, sizes) == [data[..end]] + Cuts(data[end..], sizes[1..])
    ensures forall more :: Cuts([], more) == []
  {
  }

  lemma {:induction false} CutsJoin(data: seq<Byte>, sizes: seq<int>)
    ensures Joined(Cuts(data, sizes)) == data
    ensures |Cuts(data, sizes)| <= if |sizes| == 0 then 1 else |sizes|
    ensures (forall i :: 0 <= i < |sizes| ==> sizes[i] > 0) ==> [] !in Cuts(data, sizes)
    decreases |sizes|
  {
    hide Cuts, Joined;
    NothingJoined();
    if data == [] {
      NoCuts(sizes);
    } else if |sizes| <= 1 {
      FirstCut(data, sizes);
      JoinOne(data);
      assert [data] + [] == [data];
    } else {
      var size := if sizes[0] < 0 then 0 else sizes[0];
      var end := if size > |data| then |data| else size;
      var rest := Cuts(data[end..], sizes[1..]);
      FirstCut(data, sizes);
      CutsJoin(data[end..], sizes[1..]);
      JoinedConcat([data[..end]], rest);
      JoinOne(data[..end]);
      assert data[..end] + data[end..] == data;
    }
  }

  /** Each cut is as long as its size says, if so much is left; the last size takes all of it, whatever it is. */
  lemma {:induction false} CutIs(data: seq<Byte>, sizes: seq<int>, i: nat)
    requires i < |Cuts(data, sizes)|
    ensures var left := |data| - |Joined(Cuts(data, sizes)[..i])|;
      && left > 0
      && |Cuts(data, sizes)[i]| ==
        if i + 1 >= |sizes| || sizes[i] >= left then left else if sizes[i] >= 0 then sizes[i] else 0
    decreases i
  {
    hide Joined;
    NothingJoined();
    if i > 0 {
      var size := if sizes[0] < 0 then 0 else sizes[0];
      var end := if size > |data| then |data| else size;
      var rest := Cuts(data[end..], sizes[1..]);
      CutIs(data[end..], sizes[1..], i - 1);
      assert Cuts(data, sizes)[..i] == [data[..end]] + rest[..i - 1];
      JoinedConcat([data[..end]], rest[..i - 1]);
      JoinOne(data[..end]);
    } else {
      assert Cuts(data, sizes)[..0] == [];
    }
  }

  lemma NoCuts(sizes: seq<int>)
    ensures Cuts([], sizes) == []
  {
  }

  method FragmentData(data: seq<Byte>, sizes: seq<int>) returns (fragments: seq<seq<Byte>>)
    ensures fragments == Cuts(data, sizes)
  {
    if |sizes| == 0 || |data| == 0 {
      if |data| == 0 {
        return [];
      }
      return [data];
    }
    fragments := CutUp(data, sizes);
  }

  /** The loop, for data and sizes that are not empty. */
  method CutUp(data: seq<Byte>, sizes: seq<int>) returns (fragments: seq<seq<Byte>>)
    requires data != [] && sizes != []
    ensures fragments == Cuts(data, sizes)
  {
    hide Cuts;
    FirstCut(data, sizes);
    fragments := [];
    var pos, i := 0, 0;
    assert data[0..] == data && sizes[0..] == sizes;
    while i < |sizes| && pos < |data|
      invariant 0 <= i <= |sizes| && 0 <= pos <= |data|
      invariant i == |sizes| ==> pos == |data|
      invariant fragments + Cuts(data[pos..], sizes[i..]) == Cuts(data, sizes)
      invariant i > 0 ==> fragments != []
    {
      FirstCut(data[pos..], sizes[i..]);
      if i == |sizes| - 1 {
        assert data[|data|..] == [];
        Shift(fragments, [data[pos..]], []);
        fragments := fragments + [data[pos..]];
        pos := |data|;
      } else {
        var size := if sizes[i] < 0 then 0 else sizes[i];
        var end := pos + size;
        if end > |data| {
          end := |data|;
        }
        assert data[pos..][..end - pos] == data[pos..end] && data[pos..][end - pos..] == data[end..];
        assert sizes[i..][1..] == sizes[i + 1..];
        Shift(fragments, [data[pos..end]], Cuts(data[end..], sizes[i + 1..]));
        fragments := fragments + [data[pos..end]];
        pos := end;
      }
      i := i + 1;
    }
    // The loop leaves nothing over, and has cut at least once.
    assert pos == |data| && fragments != [];
    assert data[|data|..] == [];
  }
}
