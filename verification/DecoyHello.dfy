/** The decoy ClientHello that internal/tlsutil/hello.go builds, and what the parser of the same file makes of it. */
module DecoyHellos {
  import opened Sequences
  import opened Bytes
  import opened TlsRecords
  import opened ClientHellos

  const DEFAULT_TARGET := 517
  const KEY_SHARE := 0x0033
  const X25519 := 0x001D

  function DefaultSuites(): seq<Byte> {
    [0x13, 0x02, 0x13, 0x03, 0x13, 0x01, 0xc0, 0x2c, 0xc0, 0x30, 0xc0, 0x2b, 0xc0, 0x2f, 0xcc, 0xa9, 0xcc, 0xa8,
     0xc0, 0x24, 0xc0, 0x28, 0xc0, 0x23, 0xc0, 0x27, 0x00, 0x9f, 0x00, 0x9e, 0x00, 0x6b, 0x00, 0x67, 0x00, 0xff]
  }

  /** The bytes are one extension whose length field is true. */
  predicate IsExtension(s: seq<Byte>) {
    |s| >= 4 && U16(s[2], s[3]) == |s| - 4
  }

  /** The extension these bytes are. */
  function Read(s: seq<Byte>): Extension {
    if IsExtension(s) then Extension(U16(s[0], s[1]), s[4..]) else Extension(0, [])
  }

  lemma ReadIsEncoded(s: seq<Byte>)
    requires IsExtension(s)
    ensures EncodeExtension(Read(s)) == s
  {
    PutBack(s[0], s[1]);
    PutBack(s[2], s[3]);
    hide Put16, U16;
    assert s == [s[0], s[1]] + [s[2], s[3]] + s[4..];
  }

  /** An extension whose length field is true, and no server_name. */
  predicate IsBuiltIn(s: seq<Byte>) {
    IsExtension(s) && U16(s[0], s[1]) != SERVER_NAME
  }

  // ---- the extensions ----

  function SupportedGroups(): (s: seq<Byte>)
    ensures IsBuiltIn(s)
  {
    [0x00, 0x0a, 0x00, 0x16, 0x00, 0x14, 0x00, 0x1d, 0x00, 0x17, 0x00, 0x1e, 0x00, 0x19, 0x00, 0x18,
     0x01, 0x00, 0x01, 0x01, 0x01, 0x02, 0x01, 0x03, 0x01, 0x04]
  }

  function SignatureAlgorithms(): (s: seq<Byte>)
    ensures IsBuiltIn(s)
  {
    [0x00, 0x0d, 0x00, 0x2a, 0x00, 0x28] +
    [0x04, 0x03, 0x05, 0x03, 0x06, 0x03, 0x08, 0x07, 0x08, 0x08, 0x08, 0x09, 0x08, 0x0a, 0x08, 0x0b, 0x08, 0x04,
     0x08, 0x05, 0x08, 0x06] +
    [0x04, 0x01, 0x05, 0x01, 0x06, 0x01, 0x03, 0x03, 0x03, 0x01, 0x03, 0x02, 0x04, 0x02, 0x05, 0x02, 0x06, 0x02]
  }

  function EcPointFormats(): (s: seq<Byte>)
    ensures IsBuiltIn(s)
  {
    [0x00, 0x0b, 0x00, 0x04, 0x03, 0x00, 0x01, 0x02]
  }

  function SessionTicket(): (s: seq<Byte>)
    ensures IsBuiltIn(s)
  {
    [0x00, 0x23, 0x00, 0x00]
  }

  function Alpn(): (s: seq<Byte>)
    ensures IsBuiltIn(s)
  {
    [0x00, 0x10, 0x00, 0x0e, 0x00, 0x0c, 0x02, 0x68, 0x32, 0x08, 0x68, 0x74, 0x74, 0x70, 0x2f, 0x31, 0x2e, 0x31]
  }

  function EncryptThenMac(): (s: seq<Byte>)
    ensures IsBuiltIn(s)
  {
    [0x00, 0x16, 0x00, 0x00]
  }

  function ExtendedMasterSecret(): (s: seq<Byte>)
    ensures IsBuiltIn(s)
  {
    [0x00, 0x17, 0x00, 0x00]
  }

  function SupportedVersions(): (s: seq<Byte>)
    ensures IsBuiltIn(s)
  {
    [0x00, 0x2b, 0x00, 0x05, 0x04, 0x03, 0x04, 0x03, 0x03]
  }

  function PskKeyExchange(): (s: seq<Byte>)
    ensures IsBuiltIn(s)
  {
    [0x00, 0x2d, 0x00, 0x02, 0x01, 0x01]
  }

  /** The body BuildSNIExtension writes: two zero bytes, not one, in front of the name length. */
  function DecoyNameBody(sni: seq<Byte>): seq<Byte> {
    Long(Put16(0) + Long(sni))
  }

  method BuildSniExtension(sni: seq<Byte>) returns (ext: seq<Byte>)
    ensures ext == EncodeExtension(Extension(SERVER_NAME, DecoyNameBody(sni)))
  {
    var entry := Put16(0) + Put16(|sni|);
    entry := entry + sni;
    assert entry == Put16(0) + Long(sni);
    var nameList := Put16(|entry|) + entry;
    ext := Put16(0x0000) + (Put16(|nameList|) + nameList);
    assert ext == Put16(0x0000) + Put16(|nameList|) + nameList;
  }

  function KeyShareBody(key: seq<Byte>): seq<Byte> {
    Long(Put16(X25519) + Long(key))
  }

  /** BuildKeyShareExtension, given the key it would draw. */
  method BuildKeyShareExtension(publicKey: seq<Byte>, drawnKey: seq<Byte>) returns (ext: seq<Byte>)
    ensures ext == EncodeExtension(Extension(KEY_SHARE, KeyShareBody(if publicKey == [] then drawnKey else publicKey)))
  {
    var key := if publicKey == [] then drawnKey else publicKey;
    var entry := Put16(X25519) + Put16(|key|);
    entry := entry + key;
    assert entry == Put16(X25519) + Long(key);
    var data := Put16(|entry|) + entry;
    ext := Put16(KEY_SHARE) + (Put16(|data|) + data);
    assert ext == Put16(KEY_SHARE) + Put16(|data|) + data;
  }

  function Zeros(n: nat): (s: seq<Byte>)
    ensures |s| == n
  {
    seq(n, _ => 0)
  }

  /** The padding that fills `current` bytes up to `target`, none when not even its header fits. */
  function Padding(target: int, current: int): seq<Extension> {
    if target - current - 4 < 0 then [] else [Extension(PADDING, Zeros(target - current - 4))]
  }

  method BuildPaddingExtension(target: int, current: int) returns (ext: seq<Byte>)
    ensures ext == EncodeExtensions(Padding(target, current))
  {
    var needed := target - current - 4;
    if needed < 0 {
      return [];
    }
    ext := Put16(PADDING) + Put16(needed);
    ext := ext + Zeros(needed);
    OneExtension(Extension(PADDING, Zeros(needed)));
  }

  lemma OneExtension(e: Extension)
    ensures EncodeExtensions([e]) == EncodeExtension(e)
  {
    assert [e][1..] == [];
    assert EncodeExtension(e) + [] == EncodeExtension(e);
  }

  lemma {:induction false} EncodeConcat(es: seq<Extension>, fs: seq<Extension>)
    ensures EncodeExtensions(es + fs) == EncodeExtensions(es) + EncodeExtensions(fs)
  {
    if es == [] {
      assert es + fs == fs;
    } else {
      assert (es + fs)[1..] == es[1..] + fs && (es + fs)[0] == es[0];
      EncodeConcat(es[1..], fs);
    }
  }

  function SuiteBytes(ids: seq<nat>): seq<Byte> {
    if ids == [] then [] else SuiteBytes(ids[..|ids| - 1]) + Put16(ids[|ids| - 1])
  }

  method BuildCipherSuitesField(ids: seq<nat>) returns (field: seq<Byte>)
    ensures field == Long(SuiteBytes(ids))
  {
    var body: seq<Byte> := [];
    for i := 0 to |ids|
      invariant body == SuiteBytes(ids[..i])
    {
      assert ids[..i + 1][..i] == ids[..i];
      body := body + Put16(ids[i]);
    }
    assert ids[..|ids|] == ids;
    field := Put16(|body|) + body;
  }

  // ---- the hello ----

  function Middle(): seq<seq<Byte>> {
    [EcPointFormats(), SupportedGroups(), SessionTicket(), Alpn(), EncryptThenMac(),
     ExtendedMasterSecret(), SignatureAlgorithms(), SupportedVersions(), PskKeyExchange()]
  }

  function ReadAll(raw: seq<seq<Byte>>): (es: seq<Extension>)
    ensures |es| == |raw| && forall i :: 0 <= i < |raw| ==> es[i] == Read(raw[i])
  {
    seq(|raw|, i requires 0 <= i < |raw| => Read(raw[i]))
  }

  /** Framed bytes put together are the encoding of what they are. */
  lemma {:induction false} RawIsEncoded(raw: seq<seq<Byte>>)
    requires forall s :: s in raw ==> IsExtension(s)
    ensures EncodeExtensions(ReadAll(raw)) == Joined(raw)
  {
    if raw != [] {
      var n := |raw| - 1;
      RawIsEncoded(raw[..n]);
      assert ReadAll(raw) == ReadAll(raw[..n]) + [Read(raw[n])];
      EncodeConcat(ReadAll(raw[..n]), [Read(raw[n])]);
      OneExtension(Read(raw[n]));
      ReadIsEncoded(raw[n]);
    }
  }

  lemma JoinedNext(start: seq<Byte>, acc: seq<Byte>, raw: seq<seq<Byte>>, k: nat)
    requires k < |raw| && acc == start + Joined(raw[..k])
    ensures acc + raw[k] == start + Joined(raw[..k + 1])
  {
    assert raw[..k + 1][..k] == raw[..k];
  }

  /** The appends of the builder, one built-in extension after the other. */
  method AppendMiddle(start: seq<Byte>) returns (extensions: seq<Byte>)
    ensures extensions == start + Joined(Middle())
  {
    ghost var raw := Middle();
    hide Joined, IsBuiltIn;
    hide EcPointFormats, SupportedGroups, SessionTicket, Alpn, EncryptThenMac;
    hide ExtendedMasterSecret, SignatureAlgorithms, SupportedVersions, PskKeyExchange;
    NothingYet(start, raw);
    extensions := start;
    JoinedNext(start, extensions, raw, 0);
    extensions := extensions + EcPointFormats();
    JoinedNext(start, extensions, raw, 1);
    extensions := extensions + SupportedGroups();
    JoinedNext(start, extensions, raw, 2);
    extensions := extensions + SessionTicket();
    JoinedNext(start, extensions, raw, 3);
    extensions := extensions + Alpn();
    JoinedNext(start, extensions, raw, 4);
    extensions := extensions + EncryptThenMac();
    JoinedNext(start, extensions, raw, 5);
    extensions := extensions + ExtendedMasterSecret();
    JoinedNext(start, extensions, raw, 6);
    extensions := extensions + SignatureAlgorithms();
    JoinedNext(start, extensions, raw, 7);
    extensions := extensions + SupportedVersions();
    JoinedNext(start, extensions, raw, 8);
    extensions := extensions + PskKeyExchange();
    assert raw[..9] == raw;
  }

  lemma NothingYet(start: seq<Byte>, raw: seq<seq<Byte>>)
    ensures start == start + Joined(raw[..0])
  {
  }

  // ---- the hello ----

  function Target(targetSize: int): int {
    if targetSize <= 0 then DEFAULT_TARGET else targetSize
  }

  function Suites(ids: seq<nat>): seq<Byte> {
    if ids == [] then DefaultSuites() else SuiteBytes(ids)
  }

  /** The extensions before the padding. */
  function Unpadded(sni: seq<Byte>, key: seq<Byte>): seq<Extension> {
    [Extension(SERVER_NAME, DecoyNameBody(sni))] + ReadAll(Middle()) + [Extension(KEY_SHARE, KeyShareBody(key))]
  }

  function Bare(sni: seq<Byte>, sessionId: seq<Byte>, random: seq<Byte>, key: seq<Byte>, ids: seq<nat>): Hello {
    Hello([0x03, 0x03], random, sessionId, Suites(ids), [0x00], Unpadded(sni, key))
  }

  /** The hello, padded up to the target size of its record. */
  function Padded(bare: Hello, target: int): Hello {
    bare.(extensions := bare.extensions + Padding(target, |Encode(0x03, 0x01, bare)|))
  }

  lemma AroundRaw(name: Extension, raw: seq<seq<Byte>>, share: Extension)
    requires forall s :: s in raw ==> IsExtension(s)
    ensures EncodeExtensions([name] + ReadAll(raw) + [share])
         == EncodeExtension(name) + Joined(raw) + EncodeExtension(share)
  {
    hide EncodeExtension, EncodeExtensions, IsExtension;
    EncodeConcat([name] + ReadAll(raw), [share]);
    EncodeConcat([name], ReadAll(raw));
    OneExtension(name);
    OneExtension(share);
    RawIsEncoded(raw);
  }

  /** Everything before the padding, put together. */
  method BuildExtensions(sni: seq<Byte>, givenKey: seq<Byte>, drawnKey: seq<Byte>) returns (extensions: seq<Byte>)
    ensures extensions == EncodeExtensions(Unpadded(sni, if givenKey == [] then drawnKey else givenKey))
  {
    ghost var raw := Middle();
    assert forall s :: s in raw ==> IsBuiltIn(s) && IsExtension(s);
    hide Middle, Joined, EncodeExtension, EncodeExtensions, DecoyNameBody, KeyShareBody, IsExtension, IsBuiltIn, ReadAll;
    extensions := BuildSniExtension(sni);
    extensions := AppendMiddle(extensions);
    var keyShareExt := BuildKeyShareExtension(givenKey, drawnKey);
    extensions := extensions + keyShareExt;
    AroundRaw(Extension(SERVER_NAME, DecoyNameBody(sni)), raw,
              Extension(KEY_SHARE, KeyShareBody(if givenKey == [] then drawnKey else givenKey)));
  }

  lemma EncodedSize(major: Byte, minor: Byte, h: Hello)
    requires |h.version| == 2
    ensures |Encode(major, minor, h)| == 5 + 4 + 2 + |h.random| + 1 + |h.sessionId| + 2 + |h.suites|
              + 1 + |h.compression| + 2 + |EncodeExtensions(h.extensions)|
  {
  }

  /**
   * BuildClientHello, given the bytes it would draw at random. What it appends piece by piece is the encoding of one
   * hello: every length prefix counts what follows it.
   */
  method BuildClientHello(sni: seq<Byte>, givenSession: seq<Byte>, givenRandom: seq<Byte>, givenKey: seq<Byte>,
                          targetSize: int, cipherSuites: seq<nat>,
                          drawnSession: seq<Byte>, drawnRandom: seq<Byte>, drawnKey: seq<Byte>)
    returns (record: seq<Byte>)
    ensures var sessionId := if givenSession == [] then drawnSession else givenSession;
      var random := if givenRandom == [] then drawnRandom else givenRandom;
      var key := if givenKey == [] then drawnKey else givenKey;
      var bare := Bare(sni, sessionId, random, key, cipherSuites);
      record == Encode(0x03, 0x01, Padded(bare, Target(targetSize)))
  {
    hide Encode, Padded, Long, SuiteBytes, DefaultSuites, Unpadded;
    var target := if targetSize <= 0 then DEFAULT_TARGET else targetSize;
    var sessionId := if givenSession == [] then drawnSession else givenSession;
    var random := if givenRandom == [] then drawnRandom else givenRandom;
    ghost var key := if givenKey == [] then drawnKey else givenKey;
    var csField := Long(DefaultSuites());
    if |cipherSuites| > 0 {
      csField := BuildCipherSuitesField(cipherSuites);
    }
    ghost var bare := Bare(sni, sessionId, random, key, cipherSuites);
    assert csField == Long(bare.suites) && bare.compression == [0x00] && bare.version == [0x03, 0x03];
    assert bare.extensions == Unpadded(sni, key) && bare.random == random && bare.sessionId == sessionId;
    hide *;
    var extensions := BuildExtensions(sni, givenKey, drawnKey);
    record := Assemble(csField, sessionId, random, extensions, target, bare);
  }

  /** The fixed fields, the padding that the size so far calls for, and the headers. */
  method Assemble(csField: seq<Byte>, sessionId: seq<Byte>, random: seq<Byte>, unpadded: seq<Byte>, target: int,
                  ghost bare: Hello)
    returns (record: seq<Byte>)
    requires csField == Long(bare.suites) && bare.compression == [0x00] && bare.version == [0x03, 0x03]
    requires unpadded == EncodeExtensions(bare.extensions) && random == bare.random && sessionId == bare.sessionId
    ensures record == Encode(0x03, 0x01, Padded(bare, target))
  {
    var body := [0x03, 0x03];
    body := body + random;
    body := body + ([|sessionId| % 256] + sessionId);
    body := body + csField;
    body := body + [0x01, 0x00];
    var recordSoFar := 5 + (4 + |body| + 2 + |unpadded|);
    EncodedSize(0x03, 0x01, bare);
    hide EncodeExtension, EncodeExtensions, Padding, Long, Encode;
    var paddingExt := BuildPaddingExtension(target, recordSoFar);
    var extensions := unpadded + paddingExt;
    EncodeConcat(bare.extensions, Padding(target, recordSoFar));
    record := Wrap(body, extensions, Padded(bare, target));
  }

  /** The extension block, the handshake header and the record header around it all. */
  method Wrap(start: seq<Byte>, extensions: seq<Byte>, ghost h: Hello) returns (record: seq<Byte>)
    requires extensions == EncodeExtensions(h.extensions) && h.compression == [0x00]
    requires start == h.version + h.random + Short(h.sessionId) + Long(h.suites) + [0x01, 0x00]
    ensures record == Encode(0x03, 0x01, h)
  {
    var body := start + (Put16(|extensions|) + extensions);
    BodyParts(h, start, body);
    hide Body;
    var handshake := HandshakeHeader(|body|);
    handshake := handshake + body;
    assert handshake == Handshake(h);
    hide Handshake;
    record := RecordHeader(|handshake|);
    record := record + handshake;
  }

  lemma BodyParts(h: Hello, start: seq<Byte>, body: seq<Byte>)
    requires h.compression == [0x00]
    requires start == h.version + h.random + Short(h.sessionId) + Long(h.suites) + [0x01, 0x00]
    requires body == start + Long(EncodeExtensions(h.extensions))
    ensures body == Body(h)
  {
    hide Short, Long, EncodeExtensions;
    NullCompression();
  }

  lemma NullCompression()
    ensures Short([0x00]) == [0x01, 0x00]
  {
  }

  method HandshakeHeader(n: nat) returns (header: seq<Byte>)
    ensures header == [0x01] + Put24(n)
  {
    hide Put16;
    Put16Is(n);
    header := [0x01, n / 0x10000 % 256, n / 256 % 256, n % 256];
  }

  method RecordHeader(n: nat) returns (header: seq<Byte>)
    ensures header == [0x16, 0x03, 0x01] + Put16(n)
  {
    hide Put16;
    Put16Is(n);
    header := [0x16, 0x03, 0x01, n / 256 % 256, n % 256];
  }

  /** The record is exactly as long as asked when at least the header of a padding extension fits, else not padded. */
  lemma PaddedSize(bare: Hello, target: int)
    requires |bare.version| == 2
    ensures var size := |Encode(0x03, 0x01, bare)|;
      |Encode(0x03, 0x01, Padded(bare, target))| == if size <= target - 4 then target else size
  {
    var size := |Encode(0x03, 0x01, bare)|;
    var padding := Padding(target, size);
    EncodedSize(0x03, 0x01, bare);
    EncodedSize(0x03, 0x01, Padded(bare, target));
    EncodeConcat(bare.extensions, padding);
    if padding != [] {
      OneExtension(padding[0]);
    } else {
      assert EncodeExtensions([]) == [];
    }
  }

  // ---- the decoy, parsed ----

  lemma {:induction false} BodiesFit(es: seq<Extension>, e: Extension)
    requires e in es
    ensures |e.body| + 4 <= |EncodeExtensions(es)|
  {
    if e != es[0] {
      BodiesFit(es[1..], e);
    }
  }

  /** Nothing but the first extension is a server_name. */
  ghost predicate Nameless(es: seq<Extension>) {
    forall e :: e in es ==> 0 < e.kind < 0x10000
  }

  lemma BuiltInIsNameless(raw: seq<seq<Byte>>)
    requires forall s :: s in raw ==> IsBuiltIn(s)
    ensures Nameless(ReadAll(raw))
  {
    hide U16;
    forall e | e in ReadAll(raw) ensures 0 < e.kind < 0x10000 {
      var i :| 0 <= i < |ReadAll(raw)| && ReadAll(raw)[i] == e;
      assert raw[i] in raw;
    }
  }

  lemma UnpaddedKinds(sni: seq<Byte>, key: seq<Byte>)
    ensures Unpadded(sni, key) != [] && Unpadded(sni, key)[0] == Extension(SERVER_NAME, DecoyNameBody(sni))
    ensures Nameless(Unpadded(sni, key)[1..])
  {
    BuiltInIsNameless(Middle());
    hide Middle, ReadAll, DecoyNameBody, KeyShareBody;
    assert Unpadded(sni, key)[1..] == ReadAll(Middle()) + [Extension(KEY_SHARE, KeyShareBody(key))];
  }

  /** A decoy whose record does not outgrow its length field is a well-formed hello. */
  lemma DecoyIsWellFormed(sni: seq<Byte>, sessionId: seq<Byte>, random: seq<Byte>, key: seq<Byte>, ids: seq<nat>,
                          target: int)
    requires |random| == 32 && |sessionId| < 256
    requires |Encode(0x03, 0x01, Padded(Bare(sni, sessionId, random, key, ids), target))| < 5 + 0x10000
    ensures WellFormed(Padded(Bare(sni, sessionId, random, key, ids), target))
  {
    var h := Padded(Bare(sni, sessionId, random, key, ids), target);
    EncodedSize(0x03, 0x01, h);
    UnpaddedKinds(sni, key);
    forall e | e in h.extensions ensures ExtensionFits(e) {
      BodiesFit(h.extensions, e);
      var i :| 0 <= i < |h.extensions| && h.extensions[i] == e;
      var es := Unpadded(sni, key);
      assert 0 < i < |es| ==> e == es[1..][i - 1];
    }
  }

  /** What the parser takes for the name of a decoy: as many bytes as the length has 256s, from its low byte on. */
  function Misread(sni: seq<Byte>): seq<Byte> {
    (Put16(|sni|)[1..] + sni)[..|sni| / 256]
  }

  lemma LowByte(n: Byte)
    ensures U16(0, n) == n
  {
  }

  lemma NameIsMisread(sni: seq<Byte>)
    requires |sni| < 0x10000
    ensures NameIn(DecoyNameBody(sni)) == Some(Misread(sni)) && (Misread(sni) == sni <==> sni == [])
  {
    var size, total := Put16(|sni|), Put16(4 + |sni|);
    var n := |sni| / 256;
    assert size[0] == n && Put16(0) == [0, 0];
    LowByte(n);
    assert DecoyNameBody(sni) == total + ([0, 0] + (size + sni));
    hide Put16, DecoyNameBody, U16;
    var body := DecoyNameBody(sni);
    assert body[3] == 0 && body[4] == n;
    assert body[5..5 + n] == (size[1..] + sni)[..n];
  }

  /**
   * The parser recovers the random and the session ID of every decoy and walks its extensions, padding included, to
   * exactly their end. It recovers the name exactly when there is none: the builder puts one zero byte too many in
   * front of it.
   */
  lemma DecoyIsParsed(sni: seq<Byte>, sessionId: seq<Byte>, random: seq<Byte>, key: seq<Byte>, ids: seq<nat>,
                      target: int, spare: seq<Byte>)
    requires |random| == 32 && |sessionId| < 256
    requires |Encode(0x03, 0x01, Padded(Bare(sni, sessionId, random, key, ids), target))| < 5 + 0x10000
    ensures var h := Padded(Bare(sni, sessionId, random, key, ids), target);
      var list := EncodeExtensions(h.extensions);
      && |sni| < 0x10000
      && Parsed(Encode(0x03, 0x01, h), spare)
        == Some(Info(0x16, [0x03, 0x01], true, [0x03, 0x03], random, sessionId, Misread(sni)))
      && (Misread(sni) == sni <==> sni == [])
      && Extensions(list + spare, |list|) == Some(h.extensions)
  {
    hide *;
    var h := Padded(Bare(sni, sessionId, random, key, ids), target);
    DecoyFields(sni, sessionId, random, key, ids, target);
    DecoyIsWellFormed(sni, sessionId, random, key, ids, target);
    DecoyName(sni, sessionId, random, key, ids, target);
    NameIsMisread(sni);
    ParsedEncoded(0x03, 0x01, h, spare);
    ExtensionsAreRead(h.extensions, spare);
  }

  lemma DecoyFields(sni: seq<Byte>, sessionId: seq<Byte>, random: seq<Byte>, key: seq<Byte>, ids: seq<nat>, target: int)
    ensures var h := Padded(Bare(sni, sessionId, random, key, ids), target);
      h.version == [0x03, 0x03] && h.random == random && h.sessionId == sessionId
  {
    hide Suites, Unpadded, Padding, Encode;
  }

  lemma NameFits(sni: seq<Byte>)
    requires ExtensionFits(Extension(SERVER_NAME, DecoyNameBody(sni)))
    ensures |sni| < 0x10000
  {
    assert |DecoyNameBody(sni)| == 6 + |sni|;
  }

  lemma DecoyName(sni: seq<Byte>, sessionId: seq<Byte>, random: seq<Byte>, key: seq<Byte>, ids: seq<nat>, target: int)
    requires WellFormed(Padded(Bare(sni, sessionId, random, key, ids), target))
    ensures |sni| < 0x10000
    ensures HostName(Padded(Bare(sni, sessionId, random, key, ids), target).extensions) == Misread(sni)
  {
    var bare := Bare(sni, sessionId, random, key, ids);
    assert bare.extensions == Unpadded(sni, key);
    var padding := PaddingOf(bare, target);
    hide *;
    UnpaddedKinds(sni, key);
    DecoyNameIn(sni, bare.extensions, padding);
  }

  lemma PaddingOf(bare: Hello, target: int) returns (padding: seq<Extension>)
    ensures Padded(bare, target).extensions == bare.extensions + padding && Nameless(padding)
  {
    hide Encode;
    padding := Padding(target, |Encode(0x03, 0x01, bare)|);
  }

  lemma DecoyNameIn(sni: seq<Byte>, unpadded: seq<Extension>, padding: seq<Extension>)
    requires unpadded != [] && unpadded[0] == Extension(SERVER_NAME, DecoyNameBody(sni))
    requires Nameless(unpadded[1..]) && Nameless(padding) && forall e :: e in unpadded + padding ==> ExtensionFits(e)
    ensures |sni| < 0x10000 && HostName(unpadded + padding) == Misread(sni)
  {
    hide HostName, NameIn, Misread, DecoyNameBody;
    var after := unpadded[1..] + padding;
    assert unpadded + padding == [] + [unpadded[0]] + after;
    assert unpadded[0] in unpadded + padding;
    NameFits(sni);
    NameIsMisread(sni);
    HostNameIsFound([], DecoyNameBody(sni), after);
  }
}
