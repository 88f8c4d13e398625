/** What the decoy ClientHello of internal/tlsutil/hello.go offers, as a server reads it (section 4.1.2 of RFC 8446). */
module DecoyOffers {
  import opened Sequences
  import opened Bytes
  import opened TlsRecords
  import opened ClientHellos
  import opened DecoyHellos

  /** A list of two-byte numbers. */
  function Words(s: seq<Byte>): (r: seq<nat>)
    ensures |r| == |s| / 2
  {
    seq(|s| / 2, i requires 0 <= i < |s| / 2 => U16(s[2 * i], s[2 * i + 1]))
  }

  predicate Ascii(s: string) {
    forall i :: 0 <= i < |s| ==> s[i] as int < 128
  }

  function Letters(s: string): (r: seq<Byte>)
    requires Ascii(s)
    ensures |r| == |s|
  {
    seq(|s|, i requires 0 <= i < |s| => s[i] as int)
  }

  /** The suites offered when none are given, by their registered numbers. */
  lemma DefaultSuitesAre()
    ensures Words(DefaultSuites()) ==
      [0x1302, 0x1303, 0x1301, 0xC02C, 0xC030, 0xC02B, 0xC02F, 0xCCA9, 0xCCA8,
       0xC024, 0xC028, 0xC023, 0xC027, 0x009F, 0x009E, 0x006B, 0x0067, 0x00FF]
    ensures |DefaultSuites()| == 36
  {
  }

  lemma WordsConcat(s: seq<Byte>, t: seq<Byte>)
    requires |s| % 2 == 0
    ensures Words(s + t) == Words(s) + Words(t)
  {
    var all := s + t;
    forall i | 0 <= i < |all| / 2 ensures Words(all)[i] == (Words(s) + Words(t))[i] {
      if i >= |s| / 2 {
        assert all[2 * i] == t[2 * (i - |s| / 2)] && all[2 * i + 1] == t[2 * (i - |s| / 2) + 1];
      }
    }
  }

  lemma ReadIs(s: seq<Byte>, head: seq<Byte>, list: seq<Byte>)
    requires IsExtension(s) && |head| == 6 && s == head + list
    ensures Read(s) == Extension(U16(head[0], head[1]), [head[4], head[5]] + list)
  {
    assert s[4..] == [head[4], head[5]] + list;
  }

  /** Point formats (RFC 8422, section 5.1.2), none compressed first. */
  lemma PointFormatsAre()
    ensures Read(EcPointFormats()) == Extension(11, [3, 0, 1, 2])
  {
  }

  /** Groups, X25519 first, then P-256. */
  lemma GroupsAre() returns (list: seq<Byte>)
    ensures |list| == 20 && Read(SupportedGroups()) == Extension(10, [0, 20] + list)
    ensures Words(list) == [0x1D, 0x17, 0x1E, 0x19, 0x18, 0x100, 0x101, 0x102, 0x103, 0x104]
  {
    list := [0x00, 0x1d, 0x00, 0x17, 0x00, 0x1e, 0x00, 0x19, 0x00, 0x18,
             0x01, 0x00, 0x01, 0x01, 0x01, 0x02, 0x01, 0x03, 0x01, 0x04];
    GroupWords(list);
    GroupBytes(list);
    hide SupportedGroups, Words;
    ReadIs(SupportedGroups(), [0x00, 0x0a, 0x00, 0x16, 0x00, 0x14], list);
  }

  lemma GroupBytes(list: seq<Byte>)
    requires list == [0x00, 0x1d, 0x00, 0x17, 0x00, 0x1e, 0x00, 0x19, 0x00, 0x18,
                      0x01, 0x00, 0x01, 0x01, 0x01, 0x02, 0x01, 0x03, 0x01, 0x04]
    ensures SupportedGroups() == [0x00, 0x0a, 0x00, 0x16, 0x00, 0x14] + list
  {
  }

  lemma GroupWords(list: seq<Byte>)
    requires list == [0x00, 0x1d, 0x00, 0x17, 0x00, 0x1e, 0x00, 0x19, 0x00, 0x18,
                      0x01, 0x00, 0x01, 0x01, 0x01, 0x02, 0x01, 0x03, 0x01, 0x04]
    ensures Words(list) == [0x1D, 0x17, 0x1E, 0x19, 0x18, 0x100, 0x101, 0x102, 0x103, 0x104]
  {
  }

  /** ECDSA, EdDSA and RSASSA-PSS before RSASSA-PKCS1-v1_5 and the rest. */
  lemma SignaturesAre() returns (list: seq<Byte>)
    ensures |list| == 40 && Read(SignatureAlgorithms()) == Extension(13, [0, 40] + list)
    ensures Words(list) ==
      [0x0403, 0x0503, 0x0603, 0x0807, 0x0808, 0x0809, 0x080A, 0x080B, 0x0804, 0x0805, 0x0806]
      + [0x0401, 0x0501, 0x0601, 0x0303, 0x0301, 0x0302, 0x0402, 0x0502, 0x0602]
  {
    var head: seq<Byte> := [0x00, 0x0d, 0x00, 0x2a, 0x00, 0x28];
    var first: seq<Byte> := [0x04, 0x03, 0x05, 0x03, 0x06, 0x03, 0x08, 0x07, 0x08, 0x08, 0x08, 0x09, 0x08, 0x0a,
                             0x08, 0x0b, 0x08, 0x04, 0x08, 0x05, 0x08, 0x06];
    var second: seq<Byte> := [0x04, 0x01, 0x05, 0x01, 0x06, 0x01, 0x03, 0x03, 0x03, 0x01, 0x03, 0x02, 0x04, 0x02,
                              0x05, 0x02, 0x06, 0x02];
    assert SignatureAlgorithms() == head + first + second;
    FirstSignatures(first);
    SecondSignatures(second);
    hide SignatureAlgorithms, Words;
    WordsConcat(first, second);
    assert head + first + second == head + (first + second);
    list := first + second;
    ReadIs(SignatureAlgorithms(), head, list);
  }

  lemma FirstSignatures(list: seq<Byte>)
    requires list == [0x04, 0x03, 0x05, 0x03, 0x06, 0x03, 0x08, 0x07, 0x08, 0x08, 0x08, 0x09, 0x08, 0x0a, 0x08, 0x0b,
                      0x08, 0x04, 0x08, 0x05, 0x08, 0x06]
    ensures Words(list) == [0x0403, 0x0503, 0x0603, 0x0807, 0x0808, 0x0809, 0x080A, 0x080B, 0x0804, 0x0805, 0x0806]
  {
  }

  lemma SecondSignatures(list: seq<Byte>)
    requires list == [0x04, 0x01, 0x05, 0x01, 0x06, 0x01, 0x03, 0x03, 0x03, 0x01, 0x03, 0x02, 0x04, 0x02, 0x05, 0x02,
                      0x06, 0x02]
    ensures Words(list) == [0x0401, 0x0501, 0x0601, 0x0303, 0x0301, 0x0302, 0x0402, 0x0502, 0x0602]
  {
  }

  /** HTTP/2 before HTTP/1.1, TLS 1.3 before TLS 1.2, and key exchange with every resumption. */
  lemma VersionsAre()
    ensures Read(SessionTicket()) == Extension(35, [])
    ensures Read(Alpn()) == Extension(16, [0, 12, 2] + Letters("h2") + [8] + Letters("http/1.1"))
    ensures Read(EncryptThenMac()) == Extension(22, []) && Read(ExtendedMasterSecret()) == Extension(23, [])
    ensures var e := Read(SupportedVersions());
      e.kind == 43 && |e.body| == 5 && e.body[0] == 4 && Words(e.body[1..]) == [0x0304, 0x0303]
    ensures Read(PskKeyExchange()) == Extension(45, [1, 1])
  {
  }

  /** The order of the extensions: the name, nine that are always the same, and the key share. */
  lemma ExtensionsAre(sni: seq<Byte>, key: seq<Byte>)
    ensures Unpadded(sni, key) ==
      [Extension(0, DecoyNameBody(sni)), Read(EcPointFormats()), Read(SupportedGroups()), Read(SessionTicket()), Read(Alpn()),
       Read(EncryptThenMac()), Read(ExtendedMasterSecret()), Read(SignatureAlgorithms()), Read(SupportedVersions()),
       Read(PskKeyExchange()), Extension(51, KeyShareBody(key))]
  {
    hide Read, EcPointFormats, SupportedGroups, SessionTicket, Alpn, EncryptThenMac, ExtendedMasterSecret,
         SignatureAlgorithms, SupportedVersions, PskKeyExchange, DecoyNameBody, KeyShareBody;
  }

  /** The name entry as it is sent: the length of the list, two zeros, the length of the name, the name. */
  lemma NameBodyIs(sni: seq<Byte>)
    requires |sni| + 4 < 0x10000
    ensures DecoyNameBody(sni) == [(|sni| + 4) / 256, (|sni| + 4) % 256, 0, 0, |sni| / 256, |sni| % 256] + sni
  {
    Put16Is(0);
    Put16Is(|sni|);
    Put16Is(|sni| + 4);
    hide Put16;
    assert |Put16(0) + Long(sni)| == |sni| + 4;
  }

  /** Padding is one extension of type 21 full of zeros. */
  lemma PaddingIs(target: int, current: int)
    ensures current + 4 > target ==> Padding(target, current) == []
    ensures current + 4 <= target ==>
      var padding := Padding(target, current);
      && |padding| == 1 && padding[0].kind == 21 && |padding[0].body| == target - current - 4
      && forall i :: 0 <= i < |padding[0].body| ==> padding[0].body[i] == 0
  {
  }

  /** Given suites are offered in their order, cut down to 16 bits. */
  lemma {:induction false} SuitesAre(ids: seq<nat>)
    ensures |SuiteBytes(ids)| == 2 * |ids|
    ensures Words(SuiteBytes(ids)) == seq(|ids|, i requires 0 <= i < |ids| => ids[i] % 65536)
  {
    if ids != [] {
      var n := |ids| - 1;
      SuitesAre(ids[..n]);
      WordsConcat(SuiteBytes(ids[..n]), Put16(ids[n]));
      hide Words;
      assert Words(Put16(ids[n])) == [ids[n] % 65536] by { OneWord(ids[n]); }
    }
  }

  lemma OneWord(id: nat)
    ensures Words(Put16(id)) == [id % 65536]
  {
  }

  /** The fixed fields: TLS 1.2 as the version, the suites asked for or else the default ones, no compression, and 517 bytes
      unless a size is given. */
  lemma HelloIs(sni: seq<Byte>, sessionId: seq<Byte>, random: seq<Byte>, key: seq<Byte>, ids: seq<nat>, targetSize: int)
    ensures var h := Bare(sni, sessionId, random, key, ids);
      && h.version == [3, 3] && h.random == random && h.sessionId == sessionId && h.compression == [0]
      && h.suites == (if |ids| > 0 then SuiteBytes(ids) else DefaultSuites()) && h.extensions == Unpadded(sni, key)
    ensures Target(targetSize) == if targetSize > 0 then targetSize else 517
  {
    hide DefaultSuites, SuiteBytes, Unpadded;
  }

  /** The key share is one X25519 key behind its lengths. */
  lemma KeyShareIs(key: seq<Byte>)
    requires |key| == 32
    ensures KeyShareBody(key) == [0, 36, 0, 0x1D, 0, 32] + key
  {
    Put16Is(36);
    Put16Is(0x1D);
    Put16Is(32);
  }

  lemma {:induction false} SizeStep(es: seq<Extension>)
    requires es != []
    ensures |EncodeExtensions(es)| == 4 + |es[0].body| + |EncodeExtensions(es[1..])|
  {
  }

  /** How long a decoy with the default suites is: 517 bytes for every name of up to 218 bytes. */
  lemma DecoySize(sni: seq<Byte>, sessionId: seq<Byte>, random: seq<Byte>, key: seq<Byte>)
    requires |sessionId| == |random| == |key| == 32
    ensures |Encode(0x03, 0x01, Padded(Bare(sni, sessionId, random, key, []), Target(0)))|
         == if |sni| <= 218 then 517 else 295 + |sni|
  {
    var bare := Bare(sni, sessionId, random, key, []);
    ExtensionsSize(sni, key);
    EncodedSize(0x03, 0x01, bare);
    PaddedSize(bare, Target(0));
    DefaultSuitesAre();
    hide Encode, Padded, EncodeExtensions, Unpadded;
  }

  lemma ExtensionsSize(sni: seq<Byte>, key: seq<Byte>)
    requires |key| == 32
    ensures |EncodeExtensions(Unpadded(sni, key))| == 177 + |sni|
  {
    ExtensionsAre(sni, key);
    PointFormatsAre();
    var _ := GroupsAre();
    var _ := SignaturesAre();
    VersionsAre();
    KeyShareIs(key);
    assert |DecoyNameBody(sni)| == 6 + |sni|;
    SizesAddUp(Unpadded(sni, key));
  }

  lemma SizesAddUp(es: seq<Extension>)
    requires |es| == 11
    ensures |EncodeExtensions(es)| == 44 + |es[0].body| + |es[1].body| + |es[2].body| + |es[3].body| + |es[4].body|
      + |es[5].body| + |es[6].body| + |es[7].body| + |es[8].body| + |es[9].body| + |es[10].body|
  {
    hide EncodeExtensions, EncodeExtension;
    NoExtensions();
    assert es[11..] == [] && es[0..] == es;
    forall i | 0 <= i < 11 ensures |EncodeExtensions(es[i..])| == 4 + |es[i].body| + |EncodeExtensions(es[i + 1..])| {
      SizeStep(es[i..]);
      assert es[i..][1..] == es[i + 1..];
    }
  }

  lemma NoExtensions()
    ensures EncodeExtensions([]) == []
  {
  }
}
