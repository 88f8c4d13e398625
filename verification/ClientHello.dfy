/** The ClientHello of internal/tlsutil/hello.go: how RFC 8446 lays it out, how it is parsed, how a decoy is built. */
module ClientHellos {
  import opened Sequences
  import opened Bytes
  import opened TlsRecords

  // ---- the layout (section 4.1.2 of RFC 8446) ----

  const SERVER_NAME := 0x0000
  const PADDING := 0x0015

  datatype Extension = Extension(kind: nat, body: seq<Byte>)

  datatype Hello = Hello(version: seq<Byte>, random: seq<Byte>, sessionId: seq<Byte>, suites: seq<Byte>,
                         compression: seq<Byte>, extensions: seq<Extension>)

  function EncodeExtension(e: Extension): seq<Byte> {
    Put16(e.kind) + Put16(|e.body|) + e.body
  }

  function EncodeExtensions(es: seq<Extension>): seq<Byte> {
    if es == [] then [] else EncodeExtension(es[0]) + EncodeExtensions(es[1..])
  }

  /** A vector behind a one-byte length. */
  function Short(s: seq<Byte>): seq<Byte> {
    [|s| % 256] + s
  }

  /** A vector behind a two-byte length. */
  function Long(s: seq<Byte>): (r: seq<Byte>)
    ensures |r| == 2 + |s|
  {
    Put16(|s|) + s
  }

  function Body(h: Hello): seq<Byte> {
    h.version + (h.random + (Short(h.sessionId) + (Long(h.suites) + (Short(h.compression) +
      Long(EncodeExtensions(h.extensions))))))
  }

  function Put24(v: nat): seq<Byte> {
    [v / 0x10000 % 256] + Put16(v)
  }

  lemma Put24Is(v: nat)
    ensures |Put24(v)| == 3 && Number(Put24(v)) == v % 0x100_0000
  {
    var s, low := Put24(v), Put16(v);
    NumberStep(s, 0);
    NumberStep(s, 1);
    NumberStep(s, 2);
    SplitAt16(v);
    hide Put16, Number;
    assert s[..3] == s && s[..0] == [] && s[1] == low[0] && s[2] == low[1];
    assert Number([]) == 0 by { NumberOfNothing(); }
  }

  lemma NumberOfNothing()
    ensures Number([]) == 0
  {
  }

  lemma SplitAt16(v: nat)
    ensures v / 0x10000 % 256 * 0x10000 + v % 0x10000 == v % 0x100_0000
  {
  }

  function Handshake(h: Hello): seq<Byte> {
    [0x01] + Put24(|Body(h)|) + Body(h)
  }

  function Encode(major: Byte, minor: Byte, h: Hello): seq<Byte> {
    Frame(0x16, major, minor, Handshake(h))
  }

  ghost predicate ExtensionFits(e: Extension) {
    e.kind < 0x10000 && |e.body| < 0x10000
  }

  /** Every field has its fixed size or fits its length prefix. */
  ghost predicate WellFormed(h: Hello) {
    && |h.version| == 2 && |h.random| == 32 && |h.sessionId| < 256 && |h.suites| < 0x10000 && |h.compression| < 256
    && (forall e :: e in h.extensions ==> ExtensionFits(e))
    && |EncodeExtensions(h.extensions)| < 0x10000 && |Handshake(h)| < 0x10000
  }

  // ---- reading the extension list ----

  /** The list the loop walks over, `room` bytes long by its own account; None when it runs out of the buffer. */
  function Extensions(rest: seq<Byte>, room: int): Option<seq<Extension>>
    decreases room
  {
    if room < 4 then Some([])
    else if |rest| < 4 then None
    else
      var n := U16(rest[2], rest[3]);
      if |rest| < 4 + n then None
      else
        match Extensions(rest[4 + n..], room - 4 - n)
        case None => None
        case Some(es) => Some([Extension(U16(rest[0], rest[1]), rest[4..4 + n])] + es)
  }

  lemma ExtensionIsRead(e: Extension, x: seq<Byte>)
    requires ExtensionFits(e)
    ensures var s := EncodeExtension(e) + x;
      && |s| >= 4 + |e.body| && U16(s[2], s[3]) == |e.body| && U16(s[0], s[1]) == e.kind
      && s[4..4 + |e.body|] == e.body && s[4 + |e.body|..] == x
  {
    hide Put16, U16;
    var kind, size := Put16(e.kind), Put16(|e.body|);
    var s := EncodeExtension(e) + x;
    assert s == kind + size + e.body + x;
    assert s[0] == kind[0] && s[1] == kind[1] && s[2] == size[0] && s[3] == size[1];
  }

  lemma ExtensionSize(e: Extension)
    ensures |EncodeExtension(e)| == 4 + |e.body|
  {
  }

  /** Every list is read back whole, up to exactly its end. */
  lemma {:induction false} ExtensionsAreRead(es: seq<Extension>, tail: seq<Byte>)
    requires forall e :: e in es ==> ExtensionFits(e)
    ensures Extensions(EncodeExtensions(es) + tail, |EncodeExtensions(es)|) == Some(es)
  {
    hide EncodeExtension, U16;
    if es != [] {
      var e, more := es[0], EncodeExtensions(es[1..]);
      assert e in es;
      ExtensionSize(e);
      assert EncodeExtensions(es) + tail == EncodeExtension(e) + (more + tail);
      ExtensionIsRead(e, more + tail);
      ExtensionsAreRead(es[1..], tail);
      assert es == [e] + es[1..];
    } else {
      assert EncodeExtensions(es) == [];
    }
  }

  /** The name the parser takes from a server_name body: behind list length, name type and name length. */
  function NameIn(body: seq<Byte>): Option<seq<Byte>> {
    if |body| >= 5 && 5 + U16(body[3], body[4]) <= |body| then Some(body[5..5 + U16(body[3], body[4])]) else None
  }

  /** The last server_name extension with a name in it decides. */
  function HostName(es: seq<Extension>): seq<Byte> {
    if es == [] then []
    else
      var last := es[|es| - 1];
      if last.kind == SERVER_NAME && NameIn(last.body).Some? then NameIn(last.body).value
      else HostName(es[..|es| - 1])
  }

  /** A server_name body (section 3 of RFC 6066): a list whose first entry is a host_name. */
  function ServerNameBody(name: seq<Byte>, others: seq<Byte>): seq<Byte> {
    Long([0x00] + Long(name) + others)
  }

  lemma NameIsRead(name: seq<Byte>, others: seq<Byte>)
    requires |name| < 0x10000
    ensures NameIn(ServerNameBody(name, others)) == Some(name)
  {
    var body := ServerNameBody(name, others);
    assert body[3] == Put16(|name|)[0] && body[4] == Put16(|name|)[1];
    assert body[5..5 + |name|] == name;
  }

  /** The one server_name extension is found wherever it stands among the others. */
  lemma {:induction false} HostNameIsFound(before: seq<Extension>, body: seq<Byte>, after: seq<Extension>)
    requires NameIn(body).Some? && forall e :: e in after ==> e.kind != SERVER_NAME
    ensures HostName(before + [Extension(SERVER_NAME, body)] + after) == NameIn(body).value
  {
    var es := before + [Extension(SERVER_NAME, body)] + after;
    if after == [] {
      assert es[|es| - 1] == Extension(SERVER_NAME, body);
    } else {
      assert es[..|es| - 1] == before + [Extension(SERVER_NAME, body)] + after[..|after| - 1];
      assert es[|es| - 1] == after[|after| - 1];
      HostNameIsFound(before, body, after[..|after| - 1]);
    }
  }

  // ---- the parser, field by field ----

  datatype Info = Info(contentType: Byte, tlsVersion: seq<Byte>, isClientHello: bool, clientVersion: seq<Byte>,
                       random: seq<Byte>, sessionId: seq<Byte>, sni: seq<Byte>)

  const BLANK := Info(0, [], false, [], [], [], [])

  /** The parser's result; None when a slice reaches past the capacity of the buffer, which ends the program. */
  type Outcome = Option<Info>

  function FromExtensions(info: Info, rest: seq<Byte>, spare: seq<Byte>): Outcome {
    if |rest| < 2 then Some(info)
    else
      match Extensions(rest[2..] + spare, U16(rest[0], rest[1]))
      case None => None
      case Some(es) => Some(info.(sni := HostName(es)))
  }

  function FromCompression(info: Info, rest: seq<Byte>, spare: seq<Byte>): Outcome {
    if |rest| == 0 || |rest| < 1 + rest[0] as int then Some(info) else FromExtensions(info, rest[1 + rest[0] as int..], spare)
  }

  function FromSuites(info: Info, rest: seq<Byte>, spare: seq<Byte>): Outcome {
    if |rest| < 2 || |rest| < 2 + U16(rest[0], rest[1]) then Some(info)
    else FromCompression(info, rest[2 + U16(rest[0], rest[1])..], spare)
  }

  function FromSession(info: Info, rest: seq<Byte>, spare: seq<Byte>): Outcome {
    if |rest| == 0 || |rest| < 1 + rest[0] as int then Some(info)
    else FromSuites(info.(sessionId := rest[1..1 + rest[0] as int]), rest[1 + rest[0] as int..], spare)
  }

  function FromRandom(info: Info, rest: seq<Byte>, spare: seq<Byte>): Outcome {
    if |rest| < 32 then Some(info) else FromSession(info.(random := rest[..32]), rest[32..], spare)
  }

  function FromVersion(info: Info, rest: seq<Byte>, spare: seq<Byte>): Outcome {
    if |rest| < 2 then Some(info) else FromRandom(info.(clientVersion := rest[..2]), rest[2..], spare)
  }

  /** What the parser makes of any bytes, `spare` being what lies behind them up to the capacity of their buffer. */
  function Parsed(data: seq<Byte>, spare: seq<Byte>): Outcome {
    if |data| < 5 then Some(BLANK)
    else
      var info := BLANK.(contentType := data[0], tlsVersion := data[1..3]);
      if data[0] != 0x16 || |data| < 9 || data[5] != 0x01 then Some(info)
      else FromVersion(info.(isClientHello := true), data[9..], spare)
  }

  /** From the cipher suites on only the host name is still to be found. */
  lemma OnlyNameIsLeft(info: Info, rest: seq<Byte>, spare: seq<Byte>)
    requires FromSuites(info, rest, spare).Some?
    ensures FromSuites(info, rest, spare).value == info.(sni := FromSuites(info, rest, spare).value.sni)
    ensures |rest| < 5 ==> FromSuites(info, rest, spare).value == info
  {
    hide Extensions, HostName;
  }

  lemma SessionIsThere(info: Info, rest: seq<Byte>, spare: seq<Byte>)
    requires FromSession(info, rest, spare).Some?
    ensures var r, whole := FromSession(info, rest, spare).value, |rest| >= 1 && |rest| >= 1 + rest[0] as int;
      if whole then r == info.(sessionId := rest[1..1 + rest[0] as int], sni := r.sni) else r == info
  {
    hide FromSuites;
    if |rest| >= 1 && |rest| >= 1 + rest[0] as int {
      OnlyNameIsLeft(info.(sessionId := rest[1..1 + rest[0] as int]), rest[1 + rest[0] as int..], spare);
    }
  }

  /** What is known of any bytes, by their positions: a hello that is cut short is read as far as its fields are whole. */
  lemma FieldsAreExact(data: seq<Byte>, spare: seq<Byte>)
    requires Parsed(data, spare).Some?
    ensures var r, n := Parsed(data, spare).value, |data|;
      && r.contentType == (if n >= 5 then data[0] else 0) && r.tlsVersion == (if n >= 5 then data[1..3] else [])
      && (r.isClientHello <==> n >= 9 && data[0] == 22 && data[5] == 1)
      && r.clientVersion == (if r.isClientHello && n >= 11 then data[9..11] else [])
      && r.random == (if r.isClientHello && n >= 43 then data[11..43] else [])
      && r.sessionId ==
        (if r.isClientHello && n >= 44 && n >= 44 + data[43] as int then data[44..44 + data[43] as int] else [])
      && (!r.isClientHello || n < 44 || n < 49 + data[43] as int ==> r.sni == [])
  {
    hide FromSuites, FromSession;
    if |data| >= 43 && data[0] == 0x16 && data[5] == 0x01 {
      var rest := data[43..];
      assert data[9..][2..][32..] == rest && data[9..][..2] == data[9..11] && data[9..][2..][..32] == data[11..43];
      var info := Info(data[0], data[1..3], true, data[9..11], data[11..43], [], []);
      assert Parsed(data, spare) == FromSession(info, rest, spare);
      SessionIsThere(info, rest, spare);
      if |rest| < 1 || |rest| < 6 + rest[0] as int {
        NameNeedsRoom(info, rest, spare);
      }
      if |rest| >= 1 && |rest| >= 1 + rest[0] as int {
        assert rest[1..1 + rest[0] as int] == data[44..44 + data[43] as int];
      }
    }
  }

  lemma NameNeedsRoom(info: Info, rest: seq<Byte>, spare: seq<Byte>)
    requires FromSession(info, rest, spare).Some? && info.sni == []
    requires |rest| < 1 || |rest| < 6 + rest[0] as int
    ensures FromSession(info, rest, spare).value.sni == []
  {
    hide FromSuites;
    if |rest| >= 1 && |rest| >= 1 + rest[0] as int {
      OnlyNameIsLeft(info.(sessionId := rest[1..1 + rest[0] as int]), rest[1 + rest[0] as int..], spare);
    }
  }

  lemma ShortIsRead(s: seq<Byte>, x: seq<Byte>)
    requires |s| < 256
    ensures var r := Short(s) + x; r[0] == |s| && r[1..1 + r[0] as int] == s && r[1 + r[0] as int..] == x
  {
  }

  lemma LongIsRead(s: seq<Byte>, x: seq<Byte>)
    requires |s| < 0x10000
    ensures var r := Long(s) + x;
      U16(r[0], r[1]) == |s| && r[2..2 + U16(r[0], r[1])] == s && r[2 + U16(r[0], r[1])..] == x
  {
    var r := Long(s) + x;
    assert r[0] == Put16(|s|)[0] && r[1] == Put16(|s|)[1];
  }

  lemma SessionIsRead(info: Info, sessionId: seq<Byte>, x: seq<Byte>, spare: seq<Byte>)
    requires |sessionId| < 256
    ensures FromSession(info, Short(sessionId) + x, spare) == FromSuites(info.(sessionId := sessionId), x, spare)
  {
    hide FromSuites;
    ShortIsRead(sessionId, x);
  }

  lemma SuitesAreRead(info: Info, suites: seq<Byte>, x: seq<Byte>, spare: seq<Byte>)
    requires |suites| < 0x10000
    ensures FromSuites(info, Long(suites) + x, spare) == FromCompression(info, x, spare)
  {
    hide FromCompression, Long, U16;
    LongIsRead(suites, x);
  }

  lemma CompressionIsRead(info: Info, compression: seq<Byte>, x: seq<Byte>, spare: seq<Byte>)
    requires |compression| < 256
    ensures FromCompression(info, Short(compression) + x, spare) == FromExtensions(info, x, spare)
  {
    hide FromExtensions;
    ShortIsRead(compression, x);
  }

  lemma ListIsRead(info: Info, es: seq<Extension>, spare: seq<Byte>)
    requires |EncodeExtensions(es)| < 0x10000 && forall e :: e in es ==> ExtensionFits(e)
    ensures FromExtensions(info, Long(EncodeExtensions(es)), spare) == Some(info.(sni := HostName(es)))
  {
    var list := EncodeExtensions(es);
    LongIsRead(list, []);
    ExtensionsAreRead(es, spare);
    hide Long, EncodeExtensions, Extensions, HostName, U16;
    assert Long(list) + [] == Long(list);
  }

  /** From the session ID on. */
  lemma TailIsRead(info: Info, h: Hello, spare: seq<Byte>)
    requires WellFormed(h)
    ensures FromSession(info, Short(h.sessionId) + (Long(h.suites) + (Short(h.compression) +
                          Long(EncodeExtensions(h.extensions)))), spare)
         == Some(info.(sessionId := h.sessionId, sni := HostName(h.extensions)))
  {
    TailFits(h);
    hide *;
    var list := Long(EncodeExtensions(h.extensions));
    var known := info.(sessionId := h.sessionId);
    SessionIsRead(info, h.sessionId, Long(h.suites) + (Short(h.compression) + list), spare);
    SuitesAreRead(known, h.suites, Short(h.compression) + list, spare);
    CompressionIsRead(known, h.compression, list, spare);
    ListIsRead(known, h.extensions, spare);
  }

  lemma TailFits(h: Hello)
    requires WellFormed(h)
    ensures |h.sessionId| < 256 && |h.suites| < 0x10000 && |h.compression| < 256
    ensures |EncodeExtensions(h.extensions)| < 0x10000 && forall e :: e in h.extensions ==> ExtensionFits(e)
  {
  }

  /**
   * Every well-formed ClientHello in one record is read back: its random, its session ID and its host name, whatever
   * extensions it carries and whatever lies behind it in the buffer.
   */
  lemma ParsedEncoded(major: Byte, minor: Byte, h: Hello, spare: seq<Byte>)
    requires WellFormed(h)
    ensures Parsed(Encode(major, minor, h), spare)
         == Some(Info(0x16, [major, minor], true, h.version, h.random, h.sessionId, HostName(h.extensions)))
  {
    var data, body := Encode(major, minor, h), Body(h);
    assert data == [0x16, major, minor] + Put16(|Handshake(h)|) + [0x01] + Put24(|body|) + body;
    assert data[1..3] == [major, minor] && data[9..] == body;
    var info := BLANK.(contentType := 0x16, tlsVersion := [major, minor], isClientHello := true);
    assert body[..2] == h.version && body[2..][..32] == h.random;
    TailIsRead(info.(clientVersion := h.version, random := h.random), h, spare);
    assert body[2..][32..] == Short(h.sessionId) + (Long(h.suites) + (Short(h.compression) +
                                Long(EncodeExtensions(h.extensions))));
  }

  /** In particular the host name of the one server_name extension, as section 3 of RFC 6066 lays it out. */
  lemma SniIsParsed(major: Byte, minor: Byte, h: Hello, spare: seq<Byte>, before: seq<Extension>, name: seq<Byte>,
                    others: seq<Byte>, after: seq<Extension>)
    requires WellFormed(h) && |name| < 0x10000
    requires h.extensions == before + [Extension(SERVER_NAME, ServerNameBody(name, others))] + after
    requires forall e :: e in after ==> e.kind != SERVER_NAME
    ensures Parsed(Encode(major, minor, h), spare).Some? && Parsed(Encode(major, minor, h), spare).value.sni == name
  {
    ParsedEncoded(major, minor, h, spare);
    NameIsRead(name, others);
    HostNameIsFound(before, ServerNameBody(name, others), after);
  }

  /** ParseClientHello: a cursor over the data, then a loop over the extensions. */
  method ParseClientHello(data: seq<Byte>, spare: seq<Byte>) returns (r: Outcome)
    ensures r == Parsed(data, spare)
  {
    var info := BLANK;
    if |data| < 5 {
      return Some(info);
    }
    info := info.(contentType := data[0], tlsVersion := data[1..3]);
    if data[0] != 0x16 {
      return Some(info);
    }
    var pos := 5;
    if pos + 4 > |data| {
      return Some(info);
    }
    var hsType := data[pos];
    pos := pos + 4;
    if hsType != 0x01 {
      return Some(info);
    }
    info := info.(isClientHello := true);
    r := ParseBody(data, spare, pos, info);
  }

  /** From the client version to the compression methods. */
  method ParseBody(data: seq<Byte>, spare: seq<Byte>, start: nat, blank: Info) returns (r: Outcome)
    requires start <= |data|
    ensures r == FromVersion(blank, data[start..], spare)
  {
    var info, pos := blank, start;
    if pos + 2 > |data| {
      return Some(info);
    }
    info := info.(clientVersion := data[pos..pos + 2]);
    assert data[start..][..2] == data[pos..pos + 2] && data[start..][2..] == data[pos + 2..];
    pos := pos + 2;
    if pos + 32 > |data| {
      return Some(info);
    }
    info := info.(random := data[pos..pos + 32]);
    assert data[pos..][..32] == data[pos..pos + 32] && data[pos..][32..] == data[pos + 32..];
    pos := pos + 32;
    r := ParseSession(data, spare, pos, info);
  }

  method ParseSession(data: seq<Byte>, spare: seq<Byte>, start: nat, blank: Info) returns (r: Outcome)
    requires start <= |data|
    ensures r == FromSession(blank, data[start..], spare)
  {
    hide FromSuites;
    var info, pos := blank, start;
    if pos >= |data| {
      return Some(info);
    }
    var sessLen: nat := data[pos];
    pos := pos + 1;
    if pos + sessLen > |data| {
      return Some(info);
    }
    info := info.(sessionId := data[pos..pos + sessLen]);
    assert data[start..][1..1 + sessLen] == data[pos..pos + sessLen];
    assert data[start..][1 + sessLen..] == data[pos + sessLen..];
    pos := pos + sessLen;
    r := ParseSuites(data, spare, pos, info);
  }

  method ParseSuites(data: seq<Byte>, spare: seq<Byte>, start: nat, info: Info) returns (r: Outcome)
    requires start <= |data|
    ensures r == FromSuites(info, data[start..], spare)
  {
    hide FromCompression;
    var pos := start;
    if pos + 2 > |data| {
      return Some(info);
    }
    var csLen := U16(data[pos], data[pos + 1]);
    hide U16;
    pos := pos + 2 + csLen;
    if pos > |data| {
      return Some(info);
    }
    assert data[start..][2 + csLen..] == data[pos..];
    r := ParseCompression(data, spare, pos, info);
  }

  method ParseCompression(data: seq<Byte>, spare: seq<Byte>, start: nat, info: Info) returns (r: Outcome)
    requires start <= |data|
    ensures r == FromCompression(info, data[start..], spare)
  {
    hide Extensions, HostName;
    var pos := start;
    if pos >= |data| {
      return Some(info);
    }
    var compLen: nat := data[pos];
    pos := pos + 1 + compLen;
    if pos + 2 > |data| {
      return Some(info);
    }
    assert data[start..][1 + compLen..] == data[pos..];
    var extLen := U16(data[pos], data[pos + 1]);
    hide U16;
    pos := pos + 2;
    var sni := ParseExtensions(data + spare, pos, pos + extLen);
    assert data[start..][1 + compLen..][2..] == data[pos..];
    assert data[pos..] + spare == (data + spare)[pos..];
    if sni.None? {
      return None;
    }
    r := Some(info.(sni := sni.value));
  }

  /** The loop; a slice that reaches past the capacity stops it for good. */
  method ParseExtensions(buffer: seq<Byte>, start: nat, extEnd: nat) returns (sni: Option<seq<Byte>>)
    requires start <= |buffer|
    ensures var list := Extensions(buffer[start..], extEnd - start);
      sni == if list.None? then None else Some(HostName(list.value))
  {
    var pos, name := start, [];
    ghost var seen: seq<Extension> := [];
    PrependNone(Extensions(buffer[start..], extEnd - start));
    hide Extensions, HostName, Prepend, NameIn;
    EndsOfList();
    while pos + 4 <= extEnd
      invariant start <= pos <= |buffer|
      invariant name == HostName(seen)
      invariant Extensions(buffer[start..], extEnd - start) == Prepend(seen, Extensions(buffer[pos..], extEnd - pos))
    {
      var e := NextExtension(buffer, pos, extEnd, seen);
      if e.None? {
        return None;
      }
      name := NameAfter(e.value.kind, e.value.body, name, seen);
      pos := pos + 4 + |e.value.body|;
      seen := seen + [e.value];
    }
    ListEnd(seen, buffer[pos..], extEnd - pos);
    sni := Some(name);
  }

  /** The slices of one turn of the loop. */
  method NextExtension(buffer: seq<Byte>, pos: nat, extEnd: nat, ghost seen: seq<Extension>)
    returns (e: Option<Extension>)
    requires pos <= |buffer| && pos + 4 <= extEnd
    ensures e.None? ==> Prepend(seen, Extensions(buffer[pos..], extEnd - pos)) == None
    ensures e.Some? ==>
      var next := pos + 4 + |e.value.body|;
      && next <= |buffer|
      && Prepend(seen, Extensions(buffer[pos..], extEnd - pos))
        == Prepend(seen + [e.value], Extensions(buffer[next..], extEnd - next))
  {
    ListStep(seen, buffer[pos..], extEnd - pos);
    hide Extensions, Prepend;
    if pos + 4 > |buffer| {
      return None;
    }
    var extType := U16(buffer[pos], buffer[pos + 1]);
    var extDataLen := U16(buffer[pos + 2], buffer[pos + 3]);
    hide U16;
    if pos + 4 + extDataLen > |buffer| {
      return None;
    }
    var extData := buffer[pos + 4..pos + 4 + extDataLen];
    assert buffer[pos..][4..4 + extDataLen] == extData;
    assert buffer[pos..][4 + extDataLen..] == buffer[pos + 4 + extDataLen..];
    e := Some(Extension(extType, extData));
  }

  method NameAfter(extType: nat, extData: seq<Byte>, name: seq<Byte>, ghost seen: seq<Extension>) returns (r: seq<Byte>)
    requires name == HostName(seen)
    ensures r == HostName(seen + [Extension(extType, extData)])
  {
    r := name;
    assert (seen + [Extension(extType, extData)])[..|seen|] == seen;
    if extType == SERVER_NAME {
      if |extData| >= 5 {
        var nameLen := U16(extData[3], extData[4]);
        if 5 + nameLen <= |extData| {
          r := extData[5..5 + nameLen];
        }
      }
    }
  }

  /** The extensions seen so far in front of those ahead. */
  function Prepend(seen: seq<Extension>, ahead: Option<seq<Extension>>): Option<seq<Extension>> {
    if ahead.None? then None else Some(seen + ahead.value)
  }

  lemma PrependNone(ahead: Option<seq<Extension>>)
    ensures ahead == Prepend([], ahead)
  {
    assert ahead.Some? ==> [] + ahead.value == ahead.value;
  }

  lemma EndsOfList()
    ensures HostName([]) == []
  {
  }

  lemma ListEnd(seen: seq<Extension>, rest: seq<Byte>, room: int)
    requires room < 4
    ensures Prepend(seen, Extensions(rest, room)) == Some(seen)
  {
    assert seen + [] == seen;
  }

  /** One turn of the loop moves the first extension ahead to those seen, or finds that there is none to read. */
  lemma ListStep(seen: seq<Extension>, rest: seq<Byte>, room: int)
    requires room >= 4
    ensures |rest| < 4 ==> Prepend(seen, Extensions(rest, room)) == None
    ensures |rest| >= 4 && |rest| < 4 + U16(rest[2], rest[3]) ==> Prepend(seen, Extensions(rest, room)) == None
    ensures |rest| >= 4 && |rest| >= 4 + U16(rest[2], rest[3]) ==>
      var n := U16(rest[2], rest[3]);
      var e := Extension(U16(rest[0], rest[1]), rest[4..4 + n]);
      Prepend(seen, Extensions(rest, room)) == Prepend(seen + [e], Extensions(rest[4 + n..], room - 4 - n))
  {
    if |rest| >= 4 && |rest| >= 4 + U16(rest[2], rest[3]) {
      var n := U16(rest[2], rest[3]);
      var e, ahead := Extension(U16(rest[0], rest[1]), rest[4..4 + n]), Extensions(rest[4 + n..], room - 4 - n);
      assert ahead.Some? ==> seen + ([e] + ahead.value) == seen + [e] + ahead.value;
    }
  }
}
