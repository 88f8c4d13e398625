/** TLS records on a byte stream (section 5.1 of RFC 8446), as a receiver reads them. */
module TlsRecords {
  import opened Bytes

  function HeaderLength(s: seq<Byte>): nat
    requires |s| >= 5
  {
    5 + U16(s[3], s[4])
  }

  /** The stream starts with a whole record. */
  predicate Complete(s: seq<Byte>) {
    |s| >= 5 && |s| >= HeaderLength(s)
  }

  /** A byte of record payload with the content type and version it arrived under. */
  datatype Tagged = Tagged(contentType: Byte, major: Byte, minor: Byte, value: Byte)

  function Tag(contentType: Byte, major: Byte, minor: Byte, payload: seq<Byte>): seq<Tagged> {
    seq(|payload|, i requires 0 <= i < |payload| => Tagged(contentType, major, minor, payload[i]))
  }

  /** What the receiver gets out of the stream: the payload of its records, record boundaries gone. */
  function Content(s: seq<Byte>): seq<Tagged>
    decreases |s|
  {
    if !Complete(s) then []
    else Tag(s[0], s[1], s[2], s[5..HeaderLength(s)]) + Content(s[HeaderLength(s)..])
  }

  /** The bytes after the last whole record. */
  function Tail(s: seq<Byte>): (t: seq<Byte>)
    ensures |t| <= |s| && !Complete(t)
    decreases |s|
  {
    if !Complete(s) then s else Tail(s[HeaderLength(s)..])
  }

  /** Two streams a receiver cannot tell apart. */
  ghost predicate Same(s: seq<Byte>, t: seq<Byte>) {
    Content(s) == Content(t) && Tail(s) == Tail(t)
  }

  /** Reading on after a stream has been read. */
  lemma {:induction false} ReadOn(s: seq<Byte>, x: seq<Byte>)
    ensures Content(s + x) == Content(s) + Content(Tail(s) + x)
    ensures Tail(s + x) == Tail(Tail(s) + x)
    decreases |s|
  {
    hide Tag, U16;
    if Complete(s) {
      var n := HeaderLength(s);
      assert HeaderLength(s + x) == n;
      assert (s + x)[5..n] == s[5..n] && (s + x)[n..] == s[n..] + x;
      ReadOn(s[n..], x);
    }
  }

  /** What is the same so far stays the same when the same bytes follow. */
  lemma SameThenSame(s: seq<Byte>, t: seq<Byte>, x: seq<Byte>)
    requires Same(s, t)
    ensures Same(s + x, t + x)
  {
    ReadOn(s, x);
    ReadOn(t, x);
  }

  function Frame(contentType: Byte, major: Byte, minor: Byte, payload: seq<Byte>): (r: seq<Byte>)
    ensures |r| == 5 + |payload|
  {
    [contentType, major, minor] + Put16(|payload|) + payload
  }

  /** A framed payload in front of a stream is read as far as the length in its header goes, which wraps at 65536. */
  lemma FrameIsReadSoFar(contentType: Byte, major: Byte, minor: Byte, payload: seq<Byte>, x: seq<Byte>)
    ensures var s, w := Frame(contentType, major, minor, payload) + x, |payload| % 0x10000;
      && Complete(s) && Content(s) == Tag(contentType, major, minor, payload[..w]) + Content(payload[w..] + x)
      && Tail(s) == Tail(payload[w..] + x)
  {
    var s, w := Frame(contentType, major, minor, payload) + x, |payload| % 0x10000;
    assert s[3] == Put16(|payload|)[0] && s[4] == Put16(|payload|)[1];
    assert HeaderLength(s) == 5 + w;
    assert s[5..HeaderLength(s)] == payload[..w] && s[HeaderLength(s)..] == payload[w..] + x;
  }

  /** A framed payload in front of a stream is read as that payload, if its length fits the header. */
  lemma FrameIsRead(contentType: Byte, major: Byte, minor: Byte, payload: seq<Byte>, x: seq<Byte>)
    requires |payload| < 0x10000
    ensures var s := Frame(contentType, major, minor, payload) + x;
      Complete(s) && Content(s) == Tag(contentType, major, minor, payload) + Content(x) && Tail(s) == Tail(x)
  {
    hide Content, Tail, Complete, Frame, Tag;
    FrameIsReadSoFar(contentType, major, minor, payload, x);
    assert payload[..|payload|] == payload && payload[|payload|..] + x == x;
  }

  lemma TagConcat(contentType: Byte, major: Byte, minor: Byte, p: seq<Byte>, q: seq<Byte>)
    ensures Tag(contentType, major, minor, p + q) == Tag(contentType, major, minor, p) + Tag(contentType, major, minor, q)
  {
  }

  /** One record after another. */
  function Framed(contentType: Byte, major: Byte, minor: Byte, payloads: seq<seq<Byte>>): seq<Byte> {
    if payloads == [] then []
    else
      Framed(contentType, major, minor, payloads[..|payloads| - 1]) +
      Frame(contentType, major, minor, payloads[|payloads| - 1])
  }

  /** A record read behind a stream that has been read. */
  lemma ReadBehind(front: seq<Byte>, last: seq<Byte>, x: seq<Byte>, a: seq<Tagged>, b: seq<Tagged>)
    requires Content(front + (last + x)) == a + Content(last + x) && Tail(front + (last + x)) == Tail(last + x)
    requires Content(last + x) == b + Content(x) && Tail(last + x) == Tail(x)
    ensures Content(front + last + x) == a + b + Content(x) && Tail(front + last + x) == Tail(x)
  {
    hide Content, Tail;
    assert front + last + x == front + (last + x);
    assert a + b + Content(x) == a + (b + Content(x));
  }

  lemma NothingFramed(contentType: Byte, major: Byte, minor: Byte, x: seq<Byte>)
    ensures Framed(contentType, major, minor, []) + x == x
    ensures Tag(contentType, major, minor, Joined([])) + Content(x) == Content(x)
  {
  }

  /** Splitting a payload over any number of records changes nothing for the receiver. */
  lemma {:induction false} FramedIsRead(contentType: Byte, major: Byte, minor: Byte, payloads: seq<seq<Byte>>, x: seq<Byte>)
    requires forall p :: p in payloads ==> |p| < 0x10000
    ensures Content(Framed(contentType, major, minor, payloads) + x)
         == Tag(contentType, major, minor, Joined(payloads)) + Content(x)
    ensures Tail(Framed(contentType, major, minor, payloads) + x) == Tail(x)
  {
    hide Content, Tail, Tag, Frame, Complete;
    if payloads == [] {
      NothingFramed(contentType, major, minor, x);
    } else {
      var n := |payloads| - 1;
      var init, last := payloads[..n], Frame(contentType, major, minor, payloads[n]);
      FrameIsRead(contentType, major, minor, payloads[n], x);
      FramedIsRead(contentType, major, minor, init, last + x);
      TagConcat(contentType, major, minor, Joined(init), payloads[n]);
      ReadBehind(Framed(contentType, major, minor, init), last, x,
                 Tag(contentType, major, minor, Joined(init)), Tag(contentType, major, minor, payloads[n]));
    }
  }
}
