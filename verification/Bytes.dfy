/** Bytes and big-endian integers. */
module Bytes {
  type Byte = x: int | 0 <= x < 256

  function U16(hi: Byte, lo: Byte): (v: nat)
    ensures v < 0x10000
  {
    hi * 256 + lo
  }

  /** The two bytes that stand for v, which a longer v wraps around. */
  function Put16(v: nat): (s: seq<Byte>)
    ensures |s| == 2 && U16(s[0], s[1]) == v % 0x10000
  {
    var w: (Byte, Byte) := (v / 256 % 256, v % 256);
    assert U16(w.0, w.1) == v % 0x10000;
    var p: (Byte, Byte) :| U16(p.0, p.1) == v % 0x10000;
    [p.0, p.1]
  }

  /** byte(v >> 8), byte(v). */
  lemma Put16Is(v: nat)
    ensures Put16(v) == [v / 256 % 256, v % 256]
  {
    assert U16(v / 256 % 256, v % 256) == v % 0x10000;
  }

  lemma PutBack(hi: Byte, lo: Byte)
    ensures Put16(U16(hi, lo)) == [hi, lo]
  {
    assert U16(hi, lo) / 256 == hi && U16(hi, lo) % 256 == lo;
  }

  const U32_SIZE := 0x1_0000_0000

  function U32(s: seq<Byte>): (v: nat)
    requires |s| == 4
    ensures v < U32_SIZE
  {
    U16(s[0], s[1]) * 0x10000 + U16(s[2], s[3])
  }

  /** Whole turns of a 32-bit counter do not show. */
  lemma {:induction false} WrapShift(x: int, k: int)
    ensures (x + k * U32_SIZE) % U32_SIZE == x % U32_SIZE
    decreases if k < 0 then -k else k
  {
    if k > 0 {
      WrapShift(x, k - 1);
      assert x + k * U32_SIZE == x + (k - 1) * U32_SIZE + U32_SIZE;
    } else if k < 0 {
      WrapShift(x, k + 1);
      assert x + k * U32_SIZE == x + (k + 1) * U32_SIZE - U32_SIZE;
    }
  }

  /** Chunks put together again. */
  function Joined(chunks: seq<seq<Byte>>): seq<Byte> {
    if chunks == [] then [] else Joined(chunks[..|chunks| - 1]) + chunks[|chunks| - 1]
  }

  lemma NothingJoined()
    ensures Joined([]) == []
  {
  }

  lemma {:induction false} JoinedConcat(s: seq<seq<Byte>>, t: seq<seq<Byte>>)
    ensures Joined(s + t) == Joined(s) + Joined(t)
  {
    if t == [] {
      assert s + t == s;
    } else {
      assert (s + t)[..|s + t| - 1] == s + t[..|t| - 1];
      JoinedConcat(s, t[..|t| - 1]);
    }
  }

  /** The number that bytes stand for, most significant first. */
  function Number(s: seq<Byte>): nat {
    if s == [] then 0 else Number(s[..|s| - 1]) * 256 + s[|s| - 1]
  }

  lemma NumberStep(s: seq<Byte>, n: nat)
    requires n < |s|
    ensures Number(s[..n + 1]) == Number(s[..n]) * 256 + s[n]
  {
    assert s[..n + 1][..n] == s[..n];
  }

  lemma TwoBytes(s: seq<Byte>)
    requires |s| == 2
    ensures Number(s) == U16(s[0], s[1])
  {
    NumberStep(s, 0);
    NumberStep(s, 1);
    assert s[..0] == [] && s[..2] == s;
  }

  lemma FourBytes(s: seq<Byte>)
    requires |s| == 4
    ensures Number(s) == U32(s)
  {
    TwoBytes(s[..2]);
    NumberStep(s, 2);
    NumberStep(s, 3);
    assert s[..4] == s;
  }
}
