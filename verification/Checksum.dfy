/** The Internet checksum of internal/forward/rawinject_common.go (section 1 of RFC 1071). */
module Checksum {
  import opened Bytes

  const WORD := 0x1_0000

  /** The sum of the big-endian words, a trailing odd byte counting as the high half of one. */
  function WordSum(data: seq<Byte>): nat {
    if |data| == 0 then 0
    else if |data| == 1 then U16(data[0], 0)
    else U16(data[0], data[1]) + WordSum(data[2..])
  }

  lemma {:induction false} WordSumConcat(s: seq<Byte>, t: seq<Byte>)
    requires |s| % 2 == 0
    ensures WordSum(s + t) == WordSum(s) + WordSum(t)
  {
    if s == [] {
      assert s + t == t;
    } else {
      assert (s + t)[2..] == s[2..] + t && (s + t)[0] == s[0] && (s + t)[1] == s[1];
      WordSumConcat(s[2..], t);
    }
  }

  lemma {:induction false} WordSumBound(data: seq<Byte>)
    ensures WordSum(data) <= (|data| / 2) * 0xFFFF + (|data| % 2) * 0xFF00
  {
    if |data| >= 2 {
      WordSumBound(data[2..]);
      assert |data| / 2 == |data[2..]| / 2 + 1 && |data| % 2 == |data[2..]| % 2;
    }
  }

  function Full(n: nat): (s: seq<Byte>)
    ensures |s| == n
  {
    seq(n, _ => 0xFF)
  }

  lemma {:induction false} FullSum(n: nat)
    ensures WordSum(Full(n)) == (n / 2) * 0xFFFF + (n % 2) * 0xFF00
  {
    if n >= 2 {
      assert Full(n)[2..] == Full(n - 2);
      FullSum(n - 2);
      assert n / 2 == (n - 2) / 2 + 1 && n % 2 == (n - 2) % 2;
    }
  }

  /** The accumulator of sum16 holds the true sum for every input of a length exactly up to 131074 bytes (65537
      words). */
  lemma NoOverflowExact(n: nat)
    ensures (forall data: seq<Byte> :: |data| == n ==> WordSum(data) < U32_SIZE) <==> n <= 131074
  {
    if n <= 131074 {
      forall data: seq<Byte> | |data| == n ensures WordSum(data) < U32_SIZE {
        WordSumBound(data);
        if n / 2 == 65537 {
          assert n == 131074;
        } else {
          assert (n / 2) * 0xFFFF <= 65536 * 0xFFFF;
        }
      }
    } else {
      FullSum(n);
      assert WordSum(Full(n)) >= U32_SIZE by {
        if n / 2 == 65537 {
          assert n % 2 == 1;
        } else {
          assert (n / 2) * 0xFFFF >= 65538 * 0xFFFF;
        }
      }
    }
  }

  /** The end-around carry, iterated: the value 0 for 0, else the representative in 1..65535 of the class mod 65535. */
  function Residue(s: nat): (r: nat)
    ensures r < WORD
  {
    if s == 0 then 0 else (s - 1) % 0xFFFF + 1
  }

  /** One round of folding keeps the class mod 65535, and zero stays zero. */
  lemma FoldStep(s: nat)
    ensures Residue(s % WORD + s / WORD) == Residue(s)
  {
    var q, r := s / WORD, s % WORD;
    assert s == q * WORD + r && WORD == 0xFFFF + 1;
    if s != 0 {
      assert s - 1 == (r + q - 1) + 0xFFFF * q;
      ModAdd(r + q - 1, q);
    }
  }

  lemma {:induction false} ModAdd(x: nat, k: nat)
    ensures (x + 0xFFFF * k) % 0xFFFF == x % 0xFFFF
  {
    if k > 0 {
      ModAdd(x, k - 1);
      assert x + 0xFFFF * k == x + 0xFFFF * (k - 1) + 0xFFFF;
    }
  }

  /** The folding loop shared by sum16 and checksumFold: it ends, with the residue. */
  method Fold(sum: nat) returns (s: nat)
    requires sum < U32_SIZE
    ensures s == Residue(sum)
  {
    s := sum;
    while s / WORD != 0
      invariant s < U32_SIZE && Residue(s) == Residue(sum)
      decreases s
    {
      FoldStep(s);
      s := s % WORD + s / WORD;
    }
  }

  lemma SmallSum(data: seq<Byte>)
    ensures |data| <= 131074 ==> WordSum(data) % U32_SIZE == WordSum(data)
  {
    NoOverflowExact(|data|);
  }

  /** sum16, with the uint32 accumulator wrapping as Go's does. */
  method Sum16(data: seq<Byte>) returns (s: nat)
    ensures s < WORD
    ensures s == Residue(WordSum(data) % U32_SIZE)
    ensures |data| <= 131074 ==> s == Residue(WordSum(data))
  {
    s := 0;
    var i := 0;
    assert WordSum([]) == 0;
    hide WordSum, U16, Residue;
    while i + 1 < |data|
      invariant 0 <= i <= |data| && i % 2 == 0
      invariant s == WordSum(data[..i]) % U32_SIZE
    {
      SumStep(data[..i], data[i..i + 2]);
      assert data[..i + 2] == data[..i] + data[i..i + 2];
      s := (s + U16(data[i], data[i + 1])) % U32_SIZE;
      i := i + 2;
    }
    if |data| % 2 == 1 {
      SumStep(data[..i], data[i..]);
      s := (s + U16(data[|data| - 1], 0)) % U32_SIZE;
      assert data[i..] == [data[|data| - 1]];
    }
    assert data == data[..i] + data[i..] && (i == |data| ==> data[..i] == data);
    SmallSum(data);
    s := Fold(s);
  }

  lemma SumStep(s: seq<Byte>, t: seq<Byte>)
    requires |s| % 2 == 0 && 1 <= |t| <= 2
    ensures WordSum(s + t) % U32_SIZE == (WordSum(s) % U32_SIZE + U16(t[0], if |t| == 2 then t[1] else 0)) % U32_SIZE
  {
    hide WordSum, U16;
    LastWord(t);
    WordSumConcat(s, t);
  }

  lemma LastWord(t: seq<Byte>)
    requires 1 <= |t| <= 2
    ensures WordSum(t) == U16(t[0], if |t| == 2 then t[1] else 0)
  {
    if |t| == 2 {
      assert t[2..] == [];
    }
  }

  lemma Wrap(a: nat, b: nat)
    ensures (a + b) % U32_SIZE == (a % U32_SIZE + b) % U32_SIZE
  {
    var q := a / U32_SIZE;
    assert a == q * U32_SIZE + a % U32_SIZE;
    assert (a + b) == q * U32_SIZE + (a % U32_SIZE + b);
    WrapShift(a % U32_SIZE + b, q);
  }

  /** checksumFold: the complement of the folded sum. */
  method ChecksumFold(sum: nat) returns (c: nat)
    requires sum < U32_SIZE
    ensures c == 0xFFFF - Residue(sum) && c < WORD
  {
    var s := Fold(sum);
    c := 0xFFFF - s;
  }

  /** The check a receiver makes: everything, checksum included, folds to all ones. */
  predicate Verifies(sum: nat) {
    Residue(sum) == 0xFFFF
  }

  /** A sum that verifies has a multiple of 65535 for its value, and is not zero. */
  lemma VerifiesMeans(sum: nat)
    ensures Verifies(sum) <==> sum > 0 && sum % 0xFFFF == 0
  {
    if sum > 0 {
      var q, r := sum / 0xFFFF, sum % 0xFFFF;
      assert sum == q * 0xFFFF + r;
      if r == 0 {
        assert sum - 1 == 0xFFFE + 0xFFFF * (q - 1);
        ModAdd(0xFFFE, q - 1);
      } else {
        assert sum - 1 == (r - 1) + 0xFFFF * q;
        ModAdd(r - 1, q);
      }
    }
  }

  /** Putting the complement of the rest into the checksum field makes the whole verify. */
  lemma ComplementVerifies(rest: nat)
    ensures Verifies(rest + (0xFFFF - Residue(rest)))
  {
    var total := rest + (0xFFFF - Residue(rest));
    VerifiesMeans(total);
    if rest > 0 {
      var q := (rest - 1) / 0xFFFF;
      assert rest - 1 == q * 0xFFFF + (Residue(rest) - 1);
      assert total == 0xFFFF * (q + 1);
      ModAdd(0, q + 1);
    }
  }
}
