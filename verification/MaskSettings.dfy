/** Reading range settings, and what an upside-down delay range does. */
module MaskSettings {
  import opened Bytes
  import opened TlsRecords
  import opened MaskRuns
  import opened RecordOrder
  import opened Sequences

  // ---- ParseInt32Range ----

  /** White space, as unicode.IsSpace has it. */
  predicate IsSpace(c: char) {
    c == ' ' || '\t' <= c <= '\r' || c == 0x85 as char || c == 0xA0 as char || c == 0x1680 as char
    || 0x2000 as char <= c <= 0x200A as char || c == 0x2028 as char || c == 0x2029 as char || c == 0x202F as char
    || c == 0x205F as char || c == 0x3000 as char
  }

  function TrimLeft(s: string): string {
    if s != [] && IsSpace(s[0]) then TrimLeft(s[1..]) else s
  }

  function TrimRight(s: string): string {
    if s != [] && IsSpace(s[|s| - 1]) then TrimRight(s[..|s| - 1]) else s
  }

  function TrimSpace(s: string): string {
    TrimRight(TrimLeft(s))
  }

  predicate AllDigits(s: string) {
    forall i :: 0 <= i < |s| ==> '0' <= s[i] <= '9'
  }

  function Decimal(s: string): nat
    requires AllDigits(s)
  {
    if s == [] then 0 else Decimal(s[..|s| - 1]) * 10 + (s[|s| - 1] - '0') as int
  }

  /** strconv.Atoi on a 64-bit machine. */
  function Atoi(s: string): Option<int> {
    var digits := if s != [] && (s[0] == '+' || s[0] == '-') then s[1..] else s;
    if digits == [] || !AllDigits(digits) then None
    else
      var v: int := if s[0] == '-' then -(Decimal(digits) as int) else Decimal(digits) as int;
      if -0x8000_0000_0000_0000 <= v < 0x8000_0000_0000_0000 then Some(v) else None
  }

  /** The index of the first dash, or the length. */
  function DashAt(s: string): (i: nat)
    ensures i <= |s| && '-' !in s[..i] && (i < |s| ==> s[i] == '-')
  {
    if s == [] || s[0] == '-' then 0
    else
      var i := DashAt(s[1..]);
      assert s[..1 + i] == [s[0]] + s[1..][..i];
      1 + i
  }

  function ParseInt32Range(value: string): Option<Range> {
    var text := TrimSpace(value);
    var i := DashAt(text);
    if i < |text| then
      var a, b := Atoi(TrimSpace(text[..i])), Atoi(TrimSpace(text[i + 1..]));
      if a.None? || b.None? then None else Some(Range(a.value, b.value))
    else
      var v := Atoi(text);
      if v.None? then None else Some(Range(v.value, v.value))
  }

  // ---- what is read, by the letters ----

  const SPACES := {9, 10, 11, 12, 13, 32, 133, 160, 5760, 8192, 8193, 8194, 8195, 8196, 8197, 8198, 8199, 8200, 8201,
    8202, 8232, 8233, 8239, 8287, 12288}

  predicate AllSpaces(s: string) {
    forall i :: 0 <= i < |s| ==> s[i] as int in SPACES
  }

  lemma SpacesAre(c: char)
    ensures IsSpace(c) <==> c as int in SPACES
  {
  }

  /** No space at either end. */
  predicate IsTight(s: string) {
    s != [] ==> s[0] as int !in SPACES && s[|s| - 1] as int !in SPACES
  }

  lemma {:induction false} TrimsLeft(left: string, s: string)
    requires AllSpaces(left) && (s != [] ==> s[0] as int !in SPACES)
    ensures TrimLeft(left + s) == s
  {
    if left != [] {
      SpacesAre(left[0]);
      TrimsLeft(left[1..], s);
      assert (left + s)[1..] == left[1..] + s;
    } else {
      assert left + s == s;
      if s != [] {
        SpacesAre(s[0]);
      }
    }
    hide IsSpace;
  }

  lemma {:induction false} TrimsRight(s: string, right: string)
    requires AllSpaces(right) && (s != [] ==> s[|s| - 1] as int !in SPACES)
    ensures TrimRight(s + right) == s
  {
    if right != [] {
      var n := |right| - 1;
      SpacesAre(right[n]);
      TrimsRight(s, right[..n]);
      assert (s + right)[..|s + right| - 1] == s + right[..n];
    } else {
      assert s + right == s;
      if s != [] {
        SpacesAre(s[|s| - 1]);
      }
    }
    hide IsSpace;
  }

  /** White space goes at both ends, and nothing else does. */
  lemma Trims(left: string, s: string, right: string)
    requires AllSpaces(left) && AllSpaces(right) && IsTight(s)
    ensures TrimSpace(left + s + right) == s
  {
    if s == [] {
      assert left + s + right == (left + right) + s;
      TrimsLeft(left + right, s);
      TrimsRight(s, []);
      assert s + [] == s;
    } else {
      assert left + s + right == left + (s + right);
      TrimsLeft(left, s + right);
      TrimsRight(s, right);
    }
  }

  /** A digit with some zeros behind it. */
  function Shifted(digit: nat, zeros: nat): nat {
    if zeros == 0 then digit else 10 * Shifted(digit, zeros - 1)
  }

  /** The number that digits stand for, counted from the front. */
  function Value(s: string): nat
    requires AllDigits(s)
  {
    if s == [] then 0 else Shifted(s[0] as int - 48, |s| - 1) + Value(s[1..])
  }

  lemma {:induction false} DecimalShift(s: string)
    requires AllDigits(s) && s != []
    ensures Decimal(s) == Shifted(s[0] as int - 48, |s| - 1) + Decimal(s[1..])
  {
    if |s| > 1 {
      var n := |s| - 1;
      DecimalShift(s[..n]);
      assert s[1..][..n - 1] == s[..n][1..] && s[1..][n - 1] == s[n];
    } else {
      assert s[..0] == [] && s[1..] == [];
    }
  }

  lemma {:induction false} DecimalIsValue(s: string)
    requires AllDigits(s)
    ensures Decimal(s) == Value(s)
  {
    if s != [] {
      DecimalShift(s);
      DecimalIsValue(s[1..]);
    }
  }

  /** A number is digits behind at most one sign, and has to fit 64 bits. */
  lemma AtoiReads(sign: string, digits: string)
    requires sign in ["", "+", "-"] && digits != [] && AllDigits(digits)
    ensures var v := if sign == "-" then 0 - Value(digits) else Value(digits);
      Atoi(sign + digits) ==
      if -9_223_372_036_854_775_808 <= v <= 9_223_372_036_854_775_807 then Some(v) else None
  {
    DecimalIsValue(digits);
    hide Decimal, Value;
    var s := sign + digits;
    if sign == [] {
      assert s == digits;
    } else {
      assert s[1..] == digits;
    }
  }

  lemma AtoiRefuses(sign: string, digits: string)
    requires sign in ["", "+", "-"] && (digits == [] || (!AllDigits(digits) && (sign == [] ==> digits[0] !in ['+', '-'])))
    ensures Atoi(sign + digits) == None
  {
    var s := sign + digits;
    if sign == [] {
      assert s == digits;
    } else {
      assert s[1..] == digits;
    }
  }

  /** Two numbers with a dash between them, white space around any of these. */
  lemma RangeIsRead(left: string, a: string, before: string, behind: string, b: string, right: string)
    requires AllSpaces(left) && AllSpaces(before) && AllSpaces(behind) && AllSpaces(right)
    requires a != [] && b != [] && AllDigits(a) && AllDigits(b) && Value(a) < 0x8000_0000_0000_0000 && Value(b) < 0x8000_0000_0000_0000
    ensures ParseInt32Range(left + a + before + "-" + behind + b + right) == Some(Range(Value(a), Value(b)))
  {
    hide *;
    DigitsAreTight(a);
    DigitsAreTight(b);
    var text := (a + before) + "-" + (behind + b);
    assert left + a + before + "-" + behind + b + right == left + text + right;
    assert IsTight(text) by {
      TightAround(a, before + "-" + behind, b);
      assert text == a + (before + "-" + behind) + b;
    }
    Trims(left, text, right);
    NoDashIn(before);
    assert [] + a + before == a + before && behind + b + [] == behind + b;
    Trims([], a, before);
    Trims(behind, b, []);
    AtoiReads("", a);
    AtoiReads("", b);
    assert "" + a == a && "" + b == b;
    DashedIsRead(left + text + right, a + before, behind + b, Value(a), Value(b));
  }

  lemma NoDashIn(s: string)
    requires AllSpaces(s)
    ensures '-' !in s
  {
  }

  lemma TightAround(a: string, middle: string, b: string)
    requires IsTight(a) && IsTight(b) && a != [] && b != []
    ensures IsTight(a + middle + b)
  {
  }

  lemma DashedIsRead(value: string, head: string, tail: string, from: int, to: int)
    requires TrimSpace(value) == head + "-" + tail && '-' !in head
    requires Atoi(TrimSpace(head)) == Some(from) && Atoi(TrimSpace(tail)) == Some(to)
    ensures ParseInt32Range(value) == Some(Range(from, to))
  {
    hide TrimSpace, Atoi, DashAt;
    DashIsAt(head, tail);
    var text := head + "-" + tail;
    assert text[..|head|] == head && text[|head| + 1..] == tail;
  }

  lemma DigitsAreTight(s: string)
    requires AllDigits(s)
    ensures IsTight(s) && '-' !in s
  {
  }

  lemma {:induction false} DashIsAt(head: string, tail: string)
    requires '-' !in head
    ensures DashAt(head + "-" + tail) == |head|
  {
    if head != [] {
      DashIsAt(head[1..], tail);
      assert (head + "-" + tail)[1..] == head[1..] + "-" + tail;
    }
  }

  /** A number alone is a range of one value. */
  lemma NumberIsRead(left: string, a: string, right: string)
    requires AllSpaces(left) && AllSpaces(right) && a != [] && AllDigits(a) && Value(a) < 0x8000_0000_0000_0000
    ensures ParseInt32Range(left + a + right) == Some(Range(Value(a), Value(a)))
  {
    hide Value, TrimSpace, Atoi, AllDigits;
    DigitsAreTight(a);
    Trims(left, a, right);
    AtoiReads("", a);
    assert "" + a == a;
  }

  lemma {:induction false} TrimmedLetters(s: string)
    ensures forall c :: c in TrimLeft(s) ==> c in s
    ensures forall c :: c in TrimRight(s) ==> c in s
    decreases |s|
  {
    if s != [] {
      TrimmedLetters(s[1..]);
      TrimmedLetters(s[..|s| - 1]);
    }
  }

  /** The text before the first dash cannot be negative, so no parsed range starts below zero: which is what the
      fragment loops rely on. Nothing keeps its end from being below its start. */
  lemma ParsedFromIsNatural(value: string)
    ensures ParseInt32Range(value).Some? ==> ParseInt32Range(value).value.from >= 0
  {
    var text := TrimSpace(value);
    var head := text[..DashAt(text)];
    TrimmedLetters(head);
    TrimmedLetters(TrimLeft(head));
    assert '-' !in TrimSpace(head);
    assert DashAt(text) == |text| ==> head == text;
  }

  // ---- delay ranges written upside down ----

  /** A layer with the delays "0" and "5-0": both upper ends are zero, so the layer thinks all its delays are. */
  predicate IsUpsideDown(s: Settings) {
    s.lengths == [Range(1, 1)] && s.delays == [Range(0, 0), Range(5, 0)] && s.maxSplit == Range(0, 0)
  }

  /** The layer may run like this over two payload bytes. */
  lemma PlanIsRun(s: Settings, r0: Round, r1: Round)
    requires IsUpsideDown(s) && r0 == Cut(1, 0) && r1 == Cut(1, 5)
    ensures s.WellFormed() && IsRun(s, 0, 2, [r0, r1]) && Offset([r0, r1]) == 2
  {
    assert s.LengthRange(0).May(1) && s.LengthRange(1).May(1) && s.DelayRange(0).May(0) && s.DelayRange(1).May(5);
    assert Makes(s, 0, 2, [], 1, r0);
    Extend(s, 0, 2, [], r0);
    assert [] + [r0] == [r0] && [r0] + [r1] == [r0, r1];
    assert Makes(s, 0, 2, [r0], 1, r1);
    Extend(s, 0, 2, [r0], r1);
  }

  lemma PlanIsWritten(data: seq<Byte>, r0: Round, r1: Round)
    requires |data| == 2 && r0 == Cut(1, 0) && r1 == Cut(1, 5) && Offset([r0, r1]) == 2
    ensures Joined(Wire(data, [r0, r1], true)) == [data[1], data[0]]
  {
    hide Joined;
    assert [r0, r1][..1] == [r0] && |[r0][..0]| == 0;
    assert SentPieces(data, [r0], true) == [] && HeldPieces(data, [r0], true) == [] + [data[0..1]];
    assert SentPieces(data, [r0, r1], true) == [] + [data[1..2]] && HeldPieces(data, [r0, r1], true) == [data[0..1]] + [];
    assert Wire(data, [r0, r1], true) == [data[1..2]] + [data[0..1]];
    NothingJoined();
    JoinedStep([], data[1..2]);
    JoinedStep([data[1..2]], data[0..1]);
    assert [] + [data[1..2]] == [data[1..2]];
  }

  /** Such a layer is accepted and its loop ends, but it holds back the first record and not the second: the two
      halves of a two-byte payload arrive swapped. */
  lemma UpsideDownSwaps(s: Settings, first: Byte, second: Byte)
    requires IsUpsideDown(s) && first != second
    ensures s.WellFormed() && s.Terminating() && s.AllDelaysZero() && !KeepsOrder(s)
    ensures var p, plan := Frame(0x16, 3, 1, [first, second]), [Cut(1, 0), Cut(1, 5)];
      IsWrite(s, 0, p, plan) && !Same(p, Flat(HelloEmissions(p, plan, true)))
  {
    assert LeastBytes(s, 0, 0) == 0 && LeastBytes(s, 0, 1) == 1;
    assert Swap(s, 0, 1, 0);
    var p, plan := Frame(0x16, 3, 1, [first, second]), [Cut(1, 0), Cut(1, 5)];
    PlanIsRun(s, Cut(1, 0), Cut(1, 5));
    PlanIsWritten([first, second], Cut(1, 0), Cut(1, 5));
    assert p[5..7] == [first, second] && HeaderLength(p) == 7;
    hide Flat, HelloEmissions, Joined, Wire, Same, Swap;
    HelloIsSame(p, plan, true);
  }

  /** Written upside down everywhere, delays hold nothing back: the order is kept, and so it is with the range at the
      front. */
  lemma UpsideDownKeeps(s: Settings)
    requires s.WellFormed() && s.AllDelaysZero()
    requires forall i, j :: 0 <= i < j < |s.delays| ==> s.delays[i].from > 0 || s.delays[j].from == 0
    ensures KeepsOrder(s) && AlwaysSame(s)
  {
    forall i, j, c | 0 <= i < j < Reach(s) && 0 <= c <= j ensures !Swap(s, i, j, c) {
      assert s.DelayRange(i).from > 0 || s.DelayRange(j).from == 0;
    }
    OrderExact(s);
  }
}
