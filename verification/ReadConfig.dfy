/** The tolerant-JSON preprocessor of internal/config/read.go: comments out, then trailing commas out. */
module ReadConfig {
  import opened Sequences
  import opened Bytes

  const QUOTE := 0x22
  const STAR := 0x2A
  const COMMA := 0x2C
  const SLASH := 0x2F
  const BACKSLASH := 0x5C
  const BRACKET := 0x5D
  const BRACE := 0x7D
  const NEWLINE := 0x0A

  /** Where the scanner is: in JSON text, in a string, behind a backslash in one, in a line or a block comment. */
  datatype Mode = Code | Quoted | Escaped | Line | Block

  /** One byte further in JSON text or in a string. */
  function Next(mode: Mode, c: Byte): Mode {
    match mode
    case Escaped => Quoted
    case Quoted => if c == BACKSLASH then Escaped else if c == QUOTE then Code else Quoted
    case _ => if c == QUOTE then Quoted else Code
  }

  predicate OpensLine(s: seq<Byte>) {
    |s| >= 2 && s[0] == SLASH && s[1] == SLASH
  }

  predicate OpensBlock(s: seq<Byte>) {
    |s| >= 2 && s[0] == SLASH && s[1] == STAR
  }

  predicate ClosesBlock(s: seq<Byte>) {
    |s| >= 2 && s[0] == STAR && s[1] == SLASH
  }

  /** One turn of the scanner: what it keeps of the front, how far it moves on, and into which mode. */
  datatype Turn = Turn(kept: seq<Byte>, width: nat, mode: Mode)

  function Scan(s: seq<Byte>, mode: Mode): (t: Turn)
    requires s != []
    ensures 1 <= t.width <= |s| && |t.kept| <= t.width
  {
    match mode
    case Line => if s[0] == NEWLINE then Turn([NEWLINE], 1, Code) else Turn([], 1, Line)
    case Block => if ClosesBlock(s) then Turn([], 2, Code) else Turn([], 1, Block)
    case Code =>
      if OpensLine(s) then Turn([], 2, Line)
      else if OpensBlock(s) then Turn([], 2, Block)
      else Turn([s[0]], 1, Next(Code, s[0]))
    case _ => Turn([s[0]], 1, Next(mode, s[0]))
  }

  /** The text without its comments. */
  function Strip(s: seq<Byte>, mode: Mode): seq<Byte>
    decreases |s|
  {
    if s == [] then [] else var t := Scan(s, mode); t.kept + Strip(s[t.width..], t.mode)
  }

  /** Where each byte that stays comes from, `at` being the index of the front of `s`. */
  function Origins(s: seq<Byte>, mode: Mode, at: nat): seq<nat>
    decreases |s|
  {
    if s == [] then []
    else var t := Scan(s, mode); (if t.kept == [] then [] else [at]) + Origins(s[t.width..], t.mode, at + t.width)
  }

  /** A comment opens somewhere. */
  predicate Commented(s: seq<Byte>, mode: Mode)
    decreases |s|
  {
    s != [] && (
      || (mode == Code && (OpensLine(s) || OpensBlock(s)))
      || var t := Scan(s, mode); Commented(s[t.width..], t.mode))
  }

  lemma TurnTaken(raw: seq<Byte>, i: nat, mode: Mode)
    requires i < |raw|
    ensures var t := Scan(raw[i..], mode); var j := i + t.width;
      && Strip(raw[i..], mode) == t.kept + Strip(raw[j..], t.mode)
      && Origins(raw[i..], mode, i) == (if t.kept == [] then [] else [i]) + Origins(raw[j..], t.mode, j)
      && (Commented(raw[i..], mode) <==>
        (mode == Code && (OpensLine(raw[i..]) || OpensBlock(raw[i..]))) || Commented(raw[j..], t.mode))
  {
    var t := Scan(raw[i..], mode);
    assert raw[i..][t.width..] == raw[i + t.width..];
  }

  lemma NothingToScan(at: nat)
    ensures forall mode :: Strip([], mode) == [] && Origins([], mode, at) == [] && !Commented([], mode)
  {
  }

  /** stripCommentsAndMap, its flags gathered into one mode. */
  method StripCommentsAndMap(raw: seq<Byte>) returns (stripped: seq<Byte>, origMap: seq<nat>, commentsRemoved: bool)
    ensures stripped == Strip(raw, Code) && origMap == Origins(raw, Code, 0) && commentsRemoved == Commented(raw, Code)
  {
    hide Strip, Origins, Commented, Scan, OpensLine, OpensBlock;
    stripped, origMap, commentsRemoved := [], [], false;
    var mode, i, n := Code, 0, |raw|;
    assert raw[n..] == [] && raw[0..] == raw;
    NothingToScan(n);
    while i < n
      invariant 0 <= i <= n
      invariant Strip(raw, Code) == stripped + Strip(raw[i..], mode)
      invariant Origins(raw, Code, 0) == origMap + Origins(raw[i..], mode, i)
      invariant Commented(raw, Code) <==> commentsRemoved || Commented(raw[i..], mode)
    {
      TurnTaken(raw, i, mode);
      var width, keep, opens;
      ghost var t := Scan(raw[i..], mode);
      width, keep, opens, mode := TakeTurn(raw, i, mode);
      Shift(stripped, t.kept, Strip(raw[i + width..], mode));
      Shift(origMap, if t.kept == [] then [] else [i], Origins(raw[i + width..], mode, i + width));
      if keep {
        stripped := stripped + [raw[i]];
        origMap := origMap + [i];
      }
      if opens {
        commentsRemoved := true;
      }
      i := i + width;
    }
  }

  /** The branches of the loop: how far to move on, whether to keep the byte, whether a comment opens. */
  method TakeTurn(raw: seq<Byte>, i: nat, was: Mode) returns (width: nat, keep: bool, opens: bool, mode: Mode)
    requires i < |raw|
    ensures Scan(raw[i..], was) == Turn(if keep then [raw[i]] else [], width, mode)
    ensures opens <==> was == Code && (OpensLine(raw[i..]) || OpensBlock(raw[i..]))
  {
    var c, n := raw[i], |raw|;
    width, keep, opens, mode := 1, true, false, was;
    if mode == Line {
      if c == NEWLINE {
        mode := Code;
      } else {
        keep := false;
      }
    } else if mode == Block {
      keep := false;
      if i + 1 < n && raw[i] == STAR && raw[i + 1] == SLASH {
        mode := Code;
        width := 2;
      }
    } else if mode == Quoted || mode == Escaped {
      if mode == Escaped {
        mode := Quoted;
      } else if c == BACKSLASH {
        mode := Escaped;
      } else if c == QUOTE {
        mode := Code;
      }
    } else if i + 1 < n && c == SLASH && raw[i + 1] == SLASH {
      keep, opens, width, mode := false, true, 2, Line;
    } else if i + 1 < n && c == SLASH && raw[i + 1] == STAR {
      keep, opens, width, mode := false, true, 2, Block;
    } else if c == QUOTE {
      mode := Quoted;
    }
  }

  // ---- what stripping keeps ----

  /** The indices, from `at` on, are strictly increasing and lead from each byte of `out` to where it stood. */
  predicate LeadsBack(raw: seq<Byte>, at: nat, origins: seq<nat>, out: seq<Byte>) {
    && |origins| == |out|
    && (forall k :: 0 <= k < |origins| ==> at <= origins[k] < |raw| && out[k] == raw[origins[k]])
    && (forall k, l :: 0 <= k < l < |origins| ==> origins[k] < origins[l])
  }

  lemma OneMoreOrigin(raw: seq<Byte>, at: nat, next: nat, origins: seq<nat>, out: seq<Byte>)
    requires at < next && at < |raw| && LeadsBack(raw, next, origins, out)
    ensures LeadsBack(raw, at, [at] + origins, [raw[at]] + out) && LeadsBack(raw, at, origins, out)
  {
    var more, kept := [at] + origins, [raw[at]] + out;
    assert |more| == 1 + |origins| && |kept| == 1 + |out|;
    forall k | 0 <= k < |more| ensures at <= more[k] < |raw| && kept[k] == raw[more[k]] && (k > 0 ==> at < more[k]) {
      if k > 0 {
        assert more[k] == origins[k - 1] && kept[k] == out[k - 1];
      }
    }
    forall k, l | 0 <= k < l < |more| ensures more[k] < more[l] {
      assert more[l] == origins[l - 1] && (k > 0 ==> more[k] == origins[k - 1]);
    }
  }

  lemma {:induction false} OriginsAreTrue(raw: seq<Byte>, at: nat, mode: Mode)
    requires at <= |raw|
    ensures LeadsBack(raw, at, Origins(raw[at..], mode, at), Strip(raw[at..], mode))
    decreases |raw| - at
  {
    hide Strip, Origins, Scan, LeadsBack;
    NothingToScan(at);
    if at == |raw| {
      assert raw[at..] == [];
      NothingLeadsBack(raw, at);
    } else {
      var t := Scan(raw[at..], mode);
      var next := at + t.width;
      TurnTaken(raw, at, mode);
      OriginsAreTrue(raw, next, t.mode);
      var origins, out := Origins(raw[next..], t.mode, next), Strip(raw[next..], t.mode);
      OneMoreOrigin(raw, at, next, origins, out);
      KeptIsFront(raw[at..], mode);
      assert [] + origins == origins && [] + out == out;
    }
  }

  lemma KeptIsFront(s: seq<Byte>, mode: Mode)
    requires s != []
    ensures Scan(s, mode).kept == [] || Scan(s, mode).kept == [s[0]]
  {
  }

  lemma NothingLeadsBack(raw: seq<Byte>, at: nat)
    ensures LeadsBack(raw, at, [], [])
  {
  }

  /** Nothing is taken out exactly when no comment opens; what is taken out is gone for good. */
  lemma {:induction false} StripIsShorter(s: seq<Byte>, mode: Mode)
    requires mode in {Code, Quoted, Escaped}
    ensures Commented(s, mode) ==> |Strip(s, mode)| < |s|
    ensures !Commented(s, mode) ==> Strip(s, mode) == s
    decreases |s|
  {
    if s != [] {
      var t := Scan(s, mode);
      if t.mode in {Code, Quoted, Escaped} {
        StripIsShorter(s[t.width..], t.mode);
        assert s == [s[0]] + s[1..];
      } else {
        StripIsNoLonger(s[t.width..], t.mode);
      }
    }
  }

  lemma {:induction false} StripIsNoLonger(s: seq<Byte>, mode: Mode)
    ensures |Strip(s, mode)| <= |s|
    decreases |s|
  {
    if s != [] {
      StripIsNoLonger(s[Scan(s, mode).width..], Scan(s, mode).mode);
    }
  }

  /** The mode in which what is left of a text is read: comments are gone. */
  function Left(mode: Mode): Mode {
    if mode in {Line, Block} then Code else mode
  }

  /** A slash that stays is not followed by what would make it open a comment. */
  lemma SlashStaysAlone(s: seq<Byte>)
    requires s != [] && s[0] == SLASH && !OpensLine(s) && !OpensBlock(s)
    ensures var out := Strip(s[1..], Code); out == [] || (out[0] != SLASH && out[0] != STAR)
  {
    if |s| >= 2 {
      assert Scan(s[1..], Code).kept == [s[1]];
    }
  }

  /** No comment is left in a stripped text, nor does one come about. */
  lemma {:induction false} NoCommentIsLeft(s: seq<Byte>, mode: Mode)
    ensures !Commented(Strip(s, mode), Left(mode))
    decreases |s|
  {
    if s != [] {
      var t := Scan(s, mode);
      var rest := Strip(s[t.width..], t.mode);
      NoCommentIsLeft(s[t.width..], t.mode);
      if t.kept == [] {
        assert Strip(s, mode) == rest;
      } else {
        assert Strip(s, mode) == [s[0]] + rest && ([s[0]] + rest)[1..] == rest;
        if mode == Code && s[0] == SLASH {
          SlashStaysAlone(s);
        }
      }
    }
  }

  /** Stripping is idempotent, and changes nothing exactly when there is no comment to take out. */
  lemma StripIsIdempotent(raw: seq<Byte>)
    ensures Strip(Strip(raw, Code), Code) == Strip(raw, Code)
    ensures Strip(raw, Code) == raw <==> !Commented(raw, Code)
  {
    NoCommentIsLeft(raw, Code);
    StripIsShorter(Strip(raw, Code), Code);
    StripIsShorter(raw, Code);
  }

  /** The string literals of a text, quotes and escapes included, one behind the other. */
  function Literals(s: seq<Byte>, mode: Mode): seq<Byte>
    decreases |s|
  {
    if s == [] then []
    else
      var t := Scan(s, mode);
      (if mode in {Quoted, Escaped} || t.mode == Quoted then t.kept else []) + Literals(s[t.width..], t.mode)
  }

  lemma LiteralsInFront(c: Byte, rest: seq<Byte>, mode: Mode, next: Mode)
    requires Scan([c] + rest, mode) == Turn([c], 1, next)
    ensures Literals([c] + rest, mode) ==
      (if mode in {Quoted, Escaped} || next == Quoted then [c] else []) + Literals(rest, next)
  {
    assert ([c] + rest)[1..] == rest;
  }

  /** A byte that stays is read the same way in what is left. */
  lemma ScanAgain(s: seq<Byte>, mode: Mode)
    requires s != [] && Scan(s, mode).kept != []
    ensures var t := Scan(s, mode);
      Scan([s[0]] + Strip(s[t.width..], t.mode), Left(mode)) == Turn([s[0]], 1, Left(t.mode)) && t.kept == [s[0]]
  {
    if mode == Code && s[0] == SLASH {
      SlashStaysAlone(s);
    }
  }

  /** Every string literal survives byte for byte. */
  lemma {:induction false} StripKeepsLiterals(s: seq<Byte>, mode: Mode)
    ensures Literals(Strip(s, mode), Left(mode)) == Literals(s, mode)
    decreases |s|
  {
    if s == [] {
      return;
    }
    var t := Scan(s, mode);
    var rest := Strip(s[t.width..], t.mode);
    StripKeepsLiterals(s[t.width..], t.mode);
    if t.kept == [] {
      assert Strip(s, mode) == rest && Left(mode) == Left(t.mode) == Code;
      assert [] + Literals(s[t.width..], t.mode) == Literals(s[t.width..], t.mode);
    } else {
      ScanAgain(s, mode);
      LiteralsInFront(s[0], rest, Left(mode), Left(t.mode));
      assert Strip(s, mode) == [s[0]] + rest;
      assert t.mode == Quoted <==> Left(t.mode) == Quoted;
    }
    hide Scan, Strip;
  }

  // ---- trailing commas ----

  predicate Blank(c: Byte) {
    c in {0x20, 0x09, 0x0A, 0x0D}
  }

  /** The first byte that is not blank. */
  function NextSolid(s: seq<Byte>): Option<Byte> {
    if s == [] then None else if Blank(s[0]) then NextSolid(s[1..]) else Some(s[0])
  }

  predicate Closing(c: Option<Byte>) {
    c == Some(BRACE) || c == Some(BRACKET)
  }

  /** The front is a comma, out of strings, and what follows it closes something. */
  predicate TrailingComma(s: seq<Byte>, mode: Mode) {
    s != [] && mode == Code && s[0] == COMMA && Closing(NextSolid(s[1..]))
  }

  /** The text without its trailing commas; comments are not known here. */
  function Drop(s: seq<Byte>, mode: Mode): seq<Byte> {
    if s == [] then []
    else (if TrailingComma(s, mode) then [] else [s[0]]) + Drop(s[1..], Next(mode, s[0]))
  }

  /** The index scan inside removeTrailingCommas. */
  method FindSolid(stripped: seq<Byte>, i: nat) returns (nextIdx: int)
    requires i < |stripped|
    ensures nextIdx == -1 || i < nextIdx < |stripped|
    ensures NextSolid(stripped[i + 1..]) == if nextIdx == -1 then None else Some(stripped[nextIdx])
  {
    nextIdx := -1;
    var j := i + 1;
    while j < |stripped|
      invariant i < j <= |stripped| && nextIdx == -1
      invariant NextSolid(stripped[i + 1..]) == NextSolid(stripped[j..])
    {
      assert stripped[j..][1..] == stripped[j + 1..];
      var nc := stripped[j];
      if !(nc == 0x20 || nc == 0x09 || nc == 0x0A || nc == 0x0D) {
        nextIdx := j;
        break;
      }
      j := j + 1;
    }
  }

  /** removeTrailingCommas. */
  method RemoveTrailingCommas(stripped: seq<Byte>) returns (out: seq<Byte>)
    ensures out == Drop(stripped, Code)
  {
    out := [];
    var n, inString, escaped := |stripped|, false, false;
    ghost var mode := Code;
    assert stripped[n..] == [] && stripped[0..] == stripped;
    for i := 0 to n
      invariant inString <==> mode != Code
      invariant escaped <==> mode == Escaped
      invariant mode in {Code, Quoted, Escaped}
      invariant Drop(stripped, Code) == out + Drop(stripped[i..], mode)
    {
      var c := stripped[i];
      ghost var was, front := out, stripped[i..];
      assert front[1..] == stripped[i + 1..];
      Shift(out, if TrailingComma(front, mode) then [] else [c], Drop(stripped[i + 1..], Next(mode, c)));
      mode := Next(mode, c);
      if inString {
        if escaped {
          escaped := false;
        } else if c == BACKSLASH {
          escaped := true;
        } else if c == QUOTE {
          inString := false;
        }
        out := out + [c];
        continue;
      }
      if c == QUOTE {
        inString := true;
        out := out + [c];
        continue;
      }
      if c == COMMA {
        var nextIdx := FindSolid(stripped, i);
        if nextIdx != -1 && (stripped[nextIdx] == BRACE || stripped[nextIdx] == BRACKET) {
          assert out == out + [];
          continue;
        }
      }
      out := out + [c];
    }
  }

  /** The mode in front of byte `i` of a text without comments. */
  function ModeAt(s: seq<Byte>, i: nat): Mode
    requires i <= |s|
  {
    if i == 0 then Code else Next(ModeAt(s, i - 1), s[i - 1])
  }

  /** The bytes of the first `n` that are no trailing commas, in order. */
  function Sieve(s: seq<Byte>, n: nat): seq<Byte>
    requires n <= |s|
  {
    if n == 0 then []
    else Sieve(s, n - 1) + if TrailingComma(s[n - 1..], ModeAt(s, n - 1)) then [] else [s[n - 1]]
  }

  /** What is deleted are exactly the trailing commas of the text as it was. */
  lemma {:induction false} DropIsExact(s: seq<Byte>, n: nat)
    requires n <= |s|
    ensures Drop(s, Code) == Sieve(s, n) + Drop(s[n..], ModeAt(s, n))
  {
    if n > 0 {
      DropIsExact(s, n - 1);
      assert s[n - 1..][1..] == s[n..];
      Shift(Sieve(s, n - 1), if TrailingComma(s[n - 1..], ModeAt(s, n - 1)) then [] else [s[n - 1]],
            Drop(s[n..], ModeAt(s, n)));
    }
  }

  // ---- what dropping keeps ----

  /** From the first byte that is not blank. */
  function FromSolid(s: seq<Byte>): seq<Byte> {
    if s != [] && Blank(s[0]) then FromSolid(s[1..]) else s
  }

  /** A comma behind which, blanks aside, comes a trailing comma. */
  predicate Stacked(s: seq<Byte>, mode: Mode) {
    s != [] && (
      || (mode == Code && s[0] == COMMA && TrailingComma(FromSolid(s[1..]), Code))
      || Stacked(s[1..], Next(mode, s[0])))
  }

  predicate HasTrailing(s: seq<Byte>, mode: Mode) {
    s != [] && (TrailingComma(s, mode) || HasTrailing(s[1..], Next(mode, s[0])))
  }

  lemma {:induction false} DropIsShorter(s: seq<Byte>, mode: Mode)
    ensures |Drop(s, mode)| <= |s|
    ensures Drop(s, mode) == s <==> !HasTrailing(s, mode)
  {
    if s != [] {
      DropIsShorter(s[1..], Next(mode, s[0]));
      assert s == [s[0]] + s[1..];
    }
  }

  lemma {:induction false} SolidIsNext(s: seq<Byte>)
    ensures NextSolid(s) == if FromSolid(s) == [] then None else Some(FromSolid(s)[0])
    ensures FromSolid(s) != [] ==> !Blank(FromSolid(s)[0])
  {
    if s != [] && Blank(s[0]) {
      SolidIsNext(s[1..]);
    }
  }

  /** What comes next once trailing commas are gone. */
  lemma {:induction false} NextAfterDrop(s: seq<Byte>)
    ensures NextSolid(Drop(s, Code)) ==
      if TrailingComma(FromSolid(s), Code) then NextSolid(FromSolid(s)[1..]) else NextSolid(s)
  {
    if s != [] {
      var rest := Drop(s[1..], Next(Code, s[0]));
      if TrailingComma(s, Code) {
        SolidIsNext(s[1..]);
        NextAfterDrop(s[1..]);
        assert Drop(s, Code) == rest;
      } else {
        assert ([s[0]] + rest)[1..] == rest;
        if Blank(s[0]) {
          NextAfterDrop(s[1..]);
        }
      }
    }
  }

  lemma {:induction false} TrailingAfterDrop(s: seq<Byte>, mode: Mode)
    ensures HasTrailing(Drop(s, mode), mode) <==> Stacked(s, mode)
  {
    if s != [] {
      var next := Next(mode, s[0]);
      var rest := Drop(s[1..], next);
      TrailingAfterDrop(s[1..], next);
      SolidIsNext(s[1..]);
      if TrailingComma(s, mode) {
        assert Drop(s, mode) == rest;
      } else {
        assert Drop(s, mode) == [s[0]] + rest && ([s[0]] + rest)[1..] == rest;
        if mode == Code && s[0] == COMMA {
          NextAfterDrop(s[1..]);
        }
      }
    }
  }

  /** A second pass finds nothing to drop exactly when no two commas stood before a closing bracket. */
  lemma DropIsIdempotentExactly(s: seq<Byte>)
    ensures Drop(Drop(s, Code), Code) == Drop(s, Code) <==> !Stacked(s, Code)
  {
    TrailingAfterDrop(s, Code);
    DropIsShorter(Drop(s, Code), Code);
  }

  /** Two commas in a row: one is left. */
  lemma TwoCommas()
    ensures Drop([COMMA, COMMA, BRACKET], Code) == [COMMA, BRACKET] && Stacked([COMMA, COMMA, BRACKET], Code)
  {
    var s := [COMMA, COMMA, BRACKET];
    assert s[1..] == [COMMA, BRACKET] && s[1..][1..] == [BRACKET] && s[1..][1..][1..] == [];
    assert NextSolid(s[1..]) == Some(COMMA) && NextSolid(s[1..][1..]) == Some(BRACKET);
    assert Drop(s[1..][1..], Code) == [BRACKET];
    assert Drop(s[1..], Code) == [] + [BRACKET];
    assert FromSolid(s[1..]) == s[1..];
  }

  /** Behind a dropped comma stands something that opens no comment. */
  lemma AfterTrailing(s: seq<Byte>, mode: Mode)
    requires TrailingComma(s, mode)
    ensures var out := Drop(s[1..], Code); out != [] && out[0] != SLASH && out[0] != STAR
  {
  }

  /** Dropping commas from a text without comments leaves its literals alone and brings no comment about. */
  lemma {:induction false} DropKeepsLiterals(s: seq<Byte>, mode: Mode)
    requires mode in {Code, Quoted, Escaped} && !Commented(s, mode)
    ensures !Commented(Drop(s, mode), mode) && Literals(Drop(s, mode), mode) == Literals(s, mode)
  {
    if s != [] {
      var next := Next(mode, s[0]);
      var rest := Drop(s[1..], next);
      assert Scan(s, mode) == Turn([s[0]], 1, next);
      DropKeepsLiterals(s[1..], next);
      if TrailingComma(s, mode) {
        assert Drop(s, mode) == rest;
      } else {
        var out := [s[0]] + rest;
        assert Drop(s, mode) == out && out[1..] == rest;
        if mode == Code && s[0] == SLASH && |s| >= 2 {
          if TrailingComma(s[1..], Code) {
            AfterTrailing(s[1..], Code);
          } else {
            assert rest[0] == s[1];
          }
        }
        assert Scan(out, mode) == Turn([s[0]], 1, next);
      }
    }
  }

  /** Both passes together: every string literal survives byte for byte, and no comment is left. */
  lemma PreprocessingKeepsLiterals(raw: seq<Byte>)
    ensures var out := Drop(Strip(raw, Code), Code);
      Literals(out, Code) == Literals(raw, Code) && !Commented(out, Code)
  {
    StripKeepsLiterals(raw, Code);
    NoCommentIsLeft(raw, Code);
    DropKeepsLiterals(Strip(raw, Code), Code);
  }
}
