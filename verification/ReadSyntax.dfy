/** The tolerant JSON that internal/config/read.go accepts, described on bytes: string literals, comments and single bytes,
    one behind the other.  Every text is made of them in this way, and they say what either pass makes of it. */
module ReadSyntax {
  import opened Sequences
  import opened Bytes
  import opened ReadConfig

  /** A byte on its own, a string literal, a line comment, a block comment, each with what is inside; the last three may be
      left open by the end of the text. */
  datatype Piece =
    | Plain(c: Byte)
    | Text(inside: seq<Byte>, closed: bool)
    | LineComment(inside: seq<Byte>, closed: bool)
    | BlockComment(inside: seq<Byte>, closed: bool)
  {
    function Bytes(): (s: seq<Byte>)
      ensures s != []
    {
      match this
      case Plain(c) => [c]
      case Text(inside, closed) => [0x22] + inside + if closed then [0x22] else []
      case LineComment(inside, closed) => [0x2F, 0x2F] + inside + if closed then [0x0A] else []
      case BlockComment(inside, closed) => [0x2F, 0x2A] + inside + if closed then [0x2A, 0x2F] else []
    }

    /** What is left of it without comments: of a line comment the newline that ends it. */
    function Kept(): seq<Byte> {
      match this
      case LineComment(_, closed) => if closed then [0x0A] else []
      case BlockComment(_, _) => []
      case _ => Bytes()
    }

    /** The index of the first byte that is left, the piece starting at `at`. */
    function KeptFrom(at: nat): nat {
      if LineComment? then at + 2 + |inside| else at
    }

    predicate IsComment() {
      LineComment? || BlockComment?
    }

    predicate Open() {
      !Plain? && !closed
    }

    /** It is what it seems to be, with `rest` behind it. */
    predicate Fits(rest: seq<Byte>) {
      && (Open() ==> rest == [])
      && match this
         case Plain(c) => c != 0x22 && (c == 0x2F && rest != [] ==> rest[0] != 0x2F && rest[0] != 0x2A)
         case Text(inside, closed) => InString(inside, closed)
         case LineComment(inside, _) => 0x0A !in inside
         case BlockComment(inside, closed) => !Ends(inside + if closed then [0x2A, 0x2F] else [], |inside|)
    }
  }

  /** No quote but behind a backslash, which takes the next byte with it. */
  predicate InString(s: seq<Byte>, closed: bool) {
    if s == [] then true
    else if s[0] == 0x5C then if |s| == 1 then !closed else InString(s[2..], closed)
    else s[0] != 0x22 && InString(s[1..], closed)
  }

  /** A star with a slash behind it among the first n bytes. */
  predicate Ends(s: seq<Byte>, n: nat) {
    exists i :: 0 <= i < n && i + 1 < |s| && s[i] == 0x2A && s[i + 1] == 0x2F
  }

  function Whole(ps: seq<Piece>): seq<Byte> {
    if ps == [] then [] else ps[0].Bytes() + Whole(ps[1..])
  }

  ghost predicate Fit(ps: seq<Piece>) {
    ps == [] || (ps[0].Fits(Whole(ps[1..])) && Fit(ps[1..]))
  }

  function Remains(ps: seq<Piece>): seq<Byte> {
    if ps == [] then [] else ps[0].Kept() + Remains(ps[1..])
  }

  /** Where the bytes that are left stood. */
  function Places(ps: seq<Piece>, at: nat): seq<nat> {
    if ps == [] then [] else Indices(ps[0].KeptFrom(at), |ps[0].Kept()|) + Places(ps[1..], at + |ps[0].Bytes()|)
  }

  function Indices(from: nat, n: nat): seq<nat> {
    seq(n, i requires 0 <= i < n => from + i)
  }

  predicate HasComment(ps: seq<Piece>) {
    ps != [] && (ps[0].IsComment() || HasComment(ps[1..]))
  }

  // ---- one piece in front ----

  /** The scanner's reading of a text: what it keeps, from where, and whether it meets a comment. */
  ghost predicate Reads(s: seq<Byte>, mode: Mode, at: nat, kept: seq<Byte>, places: seq<nat>, commented: bool) {
    Strip(s, mode) == kept && Origins(s, mode, at) == places && (Commented(s, mode) <==> commented)
  }

  lemma NothingReads(mode: Mode, at: nat)
    ensures Reads([], mode, at, [], [], false)
  {
  }

  /** One turn of the scanner. */
  lemma TurnReads(front: seq<Byte>, rest: seq<Byte>, mode: Mode, next: Mode, at: nat, keeps: bool, kept: seq<Byte>,
                  places: seq<nat>, commented: bool)
    requires front != [] && Scan(front + rest, mode) == Turn(if keeps then [front[0]] else [], |front|, next)
    requires Reads(rest, next, at + |front|, kept, places, commented)
    ensures Reads(front + rest, mode, at, (if keeps then [front[0]] else []) + kept, Indices(at, if keeps then 1 else 0) + places,
                  commented || (mode == Code && (OpensLine(front + rest) || OpensBlock(front + rest))))
  {
    assert (front + rest)[|front|..] == rest;
    assert Indices(at, if keeps then 1 else 0) == if keeps then [at] else [];
  }

  /** A byte that is kept is part of what is kept. */
  lemma KeepsOneMore(c: Byte, s: seq<Byte>, rest: seq<Byte>, mode: Mode, next: Mode, at: nat, kept: seq<Byte>,
                     places: seq<nat>, commented: bool)
    requires Scan([c] + (s + rest), mode) == Turn([c], 1, next)
    requires mode == Code ==> !OpensLine([c] + (s + rest)) && !OpensBlock([c] + (s + rest))
    requires Reads(s + rest, next, at + 1, s + kept, Indices(at + 1, |s|) + places, commented)
    ensures Reads([c] + s + rest, mode, at, [c] + s + kept, Indices(at, |s| + 1) + places, commented)
  {
    hide Reads, Scan, OpensLine, OpensBlock;
    TurnReads([c], s + rest, mode, next, at, true, s + kept, Indices(at + 1, |s|) + places, commented);
    assert [c] + s + rest == [c] + (s + rest) && [c] + s + kept == [c] + (s + kept);
    assert Indices(at, |s| + 1) + places == Indices(at, 1) + (Indices(at + 1, |s|) + places);
  }

  /** A byte that goes changes nothing. */
  lemma DropsOneMore(c: Byte, rest: seq<Byte>, mode: Mode, at: nat, kept: seq<Byte>, places: seq<nat>, commented: bool)
    requires mode != Code && Scan([c] + rest, mode) == Turn([], 1, mode) && Reads(rest, mode, at + 1, kept, places, commented)
    ensures Reads([c] + rest, mode, at, kept, places, commented)
  {
    hide Reads, Scan;
    TurnReads([c], rest, mode, mode, at, false, kept, places, commented);
    assert [] + kept == kept && Indices(at, 0) + places == places;
  }

  function Tail(closed: bool, tail: seq<Byte>): seq<Byte> {
    if closed then tail else []
  }

  /** Nothing comes behind a piece that the end of the text leaves open, and then any mode reads it alike. */
  lemma EndReads(mode: Mode, at: nat, kept: seq<Byte>, places: seq<nat>, commented: bool)
    requires Reads([], Code, at, kept, places, commented)
    ensures kept == [] && places == [] && !commented && Reads([], mode, at, kept, places, commented)
  {
  }

  lemma {:induction false} StringReads(s: seq<Byte>, closed: bool, rest: seq<Byte>, at: nat, kept: seq<Byte>,
                                       places: seq<nat>, commented: bool)
    requires InString(s, closed) && (!closed ==> rest == [])
    requires Reads(rest, Code, at + |s + Tail(closed, [0x22])|, kept, places, commented)
    ensures var all := s + Tail(closed, [0x22]);
      Reads(all + rest, Quoted, at, all + kept, Indices(at, |all|) + places, commented)
    decreases |s|
  {
    hide Reads, Strip;
    var tail := Tail(closed, [0x22]);
    if s == [] {
      assert s + tail == tail;
      if closed {
        assert [] + rest == rest && [] + kept == kept && Indices(at + 1, 0) + places == places;
        KeepsOneMore(0x22, [], rest, Quoted, Code, at, kept, places, commented);
        assert [0x22] + [] + rest == [0x22] + rest && [0x22] + [] + kept == [0x22] + kept;
      } else {
        EndReads(Quoted, at, kept, places, commented);
        assert [] + rest == rest && [] + kept == kept && Indices(at, 0) + places == places;
      }
    } else if s[0] == 0x5C && |s| == 1 {
      EndReads(Escaped, at + 1, kept, places, commented);
      assert [] + rest == rest && [] + kept == kept && Indices(at + 1, 0) + places == places;
      KeepsOneMore(s[0], [], rest, Quoted, Escaped, at, kept, places, commented);
      assert s + tail == [s[0]] + [];
    } else if s[0] == 0x5C {
      var more := s[2..] + tail;
      assert s + tail == [s[0]] + ([s[1]] + more);
      StringReads(s[2..], closed, rest, at + 2, kept, places, commented);
      KeepsOneMore(s[1], more, rest, Escaped, Quoted, at + 1, kept, places, commented);
      KeepsOneMore(s[0], [s[1]] + more, rest, Quoted, Escaped, at, kept, places, commented);
    } else {
      var more := s[1..] + tail;
      assert s + tail == [s[0]] + more;
      StringReads(s[1..], closed, rest, at + 1, kept, places, commented);
      KeepsOneMore(s[0], more, rest, Quoted, Quoted, at, kept, places, commented);
    }
  }

  lemma {:induction false} LineReads(s: seq<Byte>, closed: bool, rest: seq<Byte>, at: nat, kept: seq<Byte>,
                                     places: seq<nat>, commented: bool)
    requires 0x0A !in s && (!closed ==> rest == [])
    requires Reads(rest, Code, at + |s| + |Tail(closed, [0x0A])|, kept, places, commented)
    ensures var tail := Tail(closed, [0x0A]);
      Reads(s + tail + rest, Line, at, tail + kept, Indices(at + |s|, |tail|) + places, commented)
    decreases |s|
  {
    hide Reads, Strip;
    var tail := Tail(closed, [0x0A]);
    if s == [] {
      assert s + tail == tail;
      if closed {
        TurnReads([0x0A], rest, Line, Code, at, true, kept, places, commented);
      } else {
        EndReads(Line, at, kept, places, commented);
        assert [] + rest == rest && [] + kept == kept && Indices(at, 0) + places == places;
      }
    } else {
      assert s[0] in s && forall c :: c in s[1..] ==> c in s;
      LineReads(s[1..], closed, rest, at + 1, kept, places, commented);
      assert s + tail + rest == [s[0]] + (s[1..] + tail + rest);
      DropsOneMore(s[0], s[1..] + tail + rest, Line, at, tail + kept, Indices(at + |s|, |tail|) + places, commented);
    }
  }

  lemma EndsInside(s: seq<Byte>, n: nat)
    requires 0 < n <= |s|
    ensures Ends(s[1..], n - 1) || ClosesBlock(s) ==> Ends(s, n)
  {
    if i :| 0 <= i < n - 1 && i + 1 < |s[1..]| && s[1..][i] == 0x2A && s[1..][i + 1] == 0x2F {
      assert s[i + 1] == 0x2A && s[i + 2] == 0x2F;
    }
  }

  lemma {:induction false} BlockReads(s: seq<Byte>, closed: bool, rest: seq<Byte>, at: nat, kept: seq<Byte>,
                                      places: seq<nat>, commented: bool)
    requires !Ends(s + Tail(closed, [0x2A, 0x2F]), |s|) && (!closed ==> rest == [])
    requires Reads(rest, Code, at + |s| + |Tail(closed, [0x2A, 0x2F])|, kept, places, commented)
    ensures Reads(s + Tail(closed, [0x2A, 0x2F]) + rest, Block, at, kept, places, commented)
    decreases |s|
  {
    hide Reads, Strip;
    var tail := Tail(closed, [0x2A, 0x2F]);
    if s == [] {
      assert s + tail == tail;
      if closed {
        assert tail + rest == [0x2A, 0x2F] + rest;
        TurnReads([0x2A, 0x2F], rest, Block, Code, at, false, kept, places, commented);
        assert [] + kept == kept && Indices(at, 0) + places == places;
      } else {
        EndReads(Block, at, kept, places, commented);
        assert [] + rest == rest;
      }
    } else {
      var all := s + tail;
      assert s[1..] + tail == all[1..];
      EndsInside(all, |s|);
      BlockReads(s[1..], closed, rest, at + 1, kept, places, commented);
      assert all + rest == [s[0]] + (s[1..] + tail + rest);
      assert |all| == 1 ==> rest == [];
      DropsOneMore(s[0], s[1..] + tail + rest, Block, at, kept, places, commented);
    }
  }

  lemma PlainReads(p: Piece, rest: seq<Byte>, at: nat, kept: seq<Byte>, places: seq<nat>, commented: bool)
    requires p.Plain? && p.Fits(rest) && Reads(rest, Code, at + |p.Bytes()|, kept, places, commented)
    ensures Reads(p.Bytes() + rest, Code, at, p.Kept() + kept, Indices(p.KeptFrom(at), |p.Kept()|) + places,
                  p.IsComment() || commented)
  {
    hide Reads, Strip;
    TurnReads([p.c], rest, Code, Code, at, true, kept, places, commented);
  }

  lemma TextReads(p: Piece, rest: seq<Byte>, at: nat, kept: seq<Byte>, places: seq<nat>, commented: bool)
    requires p.Text? && p.Fits(rest) && Reads(rest, Code, at + |p.Bytes()|, kept, places, commented)
    ensures Reads(p.Bytes() + rest, Code, at, p.Kept() + kept, Indices(p.KeptFrom(at), |p.Kept()|) + places,
                  p.IsComment() || commented)
  {
    hide Reads, Strip;
    var all := p.inside + Tail(p.closed, [0x22]);
    StringReads(p.inside, p.closed, rest, at + 1, kept, places, commented);
    KeepsOneMore(0x22, all, rest, Code, Quoted, at, kept, places, commented);
    assert p.Bytes() == [0x22] + all;
  }

  lemma LineCommentReads(p: Piece, rest: seq<Byte>, at: nat, kept: seq<Byte>, places: seq<nat>, commented: bool)
    requires p.LineComment? && p.Fits(rest) && Reads(rest, Code, at + |p.Bytes()|, kept, places, commented)
    ensures Reads(p.Bytes() + rest, Code, at, p.Kept() + kept, Indices(p.KeptFrom(at), |p.Kept()|) + places,
                  p.IsComment() || commented)
  {
    hide Reads, Strip;
    var tail := Tail(p.closed, [0x0A]);
    LineReads(p.inside, p.closed, rest, at + 2, kept, places, commented);
    assert p.Bytes() + rest == [0x2F, 0x2F] + (p.inside + tail + rest);
    TurnReads([0x2F, 0x2F], p.inside + tail + rest, Code, Line, at, false, tail + kept,
              Indices(at + 2 + |p.inside|, |tail|) + places, commented);
    NothingInFront(tail + kept, Indices(at + 2 + |p.inside|, |tail|) + places, at);
  }

  lemma BlockCommentReads(p: Piece, rest: seq<Byte>, at: nat, kept: seq<Byte>, places: seq<nat>, commented: bool)
    requires p.BlockComment? && p.Fits(rest) && Reads(rest, Code, at + |p.Bytes()|, kept, places, commented)
    ensures Reads(p.Bytes() + rest, Code, at, p.Kept() + kept, Indices(p.KeptFrom(at), |p.Kept()|) + places,
                  p.IsComment() || commented)
  {
    hide Reads, Strip;
    var tail := Tail(p.closed, [0x2A, 0x2F]);
    BlockReads(p.inside, p.closed, rest, at + 2, kept, places, commented);
    assert p.Bytes() + rest == [0x2F, 0x2A] + (p.inside + tail + rest);
    TurnReads([0x2F, 0x2A], p.inside + tail + rest, Code, Block, at, false, kept, places, commented);
    NothingInFront(kept, places, at);
  }

  /** A piece in front of a text is read as what it is. */
  lemma PieceReads(p: Piece, rest: seq<Byte>, at: nat, kept: seq<Byte>, places: seq<nat>, commented: bool)
    requires p.Fits(rest) && Reads(rest, Code, at + |p.Bytes()|, kept, places, commented)
    ensures Reads(p.Bytes() + rest, Code, at, p.Kept() + kept, Indices(p.KeptFrom(at), |p.Kept()|) + places,
                  p.IsComment() || commented)
  {
    hide *;
    match p
    case Plain(_) => PlainReads(p, rest, at, kept, places, commented);
    case Text(_, _) => TextReads(p, rest, at, kept, places, commented);
    case LineComment(_, _) => LineCommentReads(p, rest, at, kept, places, commented);
    case BlockComment(_, _) => BlockCommentReads(p, rest, at, kept, places, commented);
  }

  lemma NothingInFront(kept: seq<Byte>, places: seq<nat>, at: nat)
    ensures [] + kept == kept && forall from :: Indices(from, 0) + places == places
  {
  }

  // ---- the whole text ----

  lemma OnePieceMore(ps: seq<Piece>, at: nat)
    requires ps != [] && Fit(ps)
    requires Reads(Whole(ps[1..]), Code, at + |ps[0].Bytes()|, Remains(ps[1..]), Places(ps[1..], at + |ps[0].Bytes()|),
                   HasComment(ps[1..]))
    ensures Reads(Whole(ps), Code, at, Remains(ps), Places(ps, at), HasComment(ps))
  {
    hide Reads, Strip, InString, Ends;
    PieceReads(ps[0], Whole(ps[1..]), at, Remains(ps[1..]), Places(ps[1..], at + |ps[0].Bytes()|), HasComment(ps[1..]));
  }

  lemma {:induction false} WholeReads(ps: seq<Piece>, at: nat)
    requires Fit(ps)
    ensures Reads(Whole(ps), Code, at, Remains(ps), Places(ps, at), HasComment(ps))
    decreases |ps|
  {
    if ps == [] {
      NothingReads(Code, at);
    } else {
      hide Reads, Whole, Remains, Places, HasComment;
      WholeReads(ps[1..], at + |ps[0].Bytes()|);
      OnePieceMore(ps, at);
    }
  }

  /** Comments out: string literals and single bytes stay as they are, a line comment leaves its newline, a block comment
      nothing; the map leads to where the bytes stood, and the flag tells whether there was a comment. */
  lemma StripIsExact(ps: seq<Piece>)
    requires Fit(ps)
    ensures Strip(Whole(ps), Code) == Remains(ps) && Origins(Whole(ps), Code, 0) == Places(ps, 0)
    ensures Commented(Whole(ps), Code) <==> HasComment(ps)
  {
    WholeReads(ps, 0);
  }

  lemma {:induction false} CutString(s: seq<Byte>) returns (inside: seq<Byte>, closed: bool, rest: seq<Byte>)
    ensures s == inside + Tail(closed, [0x22]) + rest && InString(inside, closed) && (!closed ==> rest == [])
    decreases |s|
  {
    hide InString;
    ShortStrings();
    if s == [] {
      inside, closed, rest := [], false, [];
    } else if s[0] == 0x22 {
      inside, closed, rest := [], true, s[1..];
    } else if s == [0x5C] {
      inside, closed, rest := s, false, [];
    } else {
      var n := if s[0] == 0x5C then 2 else 1;
      inside, closed, rest := CutString(s[n..]);
      StringGrows(s[..n], inside, closed);
      assert s == s[..n] + (inside + Tail(closed, [0x22]) + rest);
      inside := s[..n] + inside;
    }
  }

  lemma ShortStrings()
    ensures InString([], true) && InString([], false) && InString([0x5C], false)
  {
  }

  lemma StringGrows(front: seq<Byte>, s: seq<Byte>, closed: bool)
    requires InString(s, closed)
    requires |front| == if front != [] && front[0] == 0x5C then 2 else 1
    requires front[0] != 0x22
    ensures InString(front + s, closed)
  {
    assert (front + s)[|front|..] == s;
  }

  lemma {:induction false} CutLine(s: seq<Byte>) returns (inside: seq<Byte>, closed: bool, rest: seq<Byte>)
    ensures s == inside + Tail(closed, [0x0A]) + rest && 0x0A !in inside && (!closed ==> rest == [])
    decreases |s|
  {
    if s == [] {
      inside, closed, rest := [], false, [];
    } else if s[0] == 0x0A {
      inside, closed, rest := [], true, s[1..];
    } else {
      inside, closed, rest := CutLine(s[1..]);
      inside := [s[0]] + inside;
    }
  }

  lemma {:induction false} CutBlock(s: seq<Byte>) returns (inside: seq<Byte>, closed: bool, rest: seq<Byte>)
    ensures s == inside + Tail(closed, [0x2A, 0x2F]) + rest && (!closed ==> rest == [])
    ensures !Ends(inside + Tail(closed, [0x2A, 0x2F]), |inside|)
    decreases |s|
  {
    if s == [] {
      inside, closed, rest := [], false, [];
    } else if ClosesBlock(s) {
      inside, closed, rest := [], true, s[2..];
    } else {
      inside, closed, rest := CutBlock(s[1..]);
      var tail := Tail(closed, [0x2A, 0x2F]);
      EndsLater(s[0], inside + tail, |inside|);
      assert [s[0]] + inside + tail == [s[0]] + (inside + tail);
      inside := [s[0]] + inside;
    }
  }

  lemma EndsLater(c: Byte, s: seq<Byte>, n: nat)
    requires n <= |s|
    ensures Ends([c] + s, n + 1) ==> Ends(s, n) || ClosesBlock([c] + s)
  {
    var all := [c] + s;
    if i :| 0 <= i < n + 1 && i + 1 < |all| && all[i] == 0x2A && all[i + 1] == 0x2F {
      assert i > 0 ==> s[i - 1] == 0x2A && s[i] == 0x2F;
    }
  }

  /** The piece in front of a text. */
  lemma FirstPiece(s: seq<Byte>) returns (p: Piece, rest: seq<Byte>)
    requires s != []
    ensures s == p.Bytes() + rest && p.Fits(rest)
  {
    hide InString, Ends;
    var inside, closed;
    if s[0] == 0x22 {
      inside, closed, rest := CutString(s[1..]);
      p := Text(inside, closed);
    } else if OpensLine(s) {
      inside, closed, rest := CutLine(s[2..]);
      p := LineComment(inside, closed);
    } else if OpensBlock(s) {
      inside, closed, rest := CutBlock(s[2..]);
      p := BlockComment(inside, closed);
    } else {
      p, rest := Plain(s[0]), s[1..];
    }
  }

  /** Every text is made of pieces, so what the scanner makes of it is fixed by them. */
  lemma {:induction false} EveryText(s: seq<Byte>) returns (ps: seq<Piece>)
    ensures Fit(ps) && Whole(ps) == s
    decreases |s|
  {
    ps := [];
    if s != [] {
      var p, rest := FirstPiece(s);
      var more := EveryText(rest);
      ps := [p] + more;
      assert ps[1..] == more;
    }
  }

  // ---- comments in front of any text ----

  /** No comment in it, and nothing that the end of a text would leave open. */
  predicate Clean(ps: seq<Piece>) {
    forall i :: 0 <= i < |ps| ==> !ps[i].IsComment() && !ps[i].Open()
  }

  predicate EndsInSlash(ps: seq<Piece>) {
    ps != [] && ps[|ps| - 1] == Plain(0x2F)
  }

  predicate OpensNothing(s: seq<Byte>) {
    s == [] || (s[0] != 0x2F && s[0] != 0x2A)
  }

  /** But for a slash, a piece without an end of its own to wait for fits in front of anything. */
  lemma FitsStill(p: Piece, rest: seq<Byte>, other: seq<Byte>)
    requires p.Fits(rest) && !p.Open() && !p.IsComment() && (p == Plain(0x2F) ==> OpensNothing(other))
    ensures p.Fits(other) && p.Kept() == p.Bytes()
  {
  }

  lemma SlashFits(rest: seq<Byte>)
    requires Plain(0x2F).Fits(rest)
    ensures OpensNothing(rest)
  {
  }

  lemma {:induction false} WholeConcat(ps: seq<Piece>, qs: seq<Piece>)
    ensures Whole(ps + qs) == Whole(ps) + Whole(qs) && Remains(ps + qs) == Remains(ps) + Remains(qs)
    decreases |ps|
  {
    hide Piece.Kept, Piece.Bytes;
    if ps == [] {
      assert ps + qs == qs;
    } else {
      assert (ps + qs)[1..] == ps[1..] + qs;
      WholeConcat(ps[1..], qs);
    }
  }

  lemma {:induction false} CleanRemains(ps: seq<Piece>)
    requires Clean(ps)
    ensures Remains(ps) == Whole(ps)
    decreases |ps|
  {
    if ps != [] {
      CleanRemains(ps[1..]);
    }
  }

  lemma {:induction false} FitConcat(ps: seq<Piece>, qs: seq<Piece>)
    requires Fit(ps) && Fit(qs) && Clean(ps) && (EndsInSlash(ps) ==> OpensNothing(Whole(qs)))
    ensures Fit(ps + qs)
    decreases |ps|
  {
    hide Piece.Fits, Piece.Kept, Piece.Bytes, Piece.IsComment, Piece.Open, InString, Ends;
    if ps == [] {
      assert ps + qs == qs;
    } else {
      var p, more := ps[0], ps[1..];
      assert (ps + qs)[1..] == more + qs;
      FitConcat(more, qs);
      WholeConcat(more, qs);
      if more != [] && p == Plain(0x2F) {
        SlashFits(Whole(more));
        StartsAlike(more, qs);
      }
      assert more == [] ==> more + qs == qs;
      FitsStill(p, Whole(more), Whole(more + qs));
    }
  }

  lemma StartsAlike(ps: seq<Piece>, qs: seq<Piece>)
    requires ps != [] && OpensNothing(Whole(ps))
    ensures OpensNothing(Whole(ps) + Whole(qs))
  {
  }

  /** A line comment in front of any text goes up to the first newline, which stays. */
  lemma LineCommentGoes(pre: seq<Piece>, body: seq<Byte>, post: seq<Byte>)
    requires Fit(pre) && Clean(pre) && !EndsInSlash(pre) && 0x0A !in body
    ensures Strip(Whole(pre) + ([0x2F, 0x2F] + body + [0x0A]) + post, Code) == Whole(pre) + [0x0A] + Strip(post, Code)
  {
    var comment := LineComment(body, true);
    var ps := EveryText(post);
    assert comment.Bytes() == [0x2F, 0x2F] + body + [0x0A] && comment.Kept() == [0x0A];
    hide Piece.Bytes, Piece.Kept, Whole, Strip, Fit, Clean, EndsInSlash;
    CommentGoes(pre, comment, ps);
  }

  /** A block comment in front of any text goes up to the first star and slash. */
  lemma BlockCommentGoes(pre: seq<Piece>, body: seq<Byte>, post: seq<Byte>)
    requires Fit(pre) && Clean(pre) && !EndsInSlash(pre) && !Ends(body + [0x2A, 0x2F], |body|)
    ensures Strip(Whole(pre) + ([0x2F, 0x2A] + body + [0x2A, 0x2F]) + post, Code) == Whole(pre) + Strip(post, Code)
  {
    var comment := BlockComment(body, true);
    var ps := EveryText(post);
    BlockCommentIs(body, post);
    hide *;
    CommentGoes(pre, comment, ps);
    assert Whole(pre) + [] == Whole(pre);
  }

  lemma BlockCommentIs(body: seq<Byte>, rest: seq<Byte>)
    requires !Ends(body + [0x2A, 0x2F], |body|)
    ensures var comment := BlockComment(body, true);
      comment.Fits(rest) && comment.IsComment() && comment.Bytes() == [0x2F, 0x2A] + body + [0x2A, 0x2F] && comment.Kept() == []
  {
  }

  lemma CommentGoes(pre: seq<Piece>, comment: Piece, ps: seq<Piece>)
    requires Fit(pre) && Clean(pre) && !EndsInSlash(pre) && Fit(ps) && comment.IsComment() && comment.Fits(Whole(ps))
    ensures Strip(Whole(pre) + comment.Bytes() + Whole(ps), Code) == Whole(pre) + comment.Kept() + Strip(Whole(ps), Code)
  {
    hide Strip, Clean, EndsInSlash, Piece.Fits, Piece.Kept, Piece.Bytes, Piece.IsComment;
    var more := [comment] + ps;
    assert more[1..] == ps;
    CommentFits(comment, Whole(ps), pre);
    FitConcat(pre, more);
    WholeConcat(pre, more);
    CleanRemains(pre);
    StripIsExact(pre + more);
    StripIsExact(ps);
    assert Whole(pre) + (comment.Bytes() + Whole(ps)) == Whole(pre) + comment.Bytes() + Whole(ps);
    assert Whole(pre) + (comment.Kept() + Remains(ps)) == Whole(pre) + comment.Kept() + Remains(ps);
  }

  lemma CommentFits(comment: Piece, rest: seq<Byte>, pre: seq<Piece>)
    requires !EndsInSlash(pre)
    ensures EndsInSlash(pre) ==> OpensNothing(comment.Bytes() + rest)
  {
  }

  // ---- trailing commas ----

  /** The first piece that is no blank closes an object or an array. */
  predicate Closes(ps: seq<Piece>) {
    ps != [] && if ps[0].Plain? && ps[0].c in {0x20, 0x09, 0x0A, 0x0D} then Closes(ps[1..])
                else ps[0] in {Plain(0x7D), Plain(0x5D)}
  }

  function WithoutCommas(ps: seq<Piece>): seq<Piece> {
    if ps == [] then []
    else (if ps[0] == Plain(0x2C) && Closes(ps[1..]) then [] else [ps[0]]) + WithoutCommas(ps[1..])
  }

  predicate Uncommented(ps: seq<Piece>) {
    forall i :: 0 <= i < |ps| ==> !ps[i].IsComment()
  }

  lemma {:induction false} NextPiece(ps: seq<Piece>)
    requires Fit(ps) && Uncommented(ps)
    ensures Closing(NextSolid(Whole(ps))) <==> Closes(ps)
    decreases |ps|
  {
    if ps != [] {
      var front := ps[0].Bytes();
      assert Whole(ps)[0] == front[0];
      if ps[0].Plain? {
        assert Whole(ps)[1..] == Whole(ps[1..]);
        NextPiece(ps[1..]);
      }
    }
  }

  lemma {:induction false} StringStays(s: seq<Byte>, closed: bool, rest: seq<Byte>)
    requires InString(s, closed) && (!closed ==> rest == [])
    ensures var all := s + Tail(closed, [0x22]); Drop(all + rest, Quoted) == all + Drop(rest, Code)
    decreases |s|
  {
    hide Drop;
    var tail := Tail(closed, [0x22]);
    NothingDropped();
    if s == [] {
      assert s + tail == tail;
      if closed {
        DropNext(0x22, rest, Quoted);
      }
    } else if |s| == 1 && s[0] == 0x5C {
      assert s + tail + rest == [s[0]] + [];
      DropNext(s[0], [], Quoted);
    } else if s[0] == 0x5C {
      var more := s[2..] + tail;
      assert s + tail == [s[0]] + ([s[1]] + more);
      assert s + tail + rest == [s[0]] + ([s[1]] + (more + rest));
      StringStays(s[2..], closed, rest);
      DropNext(s[1], more + rest, Escaped);
      DropNext(s[0], [s[1]] + (more + rest), Quoted);
      assert s + tail + Drop(rest, Code) == [s[0]] + ([s[1]] + (more + Drop(rest, Code)));
    } else {
      var more := s[1..] + tail;
      assert s + tail == [s[0]] + more && s + tail + rest == [s[0]] + (more + rest);
      StringStays(s[1..], closed, rest);
      DropNext(s[0], more + rest, Quoted);
      assert s + tail + Drop(rest, Code) == [s[0]] + (more + Drop(rest, Code));
    }
  }

  lemma NothingDropped()
    ensures forall mode :: Drop([], mode) == []
  {
  }

  lemma DropNext(c: Byte, rest: seq<Byte>, mode: Mode)
    ensures Drop([c] + rest, mode) == (if TrailingComma([c] + rest, mode) then [] else [c]) + Drop(rest, Next(mode, c))
  {
    assert ([c] + rest)[1..] == rest;
  }

  /** One piece in front: a comma goes if it is trailing, anything else stays. */
  lemma PieceDrops(p: Piece, ps: seq<Piece>)
    requires p.Fits(Whole(ps)) && !p.IsComment() && Fit(ps) && Uncommented(ps)
    ensures Drop(p.Bytes() + Whole(ps), Code)
         == (if p == Plain(0x2C) && Closes(ps) then [] else p.Bytes()) + Drop(Whole(ps), Code)
  {
    hide Drop, NextSolid, InString, Fit, Uncommented, Closes, Whole;
    var rest := Whole(ps);
    if p.Plain? {
      NextPiece(ps);
      DropNext(p.c, rest, Code);
      assert ([p.c] + rest)[1..] == rest;
    } else {
      LiteralStays(p.inside, p.closed, rest);
      assert p.Bytes() == [0x22] + (p.inside + Tail(p.closed, [0x22]));
    }
  }

  lemma LiteralStays(s: seq<Byte>, closed: bool, rest: seq<Byte>)
    requires InString(s, closed) && (!closed ==> rest == [])
    ensures var all := [0x22] + (s + Tail(closed, [0x22])); Drop(all + rest, Code) == all + Drop(rest, Code)
  {
    hide Drop, InString;
    var all := s + Tail(closed, [0x22]);
    StringStays(s, closed, rest);
    DropNext(0x22, all + rest, Code);
    assert [0x22] + all + rest == [0x22] + (all + rest);
    assert [0x22] + all + Drop(rest, Code) == [0x22] + (all + Drop(rest, Code));
  }

  /** Trailing commas out: of a text without comments exactly the commas, not in strings, go that only blanks keep from
      what closes an object or an array. */
  lemma {:induction false} DropsTrailingCommas(ps: seq<Piece>)
    requires Fit(ps) && Uncommented(ps)
    ensures Drop(Whole(ps), Code) == Whole(WithoutCommas(ps))
    decreases |ps|
  {
    hide Drop, Piece.Fits, Piece.Bytes, Piece.IsComment, Closes;
    if ps == [] {
      NothingDropped();
    } else {
      DropsTrailingCommas(ps[1..]);
      PieceDrops(ps[0], ps[1..]);
      var more := WithoutCommas(ps[1..]);
      assert ([ps[0]] + more)[1..] == more && [] + more == more;
      assert [] + Drop(Whole(ps[1..]), Code) == Drop(Whole(ps[1..]), Code);
    }
  }

  // ---- both passes ----

  /** Comments out, of line comments the newlines stay. */
  function WithoutComments(ps: seq<Piece>): seq<Piece> {
    if ps == [] then []
    else (if ps[0].LineComment? && ps[0].closed then [Plain(0x0A)] else if ps[0].IsComment() then [] else [ps[0]])
         + WithoutComments(ps[1..])
  }

  lemma {:induction false} WithoutCommentsFits(ps: seq<Piece>)
    requires Fit(ps)
    ensures var qs := WithoutComments(ps);
      Fit(qs) && Uncommented(qs) && Whole(qs) == Remains(ps) && (OpensNothing(Whole(ps)) ==> OpensNothing(Whole(qs)))
    decreases |ps|
  {
    hide InString, Ends;
    if ps != [] {
      var p, more := ps[0], WithoutComments(ps[1..]);
      WithoutCommentsFits(ps[1..]);
      if p.LineComment? && p.closed {
        StaysInFront(Plain(0x0A), more);
      } else if p.IsComment() {
        assert WithoutComments(ps) == more;
      } else {
        NothingBehind(ps[1..]);
        StaysInFront(p, more);
      }
    }
  }

  lemma StaysInFront(p: Piece, ps: seq<Piece>)
    requires !p.IsComment() && p.Fits(Whole(ps)) && Fit(ps) && Uncommented(ps)
    ensures Fit([p] + ps) && Uncommented([p] + ps) && Whole([p] + ps) == p.Bytes() + Whole(ps)
  {
    assert ([p] + ps)[1..] == ps;
  }

  lemma NothingBehind(ps: seq<Piece>)
    ensures Whole(ps) == [] ==> ps == []
  {
  }

  /** The whole preprocessor, on bytes: every text is made of pieces (EveryText), and of these exactly the comments go, but
      for the newlines that end line comments, and then exactly the trailing commas. */
  lemma PreprocessingIsExact(ps: seq<Piece>)
    requires Fit(ps)
    ensures Drop(Strip(Whole(ps), Code), Code) == Whole(WithoutCommas(WithoutComments(ps)))
  {
    StripIsExact(ps);
    WithoutCommentsFits(ps);
    DropsTrailingCommas(WithoutComments(ps));
  }
}
