/** The characters of a decoded string, whatever its pieces: octets as they stand, short escapes, units and pairs. */
module JsonStrings {
  import opened JsonValues
  import opened JsonDecode
  import opened JsonSyntax
  import opened JsonUnicode
  import opened JsonGrammar

  /** One text behind another. */
  function Joined(a: Utf8Text, b: Utf8Text): Utf8Text {
    if a.Scalars? && b.Scalars? then Scalars(a.ns + b.ns) else NotUtf8
  }

  function OneScalar(n: int): Utf8Text {
    if n >= 0 && IsScalar(n) then Scalars([n]) else NotUtf8
  }

  /** How many pieces at the front stand for themselves. */
  function PlainRun(ps: seq<Piece>): (n: nat)
    ensures n <= |ps| && (forall k :: 0 <= k < n ==> ps[k].Plain?) && (n < |ps| ==> !ps[n].Plain?)
    ensures ps != [] && ps[0].Plain? ==> n > 0
  {
    if ps == [] || !ps[0].Plain? then 0 else 1 + PlainRun(ps[1..])
  }

  predicate IsLowUnit(hex: string) {
    0xdc00 <= UnitNumber(hex) <= 0xdfff
  }

  /**
   * The characters that the pieces spell: octets that stand for themselves in runs of UTF-8, a unit that is no
   * surrogate, and the code point of a surrogate pair. With strict as false any unit is the second one of a pair.
   */
  function Spelled(ps: seq<Piece>, strict: bool): Utf8Text
    decreases |ps|
  {
    if ps == [] then Scalars([])
    else if IsPair(ps) then
      if strict && !IsLowUnit(ps[1].hex) then NotUtf8
      else Joined(OneScalar(PairNumber(ps[0].hex, ps[1].hex)), Spelled(ps[2..], strict))
    else
      match ps[0]
      case Plain(_) =>
        var n := PlainRun(ps);
        Joined(DecodeUtf8(PiecesText(ps[..n])), Spelled(ps[n..], strict))
      case Short(c) => Joined(DecodeUtf8(Unescaped(c)), Spelled(ps[1..], strict))
      case Unit(hex) => Joined(OneScalar(UnitNumber(hex)), Spelled(ps[1..], strict))
  }

  /** Not inside a sequence. */
  predicate IsBoundary(s: string) {
    s == "" || !IsTail(s[0])
  }

  lemma FirstScalarStays(a: string, b: string)
    requires a != "" && IsBoundary(b)
    ensures FirstScalar(a + b) == FirstScalar(a)
  {
  }

  lemma {:induction false} DecodeUtf8Append(a: string, b: string)
    requires IsBoundary(b)
    ensures DecodeUtf8(a + b) == Joined(DecodeUtf8(a), DecodeUtf8(b))
    decreases |a|
  {
    hide FirstScalar;
    if a == "" {
      assert a + b == b;
    } else {
      FirstScalarStays(a, b);
      var first := FirstScalar(a);
      if first.Scalar? {
        assert (a + b)[first.length..] == a[first.length..] + b;
        DecodeUtf8Append(a[first.length..], b);
      }
    }
  }

  /** A code point in front of anything. */
  lemma CodepointFirst(n: nat, rest: string)
    requires n <= 0x10ffff
    ensures DecodeUtf8(CodepointToUtf8(n).octets + rest) == Joined(OneScalar(n), DecodeUtf8(rest))
  {
    hide FirstScalar, CodepointToUtf8;
    var u := CodepointToUtf8(n).octets;
    OctetsAreUtf8Iff(n, rest);
    CodepointIsBoundary(n);
    assert (u + rest)[|u|..] == rest;
  }

  lemma CodepointIsBoundary(n: nat)
    requires n <= 0x10ffff
    ensures CodepointToUtf8(n).octets != "" && IsBoundary(CodepointToUtf8(n).octets)
  {
  }

  lemma ShortFirst(c: char, rest: string)
    requires c in "\\/\"bfnrt"
    ensures |Unescaped(c)| == 1 && IsBoundary(Unescaped(c))
    ensures DecodeUtf8(Unescaped(c) + rest) == Joined(DecodeUtf8(Unescaped(c)), DecodeUtf8(rest))
  {
    var s := Unescaped(c);
    assert (s + rest)[1..] == rest && s[1..] == "";
    assert FirstScalar(s) == FirstScalar(s + rest) == Scalar(s[0] as int, 1);
  }

  /** Escapes begin at a boundary. */
  lemma EscapeIsBoundary(ps: seq<Piece>)
    requires ArePieces(ps) && PiecesFit(ps) && (ps != [] ==> !ps[0].Plain?)
    ensures IsBoundary(PiecesValue(ps))
  {
    hide CodepointToUtf8, HexNumber;
    if ps != [] {
      PieceNumbers(ps);
      if IsPair(ps) {
        CodepointIsBoundary(PairNumber(ps[0].hex, ps[1].hex));
      } else if ps[0].Unit? {
        CodepointIsBoundary(UnitNumber(ps[0].hex));
      } else {
        ShortFirst(ps[0].c, "");
      }
    }
  }

  lemma PieceNumbers(ps: seq<Piece>)
    requires ArePieces(ps) && ps != []
    ensures ps[0].Unit? ==> UnitNumber(ps[0].hex) <= 0xffff
    ensures IsPair(ps) ==> 0xd800 <= UnitNumber(ps[0].hex) <= 0xdbff && UnitNumber(ps[1].hex) <= 0xffff
    ensures IsPair(ps) ==> PairNumber(ps[0].hex, ps[1].hex) >= 0
  {
    hide HexNumber;
    assert IsPiece(ps[0]);
    if ps[0].Unit? {
      HexNumberBound(ps[0].hex);
    }
    if IsPair(ps) {
      assert IsPiece(ps[1]);
      HexNumberBound(ps[1].hex);
    }
  }

  lemma {:induction false} PlainValue(ps: seq<Piece>, n: nat)
    requires n <= |ps| && forall k :: 0 <= k < n ==> ps[k].Plain?
    ensures PiecesValue(ps) == PiecesText(ps[..n]) + PiecesValue(ps[n..])
  {
    hide Utf8Octets, UnitNumber, Unescaped, PairNumber;
    if n == 0 {
      assert ps[0..] == ps;
    } else {
      PlainValue(ps[1..], n - 1);
      assert ps[..n][1..] == ps[1..][..n - 1] && ps[1..][n - 1..] == ps[n..];
      assert PiecesText(ps[..n]) == [ps[0].c] + PiecesText(ps[1..][..n - 1]);
    }
  }

  /** What parse_string returns holds the characters that the pieces spell, and is UTF-8 only if they spell any. */
  lemma {:induction false} StringDecoded(ps: seq<Piece>)
    requires ArePieces(ps) && PiecesFit(ps)
    ensures DecodeUtf8(PiecesValue(ps)) == Spelled(ps, false)
    decreases |ps|
  {
    hide DecodeUtf8, CodepointToUtf8, HexNumber, Unescaped, PairNumber, UnitNumber, IsHighUnit;
    if ps == [] {
      EmptyIsUtf8();
    } else {
      PieceNumbers(ps);
      assert IsPiece(ps[0]);
      if IsPair(ps) {
        StringDecoded(ps[2..]);
        CodepointFirst(PairNumber(ps[0].hex, ps[1].hex), PiecesValue(ps[2..]));
      } else if ps[0].Unit? {
        StringDecoded(ps[1..]);
        CodepointFirst(UnitNumber(ps[0].hex), PiecesValue(ps[1..]));
      } else if ps[0].Short? {
        StringDecoded(ps[1..]);
        ShortFirst(ps[0].c, PiecesValue(ps[1..]));
      } else {
        var n := PlainRun(ps);
        PlainValue(ps, n);
        PlainFits(ps, n);
        StringDecoded(ps[n..]);
        EscapeIsBoundary(ps[n..]);
        DecodeUtf8Append(PiecesText(ps[..n]), PiecesValue(ps[n..]));
      }
    }
  }

  lemma EmptyIsUtf8()
    ensures DecodeUtf8("") == Scalars([])
  {
  }

  // When the pieces are well formed.

  /** Every run of octets is UTF-8. */
  predicate PlainIsUtf8(ps: seq<Piece>)
    decreases |ps|
  {
    if ps == [] then true
    else if ps[0].Plain? then
      var n := PlainRun(ps);
      DecodeUtf8(PiecesText(ps[..n])).Scalars? && PlainIsUtf8(ps[n..])
    else PlainIsUtf8(ps[1..])
  }

  /** Every pair ends in a low surrogate, and no surrogate stands alone. */
  predicate UnitsArePaired(ps: seq<Piece>)
    decreases |ps|
  {
    if ps == [] then true
    else if IsPair(ps) then IsLowUnit(ps[1].hex) && UnitsArePaired(ps[2..])
    else (ps[0].Unit? ==> IsScalar(UnitNumber(ps[0].hex))) && UnitsArePaired(ps[1..])
  }

  lemma {:induction false} PlainIsPaired(ps: seq<Piece>, n: nat)
    requires n <= |ps| && forall k :: 0 <= k < n ==> ps[k].Plain?
    ensures UnitsArePaired(ps) <==> UnitsArePaired(ps[n..])
  {
    if n == 0 {
      assert ps[0..] == ps;
    } else {
      PlainIsPaired(ps[1..], n - 1);
      assert ps[1..][n - 1..] == ps[n..];
    }
  }

  lemma {:induction false} SpelledIff(ps: seq<Piece>)
    requires ArePieces(ps)
    ensures Spelled(ps, true).Scalars? <==> PlainIsUtf8(ps) && UnitsArePaired(ps)
    ensures Spelled(ps, true).Scalars? ==> PiecesFit(ps) && Spelled(ps, false) == Spelled(ps, true)
    decreases |ps|
  {
    hide DecodeUtf8, HexNumber, Unescaped, UnitNumber, IsHighUnit;
    if ps != [] {
      PieceNumbers(ps);
      assert IsPiece(ps[0]);
      if IsPair(ps) {
        SpelledIff(ps[2..]);
        assert ps[1..][1..] == ps[2..];
      } else if ps[0].Plain? {
        var n := PlainRun(ps);
        SpelledIff(ps[n..]);
        PlainIsPaired(ps, n);
        PlainFits(ps, n);
      } else {
        SpelledIff(ps[1..]);
        if ps[0].Short? {
          ShortIsUtf8(ps[0].c);
        }
      }
    }
  }

  lemma {:induction false} PlainFits(ps: seq<Piece>, n: nat)
    requires n <= |ps| && forall k :: 0 <= k < n ==> ps[k].Plain?
    ensures PiecesFit(ps) <==> PiecesFit(ps[n..])
  {
    if n == 0 {
      assert ps[0..] == ps;
    } else {
      PlainFits(ps[1..], n - 1);
      assert ps[1..][n - 1..] == ps[n..];
    }
  }

  lemma ShortIsUtf8(c: char)
    requires c in "\\/\"bfnrt"
    ensures DecodeUtf8(Unescaped(c)) == Scalars([Unescaped(c)[0] as nat])
  {
    var s := Unescaped(c);
    assert s[1..] == "" && FirstScalar(s) == Scalar(s[0] as int, 1);
  }

  /**
   * A string is decoded to the characters that it spells, if its octets are UTF-8, every high surrogate is followed by
   * a low one and no other surrogate stands in it; they are those of the pairs of RFC 8259, section 7.
   */
  lemma WellFormedIsDecoded(before: string, ps: seq<Piece>, after: string)
    requires IsSpaces(before) && IsSpaces(after) && ArePieces(ps) && PlainIsUtf8(ps) && UnitsArePaired(ps)
    ensures Decode(before + (QuotedText(ps) + after)) == Result(Str(PiecesValue(ps)))
    ensures DecodeUtf8(PiecesValue(ps)) == Spelled(ps, true) && Spelled(ps, true).Scalars?
  {
    hide Decode, DecodeUtf8, Spelled, PlainIsUtf8, UnitsArePaired, PiecesFit, PiecesValue, ArePieces, QuotedText;
    SpelledIff(ps);
    StringDecoded(ps);
    var d := Document(before, Quoted(ps), after);
    assert IsDocument(d) && DocumentText(d) == before + (QuotedText(ps) + after) && Fits(d.val);
    DecodedIff(DocumentText(d), Str(PiecesValue(ps)));
  }

  /** A pair that ends in a low surrogate is spelled as the code point whose surrogate pair it is. */
  lemma PairIsSpelled(ps: seq<Piece>)
    requires ArePieces(ps) && IsPair(ps) && IsLowUnit(ps[1].hex)
    ensures var n := PairNumber(ps[0].hex, ps[1].hex);
            0x10000 <= n <= 0x10ffff && SurrogatePair(n) == (UnitNumber(ps[0].hex), UnitNumber(ps[1].hex))
            && Spelled(ps, true) == Joined(Scalars([n]), Spelled(ps[2..], true))
  {
    hide HexNumber, UnitNumber;
    PieceNumbers(ps);
    PairOfUnits(UnitNumber(ps[0].hex), UnitNumber(ps[1].hex));
  }

  /** The second unit of a pair is low exactly if some code point has this surrogate pair. */
  lemma PairIsLowIff(ps: seq<Piece>)
    requires ArePieces(ps) && IsPair(ps)
    ensures IsLowUnit(ps[1].hex) <==>
            exists n :: 0x10000 <= n <= 0x10ffff && SurrogatePair(n) == (UnitNumber(ps[0].hex), UnitNumber(ps[1].hex))
  {
    hide HexNumber, UnitNumber;
    PieceNumbers(ps);
    if IsLowUnit(ps[1].hex) {
      PairOfUnits(UnitNumber(ps[0].hex), UnitNumber(ps[1].hex));
      var n := PairNumber(ps[0].hex, ps[1].hex);
      assert SurrogatePair(n) == (UnitNumber(ps[0].hex), UnitNumber(ps[1].hex));
    }
  }
}
