/** Unicode escapes: what parse_string makes of them is UTF-8 (RFC 3629) that a standard decoder reads back. */
module JsonUnicode {
  import opened Texts
  import opened JsonDecode
  import opened JsonRoundTrip

  /** A Unicode scalar value: a code point that is not a surrogate. */
  predicate IsScalar(n: nat) {
    n < 0xd800 || 0xe000 <= n <= 0x10ffff
  }

  // A strict decoder, after the syntax of octet sequences in section 4 of RFC 3629.

  predicate IsTail(c: char) {
    0x80 <= c as int <= 0xbf
  }

  datatype Utf8Step = Scalar(n: nat, length: nat) | Malformed

  /** The character that s starts with. */
  function FirstScalar(s: string): (r: Utf8Step)
    requires s != ""
    ensures r.Scalar? ==> 0 < r.length <= |s|
  {
    var a := s[0] as int;
    if a < 0x80 then Scalar(a, 1)
    else if 0xc2 <= a <= 0xdf && |s| >= 2 && IsTail(s[1]) then
      Scalar((a - 0xc0) * 64 + (s[1] as int - 0x80), 2)
    else if 0xe0 <= a <= 0xef && |s| >= 3 && IsTail(s[1]) && IsTail(s[2])
         && (a == 0xe0 ==> s[1] as int >= 0xa0) && (a == 0xed ==> s[1] as int <= 0x9f) then
      Scalar((a - 0xe0) * 4096 + (s[1] as int - 0x80) * 64 + (s[2] as int - 0x80), 3)
    else if 0xf0 <= a <= 0xf4 && |s| >= 4 && IsTail(s[1]) && IsTail(s[2]) && IsTail(s[3])
         && (a == 0xf0 ==> s[1] as int >= 0x90) && (a == 0xf4 ==> s[1] as int <= 0x8f) then
      Scalar((a - 0xf0) * 262144 + (s[1] as int - 0x80) * 4096 + (s[2] as int - 0x80) * 64 + (s[3] as int - 0x80), 4)
    else Malformed
  }

  datatype Utf8Text = Scalars(ns: seq<nat>) | NotUtf8

  function DecodeUtf8(s: string): Utf8Text
    decreases |s|
  {
    if s == "" then Scalars([])
    else
      var first := FirstScalar(s);
      if first.Malformed? then NotUtf8
      else
        var rest := DecodeUtf8(s[first.length..]);
        if rest.NotUtf8? then NotUtf8 else Scalars([first.n] + rest.ns)
  }

  predicate AllScalars(ns: seq<nat>) {
    forall i :: 0 <= i < |ns| ==> IsScalar(ns[i])
  }

  function EncodeUtf8(ns: seq<nat>): string
    requires AllScalars(ns)
  {
    if ns == [] then "" else CodepointToUtf8(ns[0]).octets + EncodeUtf8(ns[1..])
  }

  lemma OneOrTwoOctets(n: nat, s: string)
    requires n <= 0x7ff && CodepointToUtf8(n).octets <= s
    ensures FirstScalar(s) == Scalar(n, |CodepointToUtf8(n).octets|)
  {
    SplitInSixes(n);
  }

  lemma ThreeOctets(n: nat, s: string)
    requires 0x7ff < n <= 0xffff && CodepointToUtf8(n).octets <= s
    ensures FirstScalar(s) == if IsScalar(n) then Scalar(n, 3) else Malformed
  {
    SplitInSixes(n);
  }

  lemma FourOctets(n: nat, s: string)
    requires 0xffff < n <= 0x10ffff && CodepointToUtf8(n).octets <= s
    ensures FirstScalar(s) == Scalar(n, 4)
  {
    SplitInSixes(n);
  }

  /** One code point: its octets are UTF-8 exactly when it is a scalar value. */
  lemma OctetsAreUtf8Iff(n: nat, rest: string)
    requires n <= 0x10ffff
    ensures var u := CodepointToUtf8(n).octets;
            FirstScalar(u + rest) == (if IsScalar(n) then Scalar(n, |u|) else Malformed)
  {
    hide FirstScalar;
    var s := CodepointToUtf8(n).octets + rest;
    if n <= 0x7ff {
      OneOrTwoOctets(n, s);
    } else if n <= 0xffff {
      ThreeOctets(n, s);
    } else {
      FourOctets(n, s);
    }
  }

  lemma SplitInSixes(n: nat)
    ensures n == n / 64 * 64 + n % 64
    ensures n == n / 4096 * 4096 + n % 4096 / 64 * 64 + n % 64
    ensures n == n / 262144 * 262144 + n % 262144 / 4096 * 4096 + n % 4096 / 64 * 64 + n % 64
  {
    var q, r := n / 4096, n % 4096;
    assert n == (q * 64 + r / 64) * 64 + r % 64;
    var h, l := n / 262144, n % 262144;
    assert n == (h * 64 + l / 4096) * 4096 + l % 4096;
  }

  lemma {:induction false} Utf8RoundTrip(ns: seq<nat>)
    requires AllScalars(ns)
    ensures DecodeUtf8(EncodeUtf8(ns)) == Scalars(ns)
  {
    hide FirstScalar, CodepointToUtf8;
    if ns != [] {
      var u := CodepointToUtf8(ns[0]).octets;
      OctetsAreUtf8Iff(ns[0], EncodeUtf8(ns[1..]));
      Utf8RoundTrip(ns[1..]);
      assert (u + EncodeUtf8(ns[1..]))[|u|..] == EncodeUtf8(ns[1..]);
    }
  }

  // The decoder is strict: it takes nothing but the octets of scalar values.

  /** Digits to the base 64. */
  lemma SixesOf(h: nat, x: nat, y: nat, z: nat)
    requires x < 64 && y < 64 && z < 64
    ensures var n := h * 262144 + x * 4096 + y * 64 + z;
            n / 262144 == h && n % 262144 / 4096 == x && n % 4096 / 64 == y && n % 64 == z
  {
    var n, front, low := h * 262144 + x * 4096 + y * 64 + z, h * 64 + x, y * 64 + z;
    By64(h * 4096 + x * 64 + y, z);
    By64(y, z);
    By4096(front, low);
    By4096(x, low);
    By262144(h, x * 4096 + low);
    assert n == 4096 * front + low && n == 262144 * h + (4096 * x + low);
    assert n == 64 * (h * 4096 + x * 64 + y) + z;
  }

  lemma By64(q: nat, r: nat)
    requires r < 64
    ensures (64 * q + r) / 64 == q && (64 * q + r) % 64 == r
  {
  }

  lemma By4096(q: nat, r: nat)
    requires r < 4096
    ensures (4096 * q + r) / 4096 == q && (4096 * q + r) % 4096 == r
  {
  }

  lemma By262144(q: nat, r: nat)
    requires r < 262144
    ensures (262144 * q + r) / 262144 == q && (262144 * q + r) % 262144 == r
  {
  }

  lemma LongScalar(s: string)
    requires |s| >= 4 && s[0] as int >= 0xf0 && FirstScalar(s).Scalar?
    ensures var r := FirstScalar(s); 0x10000 <= r.n <= 0x10ffff && CodepointToUtf8(r.n).octets == s[..r.length]
  {
    SixesOf(s[0] as int - 0xf0, s[1] as int - 0x80, s[2] as int - 0x80, s[3] as int - 0x80);
  }

  lemma MiddleScalar(s: string)
    requires |s| >= 3 && 0xe0 <= s[0] as int <= 0xef && FirstScalar(s).Scalar?
    ensures var r := FirstScalar(s); IsScalar(r.n) && CodepointToUtf8(r.n).octets == s[..r.length]
  {
    SixesOf(0, s[0] as int - 0xe0, s[1] as int - 0x80, s[2] as int - 0x80);
  }

  lemma ShortScalar(s: string)
    requires s != "" && s[0] as int < 0xe0 && FirstScalar(s).Scalar?
    ensures var r := FirstScalar(s); r.n < 0x800 && CodepointToUtf8(r.n).octets == s[..r.length]
  {
  }

  lemma ScalarOfOctets(s: string)
    requires s != "" && FirstScalar(s).Scalar?
    ensures var r := FirstScalar(s); IsScalar(r.n) && CodepointToUtf8(r.n).octets == s[..r.length]
  {
    if s[0] as int < 0xe0 {
      ShortScalar(s);
    } else if s[0] as int <= 0xef {
      assert |s| >= 3;
      MiddleScalar(s);
    } else {
      assert |s| >= 4;
      LongScalar(s);
    }
    hide FirstScalar, CodepointToUtf8;
  }

  lemma {:induction false} OnlyEncodingsAreDecoded(s: string)
    requires DecodeUtf8(s).Scalars?
    ensures AllScalars(DecodeUtf8(s).ns) && EncodeUtf8(DecodeUtf8(s).ns) == s
    decreases |s|
  {
    hide FirstScalar, CodepointToUtf8;
    if s != "" {
      var r := FirstScalar(s);
      ScalarOfOctets(s);
      OnlyEncodingsAreDecoded(s[r.length..]);
    }
  }

  // The escapes of a scalar value, with digits of either case.

  /** The hexadecimal digit of d, in either case. */
  predicate IsDigitOf(c: char, d: nat)
    requires d < 16
  {
    c == "0123456789abcdef"[d] || c == "0123456789ABCDEF"[d]
  }

  /** Four hexadecimal digits, highest first. */
  predicate SpellsHex(s: string, n: nat) {
    && |s| == 4 && n < 0x10000
    && IsDigitOf(s[0], n / 0x1000) && IsDigitOf(s[1], n / 0x100 % 0x10)
    && IsDigitOf(s[2], n / 0x10 % 0x10) && IsDigitOf(s[3], n % 0x10)
  }

  /** The decoder's digits are these, each with its value. */
  lemma HexDigitIff(c: char, d: nat)
    requires d < 16
    ensures IsHex(c) && HexDigit(c) == d <==> IsDigitOf(c, d)
  {
    assert IsHex(c) && HexDigit(c) == d ==> c == (if d < 10 then '0' as int + d else 'a' as int + d - 10) as char
                                            || c == (if d < 10 then '0' as int + d else 'A' as int + d - 10) as char;
  }

  /** It reads a number from exactly the digits that spell it. */
  lemma HexNumberIff(s: string, n: nat)
    ensures |s| == 4 && (forall i :: 0 <= i < 4 ==> IsHex(s[i])) && HexNumber(s) == n <==> SpellsHex(s, n)
  {
    hide IsDigitOf, IsHex, HexDigit, HexNumber;
    if |s| == 4 {
      HexDigitsIff(s, n);
    }
  }

  lemma HexDigitsIff(s: string, n: nat)
    requires |s| == 4
    ensures (forall i :: 0 <= i < 4 ==> IsHex(s[i])) && HexNumber(s) == n <==> SpellsHex(s, n)
  {
    hide IsDigitOf, IsHex, HexDigit, HexNumber;
    if n < 0x10000 {
      HexDigitIff(s[0], n / 0x1000);
      HexDigitIff(s[1], n / 0x100 % 0x10);
      HexDigitIff(s[2], n / 0x10 % 0x10);
      HexDigitIff(s[3], n % 0x10);
    }
    if forall i :: 0 <= i < 4 ==> IsHex(s[i]) {
      HexNumberBound(s);
      FourDigits(n, HexDigit(s[0]), HexDigit(s[1]), HexDigit(s[2]), HexDigit(s[3]));
    }
  }

  lemma LastDigit(n: nat, front: nat, d: nat)
    requires d < 16
    ensures n == front * 16 + d <==> n / 16 == front && n % 16 == d
  {
  }

  lemma FourDigits(n: nat, a: nat, b: nat, c: nat, d: nat)
    requires a < 16 && b < 16 && c < 16 && d < 16
    ensures n == a * 4096 + b * 256 + c * 16 + d <==>
            n < 0x10000 && a == n / 0x1000 && b == n / 0x100 % 0x10 && c == n / 0x10 % 0x10 && d == n % 0x10
  {
    LastDigit(n, a * 256 + b * 16 + c, d);
    LastDigit(n / 16, a * 16 + b, c);
    LastDigit(n / 16 / 16, a, b);
    assert n / 16 / 16 == n / 0x100 && n / 16 / 16 / 16 == n / 0x1000;
  }

  /** text[at..at + 6] is backslash, u and four hexadecimal digits that spell n. */
  predicate IsUnit(text: string, at: nat, n: nat) {
    CharAt(text, at, '\\') && CharAt(text, at + 1, 'u') && at + 6 <= |text| && SpellsHex(text[at + 2..at + 6], n)
  }

  /** One unit, or a surrogate pair above 0xFFFF. */
  predicate IsEscapeOf(text: string, n: nat) {
    if n <= 0xffff then |text| == 6 && IsUnit(text, 0, n)
    else
      && |text| == 12
      && IsUnit(text, 0, 0xd800 + (n - 0x10000) / 0x400)
      && IsUnit(text, 6, 0xdc00 + (n - 0x10000) % 0x400)
  }

  lemma HighSurrogateDigits(s: string)
    requires |s| == 4 && forall i :: 0 <= i < 4 ==> IsHex(s[i])
    ensures 0xd800 <= HexNumber(s) <= 0xdbff <==> s[0] in "dD" && s[1] in "89aAbB"
  {
    HexNumberBound(s);
    assert 0xd800 <= HexNumber(s) <= 0xdbff ==> HexDigit(s[0]) == 13 && 8 <= HexDigit(s[1]) <= 11;
  }

  lemma UnitStands(str: string, j: nat, text: string, at: nat, n: nat)
    requires StandsAt(str, j, text) && IsUnit(text, at, n)
    ensures IsUnit(str, j + at, n)
  {
    StandsChars(str, j, text);
    assert str[j + at + 2..j + at + 6] == text[at + 2..at + 6];
  }

  lemma UnitIsHex(text: string, at: nat, n: nat)
    requires IsUnit(text, at, n)
    ensures FourHex(text, at + 2) && HexNumber(text[at + 2..at + 6]) == n
  {
    hide SpellsHex, HexNumber, IsHex;
    HexNumberIff(text[at + 2..at + 6], n);
    var s := text[at + 2..at + 6];
    assert forall k :: at + 2 <= k < at + 6 ==> text[k] == s[k - at - 2];
  }

  /** The decoder undoes one escape. */
  lemma EscapeDecoded(str: string, j: nat, text: string, n: nat)
    requires IsScalar(n) && IsEscapeOf(text, n) && StandsAt(str, j, text)
    ensures CharAt(str, j, '\\') && EscapeAt(str, j) == Ok(CodepointToUtf8(n).octets, j + |text|)
  {
    hide HexNumber, HexDigit, IsHex, CodepointToUtf8, StandsAt, SpellsHex;
    UnitIsHex(text, 0, if n <= 0xffff then n else 0xd800 + (n - 0x10000) / 0x400);
    HighSurrogateDigits(text[2..6]);
    if n <= 0xffff {
      UnitStands(str, j, text, 0, n);
      UnitIsHex(str, j, n);
      HighSurrogateDigits(str[j + 2..j + 6]);
      assert !TwoUnits(str, j + 2);
    } else {
      UnitStands(str, j, text, 0, 0xd800 + (n - 0x10000) / 0x400);
      UnitStands(str, j, text, 6, 0xdc00 + (n - 0x10000) % 0x400);
      UnitIsHex(str, j, 0xd800 + (n - 0x10000) / 0x400);
      UnitIsHex(str, j + 6, 0xdc00 + (n - 0x10000) % 0x400);
      HighSurrogateDigits(str[j + 2..j + 6]);
      assert TwoUnits(str, j + 2);
    }
  }

  /** The surrogate pair of a code point above 0xFFFF. */
  function SurrogatePair(n: nat): (int, int)
    requires n >= 0x10000
  {
    (0xd800 + (n - 0x10000) / 0x400, 0xdc00 + (n - 0x10000) % 0x400)
  }

  function FirstUnit(str: string, i: nat): nat
    requires FourHex(str, i)
  {
    HexNumber(str[i..i + 4])
  }

  function SecondUnit(str: string, i: nat): nat
    requires TwoUnits(str, i)
  {
    HexNumber(str[i + 6..i + 10])
  }

  /** The number whose octets an escape becomes. */
  function EscapeNumber(str: string, i: nat): nat
    requires FourHex(str, i)
  {
    HexNumberBound(str[i..i + 4]);
    if TwoUnits(str, i) then (FirstUnit(str, i) - 0xd800) * 0x400 + (SecondUnit(str, i) - 0xdc00) + 0x10000
    else FirstUnit(str, i)
  }

  lemma UnitsInRange(str: string, i: nat)
    requires FourHex(str, i)
    ensures FirstUnit(str, i) <= 0xffff
    ensures TwoUnits(str, i) ==> 0xd800 <= FirstUnit(str, i) <= 0xdbff && SecondUnit(str, i) <= 0xffff
  {
    hide HexNumber;
    HexNumberBound(str[i..i + 4]);
    if TwoUnits(str, i) {
      HexNumberBound(str[i + 6..i + 10]);
    }
  }

  lemma PairOfUnits(n1: nat, n2: nat)
    requires 0xd800 <= n1 <= 0xdbff && 0xdc00 <= n2 <= 0xdfff
    ensures var n := (n1 - 0xd800) * 0x400 + (n2 - 0xdc00) + 0x10000;
            0x10000 <= n <= 0x10ffff && SurrogatePair(n) == (n1, n2)
  {
    var d := n2 - 0xdc00;
    assert ((n1 - 0xd800) * 0x400 + d) / 0x400 == n1 - 0xd800;
  }

  /**
   * parse_unicode_escape checks only the first unit of a pair: it gives the octets of the code point whose surrogate
   * pair the two units are, if and only if the second one is a low surrogate.
   */
  lemma PairIsRightIff(str: string, i: nat)
    requires TwoUnits(str, i)
    ensures (exists n :: 0x10000 <= n <= 0x10ffff && SurrogatePair(n) == (FirstUnit(str, i), SecondUnit(str, i))
                         && UnicodeEscape(str, i) == (CodepointToUtf8(n), 10))
            <==> 0xdc00 <= SecondUnit(str, i) <= 0xdfff
  {
    hide HexNumber, CodepointToUtf8;
    UnitsInRange(str, i);
    var n1, n2 := FirstUnit(str, i), SecondUnit(str, i);
    if 0xdc00 <= n2 <= 0xdfff {
      PairOfUnits(n1, n2);
      var n := EscapeNumber(str, i);
      assert SurrogatePair(n) == (n1, n2) && UnicodeEscape(str, i) == (CodepointToUtf8(n), 10);
    }
  }

  /** The decoder raises its code point error exactly on pairs whose second unit is this far above low surrogates. */
  lemma PairIsRefusedIff(str: string, j: nat)
    requires CharAt(str, j, '\\') && CharAt(str, j + 1, 'u') && TwoUnits(str, j + 2)
    ensures EscapeAt(str, j) == Fail(InvalidCodepoint) <==>
            SecondUnit(str, j + 2) > 0xdfff + (0xdbff - FirstUnit(str, j + 2)) * 0x400
  {
    hide HexNumber, CodepointToUtf8;
    UnitsInRange(str, j + 2);
  }

  /** What an escape becomes is one sequence of UTF-8 exactly when its number is no surrogate. */
  lemma EscapeIsUtf8Iff(str: string, j: nat, rest: string)
    requires CharAt(str, j, '\\') && CharAt(str, j + 1, 'u') && FourHex(str, j + 2) && EscapeAt(str, j).Ok?
    ensures var s := EscapeAt(str, j).val;
            FirstScalar(s + rest) == Scalar(EscapeNumber(str, j + 2), |s|) <==>
            EscapeNumber(str, j + 2) < 0xd800 || EscapeNumber(str, j + 2) > 0xdfff
  {
    hide HexNumber, CodepointToUtf8, FirstScalar;
    UnitsInRange(str, j + 2);
    OctetsAreUtf8Iff(EscapeNumber(str, j + 2), rest);
  }

  /** So a unit on its own is UTF-8 if it is no surrogate, and a pair if its second unit is a low one. */
  lemma LoneSurrogateIsNotUtf8(str: string, j: nat, rest: string)
    requires CharAt(str, j, '\\') && CharAt(str, j + 1, 'u') && FourHex(str, j + 2) && EscapeAt(str, j).Ok?
    ensures !TwoUnits(str, j + 2) ==>
              (FirstScalar(EscapeAt(str, j).val + rest).Malformed? <==> 0xd800 <= FirstUnit(str, j + 2) <= 0xdfff)
    ensures TwoUnits(str, j + 2) && 0xdc00 <= SecondUnit(str, j + 2) <= 0xdfff ==>
              FirstScalar(EscapeAt(str, j).val + rest).Scalar?
  {
    hide HexNumber, CodepointToUtf8, FirstScalar;
    UnitsInRange(str, j + 2);
    OctetsAreUtf8Iff(EscapeNumber(str, j + 2), rest);
    if TwoUnits(str, j + 2) && 0xdc00 <= SecondUnit(str, j + 2) <= 0xdfff {
      PairOfUnits(FirstUnit(str, j + 2), SecondUnit(str, j + 2));
    }
  }

  /** The escape of U+D800 alone: three octets that no UTF-8 decoder takes. */
  lemma LoneSurrogateIsTaken()
    ensures EscapeAt("\\ud800", 0) == Ok(CodepointToUtf8(0xd800).octets, 6)
    ensures EscapeAt("\\ud800", 0).val != "" && FirstScalar(EscapeAt("\\ud800", 0).val).Malformed?
  {
    var str := "\\ud800";
    HexNumberBound(str[2..6]);
    assert FourHex(str, 2) && !TwoUnits(str, 2);
    OctetsAreUtf8Iff(0xd800, "");
    assert CodepointToUtf8(0xd800).octets + "" == CodepointToUtf8(0xd800).octets;
  }

  /** A high surrogate followed by the escape of the letter A is taken for one character, U+2441. */
  lemma SecondUnitUnchecked()
    ensures EscapeAt("\\ud800\\u0041", 0) == Ok(CodepointToUtf8(0x2441).octets, 12)
  {
    var str := "\\ud800\\u0041";
    var n1, n2 := str[2..6], str[8..12];
    HexNumberBound(n1);
    HexNumberBound(n2);
    assert TwoUnits(str, 2);
  }

  function AllTexts(texts: seq<string>): string {
    if texts == [] then "" else texts[0] + AllTexts(texts[1..])
  }

  /** Escapes of scalar values, in either case, come out as their UTF-8 octets, which spell them again. */
  lemma {:induction false} EscapesDecoded(str: string, j: nat, texts: seq<string>, ns: seq<nat>)
    requires |texts| == |ns|
    requires AllScalars(ns) && forall i :: 0 <= i < |ns| ==> IsEscapeOf(texts[i], ns[i])
    requires StandsAt(str, j, AllTexts(texts) + "\"")
    ensures StringRest(str, j) == Ok(EncodeUtf8(ns), j + |AllTexts(texts)| + 1)
    ensures DecodeUtf8(EncodeUtf8(ns)) == Scalars(ns)
    decreases |texts|
  {
    hide IsEscapeOf, EscapeAt, CodepointToUtf8, DecodeUtf8;
    Utf8RoundTrip(ns);
    if ns == [] {
      assert AllTexts(texts) + "\"" == "\"";
      QuoteEnds(str, j);
    } else {
      var rest := AllTexts(texts[1..]) + "\"";
      assert AllTexts(texts) + "\"" == texts[0] + rest;
      StandsSplit(str, j, texts[0], rest);
      EscapeDecoded(str, j, texts[0], ns[0]);
      EscapesDecoded(str, j + |texts[0]|, texts[1..], ns[1..]);
    }
  }
}
