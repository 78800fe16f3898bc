/** Decoding undoes encoding. */
module JsonRoundTrip {
  import opened Texts
  import opened JsonValues
  import opened JsonEncode
  import opened JsonDecode

  /** Where a number or a literal may end. */
  predicate Bounded(str: string, i: nat) {
    i == |str| || (i < |str| && IsDelimiter(str[i]))
  }

  // Numbers.

  lemma {:induction false} NatTextDigits(n: nat)
    ensures AllDigits(NatText(n)) && DecimalNumber(NatText(n)) == n
  {
    if n < 10 {
      assert NatText(n)[..0] == "";
      HexCharValue(n);
    } else {
      NatTextDigits(n / 10);
      HexCharValue(n % 10);
      assert NatText(n)[..|NatText(n)| - 1] == NatText(n / 10);
    }
  }

  lemma HexCharValue(d: nat)
    requires d < 16
    ensures IsHex(HexChar(d)) && HexDigit(HexChar(d)) == d
    ensures d < 10 ==> IsDigit(HexChar(d)) && DigitValue(HexChar(d)) == d
  {
  }

  lemma NumberRoundTrip(n: int)
    requires -TEN_TO_THE_14 < n < TEN_TO_THE_14
    ensures ToNumber(NumberText(n)) == ANumber(Whole(n))
    ensures IsDigit(NumberText(n)[0]) || NumberText(n)[0] == '-'
    ensures forall i :: 0 <= i < |NumberText(n)| ==> !IsDelimiter(NumberText(n)[i])
  {
    var s := NumberText(n);
    var m := NatText(if n < 0 then -n else n);
    NatTextDigits(if n < 0 then -n else n);
    assert n < 0 ==> s[1..] == m;
    assert Trimmed(s) == s;
  }

  lemma ParseNumberText(str: string, i: nat, n: int)
    requires -TEN_TO_THE_14 < n < TEN_TO_THE_14
    requires StandsAt(str, i, NumberText(n)) && Bounded(str, i + |NumberText(n)|)
    ensures Parse(str, i) == Ok(Number(Whole(n)), i + |NumberText(n)|)
  {
    hide ToNumber, NumberText;
    var s := NumberText(n);
    NumberRoundTrip(n);
    assert str[i] == s[0];
    DelimiterBehind(str, i, s);
  }

  lemma DelimiterBehind(str: string, i: nat, s: string)
    requires StandsAt(str, i, s) && Bounded(str, i + |s|)
    requires forall k :: 0 <= k < |s| ==> !IsDelimiter(s[k])
    ensures FindDelimiter(str, i) == i + |s|
  {
    var j := FindDelimiter(str, i);
    StandsChars(str, i, s);
  }

  lemma ParseLiteralText(str: string, i: nat, word: string)
    requires word in {"true", "false", "null"}
    requires StandsAt(str, i, word) && Bounded(str, i + |word|)
    ensures Parse(str, i) ==
            Ok(if word == "true" then Boolean(true) else if word == "false" then Boolean(false) else Nil, i + |word|)
  {
    assert str[i] == word[0];
    DelimiterBehind(str, i, word);
  }

  // Strings.

  lemma ShortEscapeReadBack(str: string, j: nat, c: char)
    requires ShortEscape(c) != 'u'
    requires j + 2 <= |str| && str[j] == '\\' && str[j + 1] == ShortEscape(c)
    ensures StringRest(str, j) == Prefixed([c], StringRest(str, j + 2))
  {
    assert Unescaped(str[j + 1]) == [c];
  }

  lemma LongEscapeReadBack(str: string, j: nat, c: char)
    requires c as int < 32
    requires j + 6 <= |str| && str[j] == '\\' && str[j + 1] == 'u' && str[j + 2] == '0' && str[j + 3] == '0'
    requires str[j + 4] == HexChar(c as int / 16) && str[j + 5] == HexChar(c as int % 16)
    ensures StringRest(str, j) == Prefixed([c], StringRest(str, j + 6))
  {
    HexCharValue(c as int / 16);
    HexCharValue(c as int % 16);
    assert FourHex(str, j + 2) && !TwoUnits(str, j + 2);
    HexNumberBound(str[j + 2..j + 6]);
    assert Octets([c as int]) == [c];
  }

  /** One escape read back. */
  lemma EscapeReadBack(str: string, j: nat, c: char)
    requires NeedsEscape(c) && StandsAt(str, j, EscapeChar(c))
    ensures StringRest(str, j) == Prefixed([c], StringRest(str, j + |EscapeChar(c)|))
  {
    hide StringRest, Prefixed;
    var e := EscapeChar(c);
    StandsChars(str, j, e);
    if ShortEscape(c) == 'u' {
      LongEscapeReadBack(str, j, c);
    } else {
      ShortEscapeReadBack(str, j, c);
    }
  }

  lemma PlainReadBack(str: string, j: nat, c: char)
    requires !NeedsEscape(c) && CharAt(str, j, c)
    ensures StringRest(str, j) == Prefixed([c], StringRest(str, j + 1))
  {
  }

  lemma QuoteEnds(str: string, j: nat)
    requires StandsAt(str, j, "\"")
    ensures StringRest(str, j) == Ok("", j + 1)
  {
    StandsChars(str, j, "\"");
  }

  lemma {:induction false} StringReadBack(str: string, j: nat, s: string)
    requires StandsAt(str, j, EscapedText(s) + "\"")
    ensures StringRest(str, j) == Ok(s, j + |EscapedText(s)| + 1)
    decreases |s|
  {
    hide StringRest, NeedsEscape, EscapeChar;
    if s == "" {
      assert EscapedText(s) + "\"" == "\"";
      QuoteEnds(str, j);
    } else {
      var first := if NeedsEscape(s[0]) then EscapeChar(s[0]) else [s[0]];
      var rest := EscapedText(s[1..]) + "\"";
      assert EscapedText(s) + "\"" == first + rest;
      StandsSplit(str, j, first, rest);
      StringReadBack(str, j + |first|, s[1..]);
      if NeedsEscape(s[0]) {
        EscapeReadBack(str, j, s[0]);
      } else {
        StandsChars(str, j, first);
        PlainReadBack(str, j, s[0]);
      }
      assert [s[0]] + s[1..] == s;
    }
  }

  lemma ParseStringText(str: string, i: nat, s: string)
    requires StandsAt(str, i, StringText(s))
    ensures CharAt(str, i, '\"') && StringRest(str, i + 1) == Ok(s, i + |StringText(s)|)
    ensures Parse(str, i) == Ok(Str(s), i + |StringText(s)|)
  {
    hide StringRest, EscapedText;
    assert StringText(s) == "\"" + (EscapedText(s) + "\"");
    StandsSplit(str, i, "\"", EscapedText(s) + "\"");
    StandsChars(str, i, "\"");
    StringReadBack(str, i + 1, s);
  }
}
