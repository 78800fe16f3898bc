/** The characters and numerals of the decoder, one by one, and a few texts with what they stand for. */
module JsonAnswers {
  import opened JsonValues
  import opened JsonDecode
  import opened JsonSyntax
  import opened JsonGrammar

  // Characters.

  /** Section 2 of RFC 8259: space, tab, line feed and carriage return. */
  lemma SpacesIff(c: char)
    ensures IsSpace(c) <==> c as int in {0x20, 0x09, 0x0a, 0x0d}
    ensures IsDelimiter(c) <==> IsSpace(c) || c as int in {0x5d, 0x7d, 0x2c}
  {
  }

  lemma DigitsIff(c: char, d: nat)
    requires d < 10
    ensures IsDigit(c) && DigitValue(c) == d <==> c == "0123456789"[d]
  {
  }

  /** Section 7: the short escapes and what they stand for; no other character has one. */
  lemma ShortEscapes(c: char)
    ensures c == '\"' ==> Unescaped(c) == [0x22 as char]
    ensures c == '\\' ==> Unescaped(c) == [0x5c as char]
    ensures c == '/' ==> Unescaped(c) == [0x2f as char]
    ensures c == 'b' ==> Unescaped(c) == [0x08 as char]
    ensures c == 'f' ==> Unescaped(c) == [0x0c as char]
    ensures c == 'n' ==> Unescaped(c) == [0x0a as char]
    ensures c == 'r' ==> Unescaped(c) == [0x0d as char]
    ensures c == 't' ==> Unescaped(c) == [0x09 as char]
    ensures c !in {'\"', '\\', '/', 'b', 'f', 'n', 'r', 't'} ==> Unescaped(c) == ""
  {
  }

  /** The letter e with an acute accent, with a capital digit. */
  lemma CapitalDigit()
    ensures EscapeAt("\\u00E9", 0) == Ok([0xc3 as char, 0xa9 as char], 6)
  {
    var str := "\\u00E9";
    HexNumberBound(str[2..6]);
    assert FourHex(str, 2) && !TwoUnits(str, 2);
    assert Octets([0xc3, 0xa9]) == [0xc3 as char, 0xa9 as char];
  }

  // Numerals.

  /** Digits alone, with or without a minus sign: a whole number in the range of Lua integers, or the text. */
  lemma WholeIff(s: string, negative: bool)
    requires AllDigits(s)
    ensures var n: int := if negative then -(DecimalNumber(s) as int) else DecimalNumber(s);
            var text := if negative then "-" + s else s;
            ToNumber(text) ==
            ANumber(if -0x8000_0000_0000_0000 <= n <= 0x7fff_ffff_ffff_ffff then Whole(n) else Other(text))
  {
    hide DecimalNumber;
    var text := if negative then "-" + s else s;
    assert negative ==> text[1..] == s;
    assert Trimmed(text) == text;
  }

  /** A vertical tab or a form feed behind a numeral is space to tonumber. */
  lemma TailIsIgnored(s: string, c: char)
    requires AllDigits(s) && c as int in {0x0b, 0x0c}
    ensures ToNumber(s + [c]) == ToNumber(s)
  {
    assert Trimmed(s) == s && (s + [c])[..|s|] == s;
  }

  /** Not digits alone: with a point, an exponent or a hexadecimal prefix a numeral keeps its text. */
  predicate KeepsText(s: string) {
    ToNumber(s) == ANumber(Other(s))
  }

  lemma PointsAreTaken()
    ensures KeepsText("1.5") && KeepsText("1.") && KeepsText(".5") && KeepsText("-.5")
    ensures ToNumber(".") == NotANumber && ToNumber("1.5.") == NotANumber && ToNumber("") == NotANumber
  {
    assert "-.5"[1..] == ".5";
    RunOfOne("1.5");
    RunOfOne("1.");
    RunOfOne("1.5.");
  }

  lemma ExponentsAreTaken()
    ensures KeepsText("1e5") && KeepsText("1E+5") && KeepsText("1e-5")
  {
    RunOfOne("1e5");
    RunOfOne("1E+5");
    RunOfOne("1e-5");
  }

  lemma ExponentsAreRefused()
    ensures ToNumber("1e") == NotANumber && ToNumber("1e+") == NotANumber && ToNumber("1e5x") == NotANumber
  {
    RunOfOne("1e");
    RunOfOne("1e+");
    RunOfOne("1e5x");
  }

  lemma HexadecimalsAreTaken()
    ensures KeepsText("0xA") && KeepsText("0X.8")
  {
    RunOfOne("0xA");
    RunOfOne("0X.8");
  }

  lemma BinaryExponentsAreTaken()
    ensures KeepsText("0xAp-1") && KeepsText("0xAP1")
  {
    RunOfOne("0xAp-1");
    RunOfOne("0xAP1");
  }

  lemma HexadecimalsAreRefused()
    ensures ToNumber("0x") == NotANumber && ToNumber("0xG") == NotANumber && ToNumber("0xAp") == NotANumber
  {
    RunOfOne("0x");
    RunOfOne("0xG");
    RunOfOne("0xAp");
  }

  lemma RunOfOne(s: string)
    requires |s| > 1 && IsDigit(s[0]) && !IsDigit(s[1])
    ensures DigitRun(s, 0) == 1 && DigitRun(s, 1) == 1
  {
  }

  /** The numerals of section 6 of RFC 8259: a fraction and an exponent have digits, the integer no zero in front. */
  lemma RfcNumbers()
    ensures IsRfcNumber("0") && IsRfcNumber("-0.5") && IsRfcNumber("1E5") && IsRfcNumber("1e-5")
    ensures !IsRfcNumber("1.") && !IsRfcNumber(".5") && !IsRfcNumber("-") && !IsRfcNumber("1e") && !IsRfcNumber("+1")
  {
    RunOfOne("1E5");
    RunOfOne("1e-5");
    RunOfOne("1.");
    RunOfOne("1e");
    var m := "-0.5"[1..];
    assert m == "0.5";
    RunOfOne(m);
    assert DigitRun("0", 1) == 1 && "-"[1..] == "";
  }

  // Tables.

  function NullDocument(): Document {
    Document("", Array(MoreItems(Item("", Literal("null"), ""), LastItem(Item("", Literal("true"), "")))), "")
  }

  lemma NullText()
    ensures DocumentText(NullDocument()) == "[null,true]"
  {
    var last := LastItem(Item("", Literal("true"), ""));
    assert ItemText(Item("", Literal("true"), "")) == "true" && ItemText(Item("", Literal("null"), "")) == "null";
    assert ItemsText(last) == "true" + "]";
    assert ItemsText(MoreItems(Item("", Literal("null"), ""), last)) == "null" + ("," + ("true" + "]"));
  }

  lemma NullValue()
    ensures IsDocument(NullDocument()) && Fits(NullDocument().val)
    ensures JsonValue(NullDocument().val) == Table(map[Index(2) := Boolean(true)])
  {
  }

  /** null under an index or a key leaves nothing there, and the items behind it keep their numbers. */
  lemma NullLeavesNothing()
    ensures Decode("[null,true]") == Result(Table(map[Index(2) := Boolean(true)]))
  {
    hide IsDocument, JsonValue, DocumentText, Decode, Fits;
    NullText();
    NullValue();
    DecodedIff("[null,true]", Table(map[Index(2) := Boolean(true)]));
  }

  /** Of two members with one key the last counts, and a last null leaves nothing. */
  lemma LastMemberCounts(m: Member, n: Member)
    requires PiecesValue(m.key) == PiecesValue(n.key)
    ensures var v := JsonValue(n.val);
            JsonValue(Object(MoreMembers(m, LastMember(n)))) ==
            Table(if v == Nil then map[] else map[Name(PiecesValue(n.key)) := v])
  {
    hide PiecesValue;
    var first := Assign(map[], Name(PiecesValue(m.key)), JsonValue(m.val));
    assert MembersValue(LastMember(n), first) == Assign(first, Name(PiecesValue(n.key)), JsonValue(n.val));
  }

  // Errors.

  lemma StringErrors()
    ensures StringRest("a", 0) == Fail(UnclosedString) && StringRest("\n\"", 0) == Fail(ControlCharacter)
    ensures StringRest("\\x\"", 0) == Fail(InvalidEscape) && StringRest("\\", 0) == Fail(InvalidEscape)
    ensures StringRest("\\u12\"", 0) == Fail(InvalidUnicodeEscape)
  {
    assert !FourHex("\\u12\"", 2);
  }

  lemma ScalarErrors()
    ensures Parse("", 0) == Fail(UnexpectedCharacter) && Parse("x", 0) == Fail(UnexpectedCharacter)
    ensures Parse("tx", 0) == Fail(InvalidLiteral) && Parse("-", 0) == Fail(InvalidNumber)
  {
    assert FindDelimiter("tx", 2) == 2 && "tx"[0..2] == "tx";
    assert FindDelimiter("-", 1) == 1 && "-"[0..1] == "-" && "-"[1..] == "";
  }

  lemma ArrayError()
    ensures Parse("[[] x", 0) == Fail(ExpectedArrayDelimiter)
  {
    assert SkipSpace("[[] x", 1) == 1 && SkipSpace("[[] x", 2) == 2 && SkipSpace("[[] x", 3) == 4;
    assert Parse("[[] x", 1) == Ok(Table(map[]), 3);
  }

  lemma KeyErrors()
    ensures Parse("{x", 0) == Fail(ExpectedKey) && Parse("{\"\"x", 0) == Fail(ExpectedColon)
  {
    assert SkipSpace("{x", 1) == 1 && SkipSpace("{\"\"x", 1) == 1 && SkipSpace("{\"\"x", 3) == 3;
    assert StringRest("{\"\"x", 2) == Ok("", 3);
  }

  lemma ObjectError()
    ensures Parse("{\"\":[]x", 0) == Fail(ExpectedObjectDelimiter)
  {
    var s := "{\"\":[]x";
    assert SkipSpace(s, 1) == 1 && SkipSpace(s, 3) == 3 && SkipSpace(s, 4) == 4 && SkipSpace(s, 5) == 5;
    assert StringRest(s, 2) == Ok("", 3) && SkipSpace(s, 6) == 6;
    assert Parse(s, 4) == Ok(Table(map[]), 6);
  }

  lemma TrailingError()
    ensures Decode("[] x") == Error(TrailingGarbage)
  {
    assert SkipSpace("[] x", 0) == 0 && SkipSpace("[] x", 1) == 1 && SkipSpace("[] x", 2) == 3;
  }
}
