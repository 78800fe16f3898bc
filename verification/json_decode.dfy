/** The decoder of json.lua. Positions count from 0, so the source's index is one more. */
module JsonDecode {
  import opened Texts
  import opened JsonValues

  datatype DecodeError =
    | ControlCharacter
    | InvalidUnicodeEscape
    | InvalidEscape
    | UnclosedString
    | InvalidCodepoint
    | InvalidNumber
    | InvalidLiteral
    | ExpectedArrayDelimiter
    | ExpectedKey
    | ExpectedColon
    | ExpectedObjectDelimiter
    | UnexpectedCharacter
    | TrailingGarbage

  /** The value and the position behind it, or the error raised. */
  datatype Parsed<T> = Ok(val: T, next: nat) | Fail(error: DecodeError)

  predicate IsSpace(c: char) {
    c in " \t\r\n"
  }

  predicate IsDelimiter(c: char) {
    c in " \t\r\n]},"
  }

  /** next_char with the set of spaces, negated. */
  function SkipSpace(str: string, i: nat): (j: nat)
    requires i <= |str|
    ensures i <= j <= |str|
    ensures forall k :: i <= k < j ==> IsSpace(str[k])
    ensures j < |str| ==> !IsSpace(str[j])
    decreases |str| - i
  {
    if i == |str| || !IsSpace(str[i]) then i else SkipSpace(str, i + 1)
  }

  /** next_char with the set of delimiters. */
  function FindDelimiter(str: string, i: nat): (j: nat)
    requires i <= |str|
    ensures i <= j <= |str|
    ensures forall k :: i <= k < j ==> !IsDelimiter(str[k])
    ensures j < |str| ==> IsDelimiter(str[j])
    decreases |str| - i
  {
    if i == |str| || IsDelimiter(str[i]) then i else FindDelimiter(str, i + 1)
  }

  // Strings.

  predicate IsDigit(c: char) {
    '0' <= c <= '9'
  }

  predicate IsHex(c: char) {
    IsDigit(c) || 'a' <= c <= 'f' || 'A' <= c <= 'F'
  }

  function HexDigit(c: char): (d: nat)
    requires IsHex(c)
    ensures d < 16
  {
    if IsDigit(c) then c as int - '0' as int
    else if 'a' <= c <= 'f' then c as int - 'a' as int + 10
    else c as int - 'A' as int + 10
  }

  /** The number that hexadecimal digits spell. */
  function HexNumber(s: string): (n: nat)
    requires forall i :: 0 <= i < |s| ==> IsHex(s[i])
  {
    if s == "" then 0 else HexNumber(s[..|s| - 1]) * 16 + HexDigit(s[|s| - 1])
  }

  predicate FourHex(str: string, i: nat) {
    i + 4 <= |str| && forall k :: i <= k < i + 4 ==> IsHex(str[k])
  }

  /** Four digits of a high surrogate and an escape right behind them, whatever its digits are. */
  predicate TwoUnits(str: string, i: nat) {
    FourHex(str, i) && str[i] in "dD" && str[i + 1] in "89aAbB"
    && CharAt(str, i + 4, '\\') && CharAt(str, i + 5, 'u') && FourHex(str, i + 6)
  }

  /** The text of the octets with the given codes. */
  function Octets(codes: seq<nat>): (s: string)
    requires forall i :: 0 <= i < |codes| ==> codes[i] < 256
    ensures |s| == |codes|
  {
    seq(|codes|, i requires 0 <= i < |codes| => codes[i] as char)
  }

  datatype Utf8 = Utf8(octets: string) | NotACodepoint

  function CodepointToUtf8(n: nat): (r: Utf8)
    ensures r.Utf8? <==> n <= 0x10ffff
  {
    if n <= 0x7f then Utf8(Octets([n]))
    else if n <= 0x7ff then Utf8(Octets([n / 64 + 192, n % 64 + 128]))
    else if n <= 0xffff then Utf8(Octets([n / 4096 + 224, n % 4096 / 64 + 128, n % 64 + 128]))
    else if n <= 0x10ffff then
      Utf8(Octets([n / 262144 + 240, n % 262144 / 4096 + 128, n % 4096 / 64 + 128, n % 64 + 128]))
    else NotACodepoint
  }

  lemma HexNumberBound(s: string)
    requires |s| == 4 && forall i :: 0 <= i < 4 ==> IsHex(s[i])
    ensures HexNumber(s) == HexDigit(s[0]) * 4096 + HexDigit(s[1]) * 256 + HexDigit(s[2]) * 16 + HexDigit(s[3])
    ensures s[0] in "dD" && s[1] in "89aAbB" ==> 0xd800 <= HexNumber(s) <= 0xdbff
  {
    assert s[..3][..2] == s[..2] && s[..2][..1] == s[..1];
    assert HexNumber(s[..1]) == HexDigit(s[0]);
    assert HexNumber(s[..2]) == HexDigit(s[0]) * 16 + HexDigit(s[1]);
    assert HexNumber(s[..3]) == HexNumber(s[..2]) * 16 + HexDigit(s[2]);
  }

  /** parse_unicode_escape on the escape whose digits start at i: the octets, and how long the match is. */
  function UnicodeEscape(str: string, i: nat): (Utf8, nat)
    requires FourHex(str, i)
  {
    var n1 := HexNumber(str[i..i + 4]);
    if TwoUnits(str, i) then
      var n2 := HexNumber(str[i + 6..i + 10]);
      HexNumberBound(str[i..i + 4]);
      (CodepointToUtf8((n1 - 0xd800) * 0x400 + (n2 - 0xdc00) + 0x10000), 10)
    else
      (CodepointToUtf8(n1), 4)
  }

  /** escape_char_map_inv, on every member of escape_chars but u */
  function Unescaped(c: char): (s: string)
    ensures s != "" <==> c in "\\/\"bfnrt"
  {
    match c
    case '\\' => "\\"
    case '/' => "/"
    case '\"' => "\""
    case 'b' => Octets([8])
    case 'f' => Octets([12])
    case 'n' => "\n"
    case 'r' => "\r"
    case 't' => "\t"
    case _ => ""
  }

  function Prefixed(head: string, tail: Parsed<string>): Parsed<string> {
    if tail.Ok? then Ok(head + tail.val, tail.next) else tail
  }

  /** The escape whose backslash is at j: what it stands for and the position behind it. */
  function EscapeAt(str: string, j: nat): (r: Parsed<string>)
    requires CharAt(str, j, '\\')
    ensures r.Ok? ==> j + 1 < r.next <= |str|
  {
    if CharAt(str, j + 1, 'u') then
      if !FourHex(str, j + 2) then Fail(InvalidUnicodeEscape)
      else
        var (u, length) := UnicodeEscape(str, j + 2);
        if u.NotACodepoint? then Fail(InvalidCodepoint) else Ok(u.octets, j + 2 + length)
    else if j + 1 == |str| || Unescaped(str[j + 1]) == "" then Fail(InvalidEscape)
    else Ok(Unescaped(str[j + 1]), j + 2)
  }

  /** The rest of a string from position j, which is inside it. */
  function StringRest(str: string, j: nat): (r: Parsed<string>)
    requires j <= |str|
    ensures r.Ok? ==> j < r.next <= |str|
    decreases |str| - j
  {
    if j == |str| then Fail(UnclosedString)
    else if str[j] as int < 32 then Fail(ControlCharacter)
    else if str[j] == '\\' then
      var e := EscapeAt(str, j);
      if e.Fail? then e else Prefixed(e.val, StringRest(str, e.next))
    else if str[j] == '\"' then Ok("", j + 1)
    else Prefixed([str[j]], StringRest(str, j + 1))
  }

  // Numbers: tonumber on a text without Lua's delimiters.

  function DigitRun(s: string, i: nat): (j: nat)
    requires i <= |s|
    ensures i <= j <= |s| && forall k :: i <= k < j ==> IsDigit(s[k])
    ensures j < |s| ==> !IsDigit(s[j])
    decreases |s| - i
  {
    if i == |s| || !IsDigit(s[i]) then i else DigitRun(s, i + 1)
  }

  function HexRun(s: string, i: nat): (j: nat)
    requires i <= |s|
    ensures i <= j <= |s|
    decreases |s| - i
  {
    if i == |s| || !IsHex(s[i]) then i else HexRun(s, i + 1)
  }

  function DigitValue(c: char): (d: nat)
    requires IsDigit(c)
    ensures d < 10
  {
    c as int - '0' as int
  }

  function DecimalNumber(s: string): nat
    requires forall i :: 0 <= i < |s| ==> IsDigit(s[i])
  {
    if s == "" then 0 else DecimalNumber(s[..|s| - 1]) * 10 + DigitValue(s[|s| - 1])
  }

  predicate AllDigits(s: string) {
    s != "" && forall i :: 0 <= i < |s| ==> IsDigit(s[i])
  }

  /** Trailing space other than the delimiters: vertical tab and form feed. */
  function Trimmed(s: string): string {
    if s != "" && s[|s| - 1] as int in {11, 12} then Trimmed(s[..|s| - 1]) else s
  }

  /** An exponent part from i to the end, or nothing there. */
  predicate ExponentTail(s: string, i: nat, marks: string)
    requires i <= |s|
  {
    i == |s| ||
    (s[i] in marks &&
     var d := if i + 1 < |s| && s[i + 1] in "+-" then i + 2 else i + 1;
     d < |s| && DigitRun(s, d) == |s|)
  }

  /** digits, a point and digits, at least one digit in all, then the exponent */
  predicate DecimalFloat(s: string) {
    var a := DigitRun(s, 0);
    var b := if CharAt(s, a, '.') then DigitRun(s, a + 1) else a;
    (if CharAt(s, a, '.') then b > 1 else b > 0) && ExponentTail(s, b, "eE")
  }

  predicate HexFloat(s: string) {
    |s| > 2 && s[0] == '0' && s[1] in "xX" &&
    var a := HexRun(s, 2);
    var b := if CharAt(s, a, '.') then HexRun(s, a + 1) else a;
    (if CharAt(s, a, '.') then b > 3 else b > 2) && ExponentTail(s, b, "pP")
  }

  datatype MaybeNum = NotANumber | ANumber(num: Num)

  /** A decimal integer in the range of Lua integers becomes one; other numerals are kept as their text. */
  function ToNumber(s: string): MaybeNum {
    var t := Trimmed(s);
    var negative := CharAt(t, 0, '-');
    var magnitude := if negative then t[1..] else t;
    if AllDigits(magnitude) then
      var m := DecimalNumber(magnitude);
      var n: int := if negative then -(m as int) else m;
      if -0x8000_0000_0000_0000 <= n < 0x8000_0000_0000_0000 then ANumber(Whole(n)) else ANumber(Other(t))
    else if DecimalFloat(magnitude) || HexFloat(magnitude) then ANumber(Other(t))
    else NotANumber
  }

  function ParseNumber(str: string, i: nat): (r: Parsed<Value>)
    requires i < |str| && !IsDelimiter(str[i])
    ensures r.Ok? ==> i < r.next <= |str|
  {
    var x := FindDelimiter(str, i);
    var n := ToNumber(str[i..x]);
    if n.ANumber? then Ok(Number(n.num), x) else Fail(InvalidNumber)
  }

  function ParseLiteral(str: string, i: nat): (r: Parsed<Value>)
    requires i < |str| && !IsDelimiter(str[i])
    ensures r.Ok? ==> i < r.next <= |str|
  {
    var x := FindDelimiter(str, i);
    var word := str[i..x];
    if word == "true" then Ok(Boolean(true), x)
    else if word == "false" then Ok(Boolean(false), x)
    else if word == "null" then Ok(Nil, x)
    else Fail(InvalidLiteral)
  }

  // Values.

  function Parse(str: string, i: nat): (r: Parsed<Value>)
    requires i <= |str|
    ensures r.Ok? ==> i < r.next <= |str|
    decreases |str| - i, 0
  {
    if i == |str| then Fail(UnexpectedCharacter)
    else if str[i] == '\"' then
      var s := StringRest(str, i + 1);
      if s.Ok? then Ok(Str(s.val), s.next) else Fail(s.error)
    else if IsDigit(str[i]) || str[i] == '-' then ParseNumber(str, i)
    else if str[i] in "tfn" then ParseLiteral(str, i)
    else if str[i] == '[' then ArrayRest(str, i + 1, 1, map[])
    else if str[i] == '{' then ObjectRest(str, i + 1, map[])
    else Fail(UnexpectedCharacter)
  }

  /** The loop of parse_array, about to read item n; res holds the items before it. */
  function ArrayRest(str: string, i: nat, n: nat, res: map<Key, Value>): (r: Parsed<Value>)
    requires i <= |str|
    ensures r.Ok? ==> i < r.next <= |str|
    decreases |str| - i, 1
  {
    var a := SkipSpace(str, i);
    if CharAt(str, a, ']') then Ok(Table(res), a + 1)
    else
      var x := Parse(str, a);
      if x.Fail? then x
      else
        var res' := Assign(res, Index(n), x.val);
        var b := SkipSpace(str, x.next);
        if CharAt(str, b, ']') then Ok(Table(res'), b + 1)
        else if CharAt(str, b, ',') then ArrayRest(str, b + 1, n + 1, res')
        else Fail(ExpectedArrayDelimiter)
  }

  /** The key whose quote is at a, and the position behind its colon. */
  function KeyAndColon(str: string, a: nat): (key: Parsed<string>)
    requires CharAt(str, a, '\"')
    ensures key.Ok? ==> a < key.next <= |str|
  {
    var key := StringRest(str, a + 1);
    if key.Fail? then key
    else
      var c := SkipSpace(str, key.next);
      if CharAt(str, c, ':') then Ok(key.val, c + 1) else Fail(ExpectedColon)
  }

  /** The loop of parse_object; res holds the fields so far. */
  function ObjectRest(str: string, i: nat, res: map<Key, Value>): (r: Parsed<Value>)
    requires i <= |str|
    ensures r.Ok? ==> i < r.next <= |str|
    decreases |str| - i, 1
  {
    var a := SkipSpace(str, i);
    if CharAt(str, a, '}') then Ok(Table(res), a + 1)
    else if !CharAt(str, a, '\"') then Fail(ExpectedKey)
    else
      var key := KeyAndColon(str, a);
      if key.Fail? then Fail(key.error)
      else
        var x := Parse(str, SkipSpace(str, key.next));
        if x.Fail? then x
        else
          var res' := Assign(res, Name(key.val), x.val);
          var b := SkipSpace(str, x.next);
          if CharAt(str, b, '}') then Ok(Table(res'), b + 1)
          else if CharAt(str, b, ',') then ObjectRest(str, b + 1, res')
          else Fail(ExpectedObjectDelimiter)
  }

  datatype Decoded = Result(val: Value) | Error(error: DecodeError)

  /** json.decode */
  function Decode(str: string): Decoded {
    var x := Parse(str, SkipSpace(str, 0));
    if x.Fail? then Error(x.error)
    else if SkipSpace(str, x.next) < |str| then Error(TrailingGarbage)
    else Result(x.val)
  }
}
