/** The character sets against RFC 3986 and RFC 7230, the words of the methods, and a printed request. */
module HttpAnswers {
  import opened HttpMachine
  import opened HttpMethods
  import opened HttpFields
  import opened HttpRequests

  // Character sets: RFC 3986, sections 2.2, 2.3, 3.1 and 3.3.

  predicate IsAlpha(c: char) {
    0x41 <= c as int <= 0x5a || 0x61 <= c as int <= 0x7a
  }

  predicate IsDecimalDigit(c: char) {
    0x30 <= c as int <= 0x39
  }

  predicate IsUnreserved(c: char) {
    IsAlpha(c) || IsDecimalDigit(c) || c in "-._~"
  }

  predicate IsSubDelim(c: char) {
    c in "!$&'()*+,;="
  }

  /** pchar without percent-encoded octets. */
  predicate IsPchar(c: char) {
    IsUnreserved(c) || IsSubDelim(c) || c in ":@"
  }

  /** Octets above 127, and when uri_relaxed is set braces and the caret, are taken besides. */
  lemma PathCharIff(c: char, relaxed: bool)
    ensures IsPathChar(c, relaxed) <==> IsPchar(c) || c == '/' || c as int > 127 || (relaxed && c in "^{}")
  {
    if c as int <= 0x27 {
      FirstPathChars(c, relaxed);
    } else if c as int <= 0x3f {
      LowPathChars(c, relaxed);
    } else {
      HighPathChars(c, relaxed);
    }
  }

  lemma FirstPathChars(c: char, relaxed: bool)
    requires c as int <= 0x27
    ensures IsPathChar(c, relaxed) <==> IsPchar(c)
  {
  }

  lemma LowPathChars(c: char, relaxed: bool)
    requires 0x27 < c as int <= 0x3f
    ensures IsPathChar(c, relaxed) <==> IsPchar(c) || c == '/'
  {
  }

  lemma HighPathChars(c: char, relaxed: bool)
    requires c as int > 0x3f
    ensures IsPathChar(c, relaxed) <==> IsPchar(c) || c as int > 127 || (relaxed && c in "^{}")
  {
  }

  lemma QueryCharIff(c: char, relaxed: bool)
    ensures IsQueryChar(c, relaxed) <==> IsPchar(c) || c in "/?" || c as int > 127 || (relaxed && c in "^{}")
  {
    PathCharIff(c, relaxed);
  }

  lemma RegNameCharIff(c: char, relaxed: bool)
    ensures IsRegNameChar(c, relaxed) <==> IsUnreserved(c) || IsSubDelim(c) || (relaxed && c in "^{}")
  {
  }

  lemma SchemeCharIff(c: char)
    ensures IsSchemeChar(c) <==> IsAlpha(c) || IsDecimalDigit(c) || c in "+-."
    ensures IsLetter(c) <==> IsAlpha(c)
    ensures IsDigit(c) <==> IsDecimalDigit(c)
    ensures IsHex(c) <==> c in "0123456789ABCDEFabcdef"
  {
  }

  /** Methods are of capital letters and digits only, fewer than the tokens of RFC 7230. */
  lemma MethodCharIff(c: char)
    ensures IsMethodChar(c) <==> c in "ABCDEFGHIJKLMNOPQRSTUVWXYZ0123456789"
  {
  }

  /** Section 3.2 of RFC 7230: visible characters, octets above 127, space and tab; and control octets but three. */
  lemma ValueCharIff(c: char)
    ensures IsValueChar(c) <==>
            0x21 <= c as int <= 0x7e || c as int >= 0x80 || IsBlank(c)
            || (1 <= c as int <= 31 && c as int !in {0x09, 0x0a, 0x0d})
    ensures IsBlank(c) <==> c as int == 0x20 || c as int == 0x09
  {
  }

  // The final state.

  /** Entered by a new call, the final state goes on as state 14 does. */
  lemma FinalGoesOn(c: char, relaxed: bool)
    ensures FinalMove(c) == Transition(14, c, relaxed)
  {
  }

  // Methods.

  /** The table, in its own order. */
  const WORDS := ["DELETE", "GET", "HEAD", "POST", "PUT", "CONNECT", "OPTIONS", "TRACE", "COPY", "LOCK", "MKCOL",
                  "MOVE", "PROPFIND", "PROPPATCH", "SEARCH", "UNLOCK", "BIND", "REBIND", "UNBIND", "ACL", "REPORT",
                  "MKACTIVITY", "CHECKOUT", "MERGE", "MSEARCH", "NOTIFY", "SUBSCRIBE", "UNSUBSCRIBE", "PATCH",
                  "PURGE", "MKCALENDAR", "LINK", "UNLINK", "SOURCE", "UNKNOW"]

  lemma WordOfMethod(m: HttpMethod)
    ensures |WORDS| == 35 && MethodToString(m) == WORDS[m]
  {
  }

  /** The words of the table are recognised as their numbers. */
  lemma NumberOfWord(m: HttpMethod)
    ensures MethodFromChars(WORDS[m]) == m
  {
    hide MethodFromChars;
    WordOfMethod(m);
    MethodReadBack(m);
  }

  // Printing.

  lemma FieldsArePrinted()
    ensures PrintedFields([Field("Host", "d"), Field("X", "")]) == "Host: d\r\nX: \r\n"
  {
    var x, host := Field("X", ""), Field("Host", "d");
    assert [x][1..] == [] && [host, x][1..] == [x];
    assert PrintedField(x) == "X: \r\n" && PrintedField(host) == "Host: d\r\n";
    hide PrintedField;
    assert PrintedFields([x]) == PrintedField(x) + PrintedFields([]);
    assert PrintedFields([host, x]) == PrintedField(host) + PrintedFields([x]);
  }

  lemma PartsSpelled()
    ensures PrintedVersion(0x11) == " HTTP/1.1\r\n" && PrintedVersion(0x10) == " HTTP/1.0\r\n"
    ensures Part('?', "b") == "?b" && Part('#', "c") == "#c" && Part('?', "") == Part('#', "") == ""
  {
  }

  /** Either half of a version octet is printed in decimal. */
  lemma VersionOctetIsPrinted(v: Octet)
    ensures Decimal(v / 16) == NIBBLES[v / 16] && Decimal(v % 16) == NIBBLES[v % 16]
    ensures PrintedVersion(v) == " HTTP/" + NIBBLES[v / 16] + "." + NIBBLES[v % 16] + "\r\n"
  {
    NibbleIsPrinted(v / 16);
    NibbleIsPrinted(v % 16);
  }

  const NIBBLES := ["0", "1", "2", "3", "4", "5", "6", "7", "8", "9", "10", "11", "12", "13", "14", "15"]

  lemma NibbleIsPrinted(n: nat)
    requires n < 16
    ensures Decimal(n) == NIBBLES[n]
  {
  }

  lemma FirstLineSpelled()
    ensures "GET" + " " + "/a" + "?b" + "#c" + " HTTP/1.1\r\n" == "GET /a?b#c HTTP/1.1\r\n"
  {
  }

  lemma HeadSpelled()
    ensures "GET /a?b#c HTTP/1.1\r\n" + "Host: d\r\nX: \r\n" + "\r\n" ==
            "GET /a?b#c HTTP/1.1\r\nHost: d\r\nX: \r\n\r\n"
  {
  }

  /** A request with every part. */
  lemma RequestIsPrinted()
    ensures Printed(Request(1, 0x11, "/a", "b", "c", [Field("Host", "d"), Field("X", "")])) ==
            "GET /a?b#c HTTP/1.1\r\nHost: d\r\nX: \r\n\r\n"
  {
    PartsSpelled();
    FieldsArePrinted();
    assert MethodToString(1) == "GET";
    FirstLineSpelled();
    HeadSpelled();
    hide PrintedFields, PrintedVersion, Part, MethodToString;
    var q := Request(1, 0x11, "/a", "b", "c", [Field("Host", "d"), Field("X", "")]);
    assert Printed(q) == "GET" + " " + "/a" + "?b" + "#c" + " HTTP/1.1\r\n" + "Host: d\r\nX: \r\n" + "\r\n";
  }

  /** And one with nothing that can be left out. */
  lemma ShortRequestIsPrinted()
    ensures Printed(Request(3, 0x10, "*", "", "", [])) == "POST * HTTP/1.0\r\n\r\n"
  {
    PartsSpelled();
    assert PrintedFields([]) == "" && MethodToString(3) == "POST";
    hide PrintedFields, PrintedVersion, Part;
  }

  /** A new request. */
  lemma NewRequestIsPrinted()
    ensures Printed(Initial()) == "GET / HTTP/1.1\r\n\r\n"
  {
    PartsSpelled();
    assert PrintedFields([]) == "" && MethodToString(1) == "GET";
    hide PrintedFields, PrintedVersion, Part, MethodToString;
  }

  /** Names that differ in case are one name, the first one's, and the map prints in the order of small letters. */
  lemma FieldsAreOrdered()
    ensures SetAll([], [Field("b", "1"), Field("A", "2"), Field("B", "3")]) == [Field("A", "2"), Field("b", "3")]
  {
    var b, a, c := Field("b", "1"), Field("A", "2"), Field("B", "3");
    assert Key("b") == "b" && Key("A") == "a" && Key("B") == "b";
    assert [b, a, c][1..] == [a, c] && [a, c][1..] == [c] && [c][1..] == [];
    assert SetField([], "b", "1") == [b];
    assert SetField([b], "A", "2") == [a, b];
    assert [a, b][1..] == [b] && SetField([b], "B", "3") == [Field("b", "3")];
    assert SetField([a, b], "B", "3") == [a, Field("b", "3")];
  }
}
