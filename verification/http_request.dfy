/** The request: what it prints, what the callbacks build, and when the two undo each other. */
module HttpRequests {
  import opened Texts
  import opened HttpMachine
  import opened HttpGrammar
  import opened HttpAccepts
  import HttpLeaving
  import opened HttpTargetSound
  import opened HttpSound
  import opened HttpMethods
  import opened HttpFields

  type Octet = n: nat | n < 256

  datatype Request = Request(verb: HttpMethod, version: Octet, path: string, query: string, fragment: string,
                             fields: seq<Field>)

  /** A request as its constructor leaves it. */
  function Initial(): Request {
    Request(1, 0x11, "/", "", "", [])
  }

  // Printing.

  /** A number below a hundred in decimal. */
  function Decimal(n: nat): string
    requires n < 100
  {
    if n < 10 then ['0' + n as char] else ['0' + (n / 10) as char, '0' + (n % 10) as char]
  }

  function Part(mark: char, s: string): string {
    if s == "" then "" else [mark] + s
  }

  function PrintedVersion(v: Octet): string {
    " HTTP/" + Decimal(v / 16) + "." + Decimal(v % 16) + "\r\n"
  }

  function PrintedField(f: Field): string {
    f.name + ": " + f.value + "\r\n"
  }

  function PrintedFields(fields: seq<Field>): string {
    if fields == [] then "" else PrintedField(fields[0]) + PrintedFields(fields[1..])
  }

  function Printed(q: Request): string {
    MethodToString(q.verb) + " " + q.path + Part('?', q.query) + Part('#', q.fragment) + PrintedVersion(q.version)
    + PrintedFields(q.fields) + "\r\n"
  }

  // The callbacks.

  function VersionOf(s: string): Octet {
    if "HTTP/1.1" <= s then 0x11 else if "HTTP/1.0" <= s then 0x10 else 0
  }

  /** There is no callback for the whole target. */
  function Heard(q: Request, e: Event): Request {
    match e
    case MethodIs(s) => q.(verb := MethodFromChars(s))
    case PathIs(s) => q.(path := s)
    case UriIs(_) => q
    case QueryIs(s) => q.(query := s)
    case FragmentIs(s) => q.(fragment := s)
    case VersionIs(s) => q.(version := VersionOf(s))
    case FieldIs(name, value) => q.(fields := SetField(q.fields, name, value))
  }

  function HeardAll(q: Request, events: seq<Event>): Request
    decreases |events|
  {
    if events == [] then q else HeardAll(Heard(q, events[0]), events[1..])
  }

  lemma {:induction false} HeardInTurn(q: Request, a: seq<Event>, b: seq<Event>)
    ensures HeardAll(q, a + b) == HeardAll(HeardAll(q, a), b)
    decreases |a|
  {
    hide Heard;
    if a == [] {
      assert a + b == b;
    } else {
      assert (a + b)[1..] == a[1..] + b;
      HeardInTurn(Heard(q, a[0]), a[1..], b);
    }
  }

  lemma HeardOne(q: Request, e: Event)
    ensures HeardAll(q, [e]) == Heard(q, e)
  {
    hide Heard;
    assert [e][1..] == [];
  }

  /** One more event at the end. */
  lemma HeardLast(q: Request, events: seq<Event>, e: Event)
    ensures HeardAll(q, events + [e]) == Heard(HeardAll(q, events), e)
  {
    HeardInTurn(q, events, [e]);
    HeardOne(HeardAll(q, events), e);
  }

  // What becomes of a head.

  function FieldsOf(lines: seq<Line>): (r: seq<Field>)
    ensures |r| == |lines| && forall i :: 0 <= i < |r| ==> r[i] == Field(lines[i].name, lines[i].value)
  {
    seq(|lines|, i requires 0 <= i < |lines| => Field(lines[i].name, lines[i].value))
  }

  function TextOf(o: Option): string {
    if o.Some? then o.s else ""
  }

  function RequestOf(h: Head): Request {
    Request(MethodFromChars(h.verb), if h.minor == '1' then 0x11 else 0x10, PathText(h.path), TextOf(h.query),
            TextOf(h.fragment), SetAll([], FieldsOf(h.lines)))
  }

  lemma {:induction false} LinesHeard(q: Request, lines: seq<Line>)
    ensures HeardAll(q, LineEvents(lines)) == q.(fields := SetAll(q.fields, FieldsOf(lines)))
    decreases |lines|
  {
    hide SetField, MethodFromChars, VersionOf;
    if lines != [] {
      var e := FieldIs(lines[0].name, lines[0].value);
      assert LineEvents(lines)[1..] == LineEvents(lines[1..]);
      assert FieldsOf(lines)[1..] == FieldsOf(lines[1..]);
      LinesHeard(Heard(q, e), lines[1..]);
    }
  }

  lemma TargetHeard(q: Request, path: string, query: Option, fragment: Option)
    requires q.query == "" && q.fragment == ""
    ensures HeardAll(q, TargetEvents(path, query) + FragmentEvents(fragment)) ==
            q.(path := path, query := TextOf(query), fragment := TextOf(fragment))
  {
    hide SetField, MethodFromChars, VersionOf;
    var a, b := TargetEvents(path, query), FragmentEvents(fragment);
    HeardInTurn(q, a, b);
    if query.Some? {
      assert a == [PathIs(path)] + [QueryIs(query.s)] + [UriIs(path + "?" + query.s)];
      HeardLast(q, [PathIs(path)] + [QueryIs(query.s)], UriIs(path + "?" + query.s));
      HeardLast(q, [PathIs(path)], QueryIs(query.s));
    } else {
      assert a == [PathIs(path)] + [UriIs(path)];
      HeardLast(q, [PathIs(path)], UriIs(path));
    }
    HeardOne(q, PathIs(path));
    if fragment.Some? {
      HeardOne(HeardAll(q, a), FragmentIs(fragment.s));
    }
  }

  lemma VersionHeard(minor: char)
    requires '0' <= minor <= '1'
    ensures VersionOf(VersionText(minor)) == if minor == '1' then 0x11 else 0x10
  {
    var v := VersionText(minor);
    assert v[7] == minor;
    assert minor == '1' ==> v == "HTTP/1.1";
    assert minor == '0' ==> v == "HTTP/1.0";
  }

  /** The callbacks of a head build the request of its parts. */
  lemma HeadHeard(h: Head)
    requires '0' <= h.minor <= '1'
    ensures HeardAll(Initial(), HeadEvents(h)) == RequestOf(h)
  {
    hide SetField, MethodFromChars, VersionOf, SetAll, TargetEvents, FragmentEvents, LineEvents, VersionText, FieldsOf,
         PathText;
    var q0, v := Initial(), VersionIs(VersionText(h.minor));
    var target := TargetEvents(PathText(h.path), h.query) + FragmentEvents(h.fragment);
    assert HeadEvents(h) == [MethodIs(h.verb)] + (target + ([v] + LineEvents(h.lines)));
    HeardInTurn(q0, [MethodIs(h.verb)], target + ([v] + LineEvents(h.lines)));
    HeardOne(q0, MethodIs(h.verb));
    var q1 := Heard(q0, MethodIs(h.verb));
    HeardInTurn(q1, target, [v] + LineEvents(h.lines));
    TargetHeard(q1, PathText(h.path), h.query, h.fragment);
    var q2 := HeardAll(q1, target);
    HeardInTurn(q2, [v], LineEvents(h.lines));
    HeardOne(q2, v);
    VersionHeard(h.minor);
    LinesHeard(Heard(q2, v), h.lines);
  }

  // Printing and parsing.

  /** A path that no scheme must stand in front of. */
  ghost predicate IsLegalPath(s: string, relaxed: bool) {
    exists p: Path :: IsPath(p, false, relaxed) && PathText(p) == s
  }

  /** Everything but the path. */
  predicate AreLegalParts(q: Request, relaxed: bool) {
    && IsUriText(q.query, InQuery, relaxed) && IsUriText(q.fragment, InQuery, relaxed)
    && (q.version == 0x10 || q.version == 0x11)
    && forall i :: 0 <= i < |q.fields| ==> IsName(q.fields[i].name) && IsValue(q.fields[i].value)
  }

  /** What a request must hold to be read back: nothing about its method. */
  ghost predicate IsLegal(q: Request, relaxed: bool) {
    IsLegalPath(q.path, relaxed) && AreLegalParts(q, relaxed)
  }

  function LinesOf(fields: seq<Field>): (r: seq<Line>)
    ensures |r| == |fields|
    ensures forall i :: 0 <= i < |r| ==> r[i] == Line(fields[i].name, " ", fields[i].value, "\r\n")
  {
    seq(|fields|, i requires 0 <= i < |fields| => Line(fields[i].name, " ", fields[i].value, "\r\n"))
  }

  function OptionOf(s: string): Option {
    if s == "" then None else Some(s)
  }

  function HeadOf(q: Request, p: Path): Head {
    Head(MethodToString(q.verb), None, p, OptionOf(q.query), OptionOf(q.fragment),
         if q.version == 0x11 then '1' else '0', "\r\n", LinesOf(q.fields), "\r\n")
  }

  lemma {:induction false} FieldsArePrintedAsLines(fields: seq<Field>)
    ensures PrintedFields(fields) == LinesText(LinesOf(fields))
    decreases |fields|
  {
    if fields != [] {
      FieldsArePrintedAsLines(fields[1..]);
      assert LinesOf(fields)[1..] == LinesOf(fields[1..]);
      var f := fields[0];
      assert f.name + ": " + f.value + "\r\n" == f.name + (":" + (" " + (f.value + "\r\n")));
    }
  }

  lemma VersionIsPrinted(q: Request, p: Path)
    requires q.version == 0x10 || q.version == 0x11
    ensures PrintedVersion(q.version) == " " + (VersionText(HeadOf(q, p).minor) + "\r\n")
  {
  }

  lemma PartsArePrinted(q: Request)
    ensures Part('?', q.query) == QueryText(OptionOf(q.query))
    ensures Part('#', q.fragment) == FragmentTextOf(OptionOf(q.fragment))
  {
  }

  /** A request of either version is printed as a head. */
  lemma PrintedIsHead(q: Request, p: Path)
    requires (q.version == 0x10 || q.version == 0x11) && PathText(p) == q.path
    ensures Printed(q) == HeadText(HeadOf(q, p))
  {
    VersionIsPrinted(q, p);
    PartsArePrinted(q);
    FieldsArePrintedAsLines(q.fields);
    hide MethodToString, Part, PrintedVersion, PrintedFields, QueryText, FragmentTextOf, VersionText, LinesText,
         OptionOf, LinesOf, PathText;
    assert SchemeText(None) + (q.path + (Part('?', q.query) + (Part('#', q.fragment) + TailText(HeadOf(q, p))))) ==
           q.path + (Part('?', q.query) + (Part('#', q.fragment) + TailText(HeadOf(q, p))));
    SevenTexts(MethodToString(q.verb), q.path, Part('?', q.query), Part('#', q.fragment),
               VersionText(HeadOf(q, p).minor), PrintedFields(q.fields));
  }

  lemma SevenTexts(verb: string, path: string, query: string, fragment: string, version: string, fields: string)
    ensures verb + " " + path + query + fragment + (" " + (version + "\r\n")) + fields + "\r\n" ==
            verb + (" " + (path + (query + (fragment + (" " + (version + ("\r\n" + (fields + "\r\n"))))))))
  {
  }

  lemma LegalIsHead(q: Request, p: Path, relaxed: bool)
    requires AreLegalParts(q, relaxed) && IsPath(p, false, relaxed)
    ensures IsHead(HeadOf(q, p), relaxed)
  {
    hide IsPath, IsUriText, IsName, IsValue, IsMethod, MethodToString;
    PrintedIsMethod(q.verb);
  }

  lemma LegalIsRebuilt(q: Request, p: Path, relaxed: bool)
    requires AreLegalParts(q, relaxed) && PathText(p) == q.path && Sorted(q.fields)
    ensures RequestOf(HeadOf(q, p)) == q
  {
    hide PathText, IsUriText, IsName, IsValue, Sorted, MethodToString, MethodFromChars, SetAll;
    MethodReadBack(q.verb);
    assert FieldsOf(LinesOf(q.fields)) == q.fields;
    assert [] + q.fields == q.fields;
    SetAllInOrder([], q.fields);
  }

  /** Whatever the callbacks build from a head is legal, but that a path may need its scheme. */
  lemma HeardIsLegal(h: Head, relaxed: bool)
    requires IsHead(h, relaxed)
    ensures AreLegalParts(RequestOf(h), relaxed) && Sorted(RequestOf(h).fields)
    ensures h.scheme.None? ==> IsLegal(RequestOf(h), relaxed)
  {
    hide IsPath, IsUriText, IsName, IsValue, Sorted, MethodFromChars, SetAll, IsMethod, PathText;
    NoFieldsAreSorted();
    SetAllKeepsSorted([], FieldsOf(h.lines));
    LinesGiveLegalFields(h.lines);
    EmptyIsUriText(InQuery, relaxed);
  }

  lemma LinesGiveLegalFields(lines: seq<Line>)
    requires forall i :: 0 <= i < |lines| ==> IsLine(lines[i])
    ensures var all := SetAll([], FieldsOf(lines));
            forall i :: 0 <= i < |all| ==> IsName(all[i].name) && IsValue(all[i].value)
  {
    hide IsName, IsValue, SetAll;
    var names := set i | 0 <= i < |lines| :: lines[i].name;
    var values := set i | 0 <= i < |lines| :: lines[i].value;
    SetAllTakesOnly([], FieldsOf(lines), names, values);
    var all := SetAll([], FieldsOf(lines));
    forall i | 0 <= i < |all| ensures IsName(all[i].name) && IsValue(all[i].value) {
      assert all[i] in all;
    }
  }

  lemma NoFieldsAreSorted()
    ensures Sorted([])
  {
  }

  // What no part of a target holds.

  predicate Lacks(s: string, c: char) {
    c !in s
  }

  /** Neither a space nor an opening bracket is a plain character of any part. */
  predicate IsForeign(c: char) {
    c == ' ' || c == '['
  }

  lemma PlainIsNotForeign(c: char, chars: CharSet, relaxed: bool)
    ensures UriChar(c, chars, relaxed) ==> !IsForeign(c)
  {
  }

  lemma {:induction false} UriTextLacks(s: string, chars: CharSet, c: char, relaxed: bool)
    requires IsUriText(s, chars, relaxed) && IsForeign(c)
    ensures Lacks(s, c)
    decreases |s|
  {
    if s != "" {
      var k := if s[0] == '%' then 3 else 1;
      UriTextLacks(s[k..], chars, c, relaxed);
      PlainIsNotForeign(s[0], chars, relaxed);
      assert s == (if k == 3 then [s[0], s[1], s[2]] else [s[0]]) + s[k..];
    }
  }

  lemma TailLacks(tail: string, c: char, relaxed: bool)
    requires IsTail(tail, relaxed) && IsForeign(c)
    ensures Lacks(tail, c)
  {
    hide IsUriText;
    if tail != "" {
      UriTextLacks(tail[1..], InPath, c, relaxed);
      assert tail == [tail[0]] + tail[1..];
    }
  }

  lemma PathLacks(p: Path, behindScheme: bool, c: char, relaxed: bool)
    requires IsPath(p, behindScheme, relaxed) && IsForeign(c)
    ensures Lacks(PathText(p), c)
  {
    hide IsUriText;
    match p
    case NoPath =>
    case Relative(first, tail) =>
      UriTextLacks(first, InSegment, c, relaxed);
      TailLacks(tail, c, relaxed);
    case Rooted(rest) =>
      UriTextLacks(rest, InPath, c, relaxed);
    case Rootless(text) =>
      UriTextLacks(text, InPath, c, relaxed);
    case Network(userinfo, host, port, tail) =>
      if userinfo.Some? {
        UriTextLacks(userinfo.s, InUserinfo, c, relaxed);
      }
      UriTextLacks(host, InName, c, relaxed);
      TailLacks(tail, c, relaxed);
      assert port.Some? ==> Lacks(port.s, c);
  }

  // A printed request is not read with a scheme: its words are its method and its target.

  predicate IsWord(s: string) {
    Lacks(s, ' ')
  }

  /** The first words of two texts of which one starts with the other. */
  lemma FirstWords(a: string, x: string, b: string, y: string)
    requires IsWord(a) && IsWord(b) && a + (" " + x) <= b + (" " + y)
    ensures a == b && x <= y
  {
    var s, t := a + (" " + x), b + (" " + y);
    assert s[|a|] == ' ' && t[|b|] == ' ';
    assert forall i :: 0 <= i < |s| ==> s[i] == t[i];
    assert |a| == |b|;
    assert a == s[..|a|] && b == t[..|b|];
    assert x == s[|a| + 1..] && y == t[|b| + 1..];
  }

  function TargetOf(h: Head): string {
    SchemeText(h.scheme) + (PathText(h.path) + (QueryText(h.query) + FragmentTextOf(h.fragment)))
  }

  lemma TargetIsWord(h: Head, relaxed: bool)
    requires IsHead(h, relaxed)
    ensures IsWord(TargetOf(h)) && IsWord(h.verb)
  {
    hide IsUriText, IsPath, PathText;
    PathLacks(h.path, h.scheme.Some?, ' ', relaxed);
    if h.query.Some? {
      UriTextLacks(h.query.s, InQuery, ' ', relaxed);
    }
    if h.fragment.Some? {
      UriTextLacks(h.fragment.s, InQuery, ' ', relaxed);
    }
    SchemeIsWord(h.scheme, relaxed);
    var a, b, c, d := SchemeText(h.scheme), PathText(h.path), QueryText(h.query), FragmentTextOf(h.fragment);
    assert IsWord(c) && IsWord(d);
    MethodIsWord(h.verb);
  }

  lemma SchemeIsWord(scheme: Option, relaxed: bool)
    requires scheme.Some? ==> IsScheme(scheme.s)
    ensures IsWord(SchemeText(scheme))
  {
  }

  lemma MethodIsWord(s: string)
    requires IsMethod(s)
    ensures IsWord(s)
  {
  }

  lemma WordsOfHead(h: Head) returns (rest: string)
    ensures HeadText(h) == h.verb + (" " + (TargetOf(h) + (" " + rest)))
  {
    hide SchemeText, PathText, QueryText, FragmentTextOf, VersionText, LinesText;
    rest := VersionText(h.minor) + (h.eol + (LinesText(h.lines) + h.last));
    var t := TailText(h);
    assert t == " " + rest;
    assert TargetOf(h) + t ==
           SchemeText(h.scheme) + (PathText(h.path) + (QueryText(h.query) + (FragmentTextOf(h.fragment) + t)));
  }

  function PrintedTarget(q: Request): string {
    q.path + (Part('?', q.query) + Part('#', q.fragment))
  }

  lemma WordsOfPrinted(q: Request) returns (rest: string)
    ensures Printed(q) == MethodToString(q.verb) + (" " + (PrintedTarget(q) + (" " + rest)))
  {
    hide MethodToString, Part, PrintedFields, Decimal;
    var v := "HTTP/" + Decimal(q.version / 16) + "." + Decimal(q.version % 16) + "\r\n";
    assert PrintedVersion(q.version) == " " + v;
    hide PrintedVersion;
    rest := v + (PrintedFields(q.fields) + "\r\n");
    assert Printed(q) ==
           MethodToString(q.verb) + (" " + (PrintedTarget(q) + ((" " + v) + (PrintedFields(q.fields) + "\r\n"))));
  }

  /** A head that a printed request starts with, and that gives the request, has no scheme. */
  lemma NoScheme(q: Request, h: Head, relaxed: bool)
    requires IsHead(h, relaxed) && HeadText(h) <= Printed(q) && RequestOf(h) == q
    ensures h.scheme.None?
  {
    hide IsHead, HeadText, Printed, SetAll, MethodFromChars, IsWord, MethodToString, PathText;
    TargetIsWord(h, relaxed);
    var x := WordsOfHead(h);
    var y := WordsOfPrinted(q);
    MethodIsWord(MethodToString(q.verb)) by {
      PrintedIsMethod(q.verb);
    }
    PrintedTargetIsWord(q, h, relaxed);
    FirstWords(h.verb, TargetOf(h) + (" " + x), MethodToString(q.verb), PrintedTarget(q) + (" " + y));
    FirstWords(TargetOf(h), x, PrintedTarget(q), y);
    assert |TargetOf(h)| >= |SchemeText(h.scheme)| + |PrintedTarget(q)|;
  }

  lemma PrintedTargetIsWord(q: Request, h: Head, relaxed: bool)
    requires IsHead(h, relaxed) && RequestOf(h) == q
    ensures IsWord(PrintedTarget(q))
  {
    hide IsUriText, IsPath, PathText, SetAll, MethodFromChars;
    PathLacks(h.path, h.scheme.Some?, ' ', relaxed);
    EmptyIsUriText(InQuery, relaxed);
    UriTextLacks(q.query, InQuery, ' ', relaxed);
    UriTextLacks(q.fragment, InQuery, ' ', relaxed);
    assert IsWord(Part('?', q.query)) && IsWord(Part('#', q.fragment));
  }

  /** What a request is printed to behind its path. */
  function BehindPath(q: Request): (s: string)
    ensures s != "" && IsPathEnd(s[0])
  {
    Part('?', q.query) + (Part('#', q.fragment) + (PrintedVersion(q.version) + (PrintedFields(q.fields) + "\r\n")))
  }

  lemma PrintedInThree(q: Request)
    ensures Printed(q) == (MethodToString(q.verb) + " ") + (q.path + BehindPath(q))
  {
    hide MethodToString, Part, PrintedVersion, PrintedFields;
  }

  /** The machine stays in the model on every printed request without an opening bracket in its path. */
  lemma PrintedStays(q: Request, queryStart: nat, relaxed: bool)
    requires '[' !in q.path
    ensures Run(Fresh(queryStart), Printed(q), relaxed).cs != ELSEWHERE
  {
    hide Run, Printed, BehindPath, MethodToString, IsMethod;
    var buf, verb, rest := Printed(q), MethodToString(q.verb), q.path + BehindPath(q);
    PrintedInThree(q);
    PrintedIsMethod(q.verb);
    assert StandsAt(buf, 0, verb + " ");
    MethodAccepted(Fresh(queryStart), buf, verb, relaxed);
    var p, b := |verb| + 1, |verb| + 1 + |q.path|;
    assert buf[p..] == rest && buf[b] == BehindPath(q)[0] && buf[p..b] == q.path;
    HttpLeaving.PathStays(Fresh(queryStart).(cs := 3, p := p, mark := 0, events := [] + [MethodIs(verb)]), buf, b,
      relaxed);
  }

  lemma LegalLacksBracket(q: Request, relaxed: bool)
    requires IsLegalPath(q.path, relaxed)
    ensures '[' !in q.path
  {
    var p := FormOf(q.path, relaxed);
    PathLacks(p, false, '[', relaxed);
  }

  /**
   * For every path without an opening bracket, which no legal one has: a fresh parser accepts the printed text and the
   * callbacks build the same request, if and only if the path, the query, the fragment, the version and every field are
   * legal; the whole text is then consumed.
   */
  lemma ReadBackIff(q: Request, queryStart: nat, relaxed: bool)
    requires Sorted(q.fields)
    ensures var r := Run(Fresh(queryStart), Printed(q), relaxed);
            && ('[' !in q.path ==> r.cs != ELSEWHERE)
            && ('[' !in q.path ==> (r.cs == FINAL && HeardAll(Initial(), r.events) == q <==> IsLegal(q, relaxed)))
            && (IsLegal(q, relaxed) ==> '[' !in q.path && r.cs == FINAL && r.p == r.bodyStart == |Printed(q)|)
  {
    if IsLegal(q, relaxed) {
      LegalReadBack(q, queryStart, relaxed);
      LegalLacksBracket(q, relaxed);
    }
    if '[' !in q.path {
      PrintedStays(q, queryStart, relaxed);
    }
    hide *;
    var r := Run(Fresh(queryStart), Printed(q), relaxed);
    if r.cs == FINAL && HeardAll(Initial(), r.events) == q {
      ReadBackIsLegal(q, queryStart, relaxed);
    }
  }

  lemma ReadBackIsLegal(q: Request, queryStart: nat, relaxed: bool)
    requires var r := Run(Fresh(queryStart), Printed(q), relaxed);
             r.cs == FINAL && HeardAll(Initial(), r.events) == q
    ensures IsLegal(q, relaxed)
  {
    hide Run, Printed, HeardAll, IsHead, HeadText, HeadEvents, IsLegal, Sorted, AreLegalParts, RequestOf;
    var r := Run(Fresh(queryStart), Printed(q), relaxed);
    AcceptedIff(Printed(q), queryStart, relaxed);
    var h :| IsHead(h, relaxed) && HeadText(h) == Printed(q)[..r.p] && r.events == HeadEvents(h);
    HeardOfHead(h, relaxed);
    NoScheme(q, h, relaxed);
  }

  /** A target need not start with a slash: the empty path, the asterisk, and two slashes are read back as well. */
  lemma OtherFormsAreLegal(relaxed: bool)
    ensures IsLegalPath("", relaxed) && IsLegalPath("*", relaxed) && IsLegalPath("//", relaxed)
  {
    assert PathText(NoPath) == "" && PathText(Relative("*", "")) == "*";
    assert PathText(Network(None, "", None, "")) == "//";
    assert "*"[1..] == "" && IsUriText("*", InSegment, relaxed);
    assert IsPath(NoPath, false, relaxed) && IsPath(Relative("*", ""), false, relaxed);
    assert IsPath(Network(None, "", None, ""), false, relaxed);
  }

  lemma HeardLacksBracket(h: Head, relaxed: bool)
    requires IsHead(h, relaxed)
    ensures '[' !in RequestOf(h).path
  {
    hide IsUriText, IsPath, PathText;
    PathLacks(h.path, h.scheme.Some?, '[', relaxed);
  }

  lemma HeardOfHead(h: Head, relaxed: bool)
    requires IsHead(h, relaxed)
    ensures var q := HeardAll(Initial(), HeadEvents(h));
            q == RequestOf(h) && AreLegalParts(q, relaxed) && Sorted(q.fields) &&
              (h.scheme.None? ==> IsLegal(q, relaxed))
  {
    HeadHeard(h);
    hide *;
    HeardIsLegal(h, relaxed);
  }

  lemma LegalReadBack(q: Request, queryStart: nat, relaxed: bool)
    requires Sorted(q.fields) && IsLegal(q, relaxed)
    ensures var r := Run(Fresh(queryStart), Printed(q), relaxed);
            r.cs == FINAL && HeardAll(Initial(), r.events) == q && r.p == r.bodyStart == |Printed(q)|
  {
    hide Run, Printed, HeardAll, IsHead, HeadText, HeadEvents, Sorted, RequestOf;
    var p: Path :| IsPath(p, false, relaxed) && PathText(p) == q.path;
    var h := HeadOf(q, p);
    LegalIsHead(q, p, relaxed);
    PrintedIsHead(q, p);
    assert HeadText(h) + "" == HeadText(h);
    HeadAccepted(h, "", queryStart, relaxed);
    HeadHeard(h);
    LegalIsRebuilt(q, p, relaxed);
  }

  /**
   * Parsing settles: the request of an accepted text is printed to a text that is accepted for the same request exactly
   * when its path can do without a scheme, which is so whenever the text had none.
   */
  lemma ParsedIsStableIff(buf: string, queryStart: nat, relaxed: bool)
    requires Run(Fresh(queryStart), buf, relaxed).cs == FINAL
    ensures var q := HeardAll(Initial(), Run(Fresh(queryStart), buf, relaxed).events);
            var r := Run(Fresh(queryStart), Printed(q), relaxed);
            && r.cs != ELSEWHERE
            && (r.cs == FINAL && HeardAll(Initial(), r.events) == q <==> IsLegalPath(q.path, relaxed))
  {
    hide Run, Printed, HeardAll, IsHead, HeadText, HeadEvents, Sorted, IsLegalPath, AreLegalParts;
    AcceptedIff(buf, queryStart, relaxed);
    var h :| IsHead(h, relaxed) && Run(Fresh(queryStart), buf, relaxed).events == HeadEvents(h);
    HeardOfHead(h, relaxed);
    HeardLacksBracket(h, relaxed);
    ReadBackIff(HeardAll(Initial(), HeadEvents(h)), queryStart, relaxed);
  }

  /** The target a:b:c. */
  function ColonHead(): Head {
    Head("GET", Some("a"), Rootless("b:c"), None, None, '1', "\r\n", [], "\r\n")
  }

  /** A scheme is lost: the target a:b:c is heard as the path b:c, which would be read as a scheme and the path c. */
  lemma SchemeIsLost(queryStart: nat, relaxed: bool)
    ensures var r := Run(Fresh(queryStart), HeadText(ColonHead()), relaxed);
            r.cs == FINAL && HeardAll(Initial(), r.events).path == "b:c" && !IsLegalPath("b:c", relaxed)
  {
    assert PathText(ColonHead().path) == "b:c";
    hide Run, HeardAll, HeadEvents, IsLegalPath, HeadText, IsHead;
    ColonHeadIsHead(relaxed);
    assert HeadText(ColonHead()) + "" == HeadText(ColonHead());
    HeadAccepted(ColonHead(), "", queryStart, relaxed);
    HeardOfHead(ColonHead(), relaxed);
    if IsLegalPath("b:c", relaxed) {
      var p: Path := FormOf("b:c", relaxed);
      ColonBehindSlash(p, relaxed);
    }
  }

  lemma FormOf(s: string, relaxed: bool) returns (p: Path)
    requires IsLegalPath(s, relaxed)
    ensures IsPath(p, false, relaxed) && PathText(p) == s
  {
    p :| IsPath(p, false, relaxed) && PathText(p) == s;
  }

  lemma ColonHeadIsHead(relaxed: bool)
    ensures IsHead(ColonHead(), relaxed)
  {
    hide IsPath, IsUriText;
    ColonPathIsPath(relaxed);
  }

  lemma ColonPathIsPath(relaxed: bool)
    ensures IsPath(Rootless("b:c"), true, relaxed)
  {
    assert "b:c"[1..] == ":c" && ":c"[1..] == "c" && "c"[1..] == "";
    assert IsUriText("c", InPath, relaxed);
    assert IsUriText(":c", InPath, relaxed);
  }

  lemma {:induction false} SegmentHasNoColon(s: string, relaxed: bool)
    requires IsUriText(s, InSegment, relaxed)
    ensures ':' !in s
    decreases |s|
  {
    if s != "" {
      var k := if s[0] == '%' then 3 else 1;
      SegmentHasNoColon(s[k..], relaxed);
      assert s == (if k == 3 then [s[0], s[1], s[2]] else [s[0]]) + s[k..];
    }
  }

  /** A path that can do without a scheme has no colon, but behind a slash. */
  lemma ColonBehindSlash(p: Path, relaxed: bool)
    requires IsPath(p, false, relaxed)
    ensures ':' in PathText(p) ==> '/' in PathText(p)
  {
    if p.Relative? {
      SegmentHasNoColon(p.first, relaxed);
      assert p.tail != "" ==> p.tail[0] == '/';
    } else if p.Rooted? || p.Network? {
      assert PathText(p)[0] == '/';
    }
  }
}
