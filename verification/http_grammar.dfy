/** The text of a request head, over the character sets of the machine. */
module HttpGrammar {
  import opened HttpMachine

  datatype Option = None | Some(s: string)

  /** A header line: name, colon, blanks, value, line end. */
  datatype Line = Line(name: string, blanks: string, value: string, eol: string)

  /**
   * A path as the path callback hears it: none, one whose first segment has no colon, one behind a slash, one behind
   * two slashes and an authority, or, behind a scheme only, one without a slash in front. A tail is empty or starts
   * with a slash.
   */
  datatype Path =
    | NoPath
    | Relative(first: string, tail: string)
    | Rooted(rest: string)
    | Network(userinfo: Option, host: string, port: Option, tail: string)
    | Rootless(text: string)

  /** A request line, its header lines and the blank line behind them. */
  datatype Head = Head(verb: string, scheme: Option, path: Path, query: Option, fragment: Option, minor: char,
                       eol: string,
                       lines: seq<Line>, last: string)

  predicate IsEol(s: string) {
    s == "\n" || s == "\r\n"
  }

  /** One to twenty capital letters and digits. */
  predicate IsMethod(s: string) {
    1 <= |s| <= 20 && forall i :: 0 <= i < |s| ==> IsMethodChar(s[i])
  }

  /** The plain characters of the parts of a target. */
  datatype CharSet = InPath | InQuery | InSegment | InName | InUserinfo

  predicate UriChar(c: char, chars: CharSet, relaxed: bool) {
    match chars
    case InPath => IsPathChar(c, relaxed)
    case InQuery => IsQueryChar(c, relaxed)
    case InSegment => IsRegNameChar(c, relaxed) || c == '@'
    case InName => IsRegNameChar(c, relaxed)
    case InUserinfo => IsRegNameChar(c, relaxed) || c == ':'
  }

  /** Plain characters and percent-encoded octets. */
  predicate IsUriText(s: string, chars: CharSet, relaxed: bool) {
    s == "" ||
    (if s[0] == '%' then |s| >= 3 && IsHex(s[1]) && IsHex(s[2]) && IsUriText(s[3..], chars, relaxed)
     else UriChar(s[0], chars, relaxed) && IsUriText(s[1..], chars, relaxed))
  }

  predicate IsDigits(s: string) {
    forall i :: 0 <= i < |s| ==> IsDigit(s[i])
  }

  predicate IsScheme(s: string) {
    |s| > 0 && IsLetter(s[0]) && forall i :: 0 <= i < |s| ==> IsSchemeChar(s[i])
  }

  predicate IsTail(s: string, relaxed: bool) {
    s == "" || (s[0] == '/' && IsUriText(s[1..], InPath, relaxed))
  }

  predicate IsPath(p: Path, behindScheme: bool, relaxed: bool) {
    match p
    case NoPath => true
    case Relative(first, tail) =>
      !behindScheme && first != "" && IsUriText(first, InSegment, relaxed) && IsTail(tail, relaxed)
    case Rooted(rest) => IsUriText(rest, InPath, relaxed) && (rest != "" ==> rest[0] != '/')
    case Network(userinfo, host, port, tail) =>
      && (userinfo.Some? ==> IsUriText(userinfo.s, InUserinfo, relaxed)) && IsUriText(host, InName, relaxed)
      && (port.Some? ==> IsDigits(port.s)) && IsTail(tail, relaxed)
    case Rootless(text) => behindScheme && text != "" && text[0] != '/' && IsUriText(text, InPath, relaxed)
  }

  /** Token characters; a line feed, or a carriage return and a line feed, would end the head instead. */
  predicate IsName(s: string) {
    && |s| > 0 && (forall i :: 0 <= i < |s| ==> IsTokenChar(s[i]))
    && s[0] != '\n' && !(s[0] == '\r' && |s| > 1 && s[1] == '\n')
  }

  predicate IsBlanks(s: string) {
    forall i :: 0 <= i < |s| ==> IsBlank(s[i])
  }

  /** Value characters without a blank in front. */
  predicate IsValue(s: string) {
    (forall i :: 0 <= i < |s| ==> IsValueChar(s[i])) && (|s| > 0 ==> !IsBlank(s[0]))
  }

  predicate IsLine(l: Line) {
    IsName(l.name) && IsBlanks(l.blanks) && IsValue(l.value) && IsEol(l.eol)
  }

  predicate IsHead(h: Head, relaxed: bool) {
    && IsMethod(h.verb) && (h.scheme.Some? ==> IsScheme(h.scheme.s)) && IsPath(h.path, h.scheme.Some?, relaxed)
    && (h.query.Some? ==> IsUriText(h.query.s, InQuery, relaxed))
    && (h.fragment.Some? ==> IsUriText(h.fragment.s, InQuery, relaxed))
    && '0' <= h.minor <= '1' && IsEol(h.eol)
    && (forall i :: 0 <= i < |h.lines| ==> IsLine(h.lines[i]))
    && IsEol(h.last)
  }

  // Spelling.

  function SchemeText(o: Option): string {
    if o.Some? then o.s + ":" else ""
  }

  function UserinfoText(o: Option): string {
    if o.Some? then o.s + "@" else ""
  }

  function PortText(o: Option): string {
    if o.Some? then ":" + o.s else ""
  }

  function PathText(p: Path): string {
    match p
    case NoPath => ""
    case Relative(first, tail) => first + tail
    case Rooted(rest) => "/" + rest
    case Network(userinfo, host, port, tail) => "//" + (UserinfoText(userinfo) + (host + (PortText(port) + tail)))
    case Rootless(text) => text
  }

  function QueryText(q: Option): string {
    if q.Some? then "?" + q.s else ""
  }

  function FragmentTextOf(f: Option): string {
    if f.Some? then "#" + f.s else ""
  }

  function LineText(l: Line): string {
    l.name + (":" + (l.blanks + (l.value + l.eol)))
  }

  function LinesText(lines: seq<Line>): string {
    if lines == [] then "" else LineText(lines[0]) + LinesText(lines[1..])
  }

  function VersionText(minor: char): string {
    "HTTP/1." + [minor]
  }

  /** From behind the request target. */
  function TailText(h: Head): string {
    " " + (VersionText(h.minor) + (h.eol + (LinesText(h.lines) + h.last)))
  }

  function HeadText(h: Head): string {
    h.verb + (" " + (SchemeText(h.scheme) + (PathText(h.path) + (QueryText(h.query) + (FragmentTextOf(h.fragment)
                                                                                        + TailText(h))))))
  }

  // What the callbacks hear.

  function TargetEvents(path: string, query: Option): seq<Event> {
    if query.Some? then [PathIs(path), QueryIs(query.s), UriIs(path + "?" + query.s)]
    else [PathIs(path), UriIs(path)]
  }

  function FragmentEvents(f: Option): seq<Event> {
    if f.Some? then [FragmentIs(f.s)] else []
  }

  function LineEvents(lines: seq<Line>): seq<Event> {
    if lines == [] then [] else [FieldIs(lines[0].name, lines[0].value)] + LineEvents(lines[1..])
  }

  function HeadEvents(h: Head): seq<Event> {
    [MethodIs(h.verb)] + TargetEvents(PathText(h.path), h.query) + FragmentEvents(h.fragment)
    + [VersionIs(VersionText(h.minor))] + LineEvents(h.lines)
  }
}
