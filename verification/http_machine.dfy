/**
 * The request machine of http11_parser.rl.cc with the generated state numbers, without IP literals and socket messages.
 * A char is an octet; octets above 127 are negative chars in the source and fail every range test there.
 */
module HttpMachine {
  // Character sets, as the generated code tests them.

  predicate IsMethodChar(c: char) {
    '0' <= c <= '9' || 'A' <= c <= 'Z'
  }

  predicate IsHex(c: char) {
    '0' <= c <= '9' || 'A' <= c <= 'F' || 'a' <= c <= 'f'
  }

  /** What states 26 and 33 take as it is; braces and the caret only when uri_relaxed is set. */
  predicate IsPathChar(c: char, relaxed: bool) {
    c as int >= 128 ||
    ('!' <= c <= '~' && c !in "\"#%<>?[\\]`|" && (c in "^{}" ==> relaxed))
  }

  predicate IsQueryChar(c: char, relaxed: bool) {
    IsPathChar(c, relaxed) || c == '?'
  }

  /** State 14: most control octets are part of a header name. */
  predicate IsTokenChar(c: char) {
    var n := c as int;
    1 <= n <= 8 || 10 <= n <= 31 || c in "!|~*+-." || '#' <= c <= '\'' || '0' <= c <= '9' || 'A' <= c <= 'Z'
    || '^' <= c <= 'z'
  }

  predicate IsBlank(c: char) {
    c == ' ' || c == '\t'
  }

  /** State 16: anything but NUL, DEL and the line ends. */
  predicate IsValueChar(c: char) {
    c as int != 0 && c as int != 127 && c != '\n' && c != '\r'
  }

  predicate IsDigit(c: char) {
    '0' <= c <= '9'
  }

  predicate IsLetter(c: char) {
    'A' <= c <= 'Z' || 'a' <= c <= 'z'
  }

  /** Behind the first letter of a scheme. */
  predicate IsSchemeChar(c: char) {
    IsLetter(c) || IsDigit(c) || c in "+-."
  }

  /** What a registered name takes as it is: the unreserved characters and the sub-delimiters. */
  predicate IsRegNameChar(c: char, relaxed: bool) {
    IsLetter(c) || IsDigit(c) || '&' <= c <= '.' || c in "!$;=_~" || (c in "^{}" && relaxed)
  }

  // The transitions.

  datatype Action =
    | Mark
    | StartField
    | WriteField
    | WriteValue
    | RequestMethod
    | RequestUri
    | FragmentText
    | StartQuery
    | QueryString
    | HttpVersion
    | RequestPath
    | Done

  datatype Move = Move(next: nat, actions: seq<Action>)

  const START: nat := 1
  const ERROR: nat := 0
  const FINAL: nat := 348
  /** Every state of an IP literal or of a socket message. */
  const ELSEWHERE: nat := 1000

  function Plain(next: nat): Move {
    Move(next, [])
  }

  /** States 2 and 175 to 193 count the characters of the method, up to twenty. */
  predicate InMethod(cs: nat) {
    cs == 2 || 175 <= cs <= 193
  }

  function MethodMove(cs: nat, c: char): Move {
    if cs == 1 then
      if c == '<' || c == '@' then Plain(ELSEWHERE)
      else if IsMethodChar(c) then Move(2, [Mark])
      else Plain(ERROR)
    else if c == ' ' then Move(3, [RequestMethod])
    else if cs < 193 && IsMethodChar(c) then Plain(if cs == 2 then 175 else cs + 1)
    else Plain(ERROR)
  }

  /** What ends a path. */
  predicate IsPathEnd(c: char) {
    c == ' ' || c == '#' || c == '?'
  }

  function EndMove(c: char, start: seq<Action>): Move
    requires IsPathEnd(c)
  {
    if c == '?' then Move(29, start + [RequestPath])
    else Move(if c == ' ' then 4 else 20, start + [RequestPath, RequestUri])
  }

  /** The states behind a percent sign and behind its first digit. */
  predicate IsHexState(cs: nat) {
    cs in {22, 23, 24, 25, 27, 28, 31, 32, 36, 37, 40, 41, 44, 45}
  }

  /** Behind the second digit the machine is back in the state that the percent sign left. */
  function HexMove(cs: nat, c: char): Move
    requires IsHexState(cs)
  {
    if !IsHex(c) then Plain(ERROR)
    else if cs == 25 then Plain(19)
    else if cs in {23, 28, 32, 37, 41, 45} then Plain(cs - 2)
    else Plain(cs + 1)
  }

  /** The start of a target, a scheme or a first segment, and what stands behind the colon of a scheme. */
  function StartMove(cs: nat, c: char, relaxed: bool): Move {
    var start := if cs == 3 || cs == 174 then [Mark] else [];
    if IsPathEnd(c) then EndMove(c, start)
    else if c == '/' then Move(if cs == 3 || cs == 174 then 33 else 26, start)
    else if c == '%' then Move(if cs == 174 then 27 else 24, start)
    else if cs == 174 then (if IsPathChar(c, relaxed) then Move(26, start) else Plain(ERROR))
    else if cs == 3 && IsLetter(c) then Move(173, start)
    else if cs == 173 && c == ':' then Plain(174)
    else if cs == 173 && IsSchemeChar(c) then Plain(173)
    else if IsRegNameChar(c, relaxed) || c == '@' then Move(19, start)
    else Plain(ERROR)
  }

  /** A path behind its first slash. */
  function PathMove(cs: nat, c: char, relaxed: bool): Move {
    if IsPathEnd(c) then EndMove(c, [])
    else if c == '%' then Plain(27)
    else if cs == 33 && c == '/' then Plain(34)
    else if IsPathChar(c, relaxed) then Plain(26)
    else Plain(ERROR)
  }

  /** An authority: what may still be user information in 34, 35, 38 and 39, then host and port in 42, 43 and 46. */
  function AuthorityMove(cs: nat, c: char, relaxed: bool): Move {
    if IsPathEnd(c) && cs != 39 then EndMove(c, [])
    else if c == '/' && cs != 39 then Plain(26)
    else if cs == 46 then Plain(if IsDigit(c) then 46 else ERROR)
    else if c == '[' && (cs == 34 || cs == 42) then Plain(ELSEWHERE)
    else if c == '@' && cs < 42 then Plain(42)
    else if c == ':' then Plain(if cs >= 42 then 46 else if cs <= 35 then 38 else 39)
    else if c == '%' then Plain(if cs <= 35 then 36 else if cs <= 39 then 40 else 44)
    else if cs == 38 && IsDigit(c) then Plain(38)
    else if IsRegNameChar(c, relaxed) then Plain(if cs <= 35 then 35 else if cs <= 39 then 39 else 43)
    else Plain(ERROR)
  }

  function QueryMove(cs: nat, c: char, relaxed: bool): Move {
    var start := if cs == 29 then [StartQuery] else [];
    if c == ' ' then Move(4, start + [QueryString, RequestUri])
    else if c == '#' then Move(20, start + [QueryString, RequestUri])
    else if c == '%' then Move(31, start)
    else if IsQueryChar(c, relaxed) then Move(30, start)
    else Plain(ERROR)
  }

  function FragmentMove(cs: nat, c: char, relaxed: bool): Move {
    var start := if cs == 20 then [Mark] else [];
    if c == ' ' then Move(4, start + [FragmentText])
    else if c == '%' then Move(22, start)
    else if IsQueryChar(c, relaxed) then Move(21, start)
    else Plain(ERROR)
  }

  /** States 4 to 12 spell HTTP/1.0 or HTTP/1.1 and a line end. */
  function VersionMove(cs: nat, c: char): Move
    requires 4 <= cs <= 12
  {
    if cs == 4 then (if c == 'H' then Move(5, [Mark]) else Plain(ERROR))
    else if cs == 11 then Plain(if '0' <= c <= '1' then 12 else ERROR)
    else if cs == 12 then
      if c == '\n' then Move(13, [HttpVersion])
      else if c == '\r' then Move(17, [HttpVersion])
      else Plain(ERROR)
    else Plain(if c == "HTTP/1."[cs - 4] then cs + 1 else ERROR)
  }

  function HeaderMove(cs: nat, c: char): Move {
    if cs == 13 then
      if c == '\n' then Move(FINAL, [StartField, Done])
      else if c == '\r' then Move(18, [StartField])
      else if IsTokenChar(c) then Move(14, [StartField])
      else Plain(ERROR)
    else if cs == 14 then
      if c == ':' then Move(15, [WriteField])
      else if IsTokenChar(c) then Plain(14)
      else Plain(ERROR)
    else if cs == 15 then
      if IsBlank(c) then Move(15, [Mark])
      else if c == '\n' then Move(13, [Mark, WriteValue])
      else if c == '\r' then Move(17, [Mark, WriteValue])
      else if IsValueChar(c) then Move(16, [Mark])
      else Plain(ERROR)
    else if cs == 16 then
      if c == '\n' then Move(13, [WriteValue])
      else if c == '\r' then Move(17, [WriteValue])
      else if IsValueChar(c) then Plain(16)
      else Plain(ERROR)
    else if cs == 17 then Plain(if c == '\n' then 13 else ERROR)
    else // 18: a carriage return opened the line
      if c == '\n' then Move(FINAL, [Done])
      else if c == ':' then Move(15, [WriteField])
      else if IsTokenChar(c) then Plain(14)
      else Plain(ERROR)
  }

  predicate IsModelled(cs: nat) {
    1 <= cs <= 46 || 173 <= cs <= 193
  }

  function Transition(cs: nat, c: char, relaxed: bool): Move
    requires IsModelled(cs)
  {
    if cs == 1 || InMethod(cs) then MethodMove(cs, c)
    else if cs in {3, 19, 173, 174} then StartMove(cs, c, relaxed)
    else if IsHexState(cs) then HexMove(cs, c)
    else if cs == 26 || cs == 33 then PathMove(cs, c, relaxed)
    else if 34 <= cs <= 46 then AuthorityMove(cs, c, relaxed)
    else if cs == 29 || cs == 30 then QueryMove(cs, c, relaxed)
    else if cs == 20 || cs == 21 then FragmentMove(cs, c, relaxed)
    else if 4 <= cs <= 12 then VersionMove(cs, c)
    else HeaderMove(cs, c)
  }

  // The parser: its state, its marks and the calls it has made.

  datatype Event =
    | MethodIs(s: string)
    | PathIs(s: string)
    | UriIs(s: string)
    | QueryIs(s: string)
    | FragmentIs(s: string)
    | VersionIs(s: string)
    | FieldIs(name: string, value: string)

  datatype Parser = Parser(cs: nat, p: nat, mark: nat, fieldStart: nat, fieldLen: nat, queryStart: nat,
                           bodyStart: nat, events: seq<Event>)

  /** http_parser_init and the resets at the head of http_parser_execute; query_start keeps what it held. */
  function Fresh(queryStart: nat): Parser {
    Parser(START, 0, 0, 0, 0, queryStart, 0, [])
  }

  /** The octets from one offset up to another; the empty text if that is no range of the buffer. */
  function Slice(buf: string, from: nat, to: nat): string {
    if from <= to <= |buf| then buf[from..to] else ""
  }

  function Perform(m: Parser, buf: string, a: Action): Parser {
    match a
    case Mark => m.(mark := m.p)
    case StartField => m.(fieldStart := m.p)
    case WriteField => m.(fieldLen := if m.fieldStart <= m.p then m.p - m.fieldStart else 0)
    case WriteValue =>
      m.(events := m.events + [FieldIs(Slice(buf, m.fieldStart, m.fieldStart + m.fieldLen), Slice(buf, m.mark, m.p))])
    case RequestMethod => m.(events := m.events + [MethodIs(Slice(buf, m.mark, m.p))])
    case RequestUri => m.(events := m.events + [UriIs(Slice(buf, m.mark, m.p))])
    case FragmentText => m.(events := m.events + [FragmentIs(Slice(buf, m.mark, m.p))])
    case StartQuery => m.(queryStart := m.p)
    case QueryString => m.(events := m.events + [QueryIs(Slice(buf, m.queryStart, m.p))])
    case HttpVersion => m.(events := m.events + [VersionIs(Slice(buf, m.mark, m.p))])
    case RequestPath => m.(events := m.events + [PathIs(Slice(buf, m.mark, m.p))])
    case Done => m.(bodyStart := m.p + 1)
  }

  function PerformAll(m: Parser, buf: string, actions: seq<Action>): (r: Parser)
    ensures r.p == m.p && r.cs == m.cs
    decreases |actions|
  {
    if actions == [] then m else PerformAll(Perform(m, buf, actions[0]), buf, actions[1..])
  }

  /** One turn: the actions of the transition, and the cursor moves on unless the machine leaves the model. */
  function StepAt(m: Parser, buf: string, relaxed: bool): (r: Parser)
    requires IsModelled(m.cs) && m.p < |buf|
    ensures m.p <= r.p <= m.p + 1
    ensures IsModelled(r.cs) ==> r.p == m.p + 1
  {
    var move := Transition(m.cs, buf[m.p], relaxed);
    var done := PerformAll(m, buf, move.actions);
    if move.next == ERROR || move.next == ELSEWHERE then done.(cs := move.next)
    else done.(cs := move.next, p := m.p + 1)
  }

  /** Up to the end of the buffer, an error, or the final state. */
  function Run(m: Parser, buf: string, relaxed: bool): (r: Parser)
    requires m.p <= |buf|
    ensures m.p <= r.p <= |buf|
    decreases |buf| - m.p, if IsModelled(m.cs) then 1 else 0
  {
    if m.p == |buf| || !IsModelled(m.cs) then m else Run(StepAt(m, buf, relaxed), buf, relaxed)
  }

  /** The final state, entered by a new call, goes on as inside a header name. */
  function FinalMove(c: char): Move {
    if c == ':' then Move(15, [WriteField]) else if IsTokenChar(c) then Plain(14) else Plain(ERROR)
  }

  /** A call on a buffer that is not empty: the machine goes on from the state that the last call left. */
  function Resumed(m: Parser, buf: string, relaxed: bool): (r: Parser)
    requires m.p < |buf|
    ensures r.p <= |buf|
  {
    if m.cs != FINAL then Run(m, buf, relaxed)
    else
      var move := FinalMove(buf[m.p]);
      var done := PerformAll(m, buf, move.actions).(cs := move.next);
      Run(if move.next == ERROR then done else done.(p := m.p + 1), buf, relaxed)
  }
}
