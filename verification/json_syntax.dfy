/** The texts that the decoder takes, as trees of what stands in them, and the JSON texts of RFC 8259 among them. */
module JsonSyntax {
  import opened JsonValues
  import opened JsonDecode

  /** A character that stands for itself, an escape of two characters, or one of four hexadecimal digits. */
  datatype Piece = Plain(c: char) | Short(c: char) | Unit(hex: string)

  datatype Json =
    | Literal(word: string)
    | Numeral(text: string)
    | Quoted(pieces: seq<Piece>)
    | Array(items: Items)
    | Object(members: Members)

  datatype Item = Item(before: string, val: Json, after: string)

  /** What stands behind an opening bracket or behind a comma, up to the closing bracket. */
  datatype Items = EndItems(space: string) | LastItem(item: Item) | MoreItems(item: Item, rest: Items)

  datatype Member = Member(before: string, key: seq<Piece>, left: string, right: string, val: Json, after: string)

  datatype Members = EndMembers(space: string) | LastMember(member: Member) | MoreMembers(member: Member, more: Members)

  datatype Document = Document(before: string, val: Json, after: string)

  // Spelling.

  function PieceText(p: Piece): (s: string)
    ensures s != ""
  {
    match p
    case Plain(c) => [c]
    case Short(c) => ['\\', c]
    case Unit(hex) => ['\\', 'u'] + hex
  }

  function PiecesText(ps: seq<Piece>): string {
    if ps == [] then "" else PieceText(ps[0]) + PiecesText(ps[1..])
  }

  function QuotedText(ps: seq<Piece>): (s: string)
    ensures s != "" && s[0] == '\"'
  {
    "\"" + (PiecesText(ps) + "\"")
  }

  function JsonText(j: Json): string
    decreases j
  {
    match j
    case Literal(word) => word
    case Numeral(text) => text
    case Quoted(ps) => QuotedText(ps)
    case Array(items) => "[" + ItemsText(items)
    case Object(members) => "{" + MembersText(members)
  }

  function ItemText(item: Item): string
    decreases item
  {
    item.before + (JsonText(item.val) + item.after)
  }

  function ItemsText(items: Items): string
    decreases items
  {
    match items
    case EndItems(space) => space + "]"
    case LastItem(item) => ItemText(item) + "]"
    case MoreItems(item, rest) => ItemText(item) + ("," + ItemsText(rest))
  }

  function MemberText(m: Member): string
    decreases m
  {
    m.before + (QuotedText(m.key) + (m.left + (":" + (m.right + (JsonText(m.val) + m.after)))))
  }

  function MembersText(members: Members): string
    decreases members
  {
    match members
    case EndMembers(space) => space + "}"
    case LastMember(member) => MemberText(member) + "}"
    case MoreMembers(member, more) => MemberText(member) + ("," + MembersText(more))
  }

  function DocumentText(d: Document): string {
    d.before + (JsonText(d.val) + d.after)
  }

  // What is taken.

  predicate IsSpaces(s: string) {
    forall k :: 0 <= k < |s| ==> IsSpace(s[k])
  }

  predicate IsPiece(p: Piece) {
    match p
    case Plain(c) => c as int >= 32 && c != '\"' && c != '\\'
    case Short(c) => c in "\\/\"bfnrt"
    case Unit(hex) => |hex| == 4 && forall k :: 0 <= k < 4 ==> IsHex(hex[k])
  }

  predicate ArePieces(ps: seq<Piece>) {
    forall k :: 0 <= k < |ps| ==> IsPiece(ps[k])
  }

  /** A numeral of Lua, from a digit or a minus sign on, without what would delimit it. */
  predicate IsNumeral(s: string) {
    && s != "" && (IsDigit(s[0]) || s[0] == '-') && ToNumber(s).ANumber?
    && forall k :: 0 <= k < |s| ==> !IsDelimiter(s[k])
  }

  predicate IsWord(s: string) {
    s == "true" || s == "false" || s == "null"
  }

  predicate IsJson(j: Json)
    decreases j
  {
    match j
    case Literal(word) => IsWord(word)
    case Numeral(text) => IsNumeral(text)
    case Quoted(ps) => ArePieces(ps)
    case Array(items) => AreItems(items)
    case Object(members) => AreMembers(members)
  }

  predicate IsItem(item: Item)
    decreases item
  {
    IsSpaces(item.before) && IsJson(item.val) && IsSpaces(item.after)
  }

  predicate AreItems(items: Items)
    decreases items
  {
    match items
    case EndItems(space) => IsSpaces(space)
    case LastItem(item) => IsItem(item)
    case MoreItems(item, rest) => IsItem(item) && AreItems(rest)
  }

  predicate IsMember(m: Member)
    decreases m
  {
    IsSpaces(m.before) && ArePieces(m.key) && IsSpaces(m.left) && IsSpaces(m.right) && IsJson(m.val) &&
      IsSpaces(m.after)
  }

  predicate AreMembers(members: Members)
    decreases members
  {
    match members
    case EndMembers(space) => IsSpaces(space)
    case LastMember(member) => IsMember(member)
    case MoreMembers(member, more) => IsMember(member) && AreMembers(more)
  }

  predicate IsDocument(d: Document) {
    IsSpaces(d.before) && IsJson(d.val) && IsSpaces(d.after)
  }

  // What it stands for.

  predicate IsHighUnit(hex: string) {
    |hex| == 4 && hex[0] in "dD" && hex[1] in "89aAbB"
  }

  /** A high surrogate and any unit behind it are read as one code point. */
  predicate IsPair(ps: seq<Piece>) {
    |ps| >= 2 && ps[0].Unit? && ps[1].Unit? && IsHighUnit(ps[0].hex)
  }

  function UnitNumber(hex: string): nat {
    if IsPiece(Unit(hex)) then HexNumber(hex) else 0
  }

  function PairNumber(high: string, low: string): int {
    (UnitNumber(high) - 0xd800) * 0x400 + (UnitNumber(low) - 0xdc00) + 0x10000
  }

  /** No pair is beyond the last code point. */
  predicate PiecesFit(ps: seq<Piece>)
    decreases |ps|
  {
    if ps == [] then true
    else if IsPair(ps) then PairNumber(ps[0].hex, ps[1].hex) <= 0x10ffff && PiecesFit(ps[2..])
    else PiecesFit(ps[1..])
  }

  function Utf8Octets(n: int): string {
    if 0 <= n <= 0x10ffff then CodepointToUtf8(n).octets else ""
  }

  function PieceValue(p: Piece): string {
    match p
    case Plain(c) => [c]
    case Short(c) => Unescaped(c)
    case Unit(hex) => Utf8Octets(UnitNumber(hex))
  }

  function PiecesValue(ps: seq<Piece>): string
    decreases |ps|
  {
    if ps == [] then ""
    else if IsPair(ps) then Utf8Octets(PairNumber(ps[0].hex, ps[1].hex)) + PiecesValue(ps[2..])
    else PieceValue(ps[0]) + PiecesValue(ps[1..])
  }

  function NumeralValue(text: string): Num {
    match ToNumber(text)
    case ANumber(num) => num
    case NotANumber => Other(text)
  }

  predicate Fits(j: Json)
    decreases j
  {
    match j
    case Quoted(ps) => PiecesFit(ps)
    case Array(items) => ItemsFit(items)
    case Object(members) => MembersFit(members)
    case _ => true
  }

  predicate ItemsFit(items: Items)
    decreases items
  {
    match items
    case EndItems(_) => true
    case LastItem(item) => Fits(item.val)
    case MoreItems(item, rest) => Fits(item.val) && ItemsFit(rest)
  }

  predicate MembersFit(members: Members)
    decreases members
  {
    match members
    case EndMembers(_) => true
    case LastMember(member) => PiecesFit(member.key) && Fits(member.val)
    case MoreMembers(member, more) => PiecesFit(member.key) && Fits(member.val) && MembersFit(more)
  }

  function JsonValue(j: Json): Value
    decreases j
  {
    match j
    case Literal(word) => if word == "true" then Boolean(true) else if word == "false" then Boolean(false) else Nil
    case Numeral(text) => Number(NumeralValue(text))
    case Quoted(ps) => Str(PiecesValue(ps))
    case Array(items) => Table(ItemsValue(items, 1, map[]))
    case Object(members) => Table(MembersValue(members, map[]))
  }

  /** The items from number n on, over those before. */
  function ItemsValue(items: Items, n: nat, res: map<Key, Value>): map<Key, Value>
    decreases items
  {
    match items
    case EndItems(_) => res
    case LastItem(item) => Assign(res, Index(n), JsonValue(item.val))
    case MoreItems(item, rest) => ItemsValue(rest, n + 1, Assign(res, Index(n), JsonValue(item.val)))
  }

  function MembersValue(members: Members, res: map<Key, Value>): map<Key, Value>
    decreases members
  {
    match members
    case EndMembers(_) => res
    case LastMember(m) => Assign(res, Name(PiecesValue(m.key)), JsonValue(m.val))
    case MoreMembers(m, more) => MembersValue(more, Assign(res, Name(PiecesValue(m.key)), JsonValue(m.val)))
  }

  // The trees of RFC 8259: its numerals, and no comma before a closing bracket or brace.

  /** [ minus ] int [ frac ] [ exp ], of section 6. */
  predicate IsRfcNumber(s: string) {
    var m := if s != "" && s[0] == '-' then s[1..] else s;
    var i := DigitRun(m, 0);
    var f := if i < |m| && m[i] == '.' then DigitRun(m, i + 1) else i;
    i > 0 && (m[0] == '0' ==> i == 1) && (f == i || f > i + 1) && ExponentTail(m, f, "eE")
  }

  predicate IsRfcJson(j: Json)
    decreases j
  {
    match j
    case Literal(word) => IsWord(word)
    case Numeral(text) => IsRfcNumber(text)
    case Quoted(ps) => ArePieces(ps)
    case Array(items) => AreRfcItems(items, true)
    case Object(members) => AreRfcMembers(members, true)
  }

  predicate AreRfcItems(items: Items, first: bool)
    decreases items
  {
    match items
    case EndItems(space) => first && IsSpaces(space)
    case LastItem(i) => IsSpaces(i.before) && IsRfcJson(i.val) && IsSpaces(i.after)
    case MoreItems(i, rest) => IsSpaces(i.before) && IsRfcJson(i.val) && IsSpaces(i.after) && AreRfcItems(rest, false)
  }

  predicate IsRfcMember(m: Member)
    decreases m
  {
    IsSpaces(m.before) && ArePieces(m.key) && IsSpaces(m.left) && IsSpaces(m.right) && IsRfcJson(m.val) &&
      IsSpaces(m.after)
  }

  predicate AreRfcMembers(members: Members, first: bool)
    decreases members
  {
    match members
    case EndMembers(space) => first && IsSpaces(space)
    case LastMember(m) => IsRfcMember(m)
    case MoreMembers(m, more) => IsRfcMember(m) && AreRfcMembers(more, false)
  }

  ghost predicate IsRfcText(str: string) {
    exists d: Document :: IsSpaces(d.before) && IsRfcJson(d.val) && IsSpaces(d.after) && DocumentText(d) == str
  }

  /** Neither a comma before a closing bracket or brace nor a numeral that is none of RFC 8259, at any depth. */
  predicate IsStrict(j: Json)
    decreases j
  {
    match j
    case Numeral(text) => IsRfcNumber(text)
    case Array(items) => AreStrictItems(items, false)
    case Object(members) => AreStrictMembers(members, false)
    case _ => true
  }

  predicate AreStrictItems(items: Items, behindComma: bool)
    decreases items
  {
    match items
    case EndItems(_) => !behindComma
    case LastItem(item) => IsStrict(item.val)
    case MoreItems(item, rest) => IsStrict(item.val) && AreStrictItems(rest, true)
  }

  predicate AreStrictMembers(members: Members, behindComma: bool)
    decreases members
  {
    match members
    case EndMembers(_) => !behindComma
    case LastMember(member) => IsStrict(member.val)
    case MoreMembers(member, more) => IsStrict(member.val) && AreStrictMembers(more, true)
  }
}
