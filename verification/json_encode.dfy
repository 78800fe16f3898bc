/** The encoder of json.lua. */
module JsonEncode {
  import opened JsonValues

  datatype EncodeError = MixedKeys | SparseArray

  datatype Encoded = Text(s: string) | Refused(error: EncodeError)

  /** The lower-case hexadecimal digits. */
  function HexChar(d: nat): char
    requires d < 16
  {
    if d < 10 then ('0' as int + d) as char else ('a' as int + (d - 10)) as char
  }

  function Octet(n: nat): char
    requires n < 256
  {
    n as char
  }

  // Scalars.

  function NatText(n: nat): (s: string)
    ensures |s| > 0
  {
    if n < 10 then [HexChar(n)] else NatText(n / 10) + [HexChar(n % 10)]
  }

  /** The decimal text of an integer below 10^14 in magnitude. */
  function NumberText(n: int): (s: string)
    ensures |s| > 0
  {
    if n < 0 then "-" + NatText(-n) else NatText(n)
  }

  /** The second character of a two-character escape, if c has one. */
  function ShortEscape(c: char): (e: char) {
    if c == '\\' then '\\'
    else if c == '\"' then '\"'
    else if c == Octet(8) then 'b'
    else if c == Octet(12) then 'f'
    else if c == '\n' then 'n'
    else if c == '\r' then 'r'
    else if c == '\t' then 't'
    else 'u'
  }

  /** escape_char, for the characters that the pattern of encode_string selects */
  function EscapeChar(c: char): string
    requires NeedsEscape(c)
  {
    var e := ShortEscape(c);
    if e != 'u' then ['\\', e] else ['\\', 'u', '0', '0', HexChar(c as int / 16), HexChar(c as int % 16)]
  }

  /** The characters that the encoder escapes: control octets, backslash and quote. */
  predicate NeedsEscape(c: char) {
    c as int < 32 || c == '\\' || c == '\"'
  }

  function EscapedText(s: string): string {
    if s == "" then ""
    else (if NeedsEscape(s[0]) then EscapeChar(s[0]) else [s[0]]) + EscapedText(s[1..])
  }

  /** encode_string */
  function StringText(s: string): (t: string)
    ensures t != ""
  {
    "\"" + EscapedText(s) + "\""
  }

  function KeyText(k: Key): string
    requires k.Name?
  {
    StringText(k.s)
  }

  // Tables.

  function Encode(t: Tree): Encoded
    decreases t, 2
  {
    match t
    case TNil => Text("null")
    case TBoolean(b) => Text(if b then "true" else "false")
    case TNumber(n) => Text(NumberText(n))
    case TStr(s) => Text(StringText(s))
    case TTable(entries, border) =>
      if ArrayLike(entries) then
        if exists i :: 0 <= i < |entries| && !entries[i].key.Index? then Refused(MixedKeys)
        else if |entries| != border then Refused(SparseArray)
        else Wrapped("[", EncodeItems(t, 1), "]")
      else
        Wrapped("{", EncodeFields(t, 0), "}")
  }

  function Wrapped(open: string, inner: Encoded, close: string): Encoded {
    if inner.Text? then Text(open + inner.s + close) else inner
  }

  /** The texts of two neighbours with the separator of table.concat; the left one is encoded first. */
  function Joined(left: Encoded, right: Encoded): Encoded {
    if left.Refused? then left
    else if right.Refused? then right
    else Text(left.s + "," + right.s)
  }

  /** The items that ipairs visits from index k on. */
  function EncodeItems(t: Tree, k: nat): Encoded
    requires t.TTable? && k > 0
    decreases t, 1, |t.entries| + 1 - k
  {
    if !IsItem(t.entries, k) then Text("")
    else
      var here := Encode(At(t.entries, Index(k)));
      if !IsItem(t.entries, k + 1) then here else Joined(here, EncodeItems(t, k + 1))
  }

  /** There is a value under k, and k is an index that ipairs can reach. */
  predicate IsItem(entries: seq<Entry>, k: nat) {
    k <= |entries| && Has(entries, Index(k))
  }

  /** The fields from position i of the enumeration on. */
  function EncodeFields(t: Tree, i: nat): Encoded
    requires t.TTable? && i <= |t.entries|
    decreases t, 1, |t.entries| - i
  {
    if i == |t.entries| then Text("")
    else
      var here := EncodeField(t, i);
      if i + 1 == |t.entries| then here else Joined(here, EncodeFields(t, i + 1))
  }

  function EncodeField(t: Tree, i: nat): Encoded
    requires t.TTable? && i < |t.entries|
    decreases t, 0
  {
    var entry := t.entries[i];
    if !entry.key.Name? then Refused(MixedKeys)
    else
      var val := Encode(entry.val);
      if val.Text? then Text(KeyText(entry.key) + ":" + val.s) else val
  }
}
