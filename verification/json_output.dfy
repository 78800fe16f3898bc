/** What the encoder writes: JSON of RFC 8259, without spaces, numbers and strings in one canonical form. */
module JsonOutput {
  import opened JsonValues
  import JsonEncode
  import opened JsonDecode
  import JsonRoundTrip
  import JsonTables
  import opened JsonSyntax

  // Numbers.

  /** The decimal numeral of an integer: a minus sign if it is negative, and no zero in front of other digits. */
  predicate IsDecimalOf(s: string, n: int) {
    var m := if n < 0 && s != "" then s[1..] else s;
    && (n < 0 ==> s != "" && s[0] == '-')
    && AllDigits(m) && (|m| > 1 ==> m[0] != '0')
    && DecimalNumber(m) == if n < 0 then -n else n
  }

  lemma {:induction false} NatTextIsCanonical(n: nat)
    ensures var s := JsonEncode.NatText(n);
            AllDigits(s) && DecimalNumber(s) == n && (|s| > 1 ==> s[0] != '0') && (n > 0 ==> s[0] != '0')
  {
    JsonRoundTrip.NatTextDigits(n);
    if n >= 10 {
      NatTextIsCanonical(n / 10);
    } else if n > 0 {
      JsonRoundTrip.HexCharValue(n);
    }
  }

  /** A numeral that does not start with a zero is no less than its place values. */
  lemma {:induction false} CanonicalIsNatText(s: string)
    requires AllDigits(s) && (|s| > 1 ==> s[0] != '0')
    ensures s == JsonEncode.NatText(DecimalNumber(s)) && (s[0] != '0' ==> DecimalNumber(s) > 0)
  {
    var front, last := s[..|s| - 1], s[|s| - 1];
    DigitOfValue(last);
    assert s == front + [last];
    if front == "" {
      assert DecimalNumber(s) == DigitValue(last);
    } else {
      CanonicalIsNatText(front);
      assert front[0] == s[0];
    }
  }

  lemma DigitOfValue(c: char)
    requires IsDigit(c)
    ensures JsonEncode.HexChar(DigitValue(c)) == c && (c != '0' ==> DigitValue(c) > 0)
  {
  }

  /** The encoder writes the one decimal numeral of an integer. */
  lemma NumberTextIff(s: string, n: int)
    ensures s == JsonEncode.NumberText(n) <==> IsDecimalOf(s, n)
  {
    var m: nat := if n < 0 then -n else n;
    NatTextIsCanonical(m);
    var text := JsonEncode.NumberText(n);
    assert n < 0 ==> text[1..] == JsonEncode.NatText(m);
    if IsDecimalOf(s, n) {
      CanonicalIsNatText(if n < 0 then s[1..] else s);
      assert n < 0 ==> s == [s[0]] + s[1..];
    }
  }

  lemma OneToFive()
    ensures JsonEncode.NatText(12345) == "12345"
  {
    assert JsonEncode.NatText(1) == "1" && JsonEncode.NatText(12) == "12" && JsonEncode.NatText(123) == "123";
    assert JsonEncode.NatText(1234) == "1234";
  }

  lemma SixToZero()
    requires JsonEncode.NatText(12345) == "12345"
    ensures JsonEncode.NatText(1234567890) == "1234567890"
  {
    assert JsonEncode.NatText(123456) == "123456" && JsonEncode.NatText(1234567) == "1234567";
    assert JsonEncode.NatText(12345678) == "12345678" && JsonEncode.NatText(123456789) == "123456789";
  }

  /** All ten digits. */
  lemma DigitsWritten()
    ensures JsonEncode.NumberText(-1234567890) == "-1234567890" && JsonEncode.NumberText(0) == "0"
  {
    OneToFive();
    SixToZero();
    assert JsonEncode.NatText(0) == "0";
    hide JsonEncode.NatText;
  }

  lemma {:induction false} DigitsRunToEnd(s: string, i: nat)
    requires i <= |s| && forall k :: i <= k < |s| ==> IsDigit(s[k])
    ensures DigitRun(s, i) == |s|
    decreases |s| - i
  {
    if i < |s| {
      DigitsRunToEnd(s, i + 1);
    }
  }

  lemma NumberIsRfc(n: int)
    ensures IsRfcNumber(JsonEncode.NumberText(n))
  {
    var m: nat := if n < 0 then -n else n;
    var s := JsonEncode.NumberText(n);
    NatTextIsCanonical(m);
    assert n < 0 ==> s[1..] == JsonEncode.NatText(m);
    DigitsRunToEnd(JsonEncode.NatText(m), 0);
  }

  // Strings.

  /** The characters that RFC 8259 wants escaped: quotation mark, reverse solidus, and U+0000 to U+001F. */
  lemma EscapedIff(c: char)
    ensures JsonEncode.NeedsEscape(c) <==> c as int in {0x22, 0x5c} || c as int <= 0x1f
  {
  }

  /** The escapes, one by one: short where the encoder has one, and otherwise two zeros and two hexadecimal digits. */
  lemma EscapesWritten(c: char)
    requires JsonEncode.NeedsEscape(c)
    ensures c as int == 0x22 ==> JsonEncode.EscapeChar(c) == "\\\""
    ensures c as int == 0x5c ==> JsonEncode.EscapeChar(c) == "\\\\"
    ensures c as int == 0x08 ==> JsonEncode.EscapeChar(c) == "\\b"
    ensures c as int == 0x09 ==> JsonEncode.EscapeChar(c) == "\\t"
    ensures c as int == 0x0a ==> JsonEncode.EscapeChar(c) == "\\n"
    ensures c as int == 0x0c ==> JsonEncode.EscapeChar(c) == "\\f"
    ensures c as int == 0x0d ==> JsonEncode.EscapeChar(c) == "\\r"
    ensures c as int <= 0x1f && c as int !in {0x08, 0x09, 0x0a, 0x0c, 0x0d} ==>
              JsonEncode.EscapeChar(c) ==
              "\\u00" + [if c as int < 16 then '0' else '1', "0123456789abcdef"[c as int % 16]]
  {
  }

  /** The piece that a character becomes. */
  function PieceOf(c: char): Piece {
    if !JsonEncode.NeedsEscape(c) then Plain(c)
    else if JsonEncode.ShortEscape(c) != 'u' then Short(JsonEncode.ShortEscape(c))
    else Unit(['0', '0', JsonEncode.HexChar(c as int / 16), JsonEncode.HexChar(c as int % 16)])
  }

  function PiecesOf(s: string): (ps: seq<Piece>)
    ensures |ps| == |s|
  {
    seq(|s|, i requires 0 <= i < |s| => PieceOf(s[i]))
  }

  lemma PieceIsWritten(c: char)
    ensures IsPiece(PieceOf(c))
    ensures PieceText(PieceOf(c)) == if JsonEncode.NeedsEscape(c) then JsonEncode.EscapeChar(c) else [c]
  {
    if JsonEncode.NeedsEscape(c) && c as int < 32 {
      JsonRoundTrip.HexCharValue(c as int / 16);
      JsonRoundTrip.HexCharValue(c as int % 16);
    }
  }

  lemma {:induction false} PiecesAreWritten(s: string)
    ensures ArePieces(PiecesOf(s)) && PiecesText(PiecesOf(s)) == JsonEncode.EscapedText(s)
  {
    hide PieceOf, IsPiece, PieceText, JsonEncode.NeedsEscape, JsonEncode.EscapeChar;
    if s != "" {
      PieceIsWritten(s[0]);
      PiecesAreWritten(s[1..]);
      assert PiecesOf(s) == [PieceOf(s[0])] + PiecesOf(s[1..]);
    }
  }

  lemma QuotedIsWritten(s: string)
    ensures QuotedText(PiecesOf(s)) == JsonEncode.StringText(s) && ArePieces(PiecesOf(s))
  {
    PiecesAreWritten(s);
  }

  // Values.

  /** The tree of the text of a value: nothing but what is needed, in the order of the items and of the enumeration. */
  function TreeOf(t: Tree): Json
    requires JsonEncode.Encode(t).Text?
    decreases t, 2
  {
    match t
    case TNil => Literal("null")
    case TBoolean(b) => Literal(if b then "true" else "false")
    case TNumber(n) => Numeral(JsonEncode.NumberText(n))
    case TStr(s) => Quoted(PiecesOf(s))
    case TTable(entries, _) =>
      if ArrayLike(entries) then Array(ItemsOf(t, 1)) else Object(MembersOf(t, 0))
  }

  function ItemsOf(t: Tree, k: nat): Items
    requires t.TTable? && k > 0 && JsonEncode.EncodeItems(t, k).Text?
    decreases t, 1, |t.entries| + 1 - k
  {
    if !JsonEncode.IsItem(t.entries, k) then EndItems("")
    else
      var item := Item("", TreeOf(At(t.entries, Index(k))), "");
      if !JsonEncode.IsItem(t.entries, k + 1) then LastItem(item) else MoreItems(item, ItemsOf(t, k + 1))
  }

  function MembersOf(t: Tree, i: nat): Members
    requires t.TTable? && i <= |t.entries| && JsonEncode.EncodeFields(t, i).Text?
    decreases t, 1, |t.entries| - i
  {
    if i == |t.entries| then EndMembers("")
    else
      var e := t.entries[i];
      assert JsonEncode.EncodeField(t, i).Text?;
      var member := Member("", PiecesOf(e.key.s), "", "", TreeOf(e.val), "");
      if i + 1 == |t.entries| then LastMember(member) else MoreMembers(member, MembersOf(t, i + 1))
  }

  /** The text of a value is that tree's, which is JSON. */
  lemma {:induction false} TreeIsWritten(t: Tree)
    requires JsonEncode.Encode(t).Text?
    ensures JsonText(TreeOf(t)) == JsonEncode.Encode(t).s && IsRfcJson(TreeOf(t))
    decreases t, 2
  {
    hide IsRfcNumber, JsonEncode.NumberText, JsonEncode.StringText, ArePieces, PiecesOf, QuotedText;
    match t
    case TNumber(n) => NumberIsRfc(n);
    case TStr(s) => QuotedIsWritten(s);
    case TTable(entries, _) =>
      if ArrayLike(entries) {
        ItemsAreWritten(t, 1);
      } else {
        MembersAreWritten(t, 0);
      }
    case _ =>
  }

  lemma {:induction false} ItemsAreWritten(t: Tree, k: nat)
    requires t.TTable? && k > 0 && JsonEncode.EncodeItems(t, k).Text?
    requires k == 1 || JsonEncode.IsItem(t.entries, k)
    ensures ItemsText(ItemsOf(t, k)) == JsonEncode.EncodeItems(t, k).s + "]" && AreRfcItems(ItemsOf(t, k), k == 1)
    decreases t, 1, |t.entries| + 1 - k
  {
    hide JsonEncode.Encode, TreeOf, JsonText, IsRfcJson;
    if JsonEncode.IsItem(t.entries, k) {
      JsonTables.ItemsTextSplit(t, k);
      TreeIsWritten(At(t.entries, Index(k)));
      if JsonEncode.IsItem(t.entries, k + 1) {
        ItemsAreWritten(t, k + 1);
      }
    }
  }

  lemma {:induction false} MembersAreWritten(t: Tree, i: nat)
    requires t.TTable? && i <= |t.entries| && JsonEncode.EncodeFields(t, i).Text?
    requires i == 0 || i < |t.entries|
    ensures MembersText(MembersOf(t, i)) == JsonEncode.EncodeFields(t, i).s + "}"
    ensures AreRfcMembers(MembersOf(t, i), i == 0)
    decreases t, 1, |t.entries| - i
  {
    hide JsonEncode.Encode, JsonEncode.EncodeField, TreeOf, MemberText, IsRfcMember, PiecesOf;
    if i < |t.entries| {
      MemberIsWritten(t, i);
      if i + 1 < |t.entries| {
        MembersAreWritten(t, i + 1);
      }
    }
  }

  lemma {:induction false} MemberIsWritten(t: Tree, i: nat)
    requires t.TTable? && i < |t.entries| && JsonEncode.EncodeField(t, i).Text?
    ensures t.entries[i].key.Name? && JsonEncode.Encode(t.entries[i].val).Text?
    ensures var e := t.entries[i];
            var m := Member("", PiecesOf(e.key.s), "", "", TreeOf(e.val), "");
            MemberText(m) == JsonEncode.EncodeField(t, i).s && IsRfcMember(m)
    decreases t, 0
  {
    hide JsonEncode.Encode, TreeOf, JsonText, IsRfcJson, JsonEncode.StringText, ArePieces, PiecesOf, QuotedText;
    QuotedIsWritten(t.entries[i].key.s);
    TreeIsWritten(t.entries[i].val);
  }

  /** Whatever json.encode returns is a JSON text of RFC 8259. */
  lemma EncodedIsJson(t: Tree)
    requires JsonEncode.Encode(t).Text?
    ensures IsRfcText(JsonEncode.Encode(t).s)
  {
    hide JsonText, IsRfcJson, TreeOf, JsonEncode.Encode;
    TreeIsWritten(t);
    var d := Document("", TreeOf(t), "");
    assert DocumentText(d) == JsonEncode.Encode(t).s;
  }

  /** A table with a string key over an array: brackets, braces, colons and commas, and no spaces. */
  lemma NestedIsWritten()
    ensures var list := TTable([Entry(Index(1), TNumber(7)), Entry(Index(2), TBoolean(true))], 2);
            JsonEncode.Encode(TTable([Entry(Name("a"), list), Entry(Name("b"), TNumber(0))], 0)) ==
            JsonEncode.Text("{\"a\":[7,true],\"b\":0}")
  {
    hide JsonEncode.Encode, JsonEncode.EncodeFields, JsonEncode.EncodeField, ArrayLike;
    var list := TTable([Entry(Index(1), TNumber(7)), Entry(Index(2), TBoolean(true))], 2);
    var fields := [Entry(Name("a"), list), Entry(Name("b"), TNumber(0))];
    var t := TTable(fields, 0);
    ListIsWritten();
    ZeroIsWritten();
    NotArrayLike(fields);
    TwoFields(t);
    LetterField(t, 0, 'a', "[7,true]");
    LetterField(t, 1, 'b', "0");
  }

  lemma ZeroIsWritten()
    ensures JsonEncode.Encode(TNumber(0)) == JsonEncode.Text("0")
  {
  }

  lemma NotArrayLike(fields: seq<Entry>)
    requires |fields| == 2 && fields[0].key.Name? && fields[1].key.Name?
    ensures !ArrayLike(fields)
  {
    assert fields[1..] == [fields[1]];
  }

  lemma LetterField(t: Tree, i: nat, c: char, text: string)
    requires t.TTable? && i < |t.entries| && t.entries[i].key == Name([c]) && 'a' <= c <= 'z'
    requires JsonEncode.Encode(t.entries[i].val) == JsonEncode.Text(text)
    ensures JsonEncode.EncodeField(t, i) == JsonEncode.Text(['\"', c, '\"', ':'] + text)
  {
    hide JsonEncode.Encode, JsonEncode.StringText;
    LetterIsQuoted(c);
  }

  lemma TwoFields(t: Tree)
    requires t.TTable? && |t.entries| == 2 && !ArrayLike(t.entries)
    ensures JsonEncode.Encode(t) ==
            JsonEncode.Wrapped("{", JsonEncode.Joined(JsonEncode.EncodeField(t, 0), JsonEncode.EncodeField(t, 1)), "}")
  {
    hide JsonEncode.EncodeItems, JsonEncode.EncodeField, JsonEncode.Joined, JsonEncode.Wrapped, ArrayLike;
    assert JsonEncode.EncodeFields(t, 1) == JsonEncode.EncodeField(t, 1);
  }

  lemma LetterIsQuoted(c: char)
    requires 'a' <= c <= 'z'
    ensures JsonEncode.StringText([c]) == ['\"', c, '\"']
  {
    assert JsonEncode.EscapedText([c]) == [c] + JsonEncode.EscapedText([c][1..]);
  }

  lemma ListIsWritten()
    ensures JsonEncode.Encode(TTable([Entry(Index(1), TNumber(7)), Entry(Index(2), TBoolean(true))], 2)) ==
            JsonEncode.Text("[7,true]")
  {
    var items := [Entry(Index(1), TNumber(7)), Entry(Index(2), TBoolean(true))];
    var list := TTable(items, 2);
    assert items[1..] == [items[1]];
    assert Find(items, Index(1)) == 0 && Find(items, Index(2)) == 1;
    assert JsonEncode.EncodeItems(list, 2) == JsonEncode.Text("true");
    assert JsonEncode.EncodeItems(list, 1) == JsonEncode.Text("7" + "," + "true");
  }

  // Which tables are written how.

  /** A table is written as an array if it is empty or has an item 1, and as an object otherwise. */
  lemma TableIsArrayIff(entries: seq<Entry>, border: nat)
    requires JsonEncode.Encode(TTable(entries, border)).Text?
    ensures var s := JsonEncode.Encode(TTable(entries, border)).s;
            && s != ""
            && (s[0] == '[' <==> entries == [] || exists i :: 0 <= i < |entries| && entries[i].key == Index(1))
            && (s[0] == '{' <==> entries != [] && forall i :: 0 <= i < |entries| ==> entries[i].key != Index(1))
  {
    var p := Find(entries, Index(1));
  }

  lemma EmptyIsArray()
    ensures JsonEncode.Encode(TTable([], 0)) == JsonEncode.Text("[]")
  {
    var t := TTable([], 0);
    assert JsonEncode.EncodeItems(t, 1) == JsonEncode.Text("");
  }

  /** The two errors: a key that does not fit the others, and otherwise a border that is not the number of keys. */
  lemma TablesAreRefused(entries: seq<Entry>, border: nat)
    requires exists i :: 0 <= i < |entries| && entries[i].key == Index(1)
    ensures (exists i :: 0 <= i < |entries| && entries[i].key.Name?) ==>
              JsonEncode.Encode(TTable(entries, border)) == JsonEncode.Refused(JsonEncode.MixedKeys)
    ensures (forall i :: 0 <= i < |entries| ==> entries[i].key.Index?) && |entries| != border ==>
              JsonEncode.Encode(TTable(entries, border)) == JsonEncode.Refused(JsonEncode.SparseArray)
  {
    var p := Find(entries, Index(1));
  }

  /** A key that is no string in a table without an item 1. */
  lemma NumberKeyIsRefused(entries: seq<Entry>, border: nat)
    requires entries != [] && entries[0].key.Index? && forall i :: 0 <= i < |entries| ==> entries[i].key != Index(1)
    ensures JsonEncode.Encode(TTable(entries, border)) == JsonEncode.Refused(JsonEncode.MixedKeys)
  {
    var t := TTable(entries, border);
    assert !ArrayLike(entries) && JsonEncode.EncodeField(t, 0) == JsonEncode.Refused(JsonEncode.MixedKeys);
  }
}
