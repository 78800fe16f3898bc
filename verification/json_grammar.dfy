/** The grammar of the decoder: every tree is read from its text, and what is read has a tree, which is the only one. */
module JsonGrammar {
  import opened Texts
  import opened JsonValues
  import opened JsonDecode
  import opened JsonRoundTrip
  import opened JsonSyntax
  import opened JsonTrees

  // What is read has a tree.

  lemma SpacesFound(str: string, i: nat)
    requires i <= |str|
    ensures var s := str[i..SkipSpace(str, i)]; IsSpaces(s) && StandsAt(str, i, s) && i + |s| == SkipSpace(str, i)
  {
  }

  lemma PieceFound(str: string, j: nat, p: Piece, rest: Read<seq<Piece>>)
    requires IsPiece(p) && StandsAt(str, j, PieceText(p)) && rest.Got? && ArePieces(rest.val)
    requires StandsAt(str, j + |PieceText(p)|, PiecesText(rest.val) + "\"")
    ensures var ps := [p] + rest.val;
            ArePieces(ps) && StandsAt(str, j, PiecesText(ps) + "\"") &&
            |PiecesText(ps)| == |PieceText(p)| + |PiecesText(rest.val)|
  {
    hide StandsAt, PieceText, IsPiece;
    var ps := [p] + rest.val;
    assert ps[1..] == rest.val;
    assert PiecesText(ps) + "\"" == PieceText(p) + (PiecesText(rest.val) + "\"");
    StandsJoin(str, j, PieceText(p), PiecesText(rest.val) + "\"");
  }

  /** The piece that a string goes on with. */
  lemma FirstPieceFound(str: string, j: nat) returns (p: Piece)
    requires j < |str| && PiecesAt(str, j).Got? && str[j] != '\"'
    ensures IsPiece(p) && StandsAt(str, j, PieceText(p))
    ensures PiecesAt(str, j) == PieceInFront(p, PiecesAt(str, j + |PieceText(p)|))
  {
    if str[j] != '\\' {
      p := Plain(str[j]);
    } else if CharAt(str, j + 1, 'u') {
      p := Unit(str[j + 2..j + 6]);
    } else {
      p := Short(str[j + 1]);
    }
  }

  lemma PiecesGoOn(str: string, j: nat)
    requires j <= |str| && PiecesAt(str, j).Got?
    ensures j < |str| && (str[j] == '\"' ==> PiecesAt(str, j) == Got([], j + 1))
  {
  }

  lemma {:induction false} PiecesFound(str: string, j: nat)
    requires j <= |str| && PiecesAt(str, j).Got?
    ensures var r := PiecesAt(str, j);
            ArePieces(r.val) && StandsAt(str, j, PiecesText(r.val) + "\"") && r.next == j + |PiecesText(r.val)| + 1
    decreases |str| - j
  {
    hide PiecesAt, PieceText, IsPiece;
    PiecesGoOn(str, j);
    if str[j] == '\"' {
      assert PiecesText([]) + "\"" == "\"";
    } else {
      var p := FirstPieceFound(str, j);
      PiecesFound(str, j + |PieceText(p)|);
      PieceFound(str, j, p, PiecesAt(str, j + |PieceText(p)|));
    }
  }

  lemma QuotedFound(str: string, i: nat)
    requires CharAt(str, i, '\"') && PiecesAt(str, i + 1).Got?
    ensures var r := PiecesAt(str, i + 1);
            ArePieces(r.val) && StandsAt(str, i, QuotedText(r.val)) && r.next == i + |QuotedText(r.val)|
  {
    hide PiecesAt, PiecesText;
    PiecesFound(str, i + 1);
    var s := PiecesText(PiecesAt(str, i + 1).val) + "\"";
    assert StandsAt(str, i, "\"");
    StandsJoin(str, i, "\"", s);
  }

  lemma {:induction false} TreeFound(str: string, i: nat)
    requires i <= |str| && TreeAt(str, i).Got?
    ensures var r := TreeAt(str, i);
            IsJson(r.val) && StandsAt(str, i, JsonText(r.val)) && r.next == i + |JsonText(r.val)|
    decreases |str| - i, 0
  {
    hide PiecesAt, QuotedText, ItemsAt, MembersAt, ItemsText, MembersText, ToNumber;
    if str[i] == '\"' {
      QuotedFound(str, i);
    } else if str[i] == '[' {
      ItemsFound(str, i + 1);
      assert StandsAt(str, i, "[");
      StandsJoin(str, i, "[", ItemsText(ItemsAt(str, i + 1).val));
    } else if str[i] == '{' {
      MembersFound(str, i + 1);
      assert StandsAt(str, i, "{");
      StandsJoin(str, i, "{", MembersText(MembersAt(str, i + 1).val));
    }
  }

  lemma {:induction false} ItemFound(str: string, i: nat)
    requires i <= |str| && ItemAt(str, i).Got?
    ensures var r := ItemAt(str, i);
            IsItem(r.val) && StandsAt(str, i, ItemText(r.val)) && r.next == i + |ItemText(r.val)|
    decreases |str| - i, 1
  {
    hide SkipSpace, JsonText, IsJson, StandsAt, IsSpaces, TreeAt;
    var a := SkipSpace(str, i);
    var x := TreeAt(str, a);
    TreeFound(str, a);
    SpacesFound(str, i);
    SpacesFound(str, x.next);
    var u := str[x.next..SkipSpace(str, x.next)];
    StandsJoin(str, a, JsonText(x.val), u);
    StandsJoin(str, i, str[i..a], JsonText(x.val) + u);
  }

  lemma {:induction false} ItemsFound(str: string, i: nat)
    requires i <= |str| && ItemsAt(str, i).Got?
    ensures var r := ItemsAt(str, i);
            AreItems(r.val) && StandsAt(str, i, ItemsText(r.val)) && r.next == i + |ItemsText(r.val)|
    decreases |str| - i, 2
  {
    hide SkipSpace, ItemAt, StandsAt, ItemText, IsItem;
    var a := SkipSpace(str, i);
    if CharAt(str, a, ']') {
      SpacesFound(str, i);
      CharStands(str, a);
      StandsJoin(str, i, str[i..a], "]");
    } else {
      var x := ItemAt(str, i);
      ItemFound(str, i);
      CharStands(str, x.next);
      if CharAt(str, x.next, ']') {
        StandsJoin(str, i, ItemText(x.val), "]");
      } else {
        ItemsFound(str, x.next + 1);
        var rest := ItemsText(ItemsAt(str, x.next + 1).val);
        StandsJoin(str, x.next, ",", rest);
        StandsJoin(str, i, ItemText(x.val), "," + rest);
      }
    }
  }

  lemma CharStands(str: string, i: nat)
    requires i < |str|
    ensures StandsAt(str, i, [str[i]])
  {
  }

  lemma {:induction false} MemberFound(str: string, i: nat)
    requires i <= |str| && MemberAt(str, i).Got?
    ensures var r := MemberAt(str, i);
            IsMember(r.val) && StandsAt(str, i, MemberText(r.val)) && r.next == i + |MemberText(r.val)|
    decreases |str| - i, 1
  {
    hide SkipSpace, ItemAt, JsonText, IsJson, StandsAt, PiecesAt, QuotedText, ArePieces, IsSpaces;
    var a := SkipSpace(str, i);
    var key := PiecesAt(str, a + 1);
    QuotedFound(str, a);
    var c := SkipSpace(str, key.next);
    var x := ItemAt(str, c + 1);
    ItemFound(str, c + 1);
    SpacesFound(str, i);
    SpacesFound(str, key.next);
    CharStands(str, c);
    StandsJoin(str, c, ":", ItemText(x.val));
    var tail := ":" + ItemText(x.val);
    StandsJoin(str, key.next, str[key.next..c], tail);
    StandsJoin(str, a, QuotedText(key.val), str[key.next..c] + tail);
    StandsJoin(str, i, str[i..a], QuotedText(key.val) + (str[key.next..c] + tail));
  }

  lemma {:induction false} MembersFound(str: string, i: nat)
    requires i <= |str| && MembersAt(str, i).Got?
    ensures var r := MembersAt(str, i);
            AreMembers(r.val) && StandsAt(str, i, MembersText(r.val)) && r.next == i + |MembersText(r.val)|
    decreases |str| - i, 2
  {
    hide SkipSpace, MemberAt, StandsAt, MemberText, IsMember;
    var a := SkipSpace(str, i);
    if CharAt(str, a, '}') {
      SpacesFound(str, i);
      CharStands(str, a);
      StandsJoin(str, i, str[i..a], "}");
    } else {
      var m := MemberAt(str, i);
      MemberFound(str, i);
      CharStands(str, m.next);
      if CharAt(str, m.next, '}') {
        StandsJoin(str, i, MemberText(m.val), "}");
      } else {
        MembersFound(str, m.next + 1);
        var rest := MembersText(MembersAt(str, m.next + 1).val);
        StandsJoin(str, m.next, ",", rest);
        StandsJoin(str, i, MemberText(m.val), "," + rest);
      }
    }
  }

  // Every tree is read.

  lemma SpacesTaken(str: string, i: nat, s: string)
    requires StandsAt(str, i, s) && IsSpaces(s) && (i + |s| == |str| || !IsSpace(str[i + |s|]))
    ensures SkipSpace(str, i) == i + |s| && str[i..i + |s|] == s
  {
    StandsChars(str, i, s);
  }

  lemma PieceTaken(p: Piece, str: string, j: nat)
    requires IsPiece(p) && StandsAt(str, j, PieceText(p))
    ensures PiecesAt(str, j) == PieceInFront(p, PiecesAt(str, j + |PieceText(p)|))
  {
    StandsChars(str, j, PieceText(p));
    match p
    case Plain(c) =>
    case Short(c) =>
    case Unit(hex) => assert str[j + 2..j + 6] == hex;
  }

  lemma {:induction false} PiecesTaken(ps: seq<Piece>, str: string, j: nat)
    requires ArePieces(ps) && StandsAt(str, j, PiecesText(ps) + "\"")
    ensures PiecesAt(str, j) == Got(ps, j + |PiecesText(ps)| + 1)
    decreases |ps|
  {
    hide PiecesAt, IsPiece, PieceText, StandsAt;
    if ps == [] {
      assert PiecesText(ps) + "\"" == "\"";
      EndOfPieces(str, j);
    } else {
      assert PiecesText(ps) + "\"" == PieceText(ps[0]) + (PiecesText(ps[1..]) + "\"");
      StandsSplit(str, j, PieceText(ps[0]), PiecesText(ps[1..]) + "\"");
      PieceTaken(ps[0], str, j);
      PiecesTaken(ps[1..], str, j + |PieceText(ps[0])|);
      assert [ps[0]] + ps[1..] == ps;
    }
  }

  lemma EndOfPieces(str: string, j: nat)
    requires StandsAt(str, j, "\"")
    ensures PiecesAt(str, j) == Got([], j + 1)
  {
    StandsChars(str, j, "\"");
  }

  lemma QuotedTaken(ps: seq<Piece>, str: string, i: nat)
    requires ArePieces(ps) && StandsAt(str, i, QuotedText(ps))
    ensures CharAt(str, i, '\"') && PiecesAt(str, i + 1) == Got(ps, i + |QuotedText(ps)|)
  {
    hide PiecesAt, PiecesText, ArePieces;
    StandsSplit(str, i, "\"", PiecesText(ps) + "\"");
    StandsChars(str, i, "\"");
    PiecesTaken(ps, str, i + 1);
  }

  /** No value starts with a space or with what closes a table. */
  lemma FirstChar(j: Json)
    requires IsJson(j)
    ensures var s := JsonText(j);
            s != "" && !IsSpace(s[0]) && s[0] != ']' && s[0] != '}' && (j.Numeral? ==> IsDigit(s[0]) || s[0] == '-')
  {
    hide ToNumber, ItemsText, MembersText;
  }

  lemma WordTaken(word: string, str: string, i: nat)
    requires IsWord(word) && StandsAt(str, i, word) && Bounded(str, i + |word|)
    ensures TreeAt(str, i) == Got(Literal(word), i + |word|)
  {
    hide ToNumber, ItemsAt, MembersAt, PiecesAt;
    StandsChars(str, i, word);
    DelimiterBehind(str, i, word);
  }

  lemma NumeralTaken(text: string, str: string, i: nat)
    requires IsNumeral(text) && StandsAt(str, i, text) && Bounded(str, i + |text|)
    ensures TreeAt(str, i) == Got(Numeral(text), i + |text|)
  {
    hide ToNumber, ItemsAt, MembersAt, PiecesAt;
    StandsChars(str, i, text);
    DelimiterBehind(str, i, text);
  }

  lemma {:induction false} TreeTaken(j: Json, str: string, i: nat)
    requires IsJson(j) && StandsAt(str, i, JsonText(j)) && Bounded(str, i + |JsonText(j)|)
    ensures TreeAt(str, i) == Got(j, i + |JsonText(j)|)
    decreases j, 0
  {
    hide PiecesAt, QuotedText, ItemsAt, MembersAt, ItemsText, MembersText, ToNumber, AreItems, AreMembers, ArePieces;
    FirstChar(j);
    StandsChars(str, i, JsonText(j));
    match j
    case Literal(word) =>
      WordTaken(word, str, i);
    case Numeral(text) =>
      NumeralTaken(text, str, i);
    case Quoted(ps) =>
      QuotedTaken(ps, str, i);
    case Array(items) =>
      StandsSplit(str, i, "[", ItemsText(items));
      ItemsTaken(items, str, i + 1);
    case Object(members) =>
      StandsSplit(str, i, "{", MembersText(members));
      MembersTaken(members, str, i + 1);
  }

  predicate Closes(c: char) {
    c == ']' || c == '}' || c == ','
  }

  /** An item, when a closing character or a comma follows. */
  lemma {:induction false} ItemTaken(item: Item, str: string, i: nat, end: string)
    requires IsItem(item) && StandsAt(str, i, ItemText(item) + end) && end != "" && Closes(end[0])
    ensures ItemAt(str, i) == Got(item, i + |ItemText(item)|)
    ensures SkipSpace(str, i) < |str| && str[SkipSpace(str, i)] != ']'
    ensures CharAt(str, i + |ItemText(item)|, end[0]) && StandsAt(str, i + |ItemText(item)|, end)
    decreases item.val, 1
  {
    hide JsonText, IsJson, StandsAt, TreeAt, SkipSpace, IsSpaces;
    var s, t, u := item.before, JsonText(item.val), item.after;
    assert ItemText(item) + end == s + (t + (u + end));
    ItemStands(str, i, s, t, u, end);
    FirstChar(item.val);
    CharOfStanding(str, i + |s|, t);
    SpacesTaken(str, i, s);
    SpacesTaken(str, i + |s| + |t|, u);
    TreeTaken(item.val, str, i + |s|);
  }

  lemma ItemStands(str: string, i: nat, s: string, t: string, u: string, end: string)
    requires StandsAt(str, i, s + (t + (u + end))) && IsSpaces(u) && end != "" && Closes(end[0])
    ensures StandsAt(str, i, s) && StandsAt(str, i + |s|, t) && StandsAt(str, i + |s| + |t|, u)
    ensures var b := i + |s| + |t| + |u|; StandsAt(str, b, end) && CharAt(str, b, end[0])
    ensures Bounded(str, i + |s| + |t|)
  {
    hide StandsAt, IsSpaces;
    StandsSplit(str, i, s, t + (u + end));
    StandsSplit(str, i + |s|, t, u + end);
    StandsSplit(str, i + |s| + |t|, u, end);
    BoundedBySpaces(str, i + |s| + |t|, u, end);
    CharOfStanding(str, i + |s| + |t| + |u|, end);
  }

  lemma CharOfStanding(str: string, i: nat, s: string)
    requires StandsAt(str, i, s) && s != ""
    ensures CharAt(str, i, s[0])
  {
    StandsChars(str, i, s);
  }

  lemma BoundedBySpaces(str: string, i: nat, s: string, end: string)
    requires StandsAt(str, i, s) && StandsAt(str, i + |s|, end) && IsSpaces(s) && end != "" && Closes(end[0])
    ensures Bounded(str, i)
  {
    StandsChars(str, i, s);
    StandsChars(str, i + |s|, end);
  }

  lemma {:induction false} ItemsTaken(items: Items, str: string, i: nat)
    requires AreItems(items) && StandsAt(str, i, ItemsText(items))
    ensures ItemsAt(str, i) == Got(items, i + |ItemsText(items)|)
    decreases items, 0
  {
    hide SkipSpace, ItemAt, StandsAt, ItemText, IsItem, IsSpaces;
    match items
    case EndItems(space) =>
      SpacesThenClose(str, i, space, "]");
    case LastItem(item) =>
      ItemTaken(item, str, i, "]");
    case MoreItems(item, rest) =>
      ItemTaken(item, str, i, "," + ItemsText(rest));
      StandsSplit(str, i + |ItemText(item)|, ",", ItemsText(rest));
      ItemsTaken(rest, str, i + |ItemText(item)| + 1);
  }

  lemma SpacesThenClose(str: string, i: nat, s: string, close: string)
    requires StandsAt(str, i, s + close) && IsSpaces(s) && |close| == 1 && Closes(close[0])
    ensures SkipSpace(str, i) == i + |s| && CharAt(str, i + |s|, close[0]) && str[i..i + |s|] == s
  {
    StandsSplit(str, i, s, close);
    CharOfStanding(str, i + |s|, close);
    SpacesTaken(str, i, s);
  }

  lemma {:induction false} MemberTaken(m: Member, str: string, i: nat, end: string)
    requires IsMember(m) && StandsAt(str, i, MemberText(m) + end) && end != "" && Closes(end[0])
    ensures MemberAt(str, i) == Got(m, i + |MemberText(m)|)
    ensures SkipSpace(str, i) < |str| && str[SkipSpace(str, i)] != '}'
    ensures CharAt(str, i + |MemberText(m)|, end[0]) && StandsAt(str, i + |MemberText(m)|, end)
    decreases m, 0
  {
    hide JsonText, IsJson, StandsAt, ItemAt, SkipSpace, IsSpaces, QuotedText, ArePieces, PiecesAt, MemberText, ItemText;
    var item := Item(m.right, m.val, m.after);
    var key, back := QuotedText(m.key), ItemText(item) + end;
    var n := i + |m.before| + |key|;
    MemberInParts(m, item, end);
    KeyStands(str, i, m.before, key, m.left, back);
    SpacesTaken(str, i, m.before);
    QuotedTaken(m.key, str, i + |m.before|);
    SpacesTaken(str, n, m.left);
    ItemTaken(item, str, n + |m.left| + 1, end);
  }

  lemma MemberInParts(m: Member, item: Item, end: string)
    requires item == Item(m.right, m.val, m.after)
    ensures MemberText(m) + end == m.before + (QuotedText(m.key) + (m.left + (":" + (ItemText(item) + end))))
    ensures |MemberText(m)| == |m.before| + |QuotedText(m.key)| + |m.left| + 1 + |ItemText(item)|
  {
    hide JsonText, QuotedText;
  }

  lemma KeyStands(str: string, i: nat, s: string, key: string, u: string, back: string)
    requires StandsAt(str, i, s + (key + (u + (":" + back)))) && key != "" && key[0] == '\"'
    ensures StandsAt(str, i, s) && StandsAt(str, i + |s|, key) && CharAt(str, i + |s|, '\"')
    ensures var n := i + |s| + |key|;
            StandsAt(str, n, u) && CharAt(str, n + |u|, ':') && StandsAt(str, n + |u| + 1, back)
  {
    hide StandsAt;
    StandsSplit(str, i, s, key + (u + (":" + back)));
    StandsSplit(str, i + |s|, key, u + (":" + back));
    var n := i + |s| + |key|;
    StandsSplit(str, n, u, ":" + back);
    StandsSplit(str, n + |u|, ":", back);
    CharOfStanding(str, i + |s|, key);
    CharOfStanding(str, n + |u|, ":");
  }

  lemma {:induction false} MembersTaken(members: Members, str: string, i: nat)
    requires AreMembers(members) && StandsAt(str, i, MembersText(members))
    ensures MembersAt(str, i) == Got(members, i + |MembersText(members)|)
    decreases members, 0
  {
    hide SkipSpace, MemberAt, StandsAt, MemberText, IsMember, IsSpaces;
    match members
    case EndMembers(space) =>
      SpacesThenClose(str, i, space, "}");
    case LastMember(m) =>
      MemberTaken(m, str, i, "}");
    case MoreMembers(m, more) =>
      MemberTaken(m, str, i, "," + MembersText(more));
      StandsSplit(str, i + |MemberText(m)|, ",", MembersText(more));
      MembersTaken(more, str, i + |MemberText(m)| + 1);
  }

  // Whole texts.

  /** The document of a text, if it has one. */
  function DocumentOf(str: string): Read<Document> {
    var a := SkipSpace(str, 0);
    var x := TreeAt(str, a);
    if x.Bad? || SkipSpace(str, x.next) < |str| then Bad
    else Got(Document(str[..a], x.val, str[x.next..]), |str|)
  }

  lemma DocumentTaken(d: Document)
    requires IsDocument(d)
    ensures DocumentOf(DocumentText(d)) == Got(d, |DocumentText(d)|)
  {
    hide TreeAt, JsonText, IsJson, SkipSpace, IsSpaces, StandsAt;
    var str := DocumentText(d);
    var s, t, u := d.before, JsonText(d.val), d.after;
    assert StandsAt(str, 0, s + (t + u)) by {
      WholeStands(str);
    }
    StandsSplit(str, 0, s, t + u);
    StandsSplit(str, |s|, t, u);
    FirstChar(d.val);
    CharOfStanding(str, |s|, t);
    SpacesTaken(str, 0, s);
    SpacesTaken(str, |s| + |t|, u);
    assert Bounded(str, |s| + |t|) by {
      SpacesBound(str, |s| + |t|, u);
    }
    TreeTaken(d.val, str, |s|);
    assert str[..|s|] == s && str[|s| + |t|..] == u;
  }

  lemma WholeStands(str: string)
    ensures StandsAt(str, 0, str)
  {
  }

  lemma SpacesBound(str: string, i: nat, s: string)
    requires StandsAt(str, i, s) && i + |s| == |str| && IsSpaces(s)
    ensures Bounded(str, i)
  {
    StandsChars(str, i, s);
  }

  lemma DocumentFound(str: string)
    requires DocumentOf(str).Got?
    ensures IsDocument(DocumentOf(str).val) && DocumentText(DocumentOf(str).val) == str
  {
    hide TreeAt, JsonText, IsJson, SkipSpace, IsSpaces;
    var a := SkipSpace(str, 0);
    var x := TreeAt(str, a);
    TreeFound(str, a);
    SpacesFound(str, 0);
    SpacesFound(str, x.next);
    assert str[x.next..|str|] == str[x.next..] && str[0..a] == str[..a];
    assert str == str[..a] + (str[a..x.next] + str[x.next..]);
  }

  lemma DecodeAgrees(str: string)
    ensures var d := DocumentOf(str);
            if d.Got? && Fits(d.val.val) then Decode(str) == Result(JsonValue(d.val.val)) else Decode(str).Error?
  {
    hide Parse, TreeAt, SkipSpace, Fits, JsonValue;
    TreeAgrees(str, SkipSpace(str, 0));
  }

  /** Two documents with one text are one. */
  lemma DocumentIsUnique(d: Document, e: Document)
    requires IsDocument(d) && IsDocument(e) && DocumentText(d) == DocumentText(e)
    ensures d == e
  {
    hide IsDocument, DocumentText, DocumentOf;
    DocumentTaken(d);
    DocumentTaken(e);
  }

  /**
   * A text is decoded to a value exactly when it is the text of some document of the grammar whose surrogate pairs fit
   * and that has this value.
   */
  lemma DecodedIff(str: string, v: Value)
    ensures Decode(str) == Result(v) <==>
            exists d :: IsDocument(d) && DocumentText(d) == str && Fits(d.val) && JsonValue(d.val) == v
  {
    hide IsDocument, DocumentText, DocumentOf, Decode, Fits, JsonValue;
    DecodeAgrees(str);
    if Decode(str) == Result(v) {
      DocumentFound(str);
      var d := DocumentOf(str).val;
      assert IsDocument(d) && DocumentText(d) == str && Fits(d.val) && JsonValue(d.val) == v;
    }
    if d :| IsDocument(d) && DocumentText(d) == str && Fits(d.val) && JsonValue(d.val) == v {
      DocumentTaken(d);
    }
  }

  // Against RFC 8259.

  lemma RfcNumberIsNumeral(s: string)
    requires IsRfcNumber(s)
    ensures IsNumeral(s)
  {
    hide ToNumber, IsDelimiter, IsDigit;
    var m, i, f := RfcParts(s);
    RfcNumberChars(m, i, f);
    RfcMagnitude(m, i, f);
    SignedIsNumber(s, m);
    MinusIsPlain();
    forall k | 0 <= k < |s| ensures !IsDelimiter(s[k]) {
      assert s != m ==> s[k] == (if k == 0 then '-' else m[k - 1]);
    }
  }

  lemma MinusIsPlain()
    ensures !IsDelimiter('-')
  {
  }

  /** The places where a numeral of RFC 8259 changes from one part to the next. */
  lemma RfcParts(s: string) returns (m: string, i: nat, f: nat)
    requires IsRfcNumber(s)
    ensures (s == m || s == ['-'] + m) && IsRfcMagnitude(m, i, f)
  {
    hide ExponentTail;
    m := if s != "" && s[0] == '-' then s[1..] else s;
    i := DigitRun(m, 0);
    f := if i < |m| && m[i] == '.' then DigitRun(m, i + 1) else i;
  }

  lemma SignedIsNumber(s: string, m: string)
    requires s == m || s == ['-'] + m
    requires m != "" && IsDigit(m[0]) && IsDigit(m[|m| - 1]) && (AllDigits(m) || DecimalFloat(m))
    ensures ToNumber(s).ANumber?
  {
    hide AllDigits, DecimalFloat, HexFloat;
    assert Trimmed(s) == s;
    if s != m {
      assert s[0] == '-' && s[1..] == m;
    }
  }

  predicate IsRfcMagnitude(m: string, i: nat, f: nat) {
    && i == DigitRun(m, 0) && i > 0
    && f == (if i < |m| && m[i] == '.' then DigitRun(m, i + 1) else i) && (f == i || f > i + 1)
    && ExponentTail(m, f, "eE")
  }

  lemma RfcNumberChars(m: string, i: nat, f: nat)
    requires IsRfcMagnitude(m, i, f)
    ensures m != "" && IsDigit(m[0]) && IsDigit(m[|m| - 1])
    ensures forall k :: 0 <= k < |m| ==> !IsDelimiter(m[k])
  {
  }

  lemma RfcMagnitude(m: string, i: nat, f: nat)
    requires IsRfcMagnitude(m, i, f)
    ensures AllDigits(m) || DecimalFloat(m)
  {
  }

  lemma {:induction false} RfcIsJson(j: Json)
    requires IsRfcJson(j)
    ensures IsJson(j) && IsStrict(j)
    decreases j
  {
    hide IsNumeral, IsRfcNumber;
    match j
    case Numeral(text) => RfcNumberIsNumeral(text);
    case Array(items) => RfcItemsAreItems(items, true);
    case Object(members) => RfcMembersAreMembers(members, true);
    case _ =>
  }

  lemma {:induction false} RfcItemsAreItems(items: Items, first: bool)
    requires AreRfcItems(items, first)
    ensures AreItems(items) && AreStrictItems(items, !first)
    decreases items
  {
    hide IsRfcJson, IsJson, IsStrict;
    match items
    case EndItems(_) =>
    case LastItem(item) => RfcIsJson(item.val);
    case MoreItems(item, rest) =>
      RfcIsJson(item.val);
      RfcItemsAreItems(rest, false);
  }

  lemma {:induction false} RfcMembersAreMembers(members: Members, first: bool)
    requires AreRfcMembers(members, first)
    ensures AreMembers(members) && AreStrictMembers(members, !first)
    decreases members
  {
    hide IsRfcJson, IsJson, IsStrict;
    match members
    case EndMembers(_) =>
    case LastMember(m) => RfcIsJson(m.val);
    case MoreMembers(m, more) =>
      RfcIsJson(m.val);
      RfcMembersAreMembers(more, false);
  }

  lemma {:induction false} StrictIsRfc(j: Json)
    requires IsJson(j) && IsStrict(j)
    ensures IsRfcJson(j)
    decreases j
  {
    hide IsNumeral, IsRfcNumber;
    match j
    case Array(items) => StrictItemsAreRfc(items, true);
    case Object(members) => StrictMembersAreRfc(members, true);
    case _ =>
  }

  lemma {:induction false} StrictItemsAreRfc(items: Items, first: bool)
    requires AreItems(items) && AreStrictItems(items, !first)
    ensures AreRfcItems(items, first)
    decreases items
  {
    hide IsRfcJson, IsJson, IsStrict;
    match items
    case EndItems(_) =>
    case LastItem(item) => StrictIsRfc(item.val);
    case MoreItems(item, rest) =>
      StrictIsRfc(item.val);
      StrictItemsAreRfc(rest, false);
  }

  lemma {:induction false} StrictMembersAreRfc(members: Members, first: bool)
    requires AreMembers(members) && AreStrictMembers(members, !first)
    ensures AreRfcMembers(members, first)
    decreases members
  {
    hide IsRfcJson, IsJson, IsStrict;
    match members
    case EndMembers(_) =>
    case LastMember(m) => StrictIsRfc(m.val);
    case MoreMembers(m, more) =>
      StrictIsRfc(m.val);
      StrictMembersAreRfc(more, false);
  }

  /**
   * A text of the decoder's grammar is a JSON text of RFC 8259 exactly when no comma stands before a closing bracket or
   * brace and every numeral is one of section 6.
   */
  lemma TakenIsRfcIff(d: Document)
    requires IsDocument(d)
    ensures IsRfcText(DocumentText(d)) <==> IsStrict(d.val)
  {
    hide IsJson, IsRfcJson, IsStrict, IsSpaces, DocumentText;
    if IsStrict(d.val) {
      StrictIsRfc(d.val);
      assert IsSpaces(d.before) && IsRfcJson(d.val) && IsSpaces(d.after) && DocumentText(d) == DocumentText(d);
    }
    if e: Document :| IsSpaces(e.before) && IsRfcJson(e.val) && IsSpaces(e.after) &&
                      DocumentText(e) == DocumentText(d) {
      RfcIsJson(e.val);
      DocumentIsUnique(d, e);
    }
  }

  /** In terms of a decoded text. */
  lemma DecodedIsRfcIff(str: string)
    requires Decode(str).Result?
    ensures exists d :: IsDocument(d) && DocumentText(d) == str
    ensures forall d :: IsDocument(d) && DocumentText(d) == str ==> (IsRfcText(str) <==> IsStrict(d.val))
  {
    hide IsDocument, DocumentText, Decode, IsStrict, IsRfcText;
    DecodedIff(str, Decode(str).val);
    forall d | IsDocument(d) && DocumentText(d) == str ensures IsRfcText(str) <==> IsStrict(d.val) {
      TakenIsRfcIff(d);
    }
  }

  /** Conversely a JSON text is decoded exactly when no pair of its escapes is beyond the last code point. */
  lemma RfcIsDecodedIff(d: Document)
    requires IsSpaces(d.before) && IsRfcJson(d.val) && IsSpaces(d.after)
    ensures Decode(DocumentText(d)).Result? <==> Fits(d.val)
  {
    hide IsJson, IsRfcJson, IsStrict, IsSpaces, DocumentText, DocumentOf, Decode, Fits;
    RfcIsJson(d.val);
    DocumentTaken(d);
    DecodeAgrees(DocumentText(d));
  }

  /** Two escapes that name no code point: U+DBFF and U+FFFF. */
  function BeyondDocument(): Document {
    Document("", Quoted([Unit("dbff"), Unit("ffff")]), "")
  }

  lemma BeyondDoesNotFit()
    ensures IsDocument(BeyondDocument()) && !Fits(BeyondDocument().val) && IsRfcJson(BeyondDocument().val)
  {
    HexNumberBound("dbff");
    HexNumberBound("ffff");
    assert IsPair(BeyondDocument().val.pieces);
  }

  /** A JSON text that is refused. */
  lemma JsonIsRefused()
    ensures IsRfcText(DocumentText(BeyondDocument())) && !Decode(DocumentText(BeyondDocument())).Result?
  {
    hide IsDocument, DocumentText, Decode, Fits, IsStrict, IsRfcText, IsRfcJson;
    BeyondDoesNotFit();
    RfcIsJson(BeyondDocument().val);
    TakenIsRfcIff(BeyondDocument());
    RfcIsDecodedIff(BeyondDocument());
  }

  /** An array of one item with a comma behind it. */
  function CommaDocument(): Document {
    Document("", Array(MoreItems(Item("", Literal("true"), ""), EndItems(""))), "")
  }

  lemma CommaText()
    ensures DocumentText(CommaDocument()) == "[true,]"
  {
    assert ItemsText(EndItems("")) == "]";
    assert ItemText(Item("", Literal("true"), "")) == "true";
    assert ItemsText(CommaDocument().val.items) == "true" + ("," + "]");
    assert JsonText(CommaDocument().val) == "[" + ("true" + ("," + "]"));
  }

  lemma CommaIsTaken()
    ensures IsDocument(CommaDocument()) && Fits(CommaDocument().val) && !IsStrict(CommaDocument().val)
    ensures JsonValue(CommaDocument().val) == Table(map[Index(1) := Boolean(true)])
  {
  }

  /** A comma before a closing bracket is no JSON, but it is decoded. */
  lemma CommaBeforeBracket()
    ensures Decode("[true,]") == Result(Table(map[Index(1) := Boolean(true)])) && !IsRfcText("[true,]")
  {
    hide IsDocument, JsonValue, DocumentText, Decode, Fits, IsStrict, IsRfcText;
    CommaText();
    CommaIsTaken();
    DecodedIff("[true,]", Table(map[Index(1) := Boolean(true)]));
    TakenIsRfcIff(CommaDocument());
  }

  lemma NumeralDocument(text: string)
    requires IsNumeral(text)
    ensures var d := Document("", Numeral(text), "");
            IsDocument(d) && DocumentText(d) == text && Fits(d.val) && JsonValue(d.val) == Number(NumeralValue(text))
            && (IsStrict(d.val) <==> IsRfcNumber(text))
  {
    hide IsNumeral, ToNumber;
    assert "" + (text + "") == text;
  }

  /** A numeral alone is decoded to its number, and is JSON if it is a numeral of RFC 8259. */
  lemma NumeralDecoded(text: string)
    requires IsNumeral(text)
    ensures Decode(text) == Result(Number(NumeralValue(text))) && (IsRfcText(text) <==> IsRfcNumber(text))
  {
    hide IsNumeral, IsDocument, JsonValue, DocumentText, Decode, Fits, IsStrict, IsRfcText, NumeralValue;
    NumeralDocument(text);
    DecodedIff(text, Number(NumeralValue(text)));
    TakenIsRfcIff(Document("", Numeral(text), ""));
  }

  /** A leading zero is decoded, and so is a hexadecimal numeral; neither is JSON. */
  lemma OtherNumeralsAreTaken()
    ensures Decode("01") == Result(Number(Whole(1))) && !IsRfcText("01")
    ensures Decode("0x1F") == Result(Number(Other("0x1F"))) && !IsRfcText("0x1F")
  {
    LeadingZeroIsTaken();
    HexadecimalIsTaken();
    hide IsNumeral, IsRfcNumber, IsRfcText, Decode;
    NumeralDecoded("01");
    NumeralDecoded("0x1F");
  }

  lemma LeadingZeroIsTaken()
    ensures IsNumeral("01") && !IsRfcNumber("01") && NumeralValue("01") == Whole(1)
  {
    var s := "01";
    assert DigitRun(s, 1) == 2 && DigitRun(s, 0) == 2;
    assert Trimmed(s) == s && AllDigits(s);
    SignedIsNumber(s, s);
    assert s[..1] == "0" && s[..1][..0] == "" && DecimalNumber(s[..1]) == 0 && DecimalNumber(s) == 1;
  }

  lemma HexadecimalIsTaken()
    ensures IsNumeral("0x1F") && !IsRfcNumber("0x1F") && NumeralValue("0x1F") == Other("0x1F")
  {
    var s := "0x1F";
    assert s[0] == '0' && s[1] == 'x' && s[2] == '1' && s[3] == 'F';
    assert DigitRun(s, 1) == 1 && DigitRun(s, 0) == 1;
    assert HexRun(s, 4) == 4 && HexRun(s, 3) == 4 && HexRun(s, 2) == 4;
    assert HexFloat(s);
    assert Trimmed(s) == s && !AllDigits(s);
  }
}
