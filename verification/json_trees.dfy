/** The decoder with the tree of what it reads, step for step beside the decoder that computes the value. */
module JsonTrees {
  import opened Texts
  import opened JsonValues
  import opened JsonDecode
  import opened JsonSyntax

  datatype Read<T> = Got(val: T, next: nat) | Bad

  function PieceInFront(p: Piece, rest: Read<seq<Piece>>): Read<seq<Piece>> {
    if rest.Got? then Got([p] + rest.val, rest.next) else Bad
  }

  /** The rest of a string from position j, an escape at a time. */
  function PiecesAt(str: string, j: nat): (r: Read<seq<Piece>>)
    requires j <= |str|
    ensures r.Got? ==> j < r.next <= |str|
    decreases |str| - j
  {
    if j == |str| || str[j] as int < 32 then Bad
    else if str[j] == '\"' then Got([], j + 1)
    else if str[j] != '\\' then PieceInFront(Plain(str[j]), PiecesAt(str, j + 1))
    else if CharAt(str, j + 1, 'u') then
      if FourHex(str, j + 2) then PieceInFront(Unit(str[j + 2..j + 6]), PiecesAt(str, j + 6)) else Bad
    else if j + 1 < |str| && Unescaped(str[j + 1]) != "" then PieceInFront(Short(str[j + 1]), PiecesAt(str, j + 2))
    else Bad
  }

  function TreeAt(str: string, i: nat): (r: Read<Json>)
    requires i <= |str|
    ensures r.Got? ==> i < r.next <= |str|
    decreases |str| - i, 0
  {
    if i == |str| then Bad
    else if str[i] == '\"' then
      var s := PiecesAt(str, i + 1);
      if s.Got? then Got(Quoted(s.val), s.next) else Bad
    else if IsDigit(str[i]) || str[i] == '-' then
      var x := FindDelimiter(str, i);
      if ToNumber(str[i..x]).ANumber? then Got(Numeral(str[i..x]), x) else Bad
    else if str[i] in "tfn" then
      var x := FindDelimiter(str, i);
      if IsWord(str[i..x]) then Got(Literal(str[i..x]), x) else Bad
    else if str[i] == '[' then
      var items := ItemsAt(str, i + 1);
      if items.Got? then Got(Array(items.val), items.next) else Bad
    else if str[i] == '{' then
      var members := MembersAt(str, i + 1);
      if members.Got? then Got(Object(members.val), members.next) else Bad
    else Bad
  }

  /** A value and the spaces around it, up to what ends it. */
  function ItemAt(str: string, i: nat): (r: Read<Item>)
    requires i <= |str|
    ensures r.Got? ==> i < r.next <= |str|
    decreases |str| - i, 1
  {
    var a := SkipSpace(str, i);
    var x := TreeAt(str, a);
    if x.Bad? then Bad
    else
      var b := SkipSpace(str, x.next);
      Got(Item(str[i..a], x.val, str[x.next..b]), b)
  }

  function ItemsAt(str: string, i: nat): (r: Read<Items>)
    requires i <= |str|
    ensures r.Got? ==> i < r.next <= |str|
    decreases |str| - i, 2
  {
    var a := SkipSpace(str, i);
    if CharAt(str, a, ']') then Got(EndItems(str[i..a]), a + 1)
    else
      var x := ItemAt(str, i);
      if x.Bad? then Bad
      else if CharAt(str, x.next, ']') then Got(LastItem(x.val), x.next + 1)
      else if CharAt(str, x.next, ',') then
        var rest := ItemsAt(str, x.next + 1);
        if rest.Got? then Got(MoreItems(x.val, rest.val), rest.next) else Bad
      else Bad
  }

  /** A key, its colon and its value, with the spaces around them, up to what ends them. */
  function MemberAt(str: string, i: nat): (r: Read<Member>)
    requires i <= |str|
    ensures r.Got? ==> i < r.next <= |str|
    decreases |str| - i, 1
  {
    var a := SkipSpace(str, i);
    if !CharAt(str, a, '\"') then Bad
    else
      var key := PiecesAt(str, a + 1);
      if key.Bad? || !CharAt(str, SkipSpace(str, key.next), ':') then Bad
      else
        var c := SkipSpace(str, key.next);
        var x := ItemAt(str, c + 1);
        if x.Bad? then Bad
        else Got(Member(str[i..a], key.val, str[key.next..c], x.val.before, x.val.val, x.val.after), x.next)
  }

  function MembersAt(str: string, i: nat): (r: Read<Members>)
    requires i <= |str|
    ensures r.Got? ==> i < r.next <= |str|
    decreases |str| - i, 2
  {
    var a := SkipSpace(str, i);
    if CharAt(str, a, '}') then Got(EndMembers(str[i..a]), a + 1)
    else
      var m := MemberAt(str, i);
      if m.Bad? then Bad
      else if CharAt(str, m.next, '}') then Got(LastMember(m.val), m.next + 1)
      else if CharAt(str, m.next, ',') then
        var more := MembersAt(str, m.next + 1);
        if more.Got? then Got(MoreMembers(m.val, more.val), more.next) else Bad
      else Bad
  }

  // Step for step.

  /** The string is read exactly when its pieces are and their pairs fit. */
  predicate StringAgrees(p: Parsed<string>, r: Read<seq<Piece>>) {
    if r.Got? && PiecesFit(r.val) then p == Ok(PiecesValue(r.val), r.next) else p.Fail?
  }

  lemma {:induction false} PiecesAgree(str: string, j: nat)
    requires j <= |str|
    ensures StringAgrees(StringRest(str, j), PiecesAt(str, j))
    decreases |str| - j
  {
    hide CodepointToUtf8, HexNumber;
    if j < |str| && str[j] as int >= 32 && str[j] != '\"' {
      if str[j] != '\\' {
        PiecesAgree(str, j + 1);
        PlainAgrees(str, j);
      } else if CharAt(str, j + 1, 'u') {
        if FourHex(str, j + 2) {
          if TwoUnits(str, j + 2) {
            PiecesAgree(str, j + 12);
            PairAgrees(str, j);
          } else {
            PiecesAgree(str, j + 6);
            UnitAgrees(str, j);
          }
        }
      } else if j + 1 < |str| && Unescaped(str[j + 1]) != "" {
        PiecesAgree(str, j + 2);
        ShortAgrees(str, j);
      }
    }
  }

  /** One more piece that starts no pair. */
  lemma PieceAgrees(p: Piece, rest: Read<seq<Piece>>, s: Parsed<string>, whole: Parsed<string>)
    requires StringAgrees(s, rest) && whole == Prefixed(PieceValue(p), s)
    requires rest.Got? ==> !IsPair([p] + rest.val)
    ensures StringAgrees(whole, PieceInFront(p, rest))
  {
    if rest.Got? {
      assert ([p] + rest.val)[1..] == rest.val;
    }
  }

  lemma PlainAgrees(str: string, j: nat)
    requires j < |str| && str[j] as int >= 32 && str[j] != '\"' && str[j] != '\\'
    requires StringAgrees(StringRest(str, j + 1), PiecesAt(str, j + 1))
    ensures StringAgrees(StringRest(str, j), PiecesAt(str, j))
  {
    PieceAgrees(Plain(str[j]), PiecesAt(str, j + 1), StringRest(str, j + 1), StringRest(str, j));
  }

  lemma ShortAgrees(str: string, j: nat)
    requires CharAt(str, j, '\\') && j + 1 < |str| && str[j + 1] != 'u' && Unescaped(str[j + 1]) != ""
    requires StringAgrees(StringRest(str, j + 2), PiecesAt(str, j + 2))
    ensures StringAgrees(StringRest(str, j), PiecesAt(str, j))
  {
    PieceAgrees(Short(str[j + 1]), PiecesAt(str, j + 2), StringRest(str, j + 2), StringRest(str, j));
  }

  /** A unit that comes next is spelled there. */
  lemma UnitIsSpelled(str: string, j: nat)
    requires j <= |str| && PiecesAt(str, j).Got? && PiecesAt(str, j).val != [] && PiecesAt(str, j).val[0].Unit?
    ensures CharAt(str, j, '\\') && CharAt(str, j + 1, 'u') && FourHex(str, j + 2)
  {
  }

  lemma UnitIsPiece(str: string, j: nat)
    requires FourHex(str, j)
    ensures var hex := str[j..j + 4];
            IsPiece(Unit(hex)) && UnitNumber(hex) == HexNumber(hex) <= 0xffff
            && (IsHighUnit(hex) <==> str[j] in "dD" && str[j + 1] in "89aAbB")
  {
    HexNumberBound(str[j..j + 4]);
  }

  lemma UnitAgrees(str: string, j: nat)
    requires CharAt(str, j, '\\') && CharAt(str, j + 1, 'u') && FourHex(str, j + 2) && !TwoUnits(str, j + 2)
    requires StringAgrees(StringRest(str, j + 6), PiecesAt(str, j + 6))
    ensures StringAgrees(StringRest(str, j), PiecesAt(str, j))
  {
    hide CodepointToUtf8, HexNumber;
    UnitIsPiece(str, j + 2);
    var p, rest := Unit(str[j + 2..j + 6]), PiecesAt(str, j + 6);
    if rest.Got? && rest.val != [] && rest.val[0].Unit? {
      UnitIsSpelled(str, j + 6);
    }
    PieceAgrees(p, rest, StringRest(str, j + 6), StringRest(str, j));
  }

  lemma PairAgrees(str: string, j: nat)
    requires CharAt(str, j, '\\') && CharAt(str, j + 1, 'u') && TwoUnits(str, j + 2)
    requires StringAgrees(StringRest(str, j + 12), PiecesAt(str, j + 12))
    ensures StringAgrees(StringRest(str, j), PiecesAt(str, j))
  {
    hide CodepointToUtf8, HexNumber;
    UnitIsPiece(str, j + 2);
    UnitIsPiece(str, j + 8);
    var p, q, rest := Unit(str[j + 2..j + 6]), Unit(str[j + 8..j + 12]), PiecesAt(str, j + 12);
    assert PiecesAt(str, j + 6) == PieceInFront(q, rest);
    assert PiecesAt(str, j) == PieceInFront(p, PieceInFront(q, rest));
    assert EscapeAt(str, j) == (var n := PairNumber(p.hex, q.hex);
                                if n <= 0x10ffff then Ok(Utf8Octets(n), j + 12) else Fail(InvalidCodepoint)) by {
      PairEscape(str, j);
    }
    if rest.Got? {
      var ps := [p] + ([q] + rest.val);
      assert IsPair(ps) && ps[2..] == rest.val;
    }
  }

  lemma PairEscape(str: string, j: nat)
    requires CharAt(str, j, '\\') && CharAt(str, j + 1, 'u') && TwoUnits(str, j + 2)
    ensures var n := PairNumber(str[j + 2..j + 6], str[j + 8..j + 12]);
            EscapeAt(str, j) == if n <= 0x10ffff then Ok(Utf8Octets(n), j + 12) else Fail(InvalidCodepoint)
  {
    hide HexNumber, CodepointToUtf8;
    UnitIsPiece(str, j + 2);
    UnitIsPiece(str, j + 8);
    HexNumberBound(str[j + 2..j + 6]);
  }

  predicate ValueAgrees(p: Parsed<Value>, r: Read<Json>) {
    if r.Got? && Fits(r.val) then p == Ok(JsonValue(r.val), r.next) else p.Fail?
  }

  predicate ItemsAgree(p: Parsed<Value>, r: Read<Items>, n: nat, res: map<Key, Value>) {
    if r.Got? && ItemsFit(r.val) then p == Ok(Table(ItemsValue(r.val, n, res)), r.next) else p.Fail?
  }

  predicate MembersAgree(p: Parsed<Value>, r: Read<Members>, res: map<Key, Value>) {
    if r.Got? && MembersFit(r.val) then p == Ok(Table(MembersValue(r.val, res)), r.next) else p.Fail?
  }

  /** The decoder succeeds exactly where there is a tree whose pairs fit, with its value and its end. */
  lemma {:induction false} TreeAgrees(str: string, i: nat)
    requires i <= |str|
    ensures ValueAgrees(Parse(str, i), TreeAt(str, i))
    decreases |str| - i, 0
  {
    hide StringRest, PiecesAt, ToNumber, ArrayRest, ObjectRest, ItemsAt, MembersAt, PiecesFit, PiecesValue;
    if i < |str| {
      if str[i] == '\"' {
        PiecesAgree(str, i + 1);
      } else if str[i] == '[' {
        ArrayAgrees(str, i + 1, 1, map[]);
      } else if str[i] == '{' {
        ObjectAgrees(str, i + 1, map[]);
      }
    }
  }

  /** The value that one turn of either loop reads, and where the loop looks for what ends it. */
  function ValueTurn(str: string, i: nat): (r: Parsed<Value>)
    requires i <= |str|
    ensures r.Ok? ==> i < r.next <= |str|
  {
    var x := Parse(str, SkipSpace(str, i));
    if x.Ok? then Ok(x.val, SkipSpace(str, x.next)) else x
  }

  predicate ItemAgrees(p: Parsed<Value>, r: Read<Item>) {
    if r.Got? && Fits(r.val.val) then p == Ok(JsonValue(r.val.val), r.next) else p.Fail?
  }

  lemma {:induction false} ItemAgreesAt(str: string, i: nat)
    requires i <= |str|
    ensures ItemAgrees(ValueTurn(str, i), ItemAt(str, i))
    decreases |str| - i, 1
  {
    hide Parse, TreeAt, SkipSpace, Fits, JsonValue;
    TreeAgrees(str, SkipSpace(str, i));
  }

  lemma ArrayTurns(str: string, i: nat, n: nat, res: map<Key, Value>)
    requires i <= |str|
    ensures var a, t := SkipSpace(str, i), ValueTurn(str, i);
            if CharAt(str, a, ']') then ArrayRest(str, i, n, res) == Ok(Table(res), a + 1)
            else if t.Fail? then ArrayRest(str, i, n, res).Fail?
            else
              var res' := Assign(res, Index(n), t.val);
              if CharAt(str, t.next, ']') then ArrayRest(str, i, n, res) == Ok(Table(res'), t.next + 1)
              else if CharAt(str, t.next, ',') then ArrayRest(str, i, n, res) == ArrayRest(str, t.next + 1, n + 1, res')
              else ArrayRest(str, i, n, res).Fail?
  {
    hide Parse, SkipSpace, Assign;
  }

  lemma {:induction false} ArrayAgrees(str: string, i: nat, n: nat, res: map<Key, Value>)
    requires i <= |str|
    ensures ItemsAgree(ArrayRest(str, i, n, res), ItemsAt(str, i), n, res)
    decreases |str| - i, 2
  {
    hide Parse, SkipSpace, Assign, Fits, JsonValue, ArrayRest, ItemAt, ValueTurn;
    ArrayTurns(str, i, n, res);
    if !CharAt(str, SkipSpace(str, i), ']') {
      ItemAgreesAt(str, i);
      var t := ValueTurn(str, i);
      if t.Ok? && CharAt(str, t.next, ',') {
        ArrayAgrees(str, t.next + 1, n + 1, Assign(res, Index(n), t.val));
      }
    }
  }

  /** The key and the value that the loop of parse_object reads in one turn, and where it looks for what ends them. */
  datatype Turn = Turn(key: string, val: Value, next: nat) | NoTurn

  function TurnAt(str: string, i: nat): (r: Turn)
    requires i <= |str|
    ensures r.Turn? ==> i < r.next <= |str|
  {
    var a := SkipSpace(str, i);
    if !CharAt(str, a, '\"') then NoTurn
    else
      var key := KeyAndColon(str, a);
      if key.Fail? then NoTurn
      else
        var x := ValueTurn(str, key.next);
        if x.Fail? then NoTurn else Turn(key.val, x.val, x.next)
  }

  lemma ObjectTurns(str: string, i: nat, res: map<Key, Value>)
    requires i <= |str|
    ensures var a, t := SkipSpace(str, i), TurnAt(str, i);
            if CharAt(str, a, '}') then ObjectRest(str, i, res) == Ok(Table(res), a + 1)
            else if t.NoTurn? then ObjectRest(str, i, res).Fail?
            else
              var res' := Assign(res, Name(t.key), t.val);
              if CharAt(str, t.next, '}') then ObjectRest(str, i, res) == Ok(Table(res'), t.next + 1)
              else if CharAt(str, t.next, ',') then ObjectRest(str, i, res) == ObjectRest(str, t.next + 1, res')
              else ObjectRest(str, i, res).Fail?
  {
    hide Parse, SkipSpace, Assign, KeyAndColon;
  }

  /** A turn is read exactly when its member is and the pairs of its key and value fit. */
  predicate TurnAgrees(t: Turn, m: Read<Member>) {
    if m.Got? && PiecesFit(m.val.key) && Fits(m.val.val) then
      t == Turn(PiecesValue(m.val.key), JsonValue(m.val.val), m.next)
    else t.NoTurn?
  }

  lemma KeyAgrees(str: string, a: nat)
    requires CharAt(str, a, '\"')
    ensures var key := PiecesAt(str, a + 1);
            if key.Got? && PiecesFit(key.val) && CharAt(str, SkipSpace(str, key.next), ':')
            then KeyAndColon(str, a) == Ok(PiecesValue(key.val), SkipSpace(str, key.next) + 1)
            else KeyAndColon(str, a).Fail?
  {
    hide StringRest, PiecesAt, PiecesFit, PiecesValue, SkipSpace;
    PiecesAgree(str, a + 1);
  }

  lemma {:induction false} TurnAgreesAt(str: string, i: nat)
    requires i <= |str|
    ensures TurnAgrees(TurnAt(str, i), MemberAt(str, i))
    decreases |str| - i, 1
  {
    hide SkipSpace, Fits, JsonValue, StringRest, PiecesAt, PiecesFit, PiecesValue, KeyAndColon, ItemAt, ValueTurn;
    var a := SkipSpace(str, i);
    if CharAt(str, a, '\"') {
      KeyAgrees(str, a);
      var key := PiecesAt(str, a + 1);
      if key.Got? && CharAt(str, SkipSpace(str, key.next), ':') {
        ItemAgreesAt(str, SkipSpace(str, key.next) + 1);
      }
    }
  }

  lemma {:induction false} ObjectAgrees(str: string, i: nat, res: map<Key, Value>)
    requires i <= |str|
    ensures MembersAgree(ObjectRest(str, i, res), MembersAt(str, i), res)
    decreases |str| - i, 2
  {
    hide Parse, SkipSpace, Assign, Fits, JsonValue, PiecesFit, PiecesValue, ObjectRest, MemberAt, TurnAt;
    ObjectTurns(str, i, res);
    if !CharAt(str, SkipSpace(str, i), '}') {
      TurnAgreesAt(str, i);
      var t := TurnAt(str, i);
      if t.Turn? && CharAt(str, t.next, ',') {
        ObjectAgrees(str, t.next + 1, Assign(res, Name(t.key), t.val));
      }
    }
  }
}
