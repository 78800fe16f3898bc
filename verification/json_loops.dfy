/** The loops of json.lua, each against the function that says what it computes. */
module JsonLoops {
  import opened Texts
  import opened JsonValues
  import opened JsonEncode
  import opened JsonDecode
  import opened JsonLossless

  /** next_char: the first position from idx on whose membership in the set is not negate, or the end. */
  method NextChar(str: string, idx: nat, chars: char -> bool, negate: bool) returns (i: nat)
    requires idx <= |str|
    ensures idx <= i <= |str|
    ensures forall k :: idx <= k < i ==> chars(str[k]) == negate
    ensures i < |str| ==> chars(str[i]) != negate
  {
    i := idx;
    while i < |str|
      invariant idx <= i <= |str|
      invariant forall k :: idx <= k < i ==> chars(str[k]) == negate
    {
      if chars(str[i]) != negate {
        return;
      }
      i := i + 1;
    }
  }

  method NextNonSpace(str: string, idx: nat) returns (i: nat)
    requires idx <= |str|
    ensures i == SkipSpace(str, idx)
  {
    hide SkipSpace;
    i := NextChar(str, idx, c => IsSpace(c), true);
    ghost var j := SkipSpace(str, idx);
    assert i == j;
  }

  /** parse_string: runs of plain characters are copied whole, from k to j. */
  method ParseString(str: string, i: nat) returns (r: Parsed<string>)
    requires CharAt(str, i, '\"')
    ensures r == StringRest(str, i + 1)
  {
    hide EscapeAt, Prefixed;
    var res := "";
    var j: nat := i + 1;
    var k := j;
    PrefixedByNothing(StringRest(str, j));
    assert res + str[k..j] == "";
    while j < |str|
      invariant i < k <= j <= |str|
      invariant StringRest(str, i + 1) == Prefixed(res + str[k..j], StringRest(str, j))
      decreases |str| - j
    {
      var x := str[j];
      if x as int < 32 {
        PrefixedFail(res + str[k..j], ControlCharacter);
        return Fail(ControlCharacter);
      } else if x == '\\' {
        res := res + str[k..j];
        var e := EscapeAt(str, j);
        if e.Fail? {
          PrefixedFail(res, e.error);
          return e;
        }
        PrefixedTwice(res, e.val, StringRest(str, e.next));
        res := res + e.val;
        j, k := e.next - 1, e.next;
        assert res + str[k..j + 1] == res;
      } else if x == '\"' {
        res := res + str[k..j];
        PrefixedEnd(res, j + 1);
        return Ok(res, j + 1);
      } else {
        PrefixedTwice(res + str[k..j], [x], StringRest(str, j + 1));
        assert res + str[k..j] + [x] == res + str[k..j + 1];
      }
      j := j + 1;
    }
    PrefixedFail(res + str[k..j], UnclosedString);
    return Fail(UnclosedString);
  }

  lemma PrefixedEnd(a: string, next: nat)
    ensures Prefixed(a, Ok("", next)) == Ok(a, next)
  {
    assert a + "" == a;
  }

  lemma PrefixedFail(a: string, error: DecodeError)
    ensures Prefixed(a, Fail(error)) == Fail(error)
  {
  }

  lemma PrefixedByNothing(r: Parsed<string>)
    ensures Prefixed("", r) == r
  {
    if r.Ok? {
      assert "" + r.val == r.val;
    }
  }

  lemma PrefixedTwice(a: string, b: string, r: Parsed<string>)
    ensures Prefixed(a, Prefixed(b, r)) == Prefixed(a + b, r)
  {
    if r.Ok? {
      assert a + (b + r.val) == a + b + r.val;
    }
  }

  /** parse */
  method ParseValue(str: string, i: nat) returns (r: Parsed<Value>)
    requires i <= |str|
    ensures r == Parse(str, i)
    decreases |str| - i, 0
  {
    if i == |str| {
      return Fail(UnexpectedCharacter);
    }
    var chr := str[i];
    if chr == '\"' {
      var s := ParseString(str, i);
      r := if s.Ok? then Ok(Str(s.val), s.next) else Fail(s.error);
    } else if IsDigit(chr) || chr == '-' {
      r := ParseNumber(str, i);
    } else if chr in "tfn" {
      r := ParseLiteral(str, i);
    } else if chr == '[' {
      r := ParseArray(str, i + 1);
    } else if chr == '{' {
      r := ParseObject(str, i + 1);
    } else {
      r := Fail(UnexpectedCharacter);
    }
  }

  /** parse_array, from behind the bracket */
  method ParseArray(str: string, start: nat) returns (r: Parsed<Value>)
    requires start <= |str|
    ensures r == ArrayRest(str, start, 1, map[])
    decreases |str| - start, 1
  {
    hide Parse, SkipSpace, Assign;
    var res: map<Key, Value> := map[];
    var n: nat, i: nat := 1, start;
    while true
      invariant start <= i <= |str|
      invariant ArrayRest(str, start, 1, map[]) == ArrayRest(str, i, n, res)
      decreases |str| - i
    {
      i := NextNonSpace(str, i);
      ghost var a := i;
      if CharAt(str, i, ']') {
        return Ok(Table(res), i + 1);
      }
      var x := ParseValue(str, i);
      if x.Fail? {
        return x;
      }
      res := Assign(res, Index(n), x.val);
      n := n + 1;
      i := NextNonSpace(str, x.next);
      if CharAt(str, i, ']') {
        return Ok(Table(res), i + 1);
      }
      if !CharAt(str, i, ',') {
        return Fail(ExpectedArrayDelimiter);
      }
      i := i + 1;
    }
  }

  /** A key, its colon and its value, from the quote on: the part of the loop of parse_object that reads. */
  method ParseMember(str: string, a: nat) returns (key: Parsed<string>, val: Parsed<Value>)
    requires CharAt(str, a, '\"')
    ensures key == KeyAndColon(str, a)
    ensures key.Ok? ==> a < key.next <= |str| && val == Parse(str, SkipSpace(str, key.next))
    decreases |str| - a, 0
  {
    hide Parse, SkipSpace, StringRest;
    val := Fail(UnexpectedCharacter);
    key := ParseString(str, a);
    if key.Fail? {
      return;
    }
    var c := NextNonSpace(str, key.next);
    if !CharAt(str, c, ':') {
      key := Fail(ExpectedColon);
      return;
    }
    key := Ok(key.val, c + 1);
    var v := NextNonSpace(str, c + 1);
    val := ParseValue(str, v);
  }

  /** parse_object, from behind the brace */
  method ParseObject(str: string, start: nat) returns (r: Parsed<Value>)
    requires start <= |str|
    ensures r == ObjectRest(str, start, map[])
    decreases |str| - start, 1
  {
    hide Parse, SkipSpace, Assign, KeyAndColon;
    var res: map<Key, Value> := map[];
    var i: nat := start;
    while true
      invariant start <= i <= |str|
      invariant ObjectRest(str, start, map[]) == ObjectRest(str, i, res)
      decreases |str| - i
    {
      i := NextNonSpace(str, i);
      if CharAt(str, i, '}') {
        return Ok(Table(res), i + 1);
      }
      if !CharAt(str, i, '\"') {
        return Fail(ExpectedKey);
      }
      var key, val := ParseMember(str, i);
      if key.Fail? {
        return Fail(key.error);
      }
      if val.Fail? {
        return val;
      }
      res := Assign(res, Name(key.val), val.val);
      i := NextNonSpace(str, val.next);
      if CharAt(str, i, '}') {
        return Ok(Table(res), i + 1);
      }
      if !CharAt(str, i, ',') {
        return Fail(ExpectedObjectDelimiter);
      }
      i := i + 1;
    }
  }

  /** json.decode */
  method DecodeText(str: string) returns (d: Decoded)
    ensures d == Decode(str)
  {
    hide Parse, SkipSpace;
    var i := NextNonSpace(str, 0);
    var x := ParseValue(str, i);
    if x.Fail? {
      return Error(x.error);
    }
    i := NextNonSpace(str, x.next);
    d := if i < |str| then Error(TrailingGarbage) else Result(x.val);
  }

  /** The parts with a comma between any two neighbours. */
  function Concat(parts: seq<string>): string {
    if parts == [] then ""
    else if |parts| == 1 then parts[0]
    else Concat(parts[..|parts| - 1]) + "," + parts[|parts| - 1]
  }

  /** What the encoding of a list is, once the texts of its first elements are in parts. */
  function AfterParts(parts: seq<string>, more: bool, rest: Encoded): Encoded {
    if parts == [] then rest
    else if more then Joined(Text(Concat(parts)), rest)
    else Text(Concat(parts))
  }

  lemma PartAdded(parts: seq<string>, s: string, more: bool, rest: Encoded)
    ensures AfterParts(parts, true, if more then Joined(Text(s), rest) else Text(s)) ==
            AfterParts(parts + [s], more, rest)
  {
    assert (parts + [s])[..|parts|] == parts;
    if rest.Text? && parts != [] {
      assert Concat(parts) + "," + (s + "," + rest.s) == Concat(parts) + "," + s + "," + rest.s;
    }
  }

  /** encode */
  method EncodeValue(t: Tree) returns (e: Encoded)
    ensures e == Encode(t)
    decreases t, 1
  {
    if t.TTable? {
      e := EncodeTable(t);
    } else {
      e := Encode(t);
    }
  }

  /** encode_table */
  method EncodeTable(t: Tree) returns (e: Encoded)
    requires t.TTable?
    ensures e == Encode(t)
    decreases t, 0
  {
    hide EncodeItems, EncodeFields, Find;
    if ArrayLike(t.entries) {
      var n := 0;
      while n < |t.entries|
        invariant 0 <= n <= |t.entries|
        invariant forall i :: 0 <= i < n ==> t.entries[i].key.Index?
      {
        if !t.entries[n].key.Index? {
          return Refused(MixedKeys);
        }
        n := n + 1;
      }
      if n != t.border {
        return Refused(SparseArray);
      }
      var inner := ItemTexts(t);
      e := Wrapped("[", inner, "]");
    } else {
      var inner := FieldTexts(t);
      e := Wrapped("{", inner, "}");
    }
  }

  /** The texts of the items that ipairs visits, joined by commas. */
  method ItemTexts(t: Tree) returns (e: Encoded)
    requires t.TTable?
    ensures e == EncodeItems(t, 1)
    decreases t, 0, 0
  {
    hide Encode, Find, At, Concat;
    var parts: seq<string> := [];
    var k: nat := 1;
    while Has(t.entries, Index(k))
      invariant k > 0 && forall q :: 1 <= q < k ==> Has(t.entries, Index(q))
      invariant parts != [] <==> k > 1
      invariant EncodeItems(t, 1) == AfterParts(parts, IsItem(t.entries, k), EncodeItems(t, k))
      decreases |t.entries| + 1 - k
    {
      ItemsAreBounded(t.entries, k);
      ItemBelow(t, k);
      var here := EncodeValue(At(t.entries, Index(k)));
      if here.Refused? {
        return here;
      }
      PartAdded(parts, here.s, IsItem(t.entries, k + 1), EncodeItems(t, k + 1));
      parts := parts + [here.s];
      k := k + 1;
    }
    e := Text(Concat(parts));
    NoParts();
  }

  lemma ItemBelow(t: Tree, k: nat)
    requires t.TTable? && Has(t.entries, Index(k))
    ensures At(t.entries, Index(k)) < t
  {
    assert t.entries[Find(t.entries, Index(k))] < t;
  }

  lemma NoParts()
    ensures Concat([]) == ""
  {
  }

  /** The texts of the fields in the order of pairs, joined by commas. */
  method FieldTexts(t: Tree) returns (e: Encoded)
    requires t.TTable?
    ensures e == EncodeFields(t, 0)
    decreases t, 0, 0
  {
    hide Encode, Concat, StringText;
    var parts: seq<string> := [];
    var i: nat := 0;
    while i < |t.entries|
      invariant i <= |t.entries| && (parts != [] <==> i > 0)
      invariant EncodeFields(t, 0) == AfterParts(parts, i < |t.entries|, EncodeFields(t, i))
    {
      var entry := t.entries[i];
      assert entry < t;
      if !entry.key.Name? {
        return Refused(MixedKeys);
      }
      var val := EncodeValue(entry.val);
      if val.Refused? {
        return val;
      }
      var here := KeyText(entry.key) + ":" + val.s;
      if i + 1 < |t.entries| {
        PartAdded(parts, here, true, EncodeFields(t, i + 1));
      } else {
        PartAdded(parts, here, false, Text(""));
      }
      parts := parts + [here];
      i := i + 1;
    }
    e := Text(Concat(parts));
    NoParts();
  }
}
