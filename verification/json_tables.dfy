/** Tables read back, and with them every value; when that is the whole of the value. */
module JsonTables {
  import opened Texts
  import opened JsonValues
  import opened JsonEncode
  import opened JsonDecode
  import opened JsonRoundTrip

  // What of a value reaches the text: of an array, the items up to the first gap.

  function Seen(t: Tree): Value
    decreases t, 1
  {
    match t
    case TNil => Nil
    case TBoolean(b) => Boolean(b)
    case TNumber(n) => Number(Whole(n))
    case TStr(s) => Str(s)
    case TTable(entries, _) =>
      Table(if ArrayLike(entries) then SeenItems(t, 1, map[]) else SeenFields(t, 0, map[]))
  }

  function SeenItems(t: Tree, k: nat, res: map<Key, Value>): map<Key, Value>
    requires t.TTable? && k > 0
    decreases t, 0, |t.entries| + 1 - k
  {
    if !IsItem(t.entries, k) then res
    else SeenItems(t, k + 1, Assign(res, Index(k), Seen(At(t.entries, Index(k)))))
  }

  function SeenFields(t: Tree, i: nat, res: map<Key, Value>): map<Key, Value>
    requires t.TTable? && i <= |t.entries|
    decreases t, 0, |t.entries| - i
  {
    if i == |t.entries| then res
    else SeenFields(t, i + 1, Assign(res, t.entries[i].key, Seen(t.entries[i].val)))
  }

  /** No text starts with a space or closes a table. */
  lemma FirstChar(t: Tree)
    requires Encode(t).Text?
    ensures var s := Encode(t).s; s != "" && !IsSpace(s[0]) && s[0] != ']' && s[0] != '}'
  {
    if t.TNumber? {
      NatTextDigits(if t.n < 0 then -t.n else t.n);
    }
  }

  lemma NoSpace(str: string, i: nat)
    requires i < |str| && !IsSpace(str[i])
    ensures SkipSpace(str, i) == i
  {
  }

  /** One turn of the loop of parse_array. */
  lemma ArrayStep(str: string, i: nat, n: nat, res: map<Key, Value>, x: Value, next: nat)
    requires i < |str| && !IsSpace(str[i]) && str[i] != ']'
    requires Parse(str, i) == Ok(x, next) && next < |str|
    ensures str[next] == ']' ==> ArrayRest(str, i, n, res) == Ok(Table(Assign(res, Index(n), x)), next + 1)
    ensures str[next] == ',' ==> ArrayRest(str, i, n, res) == ArrayRest(str, next + 1, n + 1, Assign(res, Index(n), x))
  {
    hide Parse, SkipSpace;
    NoSpace(str, i);
    if str[next] == ']' || str[next] == ',' {
      NoSpace(str, next);
    }
  }

  /** One turn of the loop of parse_object. */
  lemma ObjectStep(str: string, i: nat, res: map<Key, Value>, key: string, c: nat, x: Value, next: nat)
    requires CharAt(str, i, '\"') && StringRest(str, i + 1) == Ok(key, c) && CharAt(str, c, ':')
    requires c + 1 < |str| && !IsSpace(str[c + 1])
    requires Parse(str, c + 1) == Ok(x, next) && next < |str|
    ensures str[next] == '}' ==> ObjectRest(str, i, res) == Ok(Table(Assign(res, Name(key), x)), next + 1)
    ensures str[next] == ',' ==> ObjectRest(str, i, res) == ObjectRest(str, next + 1, Assign(res, Name(key), x))
  {
    hide Parse, StringRest, SkipSpace, Assign;
    NoSpace(str, i);
    NoSpace(str, c);
    assert KeyAndColon(str, i) == Ok(key, c + 1);
    NoSpace(str, c + 1);
    if str[next] == '}' || str[next] == ',' {
      NoSpace(str, next);
    }
  }

  /** Inside any text, followed by a delimiter or the end, a value is read back and exactly its text is consumed. */
  lemma {:induction false} ReadBack(t: Tree, str: string, i: nat)
    requires WellFormed(t) && Encode(t).Text?
    requires StandsAt(str, i, Encode(t).s) && Bounded(str, i + |Encode(t).s|)
    ensures Parse(str, i) == Ok(Seen(t), i + |Encode(t).s|)
    decreases t, 1
  {
    match t
    case TNil => ParseLiteralText(str, i, "null");
    case TBoolean(b) => ParseLiteralText(str, i, if b then "true" else "false");
    case TNumber(n) => ParseNumberText(str, i, n);
    case TStr(s) => ParseStringText(str, i, s);
    case TTable(entries, _) =>
      if ArrayLike(entries) {
        ArrayReadBack(t, str, i);
      } else {
        ObjectReadBack(t, str, i);
      }
  }

  lemma {:induction false} ArrayReadBack(t: Tree, str: string, i: nat)
    requires t.TTable? && ArrayLike(t.entries) && WellFormed(t) && Encode(t).Text?
    requires StandsAt(str, i, Encode(t).s)
    ensures Parse(str, i) == Ok(Seen(t), i + |Encode(t).s|)
    decreases t, 0, 2
  {
    hide ArrayRest, SeenItems, StandsAt;
    var inner := EncodeItems(t, 1).s;
    assert Encode(t).s == "[" + (inner + "]");
    Neighbours(str, i, "[", inner + "]");
    ItemsReadBack(t, 1, str, i + 1, map[]);
  }

  lemma {:induction false} ObjectReadBack(t: Tree, str: string, i: nat)
    requires t.TTable? && !ArrayLike(t.entries) && WellFormed(t) && Encode(t).Text?
    requires StandsAt(str, i, Encode(t).s)
    ensures Parse(str, i) == Ok(Seen(t), i + |Encode(t).s|)
    decreases t, 0, 2
  {
    hide ObjectRest, SeenFields, StandsAt;
    var inner := EncodeFields(t, 0).s;
    assert Encode(t).s == "{" + (inner + "}");
    Neighbours(str, i, "{", inner + "}");
    FieldsReadBack(t, 0, str, i + 1, map[]);
  }

  lemma {:induction false} ItemsReadBack(t: Tree, k: nat, str: string, i: nat, res: map<Key, Value>)
    requires t.TTable? && WellFormed(t) && k > 0 && (k > 1 ==> IsItem(t.entries, k)) && EncodeItems(t, k).Text?
    requires StandsAt(str, i, EncodeItems(t, k).s + "]")
    ensures ArrayRest(str, i, k, res) == Ok(Table(SeenItems(t, k, res)), i + |EncodeItems(t, k).s| + 1)
    decreases t, 0, 1, |t.entries| + 1 - k
  {
    hide Parse, Encode, Seen, WellFormed, Assign, StandsAt, ArrayRest, SkipSpace, At, Find;
    if !IsItem(t.entries, k) {
      EmptyArrayEnds(str, i, k, res);
    } else {
      var v := At(t.entries, Index(k));
      var here := Encode(v).s;
      ItemIsWellFormed(t, k);
      FirstChar(v);
      var more := IsItem(t.entries, k + 1);
      var behind := if more then "," + (EncodeItems(t, k + 1).s + "]") else "]";
      ItemsTextSplit(t, k);
      Neighbours(str, i, here, behind);
      ReadBack(v, str, i);
      ArrayStep(str, i, k, res, Seen(v), i + |here|);
      if more {
        Neighbours(str, i + |here|, ",", EncodeItems(t, k + 1).s + "]");
        ItemsReadBack(t, k + 1, str, i + |here| + 1, Assign(res, Index(k), Seen(v)));
      }
    }
  }

  lemma ItemsTextSplit(t: Tree, k: nat)
    requires t.TTable? && k > 0 && IsItem(t.entries, k) && EncodeItems(t, k).Text?
    ensures Encode(At(t.entries, Index(k))).Text?
    ensures var here := Encode(At(t.entries, Index(k))).s;
            if IsItem(t.entries, k + 1) then
              EncodeItems(t, k + 1).Text? &&
              EncodeItems(t, k).s + "]" == here + ("," + (EncodeItems(t, k + 1).s + "]"))
            else EncodeItems(t, k).s + "]" == here + "]"
  {
    hide Encode, At, Find;
  }

  lemma EmptyArrayEnds(str: string, i: nat, k: nat, res: map<Key, Value>)
    requires StandsAt(str, i, "" + "]")
    ensures ArrayRest(str, i, k, res) == Ok(Table(res), i + 1)
  {
    StandsChars(str, i, "" + "]");
    assert SkipSpace(str, i) == i;
  }

  lemma ItemIsWellFormed(t: Tree, k: nat)
    requires t.TTable? && WellFormed(t) && Has(t.entries, Index(k))
    ensures At(t.entries, Index(k)) < t && WellFormed(At(t.entries, Index(k)))
    ensures !At(t.entries, Index(k)).TNil?
  {
    var p := Find(t.entries, Index(k));
    assert t.entries[p] < t;
  }

  lemma {:induction false} FieldsReadBack(t: Tree, j: nat, str: string, i: nat, res: map<Key, Value>)
    requires t.TTable? && WellFormed(t) && j < |t.entries| && EncodeFields(t, j).Text?
    requires StandsAt(str, i, EncodeFields(t, j).s + "}")
    ensures ObjectRest(str, i, res) == Ok(Table(SeenFields(t, j, res)), i + |EncodeFields(t, j).s| + 1)
    decreases t, 0, 1, |t.entries| - j
  {
    hide Parse, Encode, Seen, StringText, Assign, StringRest, StandsAt, ObjectRest, SkipSpace, CharAt;
    var entry := t.entries[j];
    var key, val := KeyText(entry.key), Encode(entry.val).s;
    var next := i + |key| + 1 + |val|;
    if j + 1 < |t.entries| {
      var behind := "," + (EncodeFields(t, j + 1).s + "}");
      assert EncodeFields(t, j).s + "}" == key + (":" + (val + behind));
      FieldReadBack(entry.key.s, entry.val, str, i, res, behind);
      Neighbours(str, next, ",", EncodeFields(t, j + 1).s + "}");
      FieldsReadBack(t, j + 1, str, next + 1, Assign(res, entry.key, Seen(entry.val)));
    } else {
      assert EncodeFields(t, j).s + "}" == key + (":" + (val + "}"));
      FieldReadBack(entry.key.s, entry.val, str, i, res, "}");
    }
  }

  /** One field and what stands behind it. */
  lemma {:induction false} FieldReadBack(name: string, val: Tree, str: string, i: nat, res: map<Key, Value>,
                                         behind: string)
    requires WellFormed(val) && Encode(val).Text? && behind != "" && (behind[0] == ',' || behind[0] == '}')
    requires StandsAt(str, i, StringText(name) + (":" + (Encode(val).s + behind)))
    ensures var next := i + |StringText(name)| + 1 + |Encode(val).s|;
            && StandsAt(str, next, behind)
            && ObjectRest(str, i, res) ==
               if behind[0] == ',' then ObjectRest(str, next + 1, Assign(res, Name(name), Seen(val)))
               else Ok(Table(Assign(res, Name(name), Seen(val))), next + 1)
    decreases val, 2
  {
    hide Parse, Encode, Seen, StringText, Assign, StringRest, StandsAt, ObjectRest, SkipSpace;
    var key, text := StringText(name), Encode(val).s;
    var next := i + |key| + 1 + |text|;
    FirstChar(val);
    FieldStands(str, i, key, text, behind);
    ParseStringText(str, i, name);
    ReadBack(val, str, i + |key| + 1);
    ObjectStep(str, i, res, name, i + |key|, Seen(val), next);
  }

  lemma FieldStands(str: string, i: nat, key: string, val: string, behind: string)
    requires StandsAt(str, i, key + (":" + (val + behind))) && key != "" && val != "" && behind != ""
    ensures StandsAt(str, i, key) && CharAt(str, i + |key|, ':')
    ensures StandsAt(str, i + |key| + 1, val) && CharAt(str, i + |key| + 1, val[0])
    ensures var next := i + |key| + 1 + |val|; StandsAt(str, next, behind) && CharAt(str, next, behind[0])
  {
    hide StandsAt;
    Neighbours(str, i, key, ":" + (val + behind));
    Neighbours(str, i + |key|, ":", val + behind);
    Neighbours(str, i + |key| + 1, val, behind);
  }

  /** json.decode(json.encode(v)) is what of v the encoder visits. */
  lemma DecodeOfEncode(t: Tree)
    requires WellFormed(t) && Encode(t).Text?
    ensures Decode(Encode(t).s) == Result(Seen(t))
  {
    hide Parse, Encode, Seen;
    var s := Encode(t).s;
    FirstChar(t);
    assert s[0..|s|] == s;
    ReadBack(t, s, 0);
    assert SkipSpace(s, 0) == 0 && SkipSpace(s, |s|) == |s|;
  }
}
