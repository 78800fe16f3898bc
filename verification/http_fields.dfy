/** The header map: ordered by strcasecmp, which reads up to the first NUL and ignores the case of letters. */
module HttpFields {
  datatype Field = Field(name: string, value: string)

  datatype Lookup = Missing | Found(value: string)

  function Lower(c: char): char {
    if 'A' <= c <= 'Z' then c + (32 as char) else c
  }

  /** What strcasecmp sees of a string. */
  function Key(s: string): string {
    if s == "" || s[0] as int == 0 then "" else [Lower(s[0])] + Key(s[1..])
  }

  // The same in terms of octets.

  /** Up to the first NUL. */
  function CLength(s: string): (n: nat)
    ensures n <= |s| && (forall i :: 0 <= i < n ==> s[i] as int != 0) && (n < |s| ==> s[n] as int == 0)
  {
    if s == "" || s[0] as int == 0 then 0 else 1 + CLength(s[1..])
  }

  /** One octet, or the two cases of one letter, which are 32 apart. */
  predicate SameLetter(c: char, d: char) {
    var m, n := c as int, d as int;
    m == n || (0x41 <= m <= 0x5a && n == m + 32) || (0x41 <= n <= 0x5a && m == n + 32)
  }

  /** Equal to strcasecmp. */
  predicate SameName(a: string, b: string) {
    CLength(a) == CLength(b) && forall i :: 0 <= i < CLength(a) ==> SameLetter(a[i], b[i])
  }

  lemma LowerIff(c: char, d: char)
    ensures Lower(c) == Lower(d) <==> SameLetter(c, d)
    ensures Lower(c) as int == if 0x41 <= c as int <= 0x5a then c as int + 32 else c as int
  {
  }

  lemma {:induction false} KeyAt(s: string)
    ensures |Key(s)| == CLength(s) && forall i :: 0 <= i < CLength(s) ==> Key(s)[i] == Lower(s[i])
  {
    if s != "" {
      KeyAt(s[1..]);
    }
  }

  /** Two names have one key exactly when they differ in the case of letters only. */
  lemma KeyIff(a: string, b: string)
    ensures Key(a) == Key(b) <==> SameName(a, b)
  {
    hide Lower, Key, SameLetter;
    KeyAt(a);
    KeyAt(b);
    forall i | 0 <= i < CLength(a) && i < CLength(b) ensures Lower(a[i]) == Lower(b[i]) <==> SameLetter(a[i], b[i]) {
      LowerIff(a[i], b[i]);
    }
    assert SameName(a, b) ==> Key(a) == Key(b);
    if Key(a) == Key(b) {
      assert forall i :: 0 <= i < CLength(a) ==> Lower(a[i]) == Key(a)[i] == Key(b)[i] == Lower(b[i]);
    }
  }

  /** The order of dictionaries. */
  predicate Before(a: string, b: string) {
    b != "" && (a == "" || a[0] < b[0] || (a[0] == b[0] && Before(a[1..], b[1..])))
  }

  lemma {:induction false} BeforeIsStrict(a: string, b: string)
    ensures Before(a, b) ==> !Before(b, a) && a != b
  {
    if a != "" && b != "" {
      BeforeIsStrict(a[1..], b[1..]);
    }
  }

  lemma {:induction false} BeforeIsTotal(a: string, b: string)
    ensures a == b || Before(a, b) || Before(b, a)
  {
    if a != "" && b != "" {
      BeforeIsTotal(a[1..], b[1..]);
      assert a == [a[0]] + a[1..] && b == [b[0]] + b[1..];
    }
  }

  lemma {:induction false} BeforeIsTransitive(a: string, b: string, c: string)
    requires Before(a, b) && Before(b, c)
    ensures Before(a, c)
  {
    if a != "" && a[0] == b[0] == c[0] {
      BeforeIsTransitive(a[1..], b[1..], c[1..]);
    }
  }

  /** At k the texts part: the first one ends there, or has the lower code, letters counted as small ones. */
  predicate PartsAt(a: string, b: string, k: nat) {
    && k <= CLength(a) && k < CLength(b) && (forall i :: 0 <= i < k ==> SameLetter(a[i], b[i]))
    && (k < CLength(a) ==> SmallCode(a[k]) < SmallCode(b[k]))
  }

  function SmallCode(c: char): int {
    if 0x41 <= c as int <= 0x5a then c as int + 32 else c as int
  }

  lemma {:induction false} BeforeIff(a: string, b: string)
    ensures Before(a, b) <==>
            exists k: nat :: k <= |a| && k < |b| && a[..k] == b[..k] && (k < |a| ==> a[k] < b[k])
  {
    if a != "" && b != "" && a[0] == b[0] {
      BeforeIff(a[1..], b[1..]);
      if Before(a, b) {
        var x, y := a[1..], b[1..];
        var k: nat :| k <= |x| && k < |y| && x[..k] == y[..k] && (k < |x| ==> x[k] < y[k]);
        assert a[..k + 1] == [a[0]] + a[1..][..k] && b[..k + 1] == [b[0]] + b[1..][..k];
      }
      if k: nat :| k <= |a| && k < |b| && a[..k] == b[..k] && (k < |a| ==> a[k] < b[k]) {
        assert k > 0;
        assert a[1..][..k - 1] == a[..k][1..] && b[1..][..k - 1] == b[..k][1..];
      }
    } else if Before(a, b) {
      assert a[..0] == b[..0];
    } else if a != "" && b != "" {
      assert forall k: nat :: 0 < k <= |a| && k < |b| ==> a[..k][0] == a[0] && b[..k][0] == b[0];
    }
  }

  /** The map's order is that of strcasecmp. */
  lemma KeyBeforeIff(a: string, b: string)
    ensures Before(Key(a), Key(b)) <==> exists k: nat :: PartsAt(a, b, k)
  {
    hide Before, Key, Lower, SameLetter, SmallCode;
    var x, y := Key(a), Key(b);
    KeyAt(a);
    KeyAt(b);
    BeforeIff(x, y);
    forall i | 0 <= i < |x| && i < |y|
      ensures x[i] == y[i] <==> SameLetter(a[i], b[i])
      ensures x[i] < y[i] <==> SmallCode(a[i]) < SmallCode(b[i])
    {
      LowerIff(a[i], b[i]);
      SmallCodes(a[i], b[i]);
    }
    if k: nat :| PartsAt(a, b, k) {
      assert x[..k] == y[..k];
    }
    if k: nat :| k <= |x| && k < |y| && x[..k] == y[..k] && (k < |x| ==> x[k] < y[k]) {
      assert forall i :: 0 <= i < k ==> x[i] == x[..k][i] == y[..k][i] == y[i];
      assert PartsAt(a, b, k);
    }
  }

  lemma SmallCodes(c: char, d: char)
    ensures Lower(c) < Lower(d) <==> SmallCode(c) < SmallCode(d)
  {
  }

  /** The keys ascend, so no two are equal. */
  predicate Sorted(fields: seq<Field>) {
    forall i, j :: 0 <= i < j < |fields| ==> Before(Key(fields[i].name), Key(fields[j].name))
  }

  /** An entry with the same key keeps its name and takes the value; a new key goes to its place. */
  function SetField(fields: seq<Field>, name: string, value: string): seq<Field> {
    if fields == [] || Before(Key(name), Key(fields[0].name)) then [Field(name, value)] + fields
    else if Key(fields[0].name) == Key(name) then [fields[0].(value := value)] + fields[1..]
    else [fields[0]] + SetField(fields[1..], name, value)
  }

  function GetField(fields: seq<Field>, name: string): Lookup {
    if fields == [] then Missing
    else if Key(fields[0].name) == Key(name) then Found(fields[0].value)
    else GetField(fields[1..], name)
  }

  predicate Holds(fields: seq<Field>, key: string) {
    exists i :: 0 <= i < |fields| && Key(fields[i].name) == key
  }

  /** Setting keeps the order and adds no key but the one that was set. */
  lemma {:induction false} SetFieldKeepsSorted(fields: seq<Field>, name: string, value: string)
    requires Sorted(fields)
    ensures var r := SetField(fields, name, value);
            Sorted(r) && forall i :: 0 <= i < |r| ==> Holds(fields, Key(r[i].name)) || Key(r[i].name) == Key(name)
  {
    hide Key, Before;
    if fields != [] {
      var f := fields[0];
      if Before(Key(name), Key(f.name)) {
        InFrontKeepsSorted(Field(name, value), fields);
      } else if Key(f.name) != Key(name) {
        BeforeIsTotal(Key(name), Key(f.name));
        var rest := SetField(fields[1..], name, value);
        SetFieldKeepsSorted(fields[1..], name, value);
        TailHolds(fields);
        assert forall i :: 0 <= i < |rest| ==> Before(Key(f.name), Key(rest[i].name)) by {
          forall i | 0 <= i < |rest| ensures Before(Key(f.name), Key(rest[i].name)) {
            if Holds(fields[1..], Key(rest[i].name)) {
              var j :| 0 <= j < |fields[1..]| && Key(fields[1..][j].name) == Key(rest[i].name);
              assert fields[1..][j] == fields[j + 1];
            }
          }
        }
      }
    }
  }

  lemma TailHolds(fields: seq<Field>)
    requires fields != []
    ensures forall key :: Holds(fields[1..], key) ==> Holds(fields, key)
  {
    forall key | Holds(fields[1..], key) ensures Holds(fields, key) {
      var j :| 0 <= j < |fields[1..]| && Key(fields[1..][j].name) == key;
      assert Key(fields[j + 1].name) == key;
    }
  }

  lemma InFrontKeepsSorted(f: Field, fields: seq<Field>)
    requires Sorted(fields) && fields != [] && Before(Key(f.name), Key(fields[0].name))
    ensures Sorted([f] + fields)
  {
    hide Key, Before;
    forall j | 0 <= j < |fields| ensures Before(Key(f.name), Key(fields[j].name)) {
      if j > 0 {
        BeforeIsTransitive(Key(f.name), Key(fields[0].name), Key(fields[j].name));
      }
    }
  }

  /** Behind a set, its name is found with the new value in any case of its letters, and any other with its old one. */
  lemma SetThenGet(fields: seq<Field>, name: string, value: string, other: string)
    ensures GetField(SetField(fields, name, value), other) ==
            if SameName(other, name) then Found(value) else GetField(fields, other)
  {
    KeyIff(other, name);
    SetThenGetKey(fields, name, value, other);
  }

  /** No two fields of a map have the same name. */
  lemma SortedHasNoTwo(fields: seq<Field>, i: nat, j: nat)
    requires Sorted(fields) && i < j < |fields|
    ensures !SameName(fields[i].name, fields[j].name)
  {
    KeyIff(fields[i].name, fields[j].name);
    BeforeIsStrict(Key(fields[i].name), Key(fields[j].name));
  }

  lemma {:induction false} SetThenGetKey(fields: seq<Field>, name: string, value: string, other: string)
    ensures GetField(SetField(fields, name, value), other) ==
            if Key(other) == Key(name) then Found(value) else GetField(fields, other)
  {
    hide Key, Before;
    if fields != [] {
      var f := fields[0];
      if Before(Key(name), Key(f.name)) {
        BeforeIsStrict(Key(name), Key(f.name));
        assert ([Field(name, value)] + fields)[1..] == fields;
      } else if Key(f.name) == Key(name) {
        assert ([f.(value := value)] + fields[1..])[1..] == fields[1..];
      } else {
        SetThenGetKey(fields[1..], name, value, other);
        assert ([f] + SetField(fields[1..], name, value))[1..] == SetField(fields[1..], name, value);
      }
    }
  }

  function SetAll(fields: seq<Field>, more: seq<Field>): seq<Field>
    decreases |more|
  {
    if more == [] then fields else SetAll(SetField(fields, more[0].name, more[0].value), more[1..])
  }

  /** A key behind all others goes to the end. */
  lemma {:induction false} SetLast(fields: seq<Field>, f: Field)
    requires forall i :: 0 <= i < |fields| ==> Before(Key(fields[i].name), Key(f.name))
    ensures SetField(fields, f.name, f.value) == fields + [f]
  {
    hide Key, Before;
    if fields != [] {
      BeforeIsStrict(Key(fields[0].name), Key(f.name));
      SetLast(fields[1..], f);
    }
  }

  /** Setting the entries of a map in its own order builds the map again. */
  lemma {:induction false} SetAllInOrder(done: seq<Field>, more: seq<Field>)
    requires Sorted(done + more)
    ensures SetAll(done, more) == done + more
    decreases |more|
  {
    hide Key, Before;
    if more != [] {
      var all := done + more;
      forall i | 0 <= i < |done| ensures Before(Key(done[i].name), Key(more[0].name)) {
        assert all[i] == done[i] && all[|done|] == more[0];
      }
      SetLast(done, more[0]);
      assert done + [more[0]] + more[1..] == all;
      SetAllInOrder(done + [more[0]], more[1..]);
    }
  }

  /** Whatever holds of the fields that are set holds of the entries of the map, name by name and value by value. */
  lemma {:induction false} SetAllTakesOnly(fields: seq<Field>, more: seq<Field>, names: set<string>,
                                           values: set<string>)
    requires forall f :: f in fields || f in more ==> f.name in names && f.value in values
    ensures forall f :: f in SetAll(fields, more) ==> f.name in names && f.value in values
    decreases |more|
  {
    hide Key, Before;
    if more != [] {
      SetTakesOnly(fields, more[0], names, values);
      SetAllTakesOnly(SetField(fields, more[0].name, more[0].value), more[1..], names, values);
    }
  }

  lemma {:induction false} SetTakesOnly(fields: seq<Field>, g: Field, names: set<string>, values: set<string>)
    requires forall f :: f in fields || f == g ==> f.name in names && f.value in values
    ensures forall f :: f in SetField(fields, g.name, g.value) ==> f.name in names && f.value in values
  {
    hide Key, Before;
    if fields != [] {
      assert fields[0] in fields;
      SetTakesOnly(fields[1..], g, names, values);
    }
  }

  lemma {:induction false} SetAllKeepsSorted(fields: seq<Field>, more: seq<Field>)
    requires Sorted(fields)
    ensures Sorted(SetAll(fields, more))
    decreases |more|
  {
    hide Key, Before, Sorted;
    if more != [] {
      SetFieldKeepsSorted(fields, more[0].name, more[0].value);
      SetAllKeepsSorted(SetField(fields, more[0].name, more[0].value), more[1..]);
    }
  }

  /** The spelling under which a key stands. */
  function SpellingOf(fields: seq<Field>, key: string): Lookup {
    if fields == [] then Missing
    else if Key(fields[0].name) == key then Found(fields[0].name)
    else SpellingOf(fields[1..], key)
  }

  /** The value of the last field with a key. */
  function LastValue(fields: seq<Field>, key: string): Lookup {
    if fields == [] then Missing
    else
      var later := LastValue(fields[1..], key);
      if later.Missing? && Key(fields[0].name) == key then Found(fields[0].value) else later
  }

  /** A key in front of all others is not among them. */
  lemma {:induction false} NotBehind(fields: seq<Field>, key: string)
    requires forall i :: 0 <= i < |fields| ==> Before(key, Key(fields[i].name))
    ensures SpellingOf(fields, key) == Missing
  {
    hide Key, Before;
    if fields != [] {
      BeforeIsStrict(key, Key(fields[0].name));
      NotBehind(fields[1..], key);
    }
  }

  /** A set leaves the spelling of a key that is there, and gives its own to one that is not. */
  lemma {:induction false} SetKeepsSpelling(fields: seq<Field>, name: string, value: string, key: string)
    requires Sorted(fields)
    ensures SpellingOf(SetField(fields, name, value), key) ==
            if SpellingOf(fields, key).Found? || Key(name) != key then SpellingOf(fields, key) else Found(name)
  {
    hide Key, Before;
    if fields != [] {
      var f := fields[0];
      if Before(Key(name), Key(f.name)) {
        forall i | 0 <= i < |fields| ensures Before(Key(name), Key(fields[i].name)) {
          if i > 0 {
            BeforeIsTransitive(Key(name), Key(f.name), Key(fields[i].name));
          }
        }
        NotBehind(fields, Key(name));
        assert ([Field(name, value)] + fields)[1..] == fields;
      } else if Key(f.name) == Key(name) {
        assert ([f.(value := value)] + fields[1..])[1..] == fields[1..];
      } else {
        SetKeepsSpelling(fields[1..], name, value, key);
        assert ([f] + SetField(fields[1..], name, value))[1..] == SetField(fields[1..], name, value);
      }
    }
  }

  /** Of fields set one after the other, the first gives a key its spelling. */
  lemma {:induction false} FirstSpellingStays(fields: seq<Field>, more: seq<Field>, key: string)
    requires Sorted(fields)
    ensures SpellingOf(SetAll(fields, more), key) ==
            if SpellingOf(fields, key).Found? then SpellingOf(fields, key) else SpellingOf(more, key)
    decreases |more|
  {
    hide Key, Before, Sorted;
    if more != [] {
      SetKeepsSpelling(fields, more[0].name, more[0].value, key);
      SetFieldKeepsSorted(fields, more[0].name, more[0].value);
      FirstSpellingStays(SetField(fields, more[0].name, more[0].value), more[1..], key);
    }
  }

  /** and the last one its value. */
  lemma {:induction false} LastValueStays(fields: seq<Field>, more: seq<Field>, name: string)
    ensures GetField(SetAll(fields, more), name) ==
            if LastValue(more, Key(name)).Found? then LastValue(more, Key(name)) else GetField(fields, name)
    decreases |more|
  {
    hide Key, Before;
    if more != [] {
      SetThenGetKey(fields, more[0].name, more[0].value, name);
      LastValueStays(SetField(fields, more[0].name, more[0].value), more[1..], name);
    }
  }
}
