/** Lua values as json.lua sees them. Lua strings are octet strings; an octet is a char below 256. */
module JsonValues {
  /** A numeral: a whole number in the range of Lua integers, or any other numeral by its text. */
  datatype Num = Whole(n: int) | Other(numeral: string)

  datatype Key = Index(n: int) | Name(s: string)

  /** A Lua value by content. A table maps keys to values that are not nil. */
  datatype Value =
    | Nil
    | Boolean(b: bool)
    | Number(num: Num)
    | Str(s: string)
    | Table(fields: map<Key, Value>)

  /** The fields after a value is stored under a key; storing nil removes the key. */
  function Assign(fields: map<Key, Value>, k: Key, v: Value): map<Key, Value> {
    if v.Nil? then fields - {k} else fields[k := v]
  }

  /**
   * A Lua value as the encoder meets it: a table is its entries in the order in which pairs
   * enumerates them, together with the border that the length operator reports for it.
   */
  datatype Tree =
    | TNil
    | TBoolean(b: bool)
    | TNumber(n: int)
    | TStr(s: string)
    | TTable(entries: seq<Entry>, border: nat)

  datatype Entry = Entry(key: Key, val: Tree)

  const TEN_TO_THE_14: int := 100_000_000_000_000

  // Where a key sits among the entries of a table.

  function Find(entries: seq<Entry>, key: Key): (p: nat)
    ensures p <= |entries|
    ensures p < |entries| ==> entries[p].key == key
    ensures p == |entries| ==> forall i :: 0 <= i < |entries| ==> entries[i].key != key
  {
    if entries == [] then 0
    else if entries[0].key == key then 0
    else 1 + Find(entries[1..], key)
  }

  predicate Has(entries: seq<Entry>, key: Key) {
    Find(entries, key) < |entries|
  }

  function At(entries: seq<Entry>, key: Key): (v: Tree)
    requires Has(entries, key)
  {
    entries[Find(entries, key)].val
  }

  ghost predicate DistinctKeys(entries: seq<Entry>) {
    forall i, j :: 0 <= i < j < |entries| ==> entries[i].key != entries[j].key
  }

  /** What Lua guarantees of the length operator: n is a border of the table. */
  ghost predicate IsBorder(entries: seq<Entry>, n: nat) {
    (n == 0 || Has(entries, Index(n))) && !Has(entries, Index(n + 1))
  }

  /**
   * A value as Lua can hold it, in the modelled domain: keys of a table are distinct and its values not nil,
   * the reported length is a border, and numbers are integers that %.14g prints exactly.
   */
  ghost predicate WellFormed(t: Tree) {
    match t
    case TNumber(n) => -TEN_TO_THE_14 < n < TEN_TO_THE_14
    case TTable(entries, border) =>
      && DistinctKeys(entries) && IsBorder(entries, border)
      && forall i :: 0 <= i < |entries| ==> !entries[i].val.TNil? && WellFormed(entries[i].val)
    case _ => true
  }

  /** The encoder writes a table as an array when it has a value under 1 or is empty. */
  predicate ArrayLike(entries: seq<Entry>) {
    entries == [] || Has(entries, Index(1))
  }

  /** The content of a value, whatever the order of enumeration. */
  function Content(t: Tree): Value
    decreases t, 1
  {
    match t
    case TNil => Nil
    case TBoolean(b) => Boolean(b)
    case TNumber(n) => Number(Whole(n))
    case TStr(s) => Str(s)
    case TTable(entries, _) => Table(Contents(t, |entries|))
  }

  /** The first n entries of a table. */
  function Contents(t: Tree, n: nat): map<Key, Value>
    requires t.TTable? && n <= |t.entries|
    decreases t, 0, n
  {
    if n == 0 then map[]
    else Assign(Contents(t, n - 1), t.entries[n - 1].key, Content(t.entries[n - 1].val))
  }

  /** A table read as an array has exactly the keys 1..n, here and in everything below it. */
  ghost predicate GapFree(t: Tree) {
    t.TTable? ==>
      && (ArrayLike(t.entries) ==> forall k :: 1 <= k <= |t.entries| ==> Has(t.entries, Index(k)))
      && forall i :: 0 <= i < |t.entries| ==> GapFree(t.entries[i].val)
  }
}
