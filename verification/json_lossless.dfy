/** When the text holds the whole value: the sparse-array check of the encoder compares against a border only. */
module JsonLossless {
  import opened JsonValues
  import opened JsonEncode
  import opened JsonDecode
  import opened JsonTables

  // Keys, counted.

  function KeySet(entries: seq<Entry>): (keys: set<Key>)
    ensures |keys| <= |entries|
    ensures forall i :: 0 <= i < |entries| ==> entries[i].key in keys
    ensures forall k <- keys :: Has(entries, k)
  {
    if entries == [] then {}
    else
      var keys := KeySet(entries[1..]);
      {entries[0].key} + keys
  }

  function Indices(n: nat): (keys: set<Key>)
    ensures |keys| == n
    ensures forall k :: Index(k) in keys <==> 1 <= k <= n
    ensures forall key <- keys :: key.Index?
  {
    if n == 0 then {} else Indices(n - 1) + {Index(n)}
  }

  lemma {:induction false} SubsetOfSameSize<T>(a: set<T>, b: set<T>)
    requires a <= b && |a| >= |b|
    ensures a == b
  {
    if x :| x in b && x !in a {
      SubsetSize(a + {x}, b);
    }
  }

  lemma {:induction false} SubsetSize<T>(a: set<T>, b: set<T>)
    requires a <= b
    ensures |a| <= |b|
  {
    if x :| x in a {
      SubsetSize(a - {x}, b - {x});
    }
  }

  /** ipairs cannot reach further than there are entries. */
  lemma ItemsAreBounded(entries: seq<Entry>, n: nat)
    requires forall k :: 1 <= k <= n ==> Has(entries, Index(k))
    ensures n <= |entries|
    ensures n == |entries| ==> forall i :: 0 <= i < n ==> entries[i].key.Index? && 1 <= entries[i].key.n <= n
  {
    var keys := KeySet(entries);
    forall key | key in Indices(n) ensures key in keys {
      var p := Find(entries, key);
      assert entries[p].key in keys;
    }
    SubsetSize(Indices(n), keys);
    if n == |entries| {
      SubsetOfSameSize(Indices(n), keys);
    }
  }

  // The two views of a table, key by key.

  lemma NilOnly(t: Tree)
    ensures Content(t).Nil? <==> t.TNil?
    ensures Seen(t).Nil? <==> t.TNil?
  {
  }

  function KeysUpTo(entries: seq<Entry>, n: nat): (keys: set<Key>)
    requires n <= |entries|
    ensures forall j :: 0 <= j < n ==> entries[j].key in keys
    ensures forall key <- keys :: exists j :: 0 <= j < n && entries[j].key == key
  {
    if n == 0 then {} else KeysUpTo(entries, n - 1) + {entries[n - 1].key}
  }

  lemma KeyIsNew(entries: seq<Entry>, n: nat)
    requires DistinctKeys(entries) && n < |entries|
    ensures entries[n].key !in KeysUpTo(entries, n)
  {
  }

  /** A new entry joins a map on the first n keys and leaves the others alone. */
  lemma KeyAdded(entries: seq<Entry>, n: nat, m: map<Key, Value>, v: Value)
    requires DistinctKeys(entries) && n < |entries| && m.Keys == KeysUpTo(entries, n) && !v.Nil?
    ensures var m' := Assign(m, entries[n].key, v);
            && m'.Keys == KeysUpTo(entries, n + 1) && m'[entries[n].key] == v
            && forall j :: 0 <= j < n ==> m'[entries[j].key] == m[entries[j].key]
  {
    KeyIsNew(entries, n);
  }

  /** The map holds the content of the first n entries. */
  ghost predicate HoldsContent(t: Tree, n: nat, m: map<Key, Value>)
    requires t.TTable? && n <= |t.entries|
  {
    && m.Keys == KeysUpTo(t.entries, n)
    && forall j :: 0 <= j < n ==> m[t.entries[j].key] == Content(t.entries[j].val)
  }

  lemma ContentAdded(t: Tree, n: nat, m: map<Key, Value>)
    requires t.TTable? && WellFormed(t) && n < |t.entries| && HoldsContent(t, n, m)
    ensures HoldsContent(t, n + 1, Assign(m, t.entries[n].key, Content(t.entries[n].val)))
  {
    hide WellFormed, Content, Assign, KeysUpTo;
    EntryIsWellFormed(t, n);
    NilOnly(t.entries[n].val);
    KeyAdded(t.entries, n, m, Content(t.entries[n].val));
  }

  lemma NoContentYet(t: Tree)
    requires t.TTable?
    ensures HoldsContent(t, 0, map[])
  {
  }

  lemma {:induction false} ContentsByKey(t: Tree, n: nat)
    requires t.TTable? && WellFormed(t) && n <= |t.entries|
    ensures HoldsContent(t, n, Contents(t, n))
  {
    hide WellFormed, Content, Assign, HoldsContent;
    if n == 0 {
      NoContentYet(t);
    } else {
      ContentsByKey(t, n - 1);
      ContentAdded(t, n - 1, Contents(t, n - 1));
    }
  }

  lemma EntryIsWellFormed(t: Tree, j: nat)
    requires t.TTable? && WellFormed(t) && j < |t.entries|
    ensures WellFormed(t.entries[j].val) && !t.entries[j].val.TNil? && t.entries[j].val < t
    ensures DistinctKeys(t.entries) && IsBorder(t.entries, t.border)
  {
    assert t.entries[j] < t;
  }

  /** The map holds the first i entries as the encoder sees them. */
  ghost predicate HoldsFields(t: Tree, i: nat, m: map<Key, Value>)
    requires t.TTable? && i <= |t.entries|
  {
    && m.Keys == KeysUpTo(t.entries, i)
    && forall j :: 0 <= j < i ==> m[t.entries[j].key] == Seen(t.entries[j].val)
  }

  lemma FieldAdded(t: Tree, i: nat, m: map<Key, Value>)
    requires t.TTable? && WellFormed(t) && i < |t.entries| && HoldsFields(t, i, m)
    ensures HoldsFields(t, i + 1, Assign(m, t.entries[i].key, Seen(t.entries[i].val)))
  {
    hide WellFormed, Seen, Assign, KeysUpTo;
    EntryIsWellFormed(t, i);
    NilOnly(t.entries[i].val);
    KeyAdded(t.entries, i, m, Seen(t.entries[i].val));
  }

  lemma {:induction false} SeenFieldsByKey(t: Tree, i: nat, res: map<Key, Value>)
    requires t.TTable? && WellFormed(t) && i <= |t.entries| && HoldsFields(t, i, res)
    ensures HoldsFields(t, |t.entries|, SeenFields(t, i, res))
    decreases |t.entries| - i
  {
    hide WellFormed, Seen, HoldsFields, Assign;
    if i < |t.entries| {
      FieldAdded(t, i, res);
      SeenFieldsByKey(t, i + 1, Assign(res, t.entries[i].key, Seen(t.entries[i].val)));
    }
  }

  /** Two maps on the keys of a table are equal when they agree on every entry. */
  lemma SameOnEntries(entries: seq<Entry>, a: map<Key, Value>, b: map<Key, Value>)
    requires a.Keys == b.Keys == KeysUpTo(entries, |entries|)
    ensures a == b <==> forall j :: 0 <= j < |entries| ==> a[entries[j].key] == b[entries[j].key]
  {
    if forall j :: 0 <= j < |entries| ==> a[entries[j].key] == b[entries[j].key] {
      forall key | key in a.Keys ensures a[key] == b[key] {
        var j :| 0 <= j < |entries| && entries[j].key == key;
      }
    }
  }

  /** The number of items that ipairs visits, given that there are k - 1 of them below k. */
  function ItemCount(entries: seq<Entry>, k: nat): (n: nat)
    requires k > 0
    ensures n >= k - 1 && forall q :: k <= q <= n ==> IsItem(entries, q)
    ensures !IsItem(entries, n + 1)
    decreases |entries| + 1 - k
  {
    if IsItem(entries, k) then ItemCount(entries, k + 1) else k - 1
  }

  /** The map holds the items 1..n as the encoder sees them. */
  ghost predicate HoldsItems(t: Tree, n: nat, m: map<Key, Value>)
    requires t.TTable?
  {
    && m.Keys == Indices(n)
    && forall q :: 1 <= q <= n ==> IsItem(t.entries, q) && m[Index(q)] == Seen(At(t.entries, Index(q)))
  }

  lemma ItemAdded(t: Tree, k: nat, m: map<Key, Value>)
    requires t.TTable? && WellFormed(t) && k > 0 && HoldsItems(t, k - 1, m) && IsItem(t.entries, k)
    ensures HoldsItems(t, k, Assign(m, Index(k), Seen(At(t.entries, Index(k)))))
  {
    hide WellFormed, Seen, At, Find;
    ItemIsWellFormed(t, k);
    NilOnly(At(t.entries, Index(k)));
  }

  lemma {:induction false} SeenItemsByKey(t: Tree, k: nat, res: map<Key, Value>)
    requires t.TTable? && WellFormed(t) && k > 0 && HoldsItems(t, k - 1, res)
    ensures HoldsItems(t, ItemCount(t.entries, k), SeenItems(t, k, res))
    decreases |t.entries| + 1 - k
  {
    hide WellFormed, Seen, HoldsItems, Assign;
    if IsItem(t.entries, k) {
      ItemAdded(t, k, res);
      SeenItemsByKey(t, k + 1, Assign(res, Index(k), Seen(At(t.entries, Index(k)))));
    }
  }

  lemma {:induction false} ItemsEncoded(t: Tree, k: nat)
    requires t.TTable? && k > 0 && EncodeItems(t, k).Text?
    ensures forall q :: k <= q <= ItemCount(t.entries, k) ==>
              IsItem(t.entries, q) && Encode(At(t.entries, Index(q))).Text?
    decreases |t.entries| + 1 - k
  {
    if IsItem(t.entries, k) && IsItem(t.entries, k + 1) {
      ItemsEncoded(t, k + 1);
    }
  }

  lemma {:induction false} FieldsEncoded(t: Tree, i: nat)
    requires t.TTable? && i <= |t.entries| && EncodeFields(t, i).Text?
    ensures forall j :: i <= j < |t.entries| ==> Encode(t.entries[j].val).Text?
    decreases |t.entries| - i
  {
    if i + 1 < |t.entries| {
      FieldsEncoded(t, i + 1);
    }
  }

  // The iff.

  lemma {:induction false} SeenIsContentIff(t: Tree)
    requires WellFormed(t) && Encode(t).Text?
    ensures Seen(t) == Content(t) <==> GapFree(t)
    decreases t
  {
    if t.TTable? {
      if ArrayLike(t.entries) {
        ArrayIff(t);
      } else {
        ObjectIff(t);
      }
    }
  }

  /** The entries of a table below position n of whose content everything is seen. */
  ghost predicate EntriesSeen(t: Tree)
    requires t.TTable?
  {
    forall j :: 0 <= j < |t.entries| ==> Seen(t.entries[j].val) == Content(t.entries[j].val)
  }

  lemma ObjectSeenIff(t: Tree)
    requires t.TTable? && !ArrayLike(t.entries) && WellFormed(t)
    ensures Seen(t) == Content(t) <==> EntriesSeen(t)
  {
    hide WellFormed;
    assert HoldsFields(t, 0, map[]);
    SeenFieldsByKey(t, 0, map[]);
    ContentsByKey(t, |t.entries|);
    SameOnEntries(t.entries, SeenFields(t, 0, map[]), Contents(t, |t.entries|));
  }

  lemma {:induction false} ObjectIff(t: Tree)
    requires t.TTable? && !ArrayLike(t.entries) && WellFormed(t) && Encode(t).Text?
    ensures Seen(t) == Content(t) <==> GapFree(t)
    decreases t, 0
  {
    hide WellFormed, Seen, Content;
    FieldsEncoded(t, 0);
    ObjectSeenIff(t);
    forall j | 0 <= j < |t.entries|
      ensures Seen(t.entries[j].val) == Content(t.entries[j].val) <==> GapFree(t.entries[j].val)
    {
      EntryIsWellFormed(t, j);
      SeenIsContentIff(t.entries[j].val);
    }
  }

  ghost predicate Contiguous(entries: seq<Entry>) {
    forall k :: 1 <= k <= |entries| ==> Has(entries, Index(k))
  }

  /** Without a gap, every entry is an item. */
  lemma ContiguousCount(entries: seq<Entry>)
    requires Contiguous(entries)
    ensures ItemCount(entries, 1) == |entries|
  {
    hide Find;
    var n, m := |entries|, ItemCount(entries, 1);
    assert m < n ==> Has(entries, Index(m + 1));
    assert m > n ==> IsItem(entries, m);
  }

  lemma ContiguousEntry(entries: seq<Entry>, j: nat)
    requires DistinctKeys(entries) && Contiguous(entries) && j < |entries|
    ensures var key := entries[j].key;
            key.Index? && 1 <= key.n <= |entries| && Has(entries, key) && At(entries, key) == entries[j].val
  {
    ItemsAreBounded(entries, |entries|);
    assert Find(entries, entries[j].key) == j;
  }

  lemma ContiguousKeys(entries: seq<Entry>)
    requires DistinctKeys(entries) && Contiguous(entries)
    ensures KeysUpTo(entries, |entries|) == Indices(|entries|)
  {
    hide Indices, KeysUpTo, Find;
    var n := |entries|;
    forall key | key in Indices(n) ensures key in KeysUpTo(entries, n) {
      assert Has(entries, Index(key.n));
    }
    forall key | key in KeysUpTo(entries, n) ensures key in Indices(n) {
      var j :| 0 <= j < n && entries[j].key == key;
      ContiguousEntry(entries, j);
    }
  }

  /** Without a gap, an array is seen whole when its items are. */
  lemma ContiguousSeenIff(t: Tree, seen: map<Key, Value>, content: map<Key, Value>)
    requires t.TTable? && DistinctKeys(t.entries) && Contiguous(t.entries)
    requires HoldsItems(t, |t.entries|, seen)
    requires HoldsContent(t, |t.entries|, content)
    ensures seen == content <==> EntriesSeen(t)
  {
    hide Seen, Content, Indices, KeysUpTo, Find, At;
    ContiguousKeys(t.entries);
    forall j | 0 <= j < |t.entries| ensures seen[t.entries[j].key] == Seen(t.entries[j].val) {
      ContiguousEntry(t.entries, j);
      assert t.entries[j].key == Index(t.entries[j].key.n);
    }
    SameOnEntries(t.entries, seen, content);
  }

  /** An array is seen whole when it has no gap and its items are seen whole. */
  lemma ArraySeenIff(t: Tree)
    requires t.TTable? && ArrayLike(t.entries) && WellFormed(t) && |t.entries| == t.border
    ensures Seen(t) == Content(t) <==> Contiguous(t.entries) && EntriesSeen(t)
  {
    hide WellFormed, Contents, SeenItems, ItemCount, KeysUpTo, Find, Contiguous, EntriesSeen, HoldsItems, HoldsContent;
    var seen, content := SeenItems(t, 1, map[]), Contents(t, |t.entries|);
    assert HoldsItems(t, 0, map[]) by {
      NoItemsYet(t);
    }
    SeenItemsByKey(t, 1, map[]);
    ContentsByKey(t, |t.entries|);
    TableIsWellFormed(t);
    if Contiguous(t.entries) {
      ContiguousCount(t.entries);
      ContiguousSeenIff(t, seen, content);
    } else if seen == content {
      WholeIsContiguous(t, seen);
      assert false;
    }
  }

  lemma NoItemsYet(t: Tree)
    requires t.TTable?
    ensures HoldsItems(t, 0, map[])
  {
  }

  lemma TableIsWellFormed(t: Tree)
    requires t.TTable? && WellFormed(t)
    ensures DistinctKeys(t.entries) && IsBorder(t.entries, t.border)
  {
  }

  /** The border is a key, so a view with all the keys reaches it. */
  lemma WholeIsContiguous(t: Tree, seen: map<Key, Value>)
    requires t.TTable? && IsBorder(t.entries, |t.entries|)
    requires HoldsItems(t, ItemCount(t.entries, 1), seen) && HoldsContent(t, |t.entries|, seen)
    ensures Contiguous(t.entries)
  {
    hide KeysUpTo, Indices, Seen, At;
    var n := |t.entries|;
    if n > 0 {
      var p := Find(t.entries, Index(n));
      assert t.entries[p].key in seen;
    }
  }

  lemma {:induction false} ArrayIff(t: Tree)
    requires t.TTable? && ArrayLike(t.entries) && WellFormed(t) && Encode(t).Text?
    ensures Seen(t) == Content(t) <==> GapFree(t)
    decreases t, 0
  {
    hide WellFormed, Seen, Content, Find, At;
    ArraySeenIff(t);
    ItemsEncoded(t, 1);
    if Contiguous(t.entries) {
      forall j | 0 <= j < |t.entries|
        ensures Seen(t.entries[j].val) == Content(t.entries[j].val) <==> GapFree(t.entries[j].val)
      {
        EntryIsWellFormed(t, j);
        ContiguousCount(t.entries);
        ContiguousEntry(t.entries, j);
        assert t.entries[j].key == Index(t.entries[j].key.n);
        SeenIsContentIff(t.entries[j].val);
      }
    }
  }

  /** json.decode(json.encode(v)) equals v exactly when no table read as an array has a gap. */
  lemma RoundTripIff(t: Tree)
    requires WellFormed(t) && Encode(t).Text?
    ensures Decode(Encode(t).s) == Result(Content(t)) <==> GapFree(t)
  {
    hide Encode, Seen, Content, Decode;
    DecodeOfEncode(t);
    SeenIsContentIff(t);
  }

  /** The check that an array is not sparse can pass on a sparse one: keys 1, 3, 5 with the border 3. */
  lemma SparseArrayAccepted()
    ensures var t := TTable([Entry(Index(1), TBoolean(true)), Entry(Index(3), TBoolean(true)),
                             Entry(Index(5), TBoolean(true))], 3);
            WellFormed(t) && Encode(t) == Text("[true]") && Decode("[true]") != Result(Content(t))
  {
    var t := TTable([Entry(Index(1), TBoolean(true)), Entry(Index(3), TBoolean(true)),
                     Entry(Index(5), TBoolean(true))], 3);
    assert Find(t.entries, Index(1)) == 0;
    assert Find(t.entries, Index(3)) == 1;
    assert !Has(t.entries, Index(4)) && !Has(t.entries, Index(2));
    assert WellFormed(t);
    assert EncodeItems(t, 1) == Text("true");
    assert Encode(t) == Text("[true]");
    assert !GapFree(t);
    RoundTripIff(t);
  }
}
