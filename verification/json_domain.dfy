/** Which values survive the trip through the text: encoding succeeds and decoding gives the value back. */
module JsonDomain {
  import opened JsonValues
  import opened JsonEncode
  import opened JsonDecode
  import opened JsonLossless

  /** Tables with an item 1 have exactly the keys 1..n, all others have string keys, here and everywhere below. */
  ghost predicate InDomain(t: Tree) {
    t.TTable? ==>
      && (if ArrayLike(t.entries) then Contiguous(t.entries)
          else forall i :: 0 <= i < |t.entries| ==> t.entries[i].key.Name?)
      && forall i :: 0 <= i < |t.entries| ==> InDomain(t.entries[i].val)
  }

  lemma {:induction false} DomainIsGapFree(t: Tree)
    requires InDomain(t)
    ensures GapFree(t)
  {
    if t.TTable? {
      forall i | 0 <= i < |t.entries| ensures GapFree(t.entries[i].val) {
        DomainIsGapFree(t.entries[i].val);
      }
    }
  }

  /** A border of keys 1..n is n. */
  lemma BorderOfContiguous(entries: seq<Entry>, border: nat)
    requires DistinctKeys(entries) && Contiguous(entries) && IsBorder(entries, border)
    ensures border == |entries|
  {
    hide Find;
    ItemsAreBounded(entries, |entries|);
    if border > 0 && Has(entries, Index(border)) {
      ContiguousEntry(entries, Find(entries, Index(border)));
    }
  }

  lemma {:induction false} ItemsEncode(t: Tree, k: nat)
    requires t.TTable? && k > 0
    requires forall q :: k <= q && IsItem(t.entries, q) ==> Encode(At(t.entries, Index(q))).Text?
    ensures EncodeItems(t, k).Text?
    decreases |t.entries| + 1 - k
  {
    hide Encode, Find, At;
    if IsItem(t.entries, k) && IsItem(t.entries, k + 1) {
      ItemsEncode(t, k + 1);
    }
  }

  lemma {:induction false} FieldsEncode(t: Tree, i: nat)
    requires t.TTable? && i <= |t.entries|
    requires forall j :: 0 <= j < |t.entries| ==> t.entries[j].key.Name? && Encode(t.entries[j].val).Text?
    ensures EncodeFields(t, i).Text?
    decreases |t.entries| - i
  {
    hide Encode, StringText;
    if i + 1 < |t.entries| {
      FieldsEncode(t, i + 1);
    }
  }

  lemma {:induction false} FieldsHaveNames(t: Tree, i: nat)
    requires t.TTable? && i <= |t.entries| && EncodeFields(t, i).Text?
    ensures forall j :: i <= j < |t.entries| ==> t.entries[j].key.Name?
    decreases |t.entries| - i
  {
    hide Encode, StringText;
    if i + 1 < |t.entries| {
      FieldsHaveNames(t, i + 1);
    }
  }

  /** A table encodes when its values do and its keys are in order. */
  lemma TableEncodes(t: Tree)
    requires t.TTable? && WellFormed(t) && InDomain(t)
    requires forall i :: 0 <= i < |t.entries| ==> Encode(t.entries[i].val).Text?
    ensures Encode(t).Text?
  {
    hide WellFormed, Find, At;
    TableIsWellFormed(t);
    if ArrayLike(t.entries) {
      BorderOfContiguous(t.entries, t.border);
      forall i | 0 <= i < |t.entries| ensures t.entries[i].key.Index? {
        ContiguousEntry(t.entries, i);
      }
      forall q | 1 <= q && IsItem(t.entries, q) ensures Encode(At(t.entries, Index(q))).Text? {
        ItemIsEntry(t.entries, Index(q));
      }
      ItemsEncode(t, 1);
      assert EncodeItems(t, 1).Text?;
    } else {
      FieldsEncode(t, 0);
    }
  }

  lemma ItemIsEntry(entries: seq<Entry>, key: Key)
    requires Has(entries, key)
    ensures exists i :: 0 <= i < |entries| && entries[i].val == At(entries, key)
  {
    assert entries[Find(entries, key)].val == At(entries, key);
  }

  lemma {:induction false} DomainEncodes(t: Tree)
    requires WellFormed(t) && InDomain(t)
    ensures Encode(t).Text?
  {
    hide Encode;
    if t.TTable? {
      forall i | 0 <= i < |t.entries| ensures Encode(t.entries[i].val).Text? {
        EntryIsWellFormed(t, i);
        DomainEncodes(t.entries[i].val);
      }
      TableEncodes(t);
    } else {
      ScalarEncodes(t);
    }
  }

  lemma ScalarEncodes(t: Tree)
    requires !t.TTable?
    ensures Encode(t).Text?
  {
  }

  /** The values of a table that encodes, when it is an array without a gap, encode as well; and the same for fields. */
  lemma ValuesEncode(t: Tree)
    requires t.TTable? && WellFormed(t) && Encode(t).Text? && (ArrayLike(t.entries) ==> Contiguous(t.entries))
    ensures forall i :: 0 <= i < |t.entries| ==> Encode(t.entries[i].val).Text?
    ensures !ArrayLike(t.entries) ==> forall i :: 0 <= i < |t.entries| ==> t.entries[i].key.Name?
  {
    hide WellFormed, Find, At;
    TableIsWellFormed(t);
    if ArrayLike(t.entries) {
      ItemsEncoded(t, 1);
      ContiguousCount(t.entries);
      forall i | 0 <= i < |t.entries| ensures Encode(t.entries[i].val).Text? {
        ContiguousEntry(t.entries, i);
        assert t.entries[i].key == Index(t.entries[i].key.n);
      }
    } else {
      FieldsEncoded(t, 0);
      FieldsHaveNames(t, 0);
    }
  }

  lemma {:induction false} EncodedGapFreeIsInDomain(t: Tree)
    requires WellFormed(t) && Encode(t).Text? && GapFree(t)
    ensures InDomain(t)
  {
    hide Encode;
    if t.TTable? {
      ValuesEncode(t);
      forall i | 0 <= i < |t.entries| ensures InDomain(t.entries[i].val) {
        EntryIsWellFormed(t, i);
        EncodedGapFreeIsInDomain(t.entries[i].val);
      }
    }
  }

  /** Whatever the order of enumeration: a value is encoded and decoded back exactly when it is in the domain. */
  lemma SurvivesIff(t: Tree)
    requires WellFormed(t)
    ensures Encode(t).Text? && Decode(Encode(t).s) == Result(Content(t)) <==> InDomain(t)
  {
    hide Encode, Content, Decode, WellFormed, InDomain, GapFree;
    if InDomain(t) {
      DomainEncodes(t);
      DomainIsGapFree(t);
    }
    if Encode(t).Text? {
      RoundTripIff(t);
      if GapFree(t) {
        EncodedGapFreeIsInDomain(t);
      }
    }
  }
}
