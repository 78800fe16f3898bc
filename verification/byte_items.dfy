/** The fixed-width, float and string writers and readers of ByteArray. */
module ByteItems {
  import opened Bytes
  import opened ByteChain

  // A fixed-width value in memory, on a host of either byte order.

  function Reversed(s: seq<Byte>): (r: seq<Byte>)
    ensures |r| == |s|
  {
    seq(|s|, i requires 0 <= i < |s| => s[|s| - 1 - i])
  }

  lemma ReversedTwice(s: seq<Byte>)
    ensures Reversed(Reversed(s)) == s
  {
  }

  /** The w octets that the cast to char* sees. */
  function InMemory(bigEndian: bool, n: nat, w: nat): (s: seq<Byte>)
    ensures |s| == w
  {
    if bigEndian then Reversed(LittleEndian(n, w)) else LittleEndian(n, w)
  }

  /** The value that those octets are. */
  function FromMemory(bigEndian: bool, s: seq<Byte>): nat {
    if bigEndian then FromLittleEndian(Reversed(s)) else FromLittleEndian(s)
  }

  /** bswap_16, bswap_32, bswap_64; one-byte values are never swapped. */
  function ByteSwap(n: nat, w: nat): nat {
    FromLittleEndian(Reversed(LittleEndian(n, w)))
  }

  function SwapOnBigEndian(bigEndian: bool, n: nat, w: nat): nat {
    if bigEndian && w > 1 then ByteSwap(n, w) else n
  }

  /** In the memory of a big-endian host octet i is the digit for 256 to the power w - 1 - i, elsewhere for i. */
  lemma MemoryDigit(n: nat, w: nat, i: nat)
    requires i < w
    ensures InMemory(true, n, w)[i] as nat == n / Pow256(w - 1 - i) % 256
    ensures InMemory(false, n, w)[i] as nat == n / Pow256(i) % 256
  {
    LittleEndianDigit(n, w, w - 1 - i);
    LittleEndianDigit(n, w, i);
  }

  /** A swap turns the octets round. */
  lemma SwappedDigit(n: nat, w: nat, i: nat)
    requires i < w
    ensures LittleEndian(ByteSwap(n, w), w)[i] == LittleEndian(n, w)[w - 1 - i]
  {
    FromLittleEndianRoundTrip(Reversed(LittleEndian(n, w)));
  }

  /** What is written does not depend on the byte order of the host: it is little-endian. */
  lemma WireIsLittleEndian(bigEndian: bool, n: nat, w: nat)
    requires w > 0
    ensures InMemory(bigEndian, SwapOnBigEndian(bigEndian, n, w), w) == LittleEndian(n, w)
  {
    var s := LittleEndian(n, w);
    if bigEndian && w > 1 {
      FromLittleEndianRoundTrip(Reversed(s));
      ReversedTwice(s);
    } else if bigEndian {
      assert Reversed(s) == s;
    }
  }

  /** A reader on any host recovers a value from its little-endian octets. */
  lemma WireIsReadBack(bigEndian: bool, n: nat, w: nat)
    requires w > 0 && n < Pow256(w)
    ensures SwapOnBigEndian(bigEndian, FromMemory(bigEndian, LittleEndian(n, w)), w) == n
  {
    var s := LittleEndian(n, w);
    LittleEndianRoundTrip(n, w);
    if bigEndian && w > 1 {
      FromLittleEndianRoundTrip(Reversed(s));
      ReversedTwice(s);
    } else if bigEndian {
      assert Reversed(s) == s;
    }
  }

  /** writeFUint8 to writeFUint64, and the signed ones on the same bits. */
  method WriteFixed(b: ByteArray, bigEndian: bool, n: nat, w: nat)
    requires b.Valid() && w in {1, 2, 4, 8} && n < Pow256(w)
    modifies b.Repr
    ensures b.Valid() && fresh(b.Repr - old(b.Repr))
    ensures b.Contents() == old(b.Contents()) + LittleEndian(n, w)
  {
    var val := SwapOnBigEndian(bigEndian, n, w);
    WireIsLittleEndian(bigEndian, n, w);
    b.Write(InMemory(bigEndian, val, w));
  }

  /** readFUint8 to readFUint64: when the queue is too short, val keeps what it held, swapped all the same. */
  method ReadFixed(b: ByteArray, bigEndian: bool, val: nat, w: nat) returns (n: nat)
    requires b.Valid() && w in {1, 2, 4, 8}
    modifies b
    ensures b.Valid() && b.Repr == old(b.Repr)
    ensures |old(b.Contents())| < w ==> n == SwapOnBigEndian(bigEndian, val, w) && b.Contents() == old(b.Contents())
    ensures |old(b.Contents())| >= w ==>
              n == FromLittleEndian(old(b.Contents())[..w]) && b.Contents() == old(b.Contents())[w..]
  {
    var ok, s := b.Read(w);
    n := if ok then FromMemory(bigEndian, s) else val;
    if ok {
      FromLittleEndianRoundTrip(s);
      WireIsReadBack(bigEndian, FromLittleEndian(s), w);
    }
    n := SwapOnBigEndian(bigEndian, n, w);
  }

  const TWO_TO_THE_32: nat := 0x1_0000_0000

  /** writeString: the length is cut to 32 bits, the text is not cut. */
  method WriteString(b: ByteArray, bigEndian: bool, str: seq<Byte>)
    requires b.Valid()
    modifies b.Repr
    ensures b.Valid() && fresh(b.Repr - old(b.Repr))
    ensures b.Contents() == old(b.Contents()) + EncodeText(str)
  {
    assert Pow256(4) == TWO_TO_THE_32;
    WriteFixed(b, bigEndian, |str| % TWO_TO_THE_32, 4);
    b.Write(str);
  }

  /** std::string::resize */
  function Resized(str: seq<Byte>, n: nat): (s: seq<Byte>)
    ensures |s| == n
  {
    if n <= |str| then str[..n] else str + seq(n - |str|, _ => 0)
  }

  /** readString: a length without that many bytes behind it leaves the resized string and eats the length. */
  method ReadString(b: ByteArray, bigEndian: bool, initial: seq<Byte>) returns (str: seq<Byte>)
    requires b.Valid()
    modifies b
    ensures b.Valid() && b.Repr == old(b.Repr)
    ensures (str, b.Contents()) == DecodeText(initial, old(b.Contents()))
    ensures |old(b.Contents())| < 4 ==> str == [] && b.Contents() == old(b.Contents())
    ensures |old(b.Contents())| >= 4 ==>
              var q := old(b.Contents());
              var n := q[0] as nat + 0x100 * q[1] as nat + 0x1_0000 * q[2] as nat + 0x100_0000 * q[3] as nat;
              && |str| == n
              && (n <= |q| - 4 ==> str == q[4..4 + n] && b.Contents() == q[4 + n..])
              && (n > |q| - 4 ==> b.Contents() == q[4..]
                                  && forall i :: 0 <= i < n ==> str[i] == if i < |initial| then initial[i] else 0)
  {
    TextCases(initial, b.Contents());
    var n := ReadFixed(b, bigEndian, 0, 4);
    assert |old(b.Contents())| < 4 ==> n == 0 by {
      ZeroSwapped(4);
    }
    str := Resized(initial, n);
    var ok, s := b.Read(n);
    if ok {
      str := s;
    }
  }

  /** A text decoded, by the length in front of it. */
  lemma TextCases(initial: seq<Byte>, q: seq<Byte>)
    ensures |q| < 4 ==> DecodeText(initial, q) == ([], q)
    ensures |q| >= 4 ==>
              var n := q[0] as nat + 0x100 * q[1] as nat + 0x1_0000 * q[2] as nat + 0x100_0000 * q[3] as nat;
              var (str, rest) := DecodeText(initial, q);
              && |str| == n
              && (n <= |q| - 4 ==> str == q[4..4 + n] && rest == q[4 + n..])
              && (n > |q| - 4 ==> rest == q[4..]
                                  && forall i :: 0 <= i < n ==> str[i] == if i < |initial| then initial[i] else 0)
  {
    if |q| >= 4 {
      FourOctets(q[..4]);
    }
  }

  lemma FourOctets(s: seq<Byte>)
    requires |s| == 4
    ensures FromLittleEndian(s) == s[0] as nat + 0x100 * s[1] as nat + 0x1_0000 * s[2] as nat + 0x100_0000 * s[3] as nat
  {
    assert s[1..][1..] == s[2..] && s[2..][1..] == s[3..] && s[3..][1..] == [];
    assert FromLittleEndian(s[3..]) == s[3] as nat;
    assert FromLittleEndian(s[2..]) == s[2] as nat + 0x100 * FromLittleEndian(s[3..]);
    assert FromLittleEndian(s[1..]) == s[1] as nat + 0x100 * FromLittleEndian(s[2..]);
  }

  lemma {:induction false} ZeroBytes(w: nat)
    ensures LittleEndian(0, w) == seq(w, _ => 0)
    ensures FromLittleEndian(seq(w, _ => 0)) == 0
  {
    if w > 0 {
      ZeroBytes(w - 1);
      assert seq<Byte>(w, _ => 0)[1..] == seq(w - 1, _ => 0);
    }
  }

  lemma ZeroSwapped(w: nat)
    ensures ByteSwap(0, w) == 0
  {
    ZeroBytes(w);
    assert Reversed(seq(w, _ => 0)) == seq(w, _ => 0);
  }

  function EncodeText(str: seq<Byte>): seq<Byte> {
    LittleEndian(|str| % TWO_TO_THE_32, 4) + str
  }

  function DecodeText(initial: seq<Byte>, queue: seq<Byte>): (seq<Byte>, seq<Byte>) {
    if |queue| < 4 then (Resized(initial, 0), queue)
    else
      var n := FromLittleEndian(queue[..4]);
      if n <= |queue| - 4 then (queue[4..][..n], queue[4..][n..]) else (Resized(initial, n), queue[4..])
  }

  /** A string comes back exactly when its length fits the 32-bit length field. */
  lemma TextRoundTripIff(initial: seq<Byte>, str: seq<Byte>, rest: seq<Byte>)
    ensures DecodeText(initial, EncodeText(str) + rest) == (str, rest) <==> |str| < TWO_TO_THE_32
  {
    var n := |str| % TWO_TO_THE_32;
    var queue := EncodeText(str) + rest;
    assert Pow256(4) == TWO_TO_THE_32;
    LittleEndianRoundTrip(n, 4);
    assert queue[..4] == LittleEndian(n, 4) && queue[4..] == str + rest;
    if |str| < TWO_TO_THE_32 {
      assert (str + rest)[..|str|] == str && (str + rest)[|str|..] == rest;
    } else {
      assert |(str + rest)[..n]| == n < |str|;
    }
  }

  /** A string of 2^32 bytes, zeros say, goes out with the length 0, and an empty one is read. */
  lemma LongTextIsReadEmpty(initial: seq<Byte>)
    ensures var str := seq<Byte>(TWO_TO_THE_32, _ => 0); DecodeText(initial, EncodeText(str)) == ([], str)
  {
    var str := seq<Byte>(TWO_TO_THE_32, _ => 0);
    var queue := EncodeText(str);
    assert Pow256(4) == TWO_TO_THE_32;
    LittleEndianRoundTrip(0, 4);
    assert queue[..4] == LittleEndian(0, 4) && queue[4..] == str;
  }

  // Typed items, one after the other.

  /** The integer writers by width in octets and sign; floats and doubles by their bit patterns; strings. */
  datatype Item =
    | Unsigned(width: nat, bits: nat)
    | Signed(width: nat, value: int)
    | FloatBits(bits: nat)
    | DoubleBits(bits: nat)
    | Text(str: seq<Byte>)
  {
    /** The item is a value of its C++ type, and a string is under 2^32 bytes. */
    predicate Representable() {
      match this
      case Unsigned(w, n) => w in {1, 2, 4, 8} && n < Pow256(w)
      case Signed(w, v) => w in {1, 2, 4, 8} && 0 <= 2 * v + Pow256(w) && 2 * v < Pow256(w)
      case FloatBits(n) => n < Pow256(4)
      case DoubleBits(n) => n < Pow256(8)
      case Text(s) => |s| < TWO_TO_THE_32
    }

    function Kind(): (k: Kind)
      ensures Representable() ==> k.Known()
    {
      match this
      case Unsigned(w, _) => UnsignedKind(w)
      case Signed(w, _) => SignedKind(w)
      case FloatBits(_) => FloatKind
      case DoubleBits(_) => DoubleKind
      case Text(_) => TextKind
    }

    function Encoded(): seq<Byte>
      requires Representable()
    {
      match this
      case Unsigned(w, n) => LittleEndian(n, w)
      case Signed(w, v) => LittleEndian(TwosComplement(v, w), w)
      case FloatBits(n) => LittleEndian(n, 4)
      case DoubleBits(n) => LittleEndian(n, 8)
      case Text(s) => EncodeText(s)
    }
  }

  datatype Kind = UnsignedKind(width: nat) | SignedKind(width: nat) | FloatKind | DoubleKind | TextKind
  {
    predicate Known() {
      (UnsignedKind? || SignedKind?) ==> width in {1, 2, 4, 8}
    }
  }

  /** The values of int8_t, int16_t, int32_t and int64_t, and of their unsigned counterparts. */
  lemma RangesOfTypes(v: int, n: nat)
    ensures Signed(1, v).Representable() <==> -0x80 <= v < 0x80
    ensures Signed(2, v).Representable() <==> -0x8000 <= v < 0x8000
    ensures Signed(4, v).Representable() <==> -0x8000_0000 <= v < 0x8000_0000
    ensures Signed(8, v).Representable() <==> -0x8000_0000_0000_0000 <= v < 0x8000_0000_0000_0000
    ensures Unsigned(1, n).Representable() <==> n < 0x100
    ensures Unsigned(2, n).Representable() <==> n < 0x1_0000
    ensures Unsigned(4, n).Representable() <==> n < 0x1_0000_0000
    ensures Unsigned(8, n).Representable() <==> n < 0x1_0000_0000_0000_0000
  {
    assert Pow256(4) == 0x1_0000_0000;
  }

  function TwosComplement(v: int, w: nat): nat
    requires 0 <= v + Pow256(w)
  {
    if v < 0 then v + Pow256(w) else v
  }

  function FromTwosComplement(n: nat, w: nat): int {
    if 2 * n < Pow256(w) then n else n - Pow256(w)
  }

  /** The number written for v is v modulo 256 to the power w, and only v in the signed range is read for it. */
  lemma TwosComplementIff(v: int, n: nat, w: nat)
    requires w > 0 && n < Pow256(w) && 0 <= 2 * v + Pow256(w) && 2 * v < Pow256(w)
    ensures TwosComplement(v, w) == v % Pow256(w)
    ensures FromTwosComplement(n, w) == v <==> n == v % Pow256(w)
  {
    hide Pow256;
    var p := Pow256(w);
    SmallModulo(v, p);
    if FromTwosComplement(n, w) == v {
      assert n == if v < 0 then v + p else v;
    }
  }

  lemma SmallModulo(v: int, p: int)
    requires p > 0 && -p <= v < p
    ensures v % p == if v < 0 then v + p else v
  {
    if v < 0 {
      assert v == p * -1 + (v + p);
    }
  }

  /** A number read from the queue into a zeroed variable. */
  function DecodeFixed(queue: seq<Byte>, w: nat): (nat, seq<Byte>) {
    if |queue| < w then (0, queue) else (FromLittleEndian(queue[..w]), queue[w..])
  }

  /** One item read into a zeroed variable, and what it leaves of the queue. */
  function Decode(kind: Kind, queue: seq<Byte>): (Item, seq<Byte>)
    requires kind.Known()
  {
    match kind
    case UnsignedKind(w) => var (n, rest) := DecodeFixed(queue, w); (Unsigned(w, n), rest)
    case SignedKind(w) => var (n, rest) := DecodeFixed(queue, w); (Signed(w, FromTwosComplement(n, w)), rest)
    case FloatKind => var (n, rest) := DecodeFixed(queue, 4); (FloatBits(n), rest)
    case DoubleKind => var (n, rest) := DecodeFixed(queue, 8); (DoubleBits(n), rest)
    case TextKind => var (s, rest) := DecodeText([], queue); (Text(s), rest)
  }

  function EncodedAll(items: seq<Item>): seq<Byte>
    requires forall x <- items :: x.Representable()
  {
    if items == [] then [] else items[0].Encoded() + EncodedAll(items[1..])
  }

  function DecodeAll(kinds: seq<Kind>, queue: seq<Byte>): (seq<Item>, seq<Byte>)
    requires forall k <- kinds :: k.Known()
  {
    if kinds == [] then ([], queue)
    else
      var (x, rest) := Decode(kinds[0], queue);
      var (xs, end) := DecodeAll(kinds[1..], rest);
      ([x] + xs, end)
  }

  function Kinds(items: seq<Item>): (kinds: seq<Kind>)
    requires forall x <- items :: x.Representable()
    ensures forall k <- kinds :: k.Known()
  {
    seq(|items|, i requires 0 <= i < |items| => items[i].Kind())
  }

  lemma FixedRoundTrip(n: nat, w: nat, rest: seq<Byte>)
    requires n < Pow256(w)
    ensures DecodeFixed(LittleEndian(n, w) + rest, w) == (n, rest)
  {
    LittleEndianRoundTrip(n, w);
    assert (LittleEndian(n, w) + rest)[..w] == LittleEndian(n, w);
  }

  lemma ItemRoundTrip(x: Item, rest: seq<Byte>)
    requires x.Representable()
    ensures Decode(x.Kind(), x.Encoded() + rest) == (x, rest)
  {
    match x
    case Unsigned(w, n) => FixedRoundTrip(n, w, rest);
    case Signed(w, v) => FixedRoundTrip(TwosComplement(v, w), w, rest);
    case FloatBits(n) => FixedRoundTrip(n, 4, rest);
    case DoubleBits(n) => FixedRoundTrip(n, 8, rest);
    case Text(s) => TextRoundTripIff([], s, rest);
  }

  /** Reading with the same types returns the items and leaves what is queued behind them. */
  lemma {:induction false} ItemsRoundTrip(items: seq<Item>, rest: seq<Byte>)
    requires forall x <- items :: x.Representable()
    ensures DecodeAll(Kinds(items), EncodedAll(items) + rest) == (items, rest)
  {
    hide Decode, Item.Encoded, Item.Kind;
    if items == [] {
      assert EncodedAll(items) + rest == rest;
    } else {
      var x, xs := items[0], items[1..];
      var behind := EncodedAll(xs) + rest;
      assert EncodedAll(items) + rest == x.Encoded() + behind;
      assert Kinds(items)[0] == x.Kind() && Kinds(items)[1..] == Kinds(xs);
      ItemRoundTrip(x, behind);
      ItemsRoundTrip(xs, rest);
      assert [x] + xs == items;
    }
  }

  /** The writer of one item. */
  method WriteItem(b: ByteArray, bigEndian: bool, x: Item)
    requires b.Valid() && x.Representable()
    modifies b.Repr
    ensures b.Valid() && fresh(b.Repr - old(b.Repr))
    ensures b.Contents() == old(b.Contents()) + x.Encoded()
  {
    match x
    case Unsigned(w, n) => WriteFixed(b, bigEndian, n, w);
    case Signed(w, v) => WriteFixed(b, bigEndian, TwosComplement(v, w), w);
    case FloatBits(n) => WriteFixed(b, bigEndian, n, 4);
    case DoubleBits(n) => WriteFixed(b, bigEndian, n, 8);
    case Text(s) => WriteString(b, bigEndian, s);
  }

  /** The reader of one item, into a zeroed variable or an empty string. */
  method ReadItem(b: ByteArray, bigEndian: bool, kind: Kind) returns (x: Item)
    requires b.Valid() && kind.Known()
    modifies b
    ensures b.Valid() && b.Repr == old(b.Repr)
    ensures (x, b.Contents()) == Decode(kind, old(b.Contents()))
  {
    if kind == TextKind {
      var s := ReadString(b, bigEndian, []);
      x := Text(s);
    } else {
      var w := match kind case UnsignedKind(w) => w case SignedKind(w) => w case FloatKind => 4 case _ => 8;
      ZeroSwapped(w);
      var n := ReadFixed(b, bigEndian, 0, w);
      x := match kind
        case UnsignedKind(_) => Unsigned(w, n)
        case SignedKind(_) => Signed(w, FromTwosComplement(n, w))
        case FloatKind => FloatBits(n)
        case _ => DoubleBits(n);
    }
  }

  method WriteItems(b: ByteArray, bigEndian: bool, items: seq<Item>)
    requires b.Valid() && forall x <- items :: x.Representable()
    modifies b.Repr
    ensures b.Valid() && fresh(b.Repr - old(b.Repr))
    ensures b.Contents() == old(b.Contents()) + EncodedAll(items)
    decreases |items|
  {
    hide Item.Encoded, ByteArray.Valid, ByteArray.Contents;
    if items != [] {
      ConcatAssociative(b.Contents(), items[0].Encoded(), EncodedAll(items[1..]));
      WriteItem(b, bigEndian, items[0]);
      WriteItems(b, bigEndian, items[1..]);
    }
  }

  method ReadItems(b: ByteArray, bigEndian: bool, kinds: seq<Kind>) returns (got: seq<Item>)
    requires b.Valid() && forall k <- kinds :: k.Known()
    modifies b
    ensures b.Valid() && b.Repr == old(b.Repr)
    ensures (got, b.Contents()) == DecodeAll(kinds, old(b.Contents()))
    decreases |kinds|
  {
    hide Decode;
    if kinds == [] {
      return [];
    }
    var x := ReadItem(b, bigEndian, kinds[0]);
    var xs := ReadItems(b, bigEndian, kinds[1..]);
    got := [x] + xs;
  }

  /** A whole exchange: items written in order come back in order, whatever is queued behind them. */
  method Exchange(b: ByteArray, bigEndian: bool, items: seq<Item>, behind: seq<Byte>) returns (got: seq<Item>)
    requires b.Valid() && b.Contents() == [] && forall x <- items :: x.Representable()
    modifies b.Repr
    ensures b.Valid() && got == items && b.Contents() == behind
  {
    hide EncodedAll, DecodeAll, Kinds;
    WriteItems(b, bigEndian, items);
    b.Write(behind);
    assert b.Contents() == EncodedAll(items) + behind;
    ItemsRoundTrip(items, behind);
    got := ReadItems(b, bigEndian, Kinds(items));
  }
}
