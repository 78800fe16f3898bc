/** The variable-length integers of ByteArray: seven bits an octet, low first, bit 7 on the last one only. */
module ByteVarint {
  import opened Bytes
  import opened ByteChain

  const TWO_TO_THE_31: nat := 0x8000_0000
  const TWO_TO_THE_63: nat := 0x8000_0000_0000_0000

  function Varint(v: nat): (s: seq<Byte>)
    requires v > 0
    ensures |s| > 0
  {
    if v < 128 then [(v + 128) as Byte] else [(v % 128) as Byte] + Varint(v / 128)
  }

  /** The octets up to and with the first that has bit 7 set, if there is one. */
  function Terminated(s: seq<Byte>): (n: nat)
    ensures n <= |s|
    ensures n > 0 ==> s[n - 1] >= 128 && forall i :: 0 <= i < n - 1 ==> s[i] < 128
    ensures n == 0 ==> forall i :: 0 <= i < |s| ==> s[i] < 128
  {
    if s == [] then 0
    else if s[0] >= 128 then 1
    else
      var n := Terminated(s[1..]);
      if n == 0 then 0 else n + 1
  }

  /** The value of octets of which only the last has bit 7 set. */
  function Value(s: seq<Byte>): nat {
    if s == [] then 0 else (s[0] % 128) as nat + 128 * Value(s[1..])
  }

  /** One to five octets below 2^31, at most nine below 2^63; only the last has bit 7; no two values share a code. */
  lemma {:induction false} VarintShape(v: nat, k: nat)
    requires 0 < v < Pow128(k)
    ensures 1 <= |Varint(v)| <= k
    ensures forall i :: 0 <= i < |Varint(v)| ==> (Varint(v)[i] >= 128 <==> i == |Varint(v)| - 1)
    ensures Value(Varint(v)) == v
  {
    var s := Varint(v);
    if v < 128 {
      assert s[1..] == [];
    } else {
      VarintShape(v / 128, k - 1);
      assert s[1..] == Varint(v / 128);
      forall i | 0 <= i < |s| ensures s[i] >= 128 <==> i == |s| - 1 {
        assert i > 0 ==> s[i] == Varint(v / 128)[i - 1];
      }
    }
  }

  /** Octet i holds the seven bits of the value from bit 7 * i on. */
  lemma {:induction false} VarintDigit(v: nat, i: nat)
    requires v > 0 && i < |Varint(v)|
    ensures (Varint(v)[i] % 128) as nat == v / Pow128(i) % 128
  {
    if i > 0 {
      VarintDigit(v / 128, i - 1);
      DivideTwice(v, 128, Pow128(i - 1));
    }
  }

  function Pow128(k: nat): (p: nat)
    ensures p > 0
  {
    if k == 0 then 1 else 128 * Pow128(k - 1)
  }

  lemma Pow128IsPow2(k: nat)
    ensures Pow128(k) == Pow2(7 * k)
  {
    if k > 0 {
      Pow128IsPow2(k - 1);
      assert Pow2(7 * k) == 2 * Pow2(7 * k - 1) && Pow2(7 * k - 1) == 2 * Pow2(7 * k - 2);
      assert Pow2(7 * k - 2) == 2 * Pow2(7 * k - 3) && Pow2(7 * k - 3) == 2 * Pow2(7 * k - 4);
      assert Pow2(7 * k - 4) == 2 * Pow2(7 * k - 5) && Pow2(7 * k - 5) == 2 * Pow2(7 * k - 6);
      assert Pow2(7 * k - 6) == 2 * Pow2(7 * (k - 1));
    }
  }

  /** The first octets of a queue that starts with a code are exactly that code: it delimits itself. */
  lemma SelfDelimiting(v: nat, rest: seq<Byte>)
    requires v > 0
    ensures Terminated(Varint(v) + rest) == |Varint(v)|
    ensures Value((Varint(v) + rest)[..|Varint(v)|]) == v
  {
    VarintPower(v);
    VarintShape(v, v);
    var s, n := Varint(v) + rest, Terminated(Varint(v) + rest);
    assert s[|Varint(v)| - 1] >= 128;
    assert s[..|Varint(v)|] == Varint(v);
  }

  lemma VarintPower(v: nat)
    ensures v < Pow128(v) || v == 0
  {
  }

  lemma Scaled(v: nat, d: nat, p: nat)
    ensures 128 * (v + d * p) == 128 * v + d * (128 * p)
  {
  }

  lemma {:induction false} ValueAppend(s: seq<Byte>, b: Byte)
    ensures Value(s + [b]) == Value(s) + (b % 128) as nat * Pow128(|s|)
    ensures Value(s) < Pow128(|s|)
  {
    if s == [] {
      assert [b][1..] == [];
    } else {
      assert (s + [b])[1..] == s[1..] + [b];
      ValueAppend(s[1..], b);
      Scaled(Value(s[1..]), (b % 128) as nat, Pow128(|s| - 1));
    }
  }

  lemma VarintUnfolded(v: nat, room: nat)
    requires 0 < v < Pow128(room)
    ensures room > 0 && v / 128 < Pow128(room - 1)
    ensures Varint(v) == if v < 128 then [(v + 128) as Byte] else [(v % 128) as Byte] + Varint(v / 128)
  {
  }

  /** One more digit is written out. */
  lemma DigitMoved(code: seq<Byte>, done: seq<Byte>, rem: nat)
    requires rem > 0 && code == done + Varint(rem)
    ensures rem < 128 ==> code == done + [(rem % 128) as Byte + 128]
    ensures rem >= 128 ==> code == done + [(rem % 128) as Byte] + Varint(rem / 128)
  {
    hide Pow128;
  }

  lemma MarkIsAdded(b: Byte)
    requires b < 128
    ensures BitOr(128, b as nat) == 128 + b as nat
  {
    OrIntoLowBits(1, b as nat, 7);
    assert Pow2(7) == 128;
  }

  /** The digit loop of writeInt32 and writeInt64 on tmp[room], and the mark on the last digit. */
  method Digits(val: nat, room: nat) returns (tmp: array<Byte>, n: nat)
    requires 0 < val < Pow128(room)
    ensures fresh(tmp) && 0 < n <= tmp.Length == room && tmp[..n] == Varint(val)
  {
    hide Varint, Pow128, BitOr;
    tmp := new Byte[room](_ => 0);
    n := 0;
    var rem: nat := val;
    while rem != 0
      invariant 0 <= n <= room && rem < Pow128(room - n)
      invariant rem > 0 ==> Varint(val) == tmp[..n] + Varint(rem)
      invariant rem == 0 ==> n > 0 && tmp[n - 1] < 128
                             && Varint(val) == tmp[..n - 1] + [tmp[n - 1] + 128]
      decreases rem
    {
      VarintUnfolded(rem, room - n);
      DigitMoved(Varint(val), tmp[..n], rem);
      ghost var before := tmp[..n];
      tmp[n] := (rem % 128) as Byte;
      assert tmp[..n] == before && tmp[..n + 1] == before + [tmp[n]];
      n := n + 1;
      rem := rem / 128;
    }
    MarkIsAdded(tmp[n - 1]);
    tmp[n - 1] := BitOr(128, tmp[n - 1] as nat) as Byte;
  }

  lemma RoomEnough()
    ensures Pow128(5) >= TWO_TO_THE_31 && Pow128(10) >= TWO_TO_THE_63
  {
    assert Pow128(5) == 0x8_0000_0000;
    assert Pow128(10) == 128 * 128 * 128 * 128 * 128 * Pow128(5);
  }

  /** writeInt32 with room for 5 octets, writeInt64 with room for 10. */
  method WriteVarint(b: ByteArray, val: nat, room: nat)
    requires b.Valid() && 0 < val
    requires (room == 5 && val < TWO_TO_THE_31) || (room == 10 && val < TWO_TO_THE_63)
    modifies b.Repr
    ensures b.Valid() && fresh(b.Repr - old(b.Repr))
    ensures b.Contents() == old(b.Contents()) + Varint(val)
  {
    RoomEnough();
    var tmp, n := Digits(val, room);
    b.Write(tmp[..n]);
  }

  // Which values the writers write.

  /** What is left of an integer of either sign after k shifts by seven bits. */
  function Shifted(val: int, k: nat): int {
    if k == 0 then val else Shifted(val, k - 1) / 128
  }

  /** The digit loop ends after k turns. */
  predicate EndsAfter(val: int, k: nat) {
    Shifted(val, k) == 0 && forall j: nat :: j < k ==> Shifted(val, j) != 0
  }

  lemma {:induction false} ShiftedSign(val: int, k: nat)
    ensures val < 0 ==> Shifted(val, k) < 0
    ensures val >= 0 ==> Shifted(val, k) >= 0 && (Shifted(val, k) == 0 <==> val < Pow128(k))
    decreases k
  {
    if k > 0 {
      ShiftedSign(val, k - 1);
      ShiftedFirst(val, k - 1);
      ShiftedSign(val / 128, k - 1);
    }
  }

  lemma {:induction false} ShiftedFirst(val: int, k: nat)
    ensures Shifted(val, k + 1) == Shifted(val / 128, k)
  {
    if k > 0 {
      ShiftedFirst(val, k - 1);
    }
  }

  /** The loop ends inside tmp[room] with a digit to mark, exactly for these values. */
  lemma WriterFitsIff(val: int, room: nat)
    ensures (exists k: nat :: 0 < k <= room && EndsAfter(val, k)) <==> 0 < val < Pow128(room)
  {
    if 0 < val < Pow128(room) {
      ShiftedSign(val, room);
      assert Shifted(val, 0) != 0;
      var k: nat := 0;
      while Shifted(val, k) != 0
        invariant k <= room && forall j: nat :: j < k ==> Shifted(val, j) != 0
        decreases room - k
      {
        k := k + 1;
      }
      assert EndsAfter(val, k);
    }
    if k: nat :| 0 < k <= room && EndsAfter(val, k) {
      ShiftedSign(val, k);
      Pow128Grows(k, room);
      assert Shifted(val, 0) != 0;
    }
  }

  lemma {:induction false} Pow128Grows(k: nat, l: nat)
    requires k <= l
    ensures Pow128(k) <= Pow128(l)
  {
    if k < l {
      Pow128Grows(k, l - 1);
    }
  }

  /** For 0 there is no digit to mark, and for -1 the loop never ends. */
  lemma ZeroAndNegativeAreNotWritten()
    ensures EndsAfter(0, 0) && forall k: nat :: !EndsAfter(-1, k)
  {
    forall k: nat ensures !EndsAfter(-1, k) {
      ShiftedSign(-1, k);
    }
  }

  /** The value with seven more bits or-ed in above n groups of seven. */
  function OrShifted(val: nat, digit: nat, n: nat): nat {
    BitOr(digit * Pow2(7 * n), val)
  }

  /** One turn of the reader's loop: read leaves tmp alone when the queue is empty. */
  function Turn(queue: seq<Byte>, tmp: Byte): (Byte, seq<Byte>) {
    if queue == [] then (tmp, queue) else (queue[0], queue[1..])
  }

  /** tmp and the queue after k turns, from tmp 0. */
  function Turns(queue: seq<Byte>, k: nat): (Byte, seq<Byte>) {
    if k == 0 then (0, queue)
    else
      var (tmp, rest) := Turns(queue, k - 1);
      Turn(rest, tmp)
  }

  /** The read of one octet in a turn. */
  method ReadOctet(b: ByteArray, tmp: Byte) returns (tmp': Byte)
    requires b.Valid()
    modifies b
    ensures b.Valid() && b.Repr == old(b.Repr)
    ensures (tmp', b.Contents()) == Turn(old(b.Contents()), tmp)
  {
    var ok, s := b.Read(1);
    tmp' := if ok then s[0] else tmp;
  }

  lemma {:induction false} TurnsRead(queue: seq<Byte>, k: nat)
    ensures k <= |queue| ==> Turns(queue, k) == (if k == 0 then 0 else queue[k - 1], queue[k..])
    ensures k > |queue| ==> Turns(queue, k) == Turns(queue, |queue|)
  {
    if k > |queue| {
      TurnsRead(queue, |queue|);
      TurnsRead(queue, k - 1);
      assert queue[|queue|..] == [];
    } else if k > 0 {
      TurnsRead(queue, k - 1);
    }
  }

  /** The loop of the reader, which ends on an octet with bit 7, ends exactly when some queued octet has it. */
  lemma ReaderEndsIff(queue: seq<Byte>)
    ensures (exists k: nat :: Turns(queue, k).0 >= 128) <==> Terminated(queue) > 0
  {
    var n := Terminated(queue);
    if n > 0 {
      TurnsRead(queue, n);
    } else {
      forall k: nat ensures Turns(queue, k).0 < 128 {
        TurnsRead(queue, k);
        TurnsRead(queue, |queue|);
      }
    }
  }

  /** An empty queue has no end of a code: tmp stays 0 for ever. */
  lemma EmptyQueueIsReadForEver()
    ensures forall k: nat :: Turns([], k).0 < 128
  {
    forall k: nat ensures Turns([], k).0 < 128 {
      TurnsRead([], k);
    }
  }

  /** Every digit of a code, shifted to its place, is an int: fewer places than its width, and a value below 2^31. */
  predicate ShiftsFit(code: seq<Byte>) {
    forall j :: 0 <= j < |code| ==> 7 * j < 32 && (code[j] % 128) as nat * Pow128(j) < TWO_TO_THE_31
  }

  /** The shifts are in int even where the result is wider; they fit exactly for these codes. */
  lemma ShiftsFitIff(code: seq<Byte>)
    ensures ShiftsFit(code) <==> |code| <= 5 && Value(code) < TWO_TO_THE_31
  {
    hide Value;
    if |code| > 5 {
      assert ShiftsFit(code) ==> 7 * 5 < 32;
    } else {
      SmallPowers();
      forall j | 0 <= j < |code| && j < 4 ensures (code[j] % 128) as nat * Pow128(j) < TWO_TO_THE_31 {
        Product((code[j] % 128) as nat, Pow128(j));
      }
      ValueAppend(code, 0);
      if |code| == 5 {
        assert code == code[..4] + [code[4]];
        ValueAppend(code[..4], code[4]);
      }
    }
  }

  lemma SmallPowers()
    ensures Pow128(0) == 1 && Pow128(1) == 128 && Pow128(2) == 0x4000 && Pow128(3) == 0x20_0000
    ensures Pow128(4) == 0x1000_0000
  {
  }

  lemma Product(d: nat, p: nat)
    requires d < 128 && p <= 0x20_0000
    ensures d * p < TWO_TO_THE_31
  {
    assert d * p <= 127 * p;
  }

  /** readInt64 on what writeInt64 writes for 2^31: a shift leaves the int. */
  lemma WideValueIsNotRead()
    ensures !ShiftsFit(Varint(TWO_TO_THE_31))
  {
    ShiftsFitIff(Varint(TWO_TO_THE_31));
    VarintPower(TWO_TO_THE_31);
    VarintShape(TWO_TO_THE_31, TWO_TO_THE_31);
  }

  /** readInt32 and its three siblings; they shift in int, so the code must spell a value below 2^31. */
  method ReadVarint(b: ByteArray) returns (val: nat)
    requires b.Valid() && 0 < Terminated(b.Contents()) <= 5
    requires Value(b.Contents()[..Terminated(b.Contents())]) < TWO_TO_THE_31
    modifies b
    ensures b.Valid() && b.Repr == old(b.Repr)
    ensures var n := Terminated(old(b.Contents()));
            val == Value(old(b.Contents())[..n]) && b.Contents() == old(b.Contents())[n..]
  {
    hide Value, OrShifted, Terminated, Turns, Turn, ByteArray.Valid;
    ghost var q, end := b.Contents(), Terminated(b.Contents());
    val := 0;
    var tmp: Byte := 0;
    var n: nat := 0;
    NoTurnYet(q);
    while true
      invariant b.Valid() && b.Repr == old(b.Repr) && n < end <= |q|
      invariant (tmp, b.Contents()) == Turns(q, n) && val == Value(q[..n])
      decreases end - n
    {
      OneTurn(q, n);
      tmp := ReadOctet(b, tmp);
      OneChunk(q, n);
      if tmp >= 128 {
        tmp := tmp % 128;
        val := OrShifted(val, tmp as nat, n);
        assert n + 1 == end;
        return;
      }
      val := OrShifted(val, tmp as nat, n);
      n := n + 1;
    }
  }

  lemma NoTurnYet(queue: seq<Byte>)
    ensures Turns(queue, 0) == (0, queue) && Value(queue[..0]) == 0
  {
  }

  lemma OneTurn(queue: seq<Byte>, k: nat)
    requires k < |queue|
    ensures Turns(queue, k + 1) == Turn(Turns(queue, k).1, Turns(queue, k).0) == (queue[k], queue[k + 1..])
  {
    TurnsRead(queue, k);
    TurnsRead(queue, k + 1);
  }

  /** One more octet of the queue is or-ed in. */
  lemma OneChunk(queue: seq<Byte>, k: nat)
    requires k < |queue|
    ensures OrShifted(Value(queue[..k]), (queue[k] % 128) as nat, k) == Value(queue[..k + 1])
    ensures queue[k] < 128 ==> OrShifted(Value(queue[..k]), queue[k] as nat, k) == Value(queue[..k + 1])
  {
    hide Value, OrShifted;
    OrChunk(queue[..k], queue[k]);
    assert queue[..k] + [queue[k]] == queue[..k + 1];
  }

  /** One more octet or-ed in above those already read. */
  lemma OrChunk(s: seq<Byte>, b: Byte)
    ensures OrShifted(Value(s), (b % 128) as nat, |s|) == Value(s + [b])
    ensures b < 128 ==> OrShifted(Value(s), b as nat, |s|) == Value(s + [b])
  {
    hide Value, Pow128, Pow2, BitOr;
    ValueAppend(s, b);
    Pow128IsPow2(|s|);
    OrIntoLowBits((b % 128) as nat, Value(s), 7 * |s|);
    assert b < 128 ==> b % 128 == b;
  }

  // Lists of values.

  predicate InRange(vals: seq<nat>) {
    forall i :: 0 <= i < |vals| ==> 0 < vals[i] < TWO_TO_THE_31
  }

  function VarintAll(vals: seq<nat>): seq<Byte>
    requires InRange(vals)
  {
    if vals == [] then [] else Varint(vals[0]) + VarintAll(vals[1..])
  }

  method WriteAll(b: ByteArray, vals: seq<nat>)
    requires b.Valid() && InRange(vals)
    modifies b.Repr
    ensures b.Valid() && fresh(b.Repr - old(b.Repr))
    ensures b.Contents() == old(b.Contents()) + VarintAll(vals)
    decreases |vals|
  {
    hide Varint, ByteArray.Valid, ByteArray.Contents;
    if vals != [] {
      ConcatAssociative(b.Contents(), Varint(vals[0]), VarintAll(vals[1..]));
      WriteVarint(b, vals[0], 5);
      WriteAll(b, vals[1..]);
    }
  }

  /** As many reads as there were writes return the list and leave what is queued behind it. */
  method ReadAll(b: ByteArray, count: nat, ghost vals: seq<nat>, ghost rest: seq<Byte>) returns (got: seq<nat>)
    requires b.Valid() && InRange(vals) && count == |vals|
    requires b.Contents() == VarintAll(vals) + rest
    modifies b
    ensures b.Valid() && b.Repr == old(b.Repr)
    ensures got == vals && b.Contents() == rest
    decreases count
  {
    got := [];
    if count > 0 {
      ghost var behind := VarintAll(vals[1..]) + rest;
      assert b.Contents() == Varint(vals[0]) + behind;
      SelfDelimiting(vals[0], behind);
      VarintLength(vals[0]);
      var v := ReadVarint(b);
      var more := ReadAll(b, count - 1, vals[1..], rest);
      got := [v] + more;
    } else {
      assert VarintAll(vals) + rest == rest;
    }
  }

  /** On an empty queue a list that is written is read back, and nothing stays queued. */
  method WriteAndRead(b: ByteArray, vals: seq<nat>) returns (got: seq<nat>)
    requires b.Valid() && b.Contents() == [] && InRange(vals)
    modifies b.Repr
    ensures b.Valid() && fresh(b.Repr - old(b.Repr))
    ensures got == vals && b.Contents() == []
  {
    hide ByteArray.Valid, ByteArray.Contents;
    WriteAll(b, vals);
    assert b.Contents() == VarintAll(vals) + [];
    got := ReadAll(b, |vals|, vals, []);
  }

  lemma VarintLength(v: nat)
    requires 0 < v < TWO_TO_THE_31
    ensures 1 <= |Varint(v)| <= 5
  {
    assert Pow128(5) == 0x8_0000_0000;
    VarintShape(v, 5);
  }
}
