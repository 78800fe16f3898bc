/** The streaming context of md5sum.c: init, write, final, and the two builders on top. */
module Md5Context {
  import opened Bytes
  import opened Md5Reference
  import opened Md5Transform

  const TWO_TO_THE_32: nat := 0x1_0000_0000

  /** The whole blocks in n bytes, as a 32-bit counter counts them. */
  function BlockCount(n: nat): nat {
    n / 64 % TWO_TO_THE_32
  }

  lemma BlockCountNext(n: nat)
    requires n % 64 == 0
    ensures BlockCount(n + 64) == (BlockCount(n) + 1) % TWO_TO_THE_32
  {
    assert (n + 64) / 64 == n / 64 + 1;
  }

  // A left shift in 32 bits drops exactly the bits that the matching right shift keeps.
  lemma ShiftBySix(t: nat)
    requires t < TWO_TO_THE_32
    ensures t / 0x400_0000 < 64 && t * 64 % TWO_TO_THE_32 == t % 0x400_0000 * 64
  {
    var q, r := t / 0x400_0000, t % 0x400_0000;
    assert t * 64 == q * TWO_TO_THE_32 + r * 64;
  }

  lemma ShiftByThree(t: nat)
    requires t < TWO_TO_THE_32
    ensures t / 0x2000_0000 < 8 && t * 8 % TWO_TO_THE_32 == t % 0x2000_0000 * 8
  {
    var q, r := t / 0x2000_0000, t % 0x2000_0000;
    assert t * 8 == q * TWO_TO_THE_32 + r * 8;
  }

  /** The counters as a byte count of two 32-bit words. */
  method ByteLength(nblocks: nat, count: nat) returns (lsb: nat, msb: nat)
    requires nblocks < TWO_TO_THE_32 && count < 64
    ensures lsb < TWO_TO_THE_32 && msb < 64
    ensures msb * TWO_TO_THE_32 + lsb == 64 * nblocks + count
  {
    ShiftBySix(nblocks);
    lsb := nblocks * 64 % TWO_TO_THE_32;
    var carried: int := nblocks / 0x400_0000;
    var t := lsb;
    lsb := (lsb + count) % TWO_TO_THE_32;
    if lsb < t {
      carried := carried + 1;
    }
    msb := carried;
  }

  /** The two 32-bit words md5_final makes of the counters are the bit length. */
  method BitLength(nblocks: nat, count: nat) returns (lsb: nat, msb: nat)
    requires nblocks < TWO_TO_THE_32 && count < 64
    ensures lsb < TWO_TO_THE_32 && msb < TWO_TO_THE_32
    ensures msb * TWO_TO_THE_32 + lsb == 8 * (64 * nblocks + count)
  {
    hide BitOr;
    lsb, msb := ByteLength(nblocks, count);
    var t := lsb;
    ShiftByThree(t);
    OrIntoLowBits(msb, t / 0x2000_0000, 3);
    lsb := lsb * 8 % TWO_TO_THE_32;
    msb := msb * 8 % TWO_TO_THE_32;
    msb := BitOr(msb, t / 0x2000_0000);
  }

  /** The length the counters hold: it wraps at 2^38 bytes, because nblocks is 32 bits wide. */
  function CountedBits(m: seq<Byte>): nat {
    8 * (|m| % TWO_TO_THE_38)
  }

  lemma Modulo38(q: nat, r: nat)
    ensures (q * TWO_TO_THE_38 + r) % TWO_TO_THE_38 == r % TWO_TO_THE_38
  {
  }

  lemma Modulo64(q: nat, r: nat)
    requires r < TWO_TO_THE_64
    ensures (q * TWO_TO_THE_64 + r) % TWO_TO_THE_64 == r
  {
  }

  lemma CountedAgainstStandard(n: nat)
    ensures 8 * (n % TWO_TO_THE_38) == 8 * n % TWO_TO_THE_64 <==> n % TWO_TO_THE_61 < TWO_TO_THE_38
    ensures 8 * (n % TWO_TO_THE_38) < TWO_TO_THE_64
  {
    var q, low := n / TWO_TO_THE_61, n % TWO_TO_THE_61;
    assert 8 * n == q * TWO_TO_THE_64 + 8 * low;
    Modulo64(q, 8 * low);
    assert n == (q * 0x80_0000) * TWO_TO_THE_38 + low;
    Modulo38(q * 0x80_0000, low);
  }

  /** The padding agrees with RFC 1321 exactly when the length modulo 2^61 is below 2^38. */
  lemma PaddingIsStandardIff(m: seq<Byte>)
    ensures PaddedWith(m, CountedBits(m)) == PaddedWith(m, 8 * |m| % TWO_TO_THE_64)
            <==> |m| % TWO_TO_THE_61 < TWO_TO_THE_38
  {
    CountedAgainstStandard(|m|);
    PaddingDeterminesLength(m, CountedBits(m), 8 * |m| % TWO_TO_THE_64);
  }

  /** The shortest messages that are not padded as RFC 1321 says have 2^38 bytes. */
  lemma PaddingWraps(m: seq<Byte>)
    requires |m| == TWO_TO_THE_38
    ensures CountedBits(m) == 0 && PaddedWith(m, CountedBits(m)) != PaddedWith(m, 8 * |m| % TWO_TO_THE_64)
  {
    hide PaddedWith;
    PaddingIsStandardIff(m);
  }

  /** Such a message: zeros. */
  lemma LongMessageIsNotStandard()
    ensures var m := Zeros(TWO_TO_THE_38); PaddedWith(m, CountedBits(m)) != PaddedWith(m, 8 * |m| % TWO_TO_THE_64)
  {
    hide PaddedWith;
    PaddingWraps(Zeros(TWO_TO_THE_38));
  }

  lemma PaddingDeterminesLength(m: seq<Byte>, x: nat, y: nat)
    requires x < TWO_TO_THE_64 && y < TWO_TO_THE_64
    ensures PaddedWith(m, x) == PaddedWith(m, y) <==> x == y
  {
    var p, q := PaddedWith(m, x), PaddedWith(m, y);
    assert p[|p| - 8..] == LittleEndian(x, 8) && q[|q| - 8..] == LittleEndian(y, 8);
    assert Pow256(8) == TWO_TO_THE_64;
    LittleEndianRoundTrip(x, 8);
    LittleEndianRoundTrip(y, 8);
  }

  class Context {
    var A: Word
    var B: Word
    var C: Word
    var D: Word
    var nblocks: nat
    const buf: array<Byte>
    var count: nat
    /** The part of the message that has gone through transform. */
    ghost var Head: seq<Byte>

    ghost predicate Valid()
      reads this, buf
    {
      && buf.Length == 64 && count <= 64
      && |Head| % 64 == 0
      && nblocks == BlockCount(|Head|)
      && Registers() == Absorb(INITIAL, Head)
    }

    /** What has been written since init. */
    ghost function Message(): seq<Byte>
      reads this, buf
      requires Valid()
    {
      Head + buf[..count]
    }

    ghost function Registers(): Chain
      reads this
    {
      Chain(A, B, C, D)
    }

    /** md5_init on a context of its own. */
    constructor ()
      ensures Valid() && fresh(buf) && Message() == [] && count == 0
    {
      buf := new Byte[64];
      A, B, C, D := 0x67452301, 0xefcdab89, 0x98badcfe, 0x10325476;
      nblocks, count := 0, 0;
      Head := [];
    }

    method Transform(block: seq<Byte>)
      requires |block| == 64
      modifies `A, `B, `C, `D
      ensures Registers() == Compress(old(Registers()), block)
    {
      var sum := Transformed(Chain(A, B, C, D), block);
      A, B, C, D := sum.a, sum.b, sum.c, sum.d;
    }

    /** One byte joins the message and takes its place in the buffer. */
    method Put(b: Byte)
      requires Valid() && count < 64
      modifies `count, buf
      ensures Valid() && count == old(count) + 1
      ensures Message() == old(Message()) + [b]
    {
      hide Absorb, BlockCount;
      buf[count] := b;
      count := count + 1;
    }

    /** transform on a whole block of the message, and the counters that go with it. */
    method Block(block: seq<Byte>)
      requires Valid() && |block| == 64
      modifies `A, `B, `C, `D, `count, `nblocks, `Head
      ensures Valid() && count == 0
      ensures Head == old(Head) + block
    {
      hide Absorb, Compress;
      AbsorbBlock(INITIAL, Head, block);
      BlockCountNext(|Head|);
      Transform(block);
      Head := Head + block;
      count := 0;
      nblocks := (nblocks + 1) % TWO_TO_THE_32;
    }

    /** A full buffer goes through the transform; any other is left alone. */
    method Flush()
      requires Valid()
      modifies `A, `B, `C, `D, `count, `nblocks, `Head
      ensures Valid() && Message() == old(Message())
      ensures count == if old(count) == 64 then 0 else old(count)
    {
      hide Absorb, BlockCount;
      if count == 64 {
        Block(buf[..]);
      }
    }

    /** Fills the buffer from the front of inbuf, until either the buffer is full or inbuf is used up. */
    method Fill(inbuf: seq<Byte>) returns (rest: seq<Byte>)
      requires Valid()
      modifies `count, buf
      ensures Valid() && |rest| <= |inbuf| && (rest == [] || count == 64)
      ensures count == old(count) + (|inbuf| - |rest|)
      ensures Message() + rest == old(Message()) + inbuf
    {
      hide Absorb, BlockCount;
      rest := inbuf;
      while rest != [] && count < 64
        invariant Valid() && |rest| <= |inbuf|
        invariant count == old(count) + (|inbuf| - |rest|)
        invariant Message() + rest == old(Message()) + inbuf
        decreases |rest|
      {
        Put(rest[0]);
        rest := rest[1..];
      }
    }

    /** The whole blocks of inbuf go through the transform without a stop in the buffer. */
    method Blocks(inbuf: seq<Byte>) returns (rest: seq<Byte>)
      requires Valid() && count == 0
      modifies `A, `B, `C, `D, `count, `nblocks, `Head
      ensures Valid() && count == 0 && |rest| < 64
      ensures Head + rest == old(Head) + inbuf
    {
      hide Absorb, BlockCount;
      rest := inbuf;
      while |rest| >= 64
        invariant Valid() && count == 0
        invariant Head + rest == old(Head) + inbuf
        decreases |rest|
      {
        Block(rest[..64]);
        rest := rest[64..];
      }
    }

    /** md5_write: the bytes of inbuf join the message. */
    method Write(inbuf: seq<Byte>)
      requires Valid()
      modifies `A, `B, `C, `D, `count, `nblocks, `Head, buf
      ensures Valid() && Message() == old(Message()) + inbuf
      ensures count < 64
    {
      hide Absorb, BlockCount;
      Flush();
      var rest := inbuf;
      if count != 0 {
        rest := Fill(rest);
        Flush();
        if rest == [] {
          return;
        }
      }
      assert Head == Message();
      rest := Blocks(rest);
      assert Head == Message();
      rest := Fill(rest);
    }

    /** Once the buffer is not full, the fields are determined by the message alone. */
    lemma FieldsOfMessage()
      requires Valid() && count < 64
      ensures var m := Message();
              var tail := |m| - |m| % 64;
              && count == |m| % 64
              && nblocks == |m| / 64 % TWO_TO_THE_32
              && Registers() == Absorb(INITIAL, m[..tail])
              && buf[..count] == m[tail..]
              && 64 * nblocks + count == |m| % TWO_TO_THE_38
    {
      hide Absorb;
      var m := Message();
      assert m[..|Head|] == Head && m[|Head|..] == buf[..count];
      LengthFromCounters(|Head| / 64, count);
    }

    /** Padding bytes of zero up to the given fill. */
    method PadTo(limit: nat)
      requires Valid() && count <= limit <= 64
      modifies `count, buf
      ensures Valid() && count == limit
      ensures Message() == old(Message()) + Zeros(limit - old(count))
    {
      hide Absorb, BlockCount;
      while count < limit
        invariant Valid() && count <= limit && Message() == old(Message()) + Zeros(count - old(count))
      {
        Put(0);
      }
    }

    /** Zeros everywhere but in the last eight bytes, where the length goes. */
    method ClearForLength()
      requires buf.Length == 64
      modifies buf
      ensures buf[..56] == Zeros(56)
    {
      var i := 0;
      while i < 56
        invariant 0 <= i <= 56 && buf[..i] == Zeros(i)
      {
        buf[i] := 0;
        i := i + 1;
      }
    }

    /** No room for the length: the block is filled up and flushed, the next one is zeros. */
    method PadIntoNextBlock()
      requires Valid() && 56 < count <= 64
      modifies `A, `B, `C, `D, `count, `nblocks, `Head, buf
      ensures Valid()
      ensures Head + buf[..56] == old(Message()) + Zeros(64 - old(count) + 56)
    {
      hide Absorb, BlockCount;
      ghost var m, k := Message(), 64 - count;
      PadTo(64);
      Flush();
      assert Head == m + Zeros(k);
      ClearForLength();
      assert Zeros(k) + Zeros(56) == Zeros(k + 56);
      assert Head + buf[..56] == m + (Zeros(k) + Zeros(56));
    }

    /** The first part of md5_final: 0x80 and zeros up to the last eight bytes of a block. */
    method Pad()
      requires Valid() && count < 64
      modifies `A, `B, `C, `D, `count, `nblocks, `Head, buf
      ensures Valid()
      ensures Head + buf[..56] == old(Message()) + [0x80] + Zeros(ZeroCount(|old(Message())|))
    {
      hide Absorb, BlockCount, Zeros;
      ghost var m, c := Message(), count;
      assert |m| % 64 == c;
      if count < 56 {
        Put(0x80);
        PadTo(56);
        assert ZeroCount(|m|) == 55 - c;
      } else {
        Put(0x80);
        PadIntoNextBlock();
        assert ZeroCount(|m|) == 119 - c;
      }
    }

    /** A 32-bit word goes to buf[at..at + 4], low-order byte first. */
    method StoreWord(at: nat, n: nat)
      requires at + 4 <= buf.Length
      modifies buf
      ensures buf[..at] == old(buf[..at])
      ensures buf[at..at + 4] == LittleEndian(n, 4)
    {
      FourBytes(n);
      buf[at] := (n % 0x100) as Byte;
      buf[at + 1] := (n / 0x100 % 0x100) as Byte;
      buf[at + 2] := (n / 0x1_0000 % 0x100) as Byte;
      buf[at + 3] := (n / 0x100_0000 % 0x100) as Byte;
    }

    /** buf[56..64] gets the bit length, the low word first. */
    method StoreLength(lsb: nat, msb: nat)
      requires buf.Length == 64 && lsb < TWO_TO_THE_32 && msb < TWO_TO_THE_32
      modifies buf
      ensures buf[..56] == old(buf[..56])
      ensures buf[56..64] == LengthBytes(msb * TWO_TO_THE_32 + lsb)
    {
      hide LittleEndian;
      StoreWord(56, lsb);
      ghost var first := buf[..60];
      StoreWord(60, msb);
      assert buf[..56] == first[..56] && buf[56..60] == first[56..60];
      assert Pow256(4) == TWO_TO_THE_32;
      LittleEndianSplit(lsb, msb, 4, 4);
    }

    /** md5_final: buf[..16] is the digest of what was written. */
    method Final()
      requires Valid()
      modifies `A, `B, `C, `D, `count, `nblocks, `Head, buf
      ensures buf[..16] == DigestWith(old(Message()), CountedBits(old(Message())))
    {
      hide Absorb, BlockCount, Compress, ChainBytes, LengthBytes;
      Flush();
      ghost var m := Message();
      FieldsOfMessage();
      var lsb, msb := BitLength(nblocks, count);
      Pad();
      StoreLength(lsb, msb);
      assert buf[..] == buf[..56] + buf[56..64];
      assert Head + buf[..] == PaddedWith(m, CountedBits(m));
      AbsorbBlock(INITIAL, Head, buf[..]);
      Transform(buf[..]);
      Output();
    }

    /** The registers go to buf[..16], each low-order byte first. */
    method Output()
      requires buf.Length == 64
      modifies buf
      ensures buf[..16] == ChainBytes(Registers())
    {
      var out := ChainBytes(Chain(A, B, C, D));
      var i := 0;
      while i < 16
        invariant 0 <= i <= 16 && buf[..i] == out[..i]
      {
        buf[i] := out[i];
        i := i + 1;
      }
    }
  }

  lemma FourBytes(n: nat)
    ensures LittleEndian(n, 4) ==
            [(n % 0x100) as Byte, (n / 0x100 % 0x100) as Byte,
             (n / 0x1_0000 % 0x100) as Byte, (n / 0x100_0000 % 0x100) as Byte]
  {
    assert n / 0x100 / 0x100 == n / 0x1_0000 && n / 0x1_0000 / 0x100 == n / 0x100_0000;
    assert LittleEndian(n / 0x1_0000, 2) == [(n / 0x1_0000 % 0x100) as Byte, (n / 0x100_0000 % 0x100) as Byte];
  }

  lemma LengthFromCounters(blocks: nat, count: nat)
    requires count < 64
    ensures 64 * (blocks % TWO_TO_THE_32) + count == (64 * blocks + count) % TWO_TO_THE_38
  {
    var q, r := blocks / TWO_TO_THE_32, blocks % TWO_TO_THE_32;
    assert 64 * blocks + count == q * TWO_TO_THE_38 + (64 * r + count);
  }

  /** Below 2^38 bytes the counted length is the length, so the result is the digest of RFC 1321. */
  lemma CountedIsStandard(m: seq<Byte>)
    requires |m| < TWO_TO_THE_38
    ensures DigestWith(m, CountedBits(m)) == Digest(m)
  {
    hide DigestWith;
    assert CountedBits(m) == 8 * |m| % TWO_TO_THE_64;
  }

  const HEX_DIGITS := "0123456789abcdef"

  /** Two lower-case hexadecimal digits for each octet. */
  function Hex(s: seq<Byte>): (t: string)
    ensures |t| == 2 * |s|
  {
    if s == [] then "" else [HEX_DIGITS[s[0] / 16], HEX_DIGITS[s[0] % 16]] + Hex(s[1..])
  }

  lemma {:induction false} HexAppend(s: seq<Byte>, b: Byte)
    ensures Hex(s + [b]) == Hex(s) + [HEX_DIGITS[b / 16], HEX_DIGITS[b % 16]]
  {
    if s != [] {
      assert (s + [b])[1..] == s[1..] + [b];
      HexAppend(s[1..], b);
    }
  }

  /** The chunks one after the other. */
  function Spelled(chunks: seq<seq<Byte>>): seq<Byte> {
    if chunks == [] then [] else chunks[0] + Spelled(chunks[1..])
  }

  /** The sprintf loop that both builders end with. */
  method HexOfDigest(buf: array<Byte>) returns (dest: string)
    requires buf.Length >= 16
    ensures dest == Hex(buf[..16])
  {
    dest := "";
    var i := 0;
    while i < 16
      invariant 0 <= i <= 16 && dest == Hex(buf[..i])
    {
      HexAppend(buf[..i], buf[i]);
      assert buf[..i] + [buf[i]] == buf[..i + 1];
      dest := dest + [HEX_DIGITS[buf[i] / 16], HEX_DIGITS[buf[i] % 16]];
      i := i + 1;
    }
  }

  /** build_file_md5 on a file that fread hands out in the given chunks: the chunking does not matter. */
  method BuildFileMd5(chunks: seq<seq<Byte>>) returns (dest: string)
    ensures dest == Hex(DigestWith(Spelled(chunks), CountedBits(Spelled(chunks))))
  {
    hide DigestWith, Absorb, Hex, CountedBits;
    var ctx := new Context();
    var i := 0;
    while i < |chunks|
      invariant 0 <= i <= |chunks| && fresh(ctx) && fresh(ctx.buf)
      invariant ctx.Valid() && ctx.Message() + Spelled(chunks[i..]) == Spelled(chunks)
    {
      ctx.Write(chunks[i]);
      i := i + 1;
    }
    assert ctx.Message() == Spelled(chunks);
    ctx.Final();
    dest := HexOfDigest(ctx.buf);
  }

  /** build_buffer_md5 */
  method BuildBufferMd5(buffer: seq<Byte>) returns (dest: string)
    ensures dest == Hex(DigestWith(buffer, CountedBits(buffer)))
  {
    hide DigestWith, Absorb, Hex, CountedBits;
    var ctx := new Context();
    ctx.Write(buffer);
    assert ctx.Message() == buffer;
    ctx.Final();
    dest := HexOfDigest(ctx.buf);
  }
}
