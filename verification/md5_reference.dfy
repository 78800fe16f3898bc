/** The message digest of RFC 1321, sections 3.1 to 3.5, on a whole message at once. */
module Md5Reference {
  import opened Bytes

  type Word = bv32

  /** The four registers of section 3.3. */
  datatype Chain = Chain(a: Word, b: Word, c: Word, d: Word)

  const INITIAL := Chain(0x67452301, 0xefcdab89, 0x98badcfe, 0x10325476)

  // Section 3.4: the four auxiliary functions.
  function F(x: Word, y: Word, z: Word): Word { (x & y) | (!x & z) }
  function G(x: Word, y: Word, z: Word): Word { (x & z) | (y & !z) }
  function H(x: Word, y: Word, z: Word): Word { x ^ y ^ z }
  function I(x: Word, y: Word, z: Word): Word { y ^ (x | !z) }

  function Auxiliary(i: nat, x: Word, y: Word, z: Word): Word
    requires i < 64
  {
    if i < 16 then F(x, y, z) else if i < 32 then G(x, y, z) else if i < 48 then H(x, y, z) else I(x, y, z)
  }

  /** Which word of the block step i reads. */
  function WordIndex(i: nat): nat
    requires i < 64
    ensures WordIndex(i) < 16
  {
    if i < 16 then i else if i < 32 then (5 * i + 1) % 16 else if i < 48 then (3 * i + 5) % 16 else 7 * i % 16
  }

  /** By how many bits step i rotates. */
  function Shift(i: nat): nat
    requires i < 64
    ensures 0 < Shift(i) < 32
  {
    var column := i % 4;
    if i < 16 then (match column case 0 => 7 case 1 => 12 case 2 => 17 case _ => 22)
    else if i < 32 then (match column case 0 => 5 case 1 => 9 case 2 => 14 case _ => 20)
    else if i < 48 then (match column case 0 => 4 case 1 => 11 case 2 => 16 case _ => 23)
    else (match column case 0 => 6 case 1 => 10 case 2 => 15 case _ => 21)
  }

  // The table T of section 3.4, a row for each round: T(i) is the integer part of 4294967296 times abs(sin(i + 1)).
  function T1(k: nat): Word
  {
    match k
    case 0 => 0xd76aa478 case 1 => 0xe8c7b756 case 2 => 0x242070db case 3 => 0xc1bdceee
    case 4 => 0xf57c0faf case 5 => 0x4787c62a case 6 => 0xa8304613 case 7 => 0xfd469501
    case 8 => 0x698098d8 case 9 => 0x8b44f7af case 10 => 0xffff5bb1 case 11 => 0x895cd7be
    case 12 => 0x6b901122 case 13 => 0xfd987193 case 14 => 0xa679438e case _ => 0x49b40821
  }

  function T2(k: nat): Word
  {
    match k
    case 0 => 0xf61e2562 case 1 => 0xc040b340 case 2 => 0x265e5a51 case 3 => 0xe9b6c7aa
    case 4 => 0xd62f105d case 5 => 0x02441453 case 6 => 0xd8a1e681 case 7 => 0xe7d3fbc8
    case 8 => 0x21e1cde6 case 9 => 0xc33707d6 case 10 => 0xf4d50d87 case 11 => 0x455a14ed
    case 12 => 0xa9e3e905 case 13 => 0xfcefa3f8 case 14 => 0x676f02d9 case _ => 0x8d2a4c8a
  }

  function T3(k: nat): Word
  {
    match k
    case 0 => 0xfffa3942 case 1 => 0x8771f681 case 2 => 0x6d9d6122 case 3 => 0xfde5380c
    case 4 => 0xa4beea44 case 5 => 0x4bdecfa9 case 6 => 0xf6bb4b60 case 7 => 0xbebfbc70
    case 8 => 0x289b7ec6 case 9 => 0xeaa127fa case 10 => 0xd4ef3085 case 11 => 0x04881d05
    case 12 => 0xd9d4d039 case 13 => 0xe6db99e5 case 14 => 0x1fa27cf8 case _ => 0xc4ac5665
  }

  function T4(k: nat): Word
  {
    match k
    case 0 => 0xf4292244 case 1 => 0x432aff97 case 2 => 0xab9423a7 case 3 => 0xfc93a039
    case 4 => 0x655b59c3 case 5 => 0x8f0ccc92 case 6 => 0xffeff47d case 7 => 0x85845dd1
    case 8 => 0x6fa87e4f case 9 => 0xfe2ce6e0 case 10 => 0xa3014314 case 11 => 0x4e0811a1
    case 12 => 0xf7537e82 case 13 => 0xbd3af235 case 14 => 0x2ad7d2bb case _ => 0xeb86d391
  }

  function T(i: nat): Word
    requires i < 64
  {
    if i < 16 then T1(i) else if i < 32 then T2(i - 16) else if i < 48 then T3(i - 32) else T4(i - 48)
  }

  /** X <<< s */
  function RotateLeft(x: Word, s: nat): Word
    requires 0 < s < 32
  {
    (x << s) | (x >> (32 - s))
  }

  /** b + ((a + f + x + t) <<< s) */
  function Turned(a: Word, b: Word, f: Word, x: Word, t: Word, s: nat): Word
    requires 0 < s < 32
  {
    b + RotateLeft(a + f + x + t, s)
  }

  /** a = b + ((a + f(b, c, d) + X[k] + T[i]) <<< s) */
  function Mix(i: nat, a: Word, b: Word, c: Word, d: Word, x: Word): Word
    requires i < 64
  {
    Turned(a, b, Auxiliary(i, b, c, d), x, T(i), Shift(i))
  }

  /** Step i on the registers, which then move round by one place. */
  function Step(i: nat, r: Chain, words: seq<Word>): Chain
    requires i < 64 && |words| == 16
  {
    Chain(r.d, Mix(i, r.a, r.b, r.c, r.d, words[WordIndex(i)]), r.b, r.c)
  }

  /** The first n of the 64 steps. */
  function Steps(n: nat, r: Chain, words: seq<Word>): Chain
    requires n <= 64 && |words| == 16
  {
    if n == 0 then r else Step(n - 1, Steps(n - 1, r, words), words)
  }

  /** Section 3.4: the block's sixteen words, low-order byte first. */
  function WordAt(block: seq<Byte>, k: nat): Word
    requires |block| == 64 && k < 16
  {
    block[4 * k] as Word | (block[4 * k + 1] as Word << 8) | (block[4 * k + 2] as Word << 16)
    | (block[4 * k + 3] as Word << 24)
  }

  function Words(block: seq<Byte>): (words: seq<Word>)
    requires |block| == 64
    ensures |words| == 16
  {
    seq(16, k requires 0 <= k < 16 => WordAt(block, k))
  }

  function Plus(r: Chain, s: Chain): Chain {
    Chain(r.a + s.a, r.b + s.b, r.c + s.c, r.d + s.d)
  }

  /** Four rounds with a step for each word. */
  function Compress(r: Chain, block: seq<Byte>): Chain
    requires |block| == 64
  {
    Plus(r, Steps(4 * |Words(block)|, r, Words(block)))
  }

  /** All whole blocks of data, first to last. */
  function Absorb(r: Chain, data: seq<Byte>): Chain
    decreases |data|
  {
    if |data| < 64 then r else Absorb(Compress(r, data[..64]), data[64..])
  }

  /** Section 3.1: as many zeros as bring the length to 56 modulo 64. */
  function ZeroCount(n: nat): nat {
    (55 - n) % 64
  }

  function Zeros(n: nat): seq<Byte> {
    seq(n, _ => 0)
  }

  /** Section 3.2: a length in bits as eight bytes, low-order byte first. */
  function LengthBytes(bits: nat): (s: seq<Byte>)
    ensures |s| == 8
  {
    LittleEndian(bits, 8)
  }

  function PaddedWith(m: seq<Byte>, bits: nat): (p: seq<Byte>)
    ensures |p| % 64 == 0
  {
    m + [0x80] + Zeros(ZeroCount(|m|)) + LengthBytes(bits)
  }

  /** Section 3.5: a, b, c, d, each low-order byte first. */
  function WordBytes(w: Word): (s: seq<Byte>)
    ensures |s| == 4
  {
    [(w & 0xff) as Byte, ((w >> 8) & 0xff) as Byte, ((w >> 16) & 0xff) as Byte, ((w >> 24) & 0xff) as Byte]
  }

  function ChainBytes(r: Chain): (s: seq<Byte>)
    ensures |s| == 16
  {
    WordBytes(r.a) + WordBytes(r.b) + WordBytes(r.c) + WordBytes(r.d)
  }

  function DigestWith(m: seq<Byte>, bits: nat): seq<Byte> {
    ChainBytes(Absorb(INITIAL, PaddedWith(m, bits)))
  }

  const TWO_TO_THE_38: nat := 0x40_0000_0000
  const TWO_TO_THE_61: nat := 0x2000_0000_0000_0000
  const TWO_TO_THE_64: nat := 0x1_0000_0000_0000_0000

  /** The digest of RFC 1321: the length appended is the bit length modulo 2^64. */
  function Digest(m: seq<Byte>): seq<Byte> {
    DigestWith(m, 8 * |m| % TWO_TO_THE_64)
  }

  lemma {:induction false} AbsorbAppend(r: Chain, data: seq<Byte>, more: seq<Byte>)
    requires |data| % 64 == 0
    ensures Absorb(r, data + more) == Absorb(Absorb(r, data), more)
    decreases |data|
  {
    hide Compress;
    if data == [] {
      assert data + more == more;
    } else {
      assert (data + more)[..64] == data[..64];
      assert (data + more)[64..] == data[64..] + more;
      AbsorbAppend(Compress(r, data[..64]), data[64..], more);
    }
  }

  lemma AbsorbBlock(r: Chain, data: seq<Byte>, block: seq<Byte>)
    requires |data| % 64 == 0 && |block| == 64
    ensures Absorb(r, data + block) == Compress(Absorb(r, data), block)
  {
    hide Compress;
    AbsorbAppend(r, data, block);
    assert block[..64] == block && block[64..] == [];
  }
}
