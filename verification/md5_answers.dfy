/** The digest of the empty message, as section A.5 of RFC 1321 gives it, and the words of a block as numbers. */
module Md5Answers {
  import opened Bytes
  import opened Md5Reference
  import opened Md5Context

  // A block's words.

  lemma OrOfBytes(a: bv32, b: bv32, c: bv32, d: bv32)
    requires a < 256 && b < 256 && c < 256 && d < 256
    ensures var w := a | (b << 8) | (c << 16) | (d << 24);
            && w & 0xff == a && (w >> 8) & 0xff == b && (w >> 16) & 0xff == c && (w >> 24) & 0xff == d
  {
  }

  /** The first byte of four is the low-order one. */
  lemma WordOfBytes(block: seq<Byte>, k: nat)
    requires |block| == 64 && k < 16
    ensures var w := Words(block)[k];
            && w & 0xff == block[4 * k] as Word && (w >> 8) & 0xff == block[4 * k + 1] as Word
            && (w >> 16) & 0xff == block[4 * k + 2] as Word && (w >> 24) & 0xff == block[4 * k + 3] as Word
  {
    OrOfBytes(block[4 * k] as Word, block[4 * k + 1] as Word, block[4 * k + 2] as Word, block[4 * k + 3] as Word);
  }

  // The four rounds on the one block of the empty message, four steps at a time.

  lemma FourSteps(i: nat, r: Chain, words: seq<Word>, s: Chain)
    requires i < 61 && |words| == 16
    requires Mix(i, r.a, r.b, r.c, r.d, words[WordIndex(i)]) == s.a
    requires Mix(i + 1, r.d, s.a, r.b, r.c, words[WordIndex(i + 1)]) == s.d
    requires Mix(i + 2, r.c, s.d, s.a, r.b, words[WordIndex(i + 2)]) == s.c
    requires Mix(i + 3, r.b, s.c, s.d, s.a, words[WordIndex(i + 3)]) == s.b
    requires Steps(i, INITIAL, words) == r
    ensures Steps(i + 4, INITIAL, words) == s
  {
    hide Mix, WordIndex;
    assert Steps(i + 1, INITIAL, words) == Chain(r.d, s.a, r.b, r.c);
    assert Steps(i + 2, INITIAL, words) == Chain(r.c, s.d, s.a, r.b);
    assert Steps(i + 3, INITIAL, words) == Chain(r.b, s.c, s.d, s.a);
  }

  lemma TurnsFrom0()
    ensures Turned(0x67452301, 0xefcdab89, 0x98badcfe, 0x80, 0xd76aa478, 7) == 0xa5202774
    ensures Turned(0x10325476, 0xa5202774, 0xbd9afb8a, 0, 0xe8c7b756, 12) == 0xf59592dd
    ensures Turned(0x98badcfe, 0xf59592dd, 0xaf482b54, 0, 0x242070db, 17) == 0xe7f06b23
    ensures Turned(0xefcdab89, 0xe7f06b23, 0xe5900655, 0, 0xc1bdceee, 22) == 0x1b163203
    ensures Turned(0xa5202774, 0x1b163203, 0xe791a2df, 0, 0xf57c0faf, 7) == 0x32033344
    ensures Turned(0xf59592dd, 0x32033344, 0xd7f27a23, 0, 0x4787c62a, 12) == 0x2f35d494
    ensures Turned(0xe7f06b23, 0x2f35d494, 0x32033207, 0, 0xa8304613, 17) == 0xf5b158db
    ensures Turned(0x1b163203, 0xf5b158db, 0x27337394, 0, 0xfd469501, 22) == 0x9bc13ce9
  {
  }

  lemma StepsFrom0(words: seq<Word>)
    requires IsEmptyBlock(words) && Steps(0, INITIAL, words) == Chain(0x67452301, 0xefcdab89, 0x98badcfe, 0x10325476)
    ensures Steps(8, INITIAL, words) == Chain(0x32033344, 0x9bc13ce9, 0xf5b158db, 0x2f35d494)
  {
    hide Turned, Steps;
    TurnsFrom0();
    FourSteps(0, Chain(0x67452301, 0xefcdab89, 0x98badcfe, 0x10325476), words,
              Chain(0xa5202774, 0x1b163203, 0xe7f06b23, 0xf59592dd));
    FourSteps(4, Chain(0xa5202774, 0x1b163203, 0xe7f06b23, 0xf59592dd), words,
              Chain(0x32033344, 0x9bc13ce9, 0xf5b158db, 0x2f35d494));
  }

  lemma TurnsFrom8()
    ensures Turned(0x32033344, 0x9bc13ce9, 0xb5b5d8dd, 0, 0x698098d8, 7) == 0x3893b991
    ensures Turned(0x2f35d494, 0x3893b991, 0xdda178cb, 0, 0x8b44f7af, 12) == 0xfce4a312
    ensures Turned(0xf5b158db, 0xfce4a312, 0x3b81bdf9, 0, 0xffff5bb1, 17) == 0xe1ef0576
    ensures Turned(0x9bc13ce9, 0xe1ef0576, 0xf8f4b993, 0, 0x895cd7be, 22) == 0x70768a29
    ensures Turned(0x3893b991, 0x70768a29, 0xece62132, 0, 0x6b901122, 7) == 0xf56c7cf1
    ensures Turned(0xfce4a312, 0xf56c7cf1, 0x70e70927, 0, 0xfd987193, 12) == 0x374943a7
    ensures Turned(0xe1ef0576, 0x374943a7, 0x757ec8a9, 0, 0xa679438e, 17) == 0x5aa53f75
    ensures Turned(0x70768a29, 0x5aa53f75, 0xb74943a5, 0, 0x49b40821, 22) == 0xd6819c6a
  {
  }

  lemma StepsFrom8(words: seq<Word>)
    requires IsEmptyBlock(words) && Steps(8, INITIAL, words) == Chain(0x32033344, 0x9bc13ce9, 0xf5b158db, 0x2f35d494)
    ensures Steps(16, INITIAL, words) == Chain(0xf56c7cf1, 0xd6819c6a, 0x5aa53f75, 0x374943a7)
  {
    hide Turned, Steps;
    TurnsFrom8();
    FourSteps(8, Chain(0x32033344, 0x9bc13ce9, 0xf5b158db, 0x2f35d494), words,
              Chain(0x3893b991, 0x70768a29, 0xe1ef0576, 0xfce4a312));
    FourSteps(12, Chain(0x3893b991, 0x70768a29, 0xe1ef0576, 0xfce4a312), words,
              Chain(0xf56c7cf1, 0xd6819c6a, 0x5aa53f75, 0x374943a7));
  }

  lemma TurnsFrom16()
    ensures Turned(0xf56c7cf1, 0xd6819c6a, 0x5ea53c72, 0, 0xf61e2562, 5) == 0x1c7d7513
    ensures Turned(0x374943a7, 0x1c7d7513, 0x9c25b51b, 0, 0xc040b340, 9) == 0x7bd57a3a
    ensures Turned(0x5aa53f75, 0x7bd57a3a, 0x5afd793b, 0, 0x265e5a51, 14) == 0xc095f13a
    ensures Turned(0xd6819c6a, 0xc095f13a, 0x63957b3a, 0x80, 0xe9b6c7aa, 20) == 0xbd782e17
    ensures Turned(0x1c7d7513, 0xbd782e17, 0xb950ab12, 0, 0xd62f105d, 5) == 0x3d1e3e6c
    ensures Turned(0x7bd57a3a, 0x3d1e3e6c, 0x3d7c3e2d, 0, 0x02441453, 9) == 0x68b7b3e3
    ensures Turned(0xc095f13a, 0x68b7b3e3, 0x2836326b, 0, 0xd8a1e681, 14) == 0xeb41643e
    ensures Turned(0xbd782e17, 0xeb41643e, 0x69a1a5af, 0, 0xe7d3fbc8, 20) == 0xe422531a
  {
  }

  lemma StepsFrom16(words: seq<Word>)
    requires IsEmptyBlock(words) && Steps(16, INITIAL, words) == Chain(0xf56c7cf1, 0xd6819c6a, 0x5aa53f75, 0x374943a7)
    ensures Steps(24, INITIAL, words) == Chain(0x3d1e3e6c, 0xe422531a, 0xeb41643e, 0x68b7b3e3)
  {
    hide Turned, Steps;
    TurnsFrom16();
    FourSteps(16, Chain(0xf56c7cf1, 0xd6819c6a, 0x5aa53f75, 0x374943a7), words,
              Chain(0x1c7d7513, 0xbd782e17, 0xc095f13a, 0x7bd57a3a));
    FourSteps(20, Chain(0x1c7d7513, 0xbd782e17, 0xc095f13a, 0x7bd57a3a), words,
              Chain(0x3d1e3e6c, 0xe422531a, 0xeb41643e, 0x68b7b3e3));
  }

  lemma TurnsFrom24()
    ensures Turned(0x3d1e3e6c, 0xe422531a, 0xe362571e, 0, 0x21e1cde6, 5) == 0x306ec122
    ensures Turned(0x68b7b3e3, 0x306ec122, 0x24625322, 0, 0xc33707d6, 9) == 0xd28c77c2
    ensures Turned(0xeb41643e, 0xd28c77c2, 0xd04cd322, 0, 0xf4d50d87, 14) == 0xa3c663da
    ensures Turned(0xe422531a, 0xa3c663da, 0xe2c677c2, 0, 0x455a14ed, 20) == 0xa0572807
    ensures Turned(0x306ec122, 0xa0572807, 0xa146201a, 0, 0xa9e3e905, 5) == 0x13707036
    ensures Turned(0xd28c77c2, 0x13707036, 0x03516817, 0, 0xfcefa3f8, 9) == 0xae7813db
    ensures Turned(0xa3c663da, 0xae7813db, 0xb3705033, 0, 0x676f02d9, 14) == 0x1c31c384
    ensures Turned(0xa0572807, 0x1c31c384, 0xbc3843cd, 0, 0x8d2a4c8a, 20) == 0xa2205f1f
  {
  }

  lemma StepsFrom24(words: seq<Word>)
    requires IsEmptyBlock(words) && Steps(24, INITIAL, words) == Chain(0x3d1e3e6c, 0xe422531a, 0xeb41643e, 0x68b7b3e3)
    ensures Steps(32, INITIAL, words) == Chain(0x13707036, 0xa2205f1f, 0x1c31c384, 0xae7813db)
  {
    hide Turned, Steps;
    TurnsFrom24();
    FourSteps(24, Chain(0x3d1e3e6c, 0xe422531a, 0xeb41643e, 0x68b7b3e3), words,
              Chain(0x306ec122, 0xa0572807, 0xa3c663da, 0xd28c77c2));
    FourSteps(28, Chain(0x306ec122, 0xa0572807, 0xa3c663da, 0xd28c77c2), words,
              Chain(0x13707036, 0xa2205f1f, 0x1c31c384, 0xae7813db));
  }

  lemma TurnsFrom32()
    ensures Turned(0x13707036, 0xa2205f1f, 0x10698f40, 0, 0xfffa3942, 4) == 0xdf63eaa1
    ensures Turned(0xae7813db, 0xdf63eaa1, 0x6172763a, 0, 0x8771f681, 11) == 0xc3689f5b
    ensures Turned(0x1c31c384, 0xc3689f5b, 0xbe2b2ae5, 0, 0x6d9d6122, 16) == 0x12f3e755
    ensures Turned(0xa2205f1f, 0x12f3e755, 0x0ef892af, 0, 0xfde5380c, 23) == 0x004b6669
    ensures Turned(0xdf63eaa1, 0x004b6669, 0xd1d01e67, 0, 0xa4beea44, 4) == 0x5f7a9b2e
    ensures Turned(0xc3689f5b, 0x5f7a9b2e, 0x4dc21a12, 0, 0x4bdecfa9, 11) == 0xabc34e16
    ensures Turned(0x12f3e755, 0xabc34e16, 0xf4f2b351, 0, 0xf6bb4b60, 16) == 0x91ca4cb7
    ensures Turned(0x004b6669, 0x91ca4cb7, 0x6573998f, 0, 0xbebfbc70, 23) == 0xc5dc8c15
  {
  }

  lemma StepsFrom32(words: seq<Word>)
    requires IsEmptyBlock(words) && Steps(32, INITIAL, words) == Chain(0x13707036, 0xa2205f1f, 0x1c31c384, 0xae7813db)
    ensures Steps(40, INITIAL, words) == Chain(0x5f7a9b2e, 0xc5dc8c15, 0x91ca4cb7, 0xabc34e16)
  {
    hide Turned, Steps;
    TurnsFrom32();
    FourSteps(32, Chain(0x13707036, 0xa2205f1f, 0x1c31c384, 0xae7813db), words,
              Chain(0xdf63eaa1, 0x004b6669, 0x12f3e755, 0xc3689f5b));
    FourSteps(36, Chain(0xdf63eaa1, 0x004b6669, 0x12f3e755, 0xc3689f5b), words,
              Chain(0x5f7a9b2e, 0xc5dc8c15, 0x91ca4cb7, 0xabc34e16));
  }

  lemma TurnsFrom40()
    ensures Turned(0x5f7a9b2e, 0xc5dc8c15, 0xffd58eb4, 0, 0x289b7ec6, 4) == 0x4497169d
    ensures Turned(0xabc34e16, 0x4497169d, 0x1081d63f, 0x80, 0xeaa127fa, 11) == 0x76fd93d4
    ensures Turned(0x91ca4cb7, 0x76fd93d4, 0xf7b6095c, 0, 0xd4ef3085, 16) == 0xfd95f243
    ensures Turned(0xc5dc8c15, 0xfd95f243, 0xcfff770a, 0, 0x04881d05, 23) == 0x0fe32453
    ensures Turned(0x4497169d, 0x0fe32453, 0x848b45c4, 0, 0xd9d4d039, 4) == 0x3f55edfd
    ensures Turned(0x76fd93d4, 0x3f55edfd, 0xcd233bed, 0, 0xe6db99e5, 11) == 0x22a31f54
    ensures Turned(0xfd95f243, 0x22a31f54, 0x1215d6fa, 0, 0x1fa27cf8, 16) == 0x68d84ea2
    ensures Turned(0x0fe32453, 0x68d84ea2, 0x752ebc0b, 0, 0xc4ac5665, 23) == 0xca7d2dbd
  {
  }

  lemma StepsFrom40(words: seq<Word>)
    requires IsEmptyBlock(words) && Steps(40, INITIAL, words) == Chain(0x5f7a9b2e, 0xc5dc8c15, 0x91ca4cb7, 0xabc34e16)
    ensures Steps(48, INITIAL, words) == Chain(0x3f55edfd, 0xca7d2dbd, 0x68d84ea2, 0x22a31f54)
  {
    hide Turned, Steps;
    TurnsFrom40();
    FourSteps(40, Chain(0x5f7a9b2e, 0xc5dc8c15, 0x91ca4cb7, 0xabc34e16), words,
              Chain(0x4497169d, 0x0fe32453, 0xfd95f243, 0x76fd93d4));
    FourSteps(44, Chain(0x4497169d, 0x0fe32453, 0xfd95f243, 0x76fd93d4), words,
              Chain(0x3f55edfd, 0xca7d2dbd, 0x68d84ea2, 0x22a31f54));
  }

  lemma TurnsFrom48()
    ensures Turned(0x3f55edfd, 0xca7d2dbd, 0xb7a5a31d, 0x80, 0xf4292244, 6) == 0x93aa2577
    ensures Turned(0x22a31f54, 0x93aa2577, 0x5dd298c2, 0, 0x432aff97, 10) == 0x1688dc85
    ensures Turned(0x68d84ea2, 0x1688dc85, 0xa420fbb0, 0, 0xab9423a7, 15) == 0xcd85b8cb
    ensures Turned(0xca7d2dbd, 0xcd85b8cb, 0xfb5d264e, 0, 0xfc93a039, 21) == 0x561e0689
    ensures Turned(0x93aa2577, 0x561e0689, 0x32fa9f30, 0, 0x655b59c3, 6) == 0x5625a114
    ensures Turned(0x1688dc85, 0x5625a114, 0x2061e1bd, 0, 0x8f0ccc92, 10) == 0x3450f42b
    ensures Turned(0xcd85b8cb, 0x3450f42b, 0xebd45c6b, 0, 0xffeff47d, 15) == 0x392ad0d0
    ensures Turned(0x561e0689, 0x392ad0d0, 0x8daa2ad0, 0, 0x85845dd1, 21) == 0x1e77fa61
  {
  }

  lemma StepsFrom48(words: seq<Word>)
    requires IsEmptyBlock(words) && Steps(48, INITIAL, words) == Chain(0x3f55edfd, 0xca7d2dbd, 0x68d84ea2, 0x22a31f54)
    ensures Steps(56, INITIAL, words) == Chain(0x5625a114, 0x1e77fa61, 0x392ad0d0, 0x3450f42b)
  {
    hide Turned, Steps;
    TurnsFrom48();
    FourSteps(48, Chain(0x3f55edfd, 0xca7d2dbd, 0x68d84ea2, 0x22a31f54), words,
              Chain(0x93aa2577, 0x561e0689, 0xcd85b8cb, 0x1688dc85));
    FourSteps(52, Chain(0x93aa2577, 0x561e0689, 0xcd85b8cb, 0x1688dc85), words,
              Chain(0x5625a114, 0x1e77fa61, 0x392ad0d0, 0x3450f42b));
  }

  lemma TurnsFrom56()
    ensures Turned(0x5625a114, 0x1e77fa61, 0xe6d52b25, 0, 0x6fa87e4f, 6) == 0x474a9c8c
    ensures Turned(0x3450f42b, 0x474a9c8c, 0xd9a845ce, 0, 0xfe2ce6e0, 10) == 0xdfce00bc
    ensures Turned(0x392ad0d0, 0xdfce00bc, 0xb8849932, 0, 0xa3014314, 15) == 0x36594b14
    ensures Turned(0x1e77fa61, 0x36594b14, 0x61336bcb, 0, 0x4e0811a1, 21) == 0x30130182
    ensures Turned(0x474a9c8c, 0x30130182, 0x066ab4d7, 0, 0xf7537e82, 6) == 0x7246fad3
    ensures Turned(0xdfce00bc, 0x7246fad3, 0xcbf5ff79, 0, 0xbd3af235, 10) == 0x6e10a476
    ensures Turned(0x36594b14, 0x6e10a476, 0x9dba04ac, 0, 0x2ad7d2bb, 15) == 0xff4ea3eb
    ensures Turned(0x30130182, 0xff4ea3eb, 0x91ef0399, 0, 0xeb86d391, 21) == 0x14e45506
  {
  }

  lemma StepsFrom56(words: seq<Word>)
    requires IsEmptyBlock(words) && Steps(56, INITIAL, words) == Chain(0x5625a114, 0x1e77fa61, 0x392ad0d0, 0x3450f42b)
    ensures Steps(64, INITIAL, words) == Chain(0x7246fad3, 0x14e45506, 0xff4ea3eb, 0x6e10a476)
  {
    hide Turned, Steps;
    TurnsFrom56();
    FourSteps(56, Chain(0x5625a114, 0x1e77fa61, 0x392ad0d0, 0x3450f42b), words,
              Chain(0x474a9c8c, 0x30130182, 0x36594b14, 0xdfce00bc));
    FourSteps(60, Chain(0x474a9c8c, 0x30130182, 0x36594b14, 0xdfce00bc), words,
              Chain(0x7246fad3, 0x14e45506, 0xff4ea3eb, 0x6e10a476));
  }

  /** 0x80 in the first word, and zeros. */
  predicate IsEmptyBlock(words: seq<Word>) {
    |words| == 16 && words[0] == 0x80 && forall k :: 1 <= k < 16 ==> words[k] == 0
  }

  lemma EmptyIsPadded()
    ensures |PaddedWith([], 0)| == 64 && IsEmptyBlock(Words(PaddedWith([], 0)))
  {
    var p := PaddedWith([], 0);
    PaddedEmpty();
    hide PaddedWith, WordAt;
    FirstWord(p);
    forall k | 1 <= k < 16 ensures Words(p)[k] == 0 {
      ZeroWord(p, k);
    }
  }

  lemma PaddedEmpty()
    ensures var p := PaddedWith([], 0); |p| == 64 && p[0] == 0x80 && forall i :: 1 <= i < 64 ==> p[i] == 0
  {
    ZeroLength(8);
    assert PaddedWith([], 0) == [0x80] + (Zeros(55) + Zeros(8));
  }

  lemma FirstWord(block: seq<Byte>)
    requires |block| == 64 && block[0] == 0x80 && block[1] == 0 && block[2] == 0 && block[3] == 0
    ensures WordAt(block, 0) == 0x80
  {
  }

  lemma ZeroWord(block: seq<Byte>, k: nat)
    requires |block| == 64 && k < 16 && forall i :: 4 * k <= i < 4 * k + 4 ==> block[i] == 0
    ensures WordAt(block, k) == 0
  {
    assert block[4 * k] == 0 && block[4 * k + 1] == 0 && block[4 * k + 2] == 0 && block[4 * k + 3] == 0;
  }

  lemma {:induction false} ZeroLength(k: nat)
    ensures LittleEndian(0, k) == Zeros(k)
  {
    if k > 0 {
      ZeroLength(k - 1);
    }
  }

  lemma EmptyRegisters()
    ensures Absorb(INITIAL, PaddedWith([], 0)) == Chain(0xd98c1dd4, 0x04b2008f, 0x980980e9, 0x7e42f8ec)
  {
    hide Steps, PaddedWith;
    var p := PaddedWith([], 0);
    EmptyIsPadded();
    StepsOfNone(Words(p));
    StepsFrom0(Words(p));
    StepsFrom8(Words(p));
    StepsFrom16(Words(p));
    StepsFrom24(Words(p));
    StepsFrom32(Words(p));
    StepsFrom40(Words(p));
    StepsFrom48(Words(p));
    StepsFrom56(Words(p));
    AbsorbBlock(INITIAL, [], p);
    assert [] + p == p;
  }

  lemma EmptyBytes()
    ensures ChainBytes(Chain(0xd98c1dd4, 0x04b2008f, 0x980980e9, 0x7e42f8ec)) ==
            [0xd4, 0x1d, 0x8c, 0xd9] + [0x8f, 0x00, 0xb2, 0x04] + [0xe9, 0x80, 0x09, 0x98] + [0xec, 0xf8, 0x42, 0x7e]
  {
  }

  lemma {:induction false} HexInTurn(s: seq<Byte>, t: seq<Byte>)
    ensures Hex(s + t) == Hex(s) + Hex(t)
  {
    if s == [] {
      assert s + t == t;
    } else {
      assert (s + t)[1..] == s[1..] + t;
      HexInTurn(s[1..], t);
    }
  }

  lemma HexOfFour(a: Byte, b: Byte, c: Byte, d: Byte)
    ensures Hex([a, b, c, d]) == HexOfOne(a) + HexOfOne(b) + HexOfOne(c) + HexOfOne(d)
  {
    assert [a, b, c, d][1..] == [b, c, d] && [b, c, d][1..] == [c, d] && [c, d][1..] == [d] && [d][1..] == [];
    assert Hex([d]) == HexOfOne(d) && Hex([c, d]) == HexOfOne(c) + Hex([d]);
    assert Hex([b, c, d]) == HexOfOne(b) + Hex([c, d]);
  }

  function HexOfOne(b: Byte): string {
    [HEX_DIGITS[b / 16], HEX_DIGITS[b % 16]]
  }

  lemma FirstWords()
    ensures Hex([0xd4, 0x1d, 0x8c, 0xd9]) == "d41d8cd9" && Hex([0x8f, 0x00, 0xb2, 0x04]) == "8f00b204"
  {
    hide Hex;
    HexOfFour(0xd4, 0x1d, 0x8c, 0xd9);
    HexOfFour(0x8f, 0x00, 0xb2, 0x04);
  }

  lemma LastWords()
    ensures Hex([0xe9, 0x80, 0x09, 0x98]) == "e9800998" && Hex([0xec, 0xf8, 0x42, 0x7e]) == "ecf8427e"
  {
    hide Hex;
    HexOfFour(0xe9, 0x80, 0x09, 0x98);
    HexOfFour(0xec, 0xf8, 0x42, 0x7e);
  }

  lemma EmptyHex()
    ensures Hex(ChainBytes(Chain(0xd98c1dd4, 0x04b2008f, 0x980980e9, 0x7e42f8ec))) == "d41d8cd98f00b204e9800998ecf8427e"
  {
    hide Hex, ChainBytes;
    var a, b: seq<Byte> := [0xd4, 0x1d, 0x8c, 0xd9], [0x8f, 0x00, 0xb2, 0x04];
    var c, d: seq<Byte> := [0xe9, 0x80, 0x09, 0x98], [0xec, 0xf8, 0x42, 0x7e];
    EmptyBytes();
    HexInTurn(a + b + c, d);
    HexInTurn(a + b, c);
    HexInTurn(a, b);
    FirstWords();
    LastWords();
  }

  /** MD5 ("") = d41d8cd98f00b204e9800998ecf8427e */
  lemma EmptyMessage()
    ensures Hex(DigestWith([], CountedBits([]))) == "d41d8cd98f00b204e9800998ecf8427e"
  {
    hide Absorb, PaddedWith, Hex, ChainBytes;
    EmptyRegisters();
    EmptyHex();
  }

  lemma StepsOfNone(words: seq<Word>)
    requires |words| == 16
    ensures Steps(0, INITIAL, words) == INITIAL
  {
  }
}
