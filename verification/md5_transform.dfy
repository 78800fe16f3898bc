/** The unrolled transform of md5sum.c, register by register. */
module Md5Transform {
  import opened Bytes
  import opened Md5Reference

  function FF(b: Word, c: Word, d: Word): Word { d ^ (b & (c ^ d)) }
  function FG(b: Word, c: Word, d: Word): Word { FF(d, b, c) }
  function FH(b: Word, c: Word, d: Word): Word { b ^ c ^ d }
  function FI(b: Word, c: Word, d: Word): Word { c ^ (b | !d) }

  lemma SelectByXor(b: bv32, c: bv32, d: bv32)
    ensures d ^ (b & (c ^ d)) == (b & c) | (!b & d)
  {
  }

  lemma SelectSymmetric(b: bv32, c: bv32, d: bv32)
    ensures (d & b) | (!d & c) == (b & d) | (c & !d)
  {
  }

  lemma FFIsF(b: Word, c: Word, d: Word)
    ensures FF(b, c, d) == F(b, c, d)
  {
    SelectByXor(b, c, d);
  }

  lemma FGIsG(b: Word, c: Word, d: Word)
    ensures FG(b, c, d) == G(b, c, d)
  {
    SelectByXor(d, b, c);
    SelectSymmetric(b, c, d);
  }

  function Op(f: Word, a: Word, b: Word, word: Word, s: nat, t: Word): Word
    requires 0 < s < 32
  {
    RotateLeft(a + (f + word + t), s) + b
  }

  lemma OpIsTurned(f: Word, a: Word, b: Word, x: Word, s: nat, t: Word)
    requires 0 < s < 32
    ensures Op(f, a, b, x, s, t) == Turned(a, b, f, x, t, s)
  {
    hide RotateLeft;
    AddOrder(a, f, x, t);
    AddSwap(b, RotateLeft(a + f + x + t, s));
  }

  lemma OpIsMix(i: nat, f: Word, a: Word, b: Word, c: Word, d: Word, x: Word)
    requires i < 64 && f == Auxiliary(i, b, c, d)
    ensures Op(f, a, b, x, Shift(i), T(i)) == Mix(i, a, b, c, d, x)
  {
    hide Op, Turned, T, Shift, Auxiliary;
    OpIsTurned(f, a, b, x, Shift(i), T(i));
  }

  lemma AddSwap(x: bv32, y: bv32)
    ensures x + y == y + x
  {
  }

  lemma AddOrder(a: bv32, f: bv32, x: bv32, t: bv32)
    ensures a + (f + x + t) == a + f + x + t
  {
  }

  /** The registers before each of the 64 steps and after the last. */
  ghost predicate IsRun(run: seq<Chain>, words: seq<Word>)
    requires |words| == 16
  {
    && |run| == 65
    && forall i {:trigger Step(i, run[i], words)} :: 0 <= i < 64 ==> run[i + 1] == Step(i, run[i], words)
  }

  /** One OP with FF: what it leaves in a, with the registers moved round, is the next entry of the run. */
  method OpFF(a: Word, b: Word, c: Word, d: Word, words: seq<Word>, k: nat, s: nat, t: Word,
               ghost i: nat, ghost run: seq<Chain>)
    returns (r: Word)
    requires |words| == 16 && IsRun(run, words)
    requires 0 <= i < 16 && k == WordIndex(i) && s == Shift(i) && t == T(i)
    requires run[i] == Chain(a, b, c, d)
    ensures run[i + 1] == Chain(d, r, b, c)
  {
    assert run[i + 1] == Step(i, run[i], words);
    FFIsF(b, c, d);
    OpIsMix(i, FF(b, c, d), a, b, c, d, words[k]);
    r := Op(FF(b, c, d), a, b, words[k], s, t);
  }

  /** One OP with FG: what it leaves in a, with the registers moved round, is the next entry of the run. */
  method OpFG(a: Word, b: Word, c: Word, d: Word, words: seq<Word>, k: nat, s: nat, t: Word,
               ghost i: nat, ghost run: seq<Chain>)
    returns (r: Word)
    requires |words| == 16 && IsRun(run, words)
    requires 16 <= i < 32 && k == WordIndex(i) && s == Shift(i) && t == T(i)
    requires run[i] == Chain(a, b, c, d)
    ensures run[i + 1] == Chain(d, r, b, c)
  {
    assert run[i + 1] == Step(i, run[i], words);
    FGIsG(b, c, d);
    OpIsMix(i, FG(b, c, d), a, b, c, d, words[k]);
    r := Op(FG(b, c, d), a, b, words[k], s, t);
  }

  /** One OP with FH: what it leaves in a, with the registers moved round, is the next entry of the run. */
  method OpFH(a: Word, b: Word, c: Word, d: Word, words: seq<Word>, k: nat, s: nat, t: Word,
               ghost i: nat, ghost run: seq<Chain>)
    returns (r: Word)
    requires |words| == 16 && IsRun(run, words)
    requires 32 <= i < 48 && k == WordIndex(i) && s == Shift(i) && t == T(i)
    requires run[i] == Chain(a, b, c, d)
    ensures run[i + 1] == Chain(d, r, b, c)
  {
    assert run[i + 1] == Step(i, run[i], words);
    OpIsMix(i, FH(b, c, d), a, b, c, d, words[k]);
    r := Op(FH(b, c, d), a, b, words[k], s, t);
  }

  /** One OP with FI: what it leaves in a, with the registers moved round, is the next entry of the run. */
  method OpFI(a: Word, b: Word, c: Word, d: Word, words: seq<Word>, k: nat, s: nat, t: Word,
               ghost i: nat, ghost run: seq<Chain>)
    returns (r: Word)
    requires |words| == 16 && IsRun(run, words)
    requires 48 <= i < 64 && k == WordIndex(i) && s == Shift(i) && t == T(i)
    requires run[i] == Chain(a, b, c, d)
    ensures run[i + 1] == Chain(d, r, b, c)
  {
    assert run[i + 1] == Step(i, run[i], words);
    OpIsMix(i, FI(b, c, d), a, b, c, d, words[k]);
    r := Op(FI(b, c, d), a, b, words[k], s, t);
  }

  /** Four of the sixteen OPs of round 1; the shift counts repeat with every four. */
  method QuadFF(a: Word, b: Word, c: Word, d: Word, w: seq<Word>, k0: nat, t0: Word, k1: nat, t1: Word,
                k2: nat, t2: Word, k3: nat, t3: Word, ghost i: nat, ghost run: seq<Chain>)
    returns (A: Word, B: Word, C: Word, D: Word)
    requires |w| == 16 && IsRun(run, w)
    requires 0 <= i < 16 && i % 4 == 0 && run[i] == Chain(a, b, c, d)
    requires k0 == WordIndex(i) && k1 == WordIndex(i + 1) && k2 == WordIndex(i + 2) && k3 == WordIndex(i + 3)
    requires t0 == T(i) && t1 == T(i + 1) && t2 == T(i + 2) && t3 == T(i + 3)
    ensures run[i + 4] == Chain(A, B, C, D)
  {
    A, B, C, D := a, b, c, d;
    A := OpFF(A, B, C, D, w, k0, 7, t0, i, run);
    D := OpFF(D, A, B, C, w, k1, 12, t1, i + 1, run);
    C := OpFF(C, D, A, B, w, k2, 17, t2, i + 2, run);
    B := OpFF(B, C, D, A, w, k3, 22, t3, i + 3, run);
  }

  /** Four of the sixteen OPs of round 2; the shift counts repeat with every four. */
  method QuadFG(a: Word, b: Word, c: Word, d: Word, w: seq<Word>, k0: nat, t0: Word, k1: nat, t1: Word,
                k2: nat, t2: Word, k3: nat, t3: Word, ghost i: nat, ghost run: seq<Chain>)
    returns (A: Word, B: Word, C: Word, D: Word)
    requires |w| == 16 && IsRun(run, w)
    requires 16 <= i < 32 && i % 4 == 0 && run[i] == Chain(a, b, c, d)
    requires k0 == WordIndex(i) && k1 == WordIndex(i + 1) && k2 == WordIndex(i + 2) && k3 == WordIndex(i + 3)
    requires t0 == T(i) && t1 == T(i + 1) && t2 == T(i + 2) && t3 == T(i + 3)
    ensures run[i + 4] == Chain(A, B, C, D)
  {
    A, B, C, D := a, b, c, d;
    A := OpFG(A, B, C, D, w, k0, 5, t0, i, run);
    D := OpFG(D, A, B, C, w, k1, 9, t1, i + 1, run);
    C := OpFG(C, D, A, B, w, k2, 14, t2, i + 2, run);
    B := OpFG(B, C, D, A, w, k3, 20, t3, i + 3, run);
  }

  /** Four of the sixteen OPs of round 3; the shift counts repeat with every four. */
  method QuadFH(a: Word, b: Word, c: Word, d: Word, w: seq<Word>, k0: nat, t0: Word, k1: nat, t1: Word,
                k2: nat, t2: Word, k3: nat, t3: Word, ghost i: nat, ghost run: seq<Chain>)
    returns (A: Word, B: Word, C: Word, D: Word)
    requires |w| == 16 && IsRun(run, w)
    requires 32 <= i < 48 && i % 4 == 0 && run[i] == Chain(a, b, c, d)
    requires k0 == WordIndex(i) && k1 == WordIndex(i + 1) && k2 == WordIndex(i + 2) && k3 == WordIndex(i + 3)
    requires t0 == T(i) && t1 == T(i + 1) && t2 == T(i + 2) && t3 == T(i + 3)
    ensures run[i + 4] == Chain(A, B, C, D)
  {
    A, B, C, D := a, b, c, d;
    A := OpFH(A, B, C, D, w, k0, 4, t0, i, run);
    D := OpFH(D, A, B, C, w, k1, 11, t1, i + 1, run);
    C := OpFH(C, D, A, B, w, k2, 16, t2, i + 2, run);
    B := OpFH(B, C, D, A, w, k3, 23, t3, i + 3, run);
  }

  /** Four of the sixteen OPs of round 4; the shift counts repeat with every four. */
  method QuadFI(a: Word, b: Word, c: Word, d: Word, w: seq<Word>, k0: nat, t0: Word, k1: nat, t1: Word,
                k2: nat, t2: Word, k3: nat, t3: Word, ghost i: nat, ghost run: seq<Chain>)
    returns (A: Word, B: Word, C: Word, D: Word)
    requires |w| == 16 && IsRun(run, w)
    requires 48 <= i < 64 && i % 4 == 0 && run[i] == Chain(a, b, c, d)
    requires k0 == WordIndex(i) && k1 == WordIndex(i + 1) && k2 == WordIndex(i + 2) && k3 == WordIndex(i + 3)
    requires t0 == T(i) && t1 == T(i + 1) && t2 == T(i + 2) && t3 == T(i + 3)
    ensures run[i + 4] == Chain(A, B, C, D)
  {
    A, B, C, D := a, b, c, d;
    A := OpFI(A, B, C, D, w, k0, 6, t0, i, run);
    D := OpFI(D, A, B, C, w, k1, 10, t1, i + 1, run);
    C := OpFI(C, D, A, B, w, k2, 15, t2, i + 2, run);
    B := OpFI(B, C, D, A, w, k3, 21, t3, i + 3, run);
  }

  method Round1(a: Word, b: Word, c: Word, d: Word, w: seq<Word>, ghost run: seq<Chain>)
    returns (A: Word, B: Word, C: Word, D: Word)
    requires |w| == 16 && IsRun(run, w) && run[0] == Chain(a, b, c, d)
    ensures run[16] == Chain(A, B, C, D)
  {
    A, B, C, D := a, b, c, d;
    A, B, C, D := QuadFF(A, B, C, D, w, 0, 0xd76aa478, 1, 0xe8c7b756, 2, 0x242070db, 3, 0xc1bdceee, 0, run);
    A, B, C, D := QuadFF(A, B, C, D, w, 4, 0xf57c0faf, 5, 0x4787c62a, 6, 0xa8304613, 7, 0xfd469501, 4, run);
    A, B, C, D := QuadFF(A, B, C, D, w, 8, 0x698098d8, 9, 0x8b44f7af, 10, 0xffff5bb1, 11, 0x895cd7be, 8, run);
    A, B, C, D := QuadFF(A, B, C, D, w, 12, 0x6b901122, 13, 0xfd987193, 14, 0xa679438e, 15, 0x49b40821, 12, run);
  }

  method Round2(a: Word, b: Word, c: Word, d: Word, w: seq<Word>, ghost run: seq<Chain>)
    returns (A: Word, B: Word, C: Word, D: Word)
    requires |w| == 16 && IsRun(run, w) && run[16] == Chain(a, b, c, d)
    ensures run[32] == Chain(A, B, C, D)
  {
    A, B, C, D := a, b, c, d;
    A, B, C, D := QuadFG(A, B, C, D, w, 1, 0xf61e2562, 6, 0xc040b340, 11, 0x265e5a51, 0, 0xe9b6c7aa, 16, run);
    A, B, C, D := QuadFG(A, B, C, D, w, 5, 0xd62f105d, 10, 0x02441453, 15, 0xd8a1e681, 4, 0xe7d3fbc8, 20, run);
    A, B, C, D := QuadFG(A, B, C, D, w, 9, 0x21e1cde6, 14, 0xc33707d6, 3, 0xf4d50d87, 8, 0x455a14ed, 24, run);
    A, B, C, D := QuadFG(A, B, C, D, w, 13, 0xa9e3e905, 2, 0xfcefa3f8, 7, 0x676f02d9, 12, 0x8d2a4c8a, 28, run);
  }

  method Round3(a: Word, b: Word, c: Word, d: Word, w: seq<Word>, ghost run: seq<Chain>)
    returns (A: Word, B: Word, C: Word, D: Word)
    requires |w| == 16 && IsRun(run, w) && run[32] == Chain(a, b, c, d)
    ensures run[48] == Chain(A, B, C, D)
  {
    A, B, C, D := a, b, c, d;
    A, B, C, D := QuadFH(A, B, C, D, w, 5, 0xfffa3942, 8, 0x8771f681, 11, 0x6d9d6122, 14, 0xfde5380c, 32, run);
    A, B, C, D := QuadFH(A, B, C, D, w, 1, 0xa4beea44, 4, 0x4bdecfa9, 7, 0xf6bb4b60, 10, 0xbebfbc70, 36, run);
    A, B, C, D := QuadFH(A, B, C, D, w, 13, 0x289b7ec6, 0, 0xeaa127fa, 3, 0xd4ef3085, 6, 0x04881d05, 40, run);
    A, B, C, D := QuadFH(A, B, C, D, w, 9, 0xd9d4d039, 12, 0xe6db99e5, 15, 0x1fa27cf8, 2, 0xc4ac5665, 44, run);
  }

  method Round4(a: Word, b: Word, c: Word, d: Word, w: seq<Word>, ghost run: seq<Chain>)
    returns (A: Word, B: Word, C: Word, D: Word)
    requires |w| == 16 && IsRun(run, w) && run[48] == Chain(a, b, c, d)
    ensures run[64] == Chain(A, B, C, D)
  {
    A, B, C, D := a, b, c, d;
    A, B, C, D := QuadFI(A, B, C, D, w, 0, 0xf4292244, 7, 0x432aff97, 14, 0xab9423a7, 5, 0xfc93a039, 48, run);
    A, B, C, D := QuadFI(A, B, C, D, w, 12, 0x655b59c3, 3, 0x8f0ccc92, 10, 0xffeff47d, 1, 0x85845dd1, 52, run);
    A, B, C, D := QuadFI(A, B, C, D, w, 8, 0x6fa87e4f, 15, 0xfe2ce6e0, 6, 0xa3014314, 13, 0x4e0811a1, 56, run);
    A, B, C, D := QuadFI(A, B, C, D, w, 4, 0xf7537e82, 11, 0xbd3af235, 2, 0x2ad7d2bb, 9, 0xeb86d391, 60, run);
  }

  /** The four rounds one after the other compute what the loop of section 3.4 computes. */
  method Unrolled(r: Chain, w: seq<Word>) returns (A: Word, B: Word, C: Word, D: Word)
    requires |w| == 16
    ensures Chain(A, B, C, D) == Steps(64, r, w)
  {
    ghost var run := seq(65, n requires 0 <= n < 65 => Steps(n, r, w));
    A, B, C, D := Round1(r.a, r.b, r.c, r.d, w, run);
    A, B, C, D := Round2(A, B, C, D, w, run);
    A, B, C, D := Round3(A, B, C, D, w, run);
    A, B, C, D := Round4(A, B, C, D, w, run);
  }

  /** transform: the registers plus what the rounds make of them and the block. */
  method Transformed(r: Chain, block: seq<Byte>) returns (sum: Chain)
    requires |block| == 64
    ensures sum == Compress(r, block)
  {
    var correctWords := Words(block);
    var A, B, C, D := Unrolled(r, correctWords);
    sum := Plus(r, Chain(A, B, C, D));
  }
}
