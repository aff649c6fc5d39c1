/**
 The block function of siege-4.1.7/src/md5.c: unrolled rounds over the four
 registers with the optimised boolean functions.
 */
module Md5Block {
  import opened Md5Spec

  // The macros of the source.
  function FF(b: word, c: word, d: word): word { d ^ (b & (c ^ d)) }
  function FG(b: word, c: word, d: word): word { FF(d, b, c) }
  function FH(b: word, c: word, d: word): word { b ^ c ^ d }
  function FI(b: word, c: word, d: word): word { c ^ (b | !d) }

  function Macro(r: nat, b: word, c: word, d: word): word {
    if r == 0 then FF(b, c, d) else if r == 1 then FG(b, c, d) else if r == 2 then FH(b, c, d) else FI(b, c, d)
  }

  /** OP of round `r`: the new value of the first register. */
  function Op(r: nat, a: word, b: word, c: word, d: word, x: word, s: word, t: word): word
    requires 0 < s < 32
  {
    Add(Rotl(Add(a, Add(Add(Macro(r, b, c, d), x), t)), s), b)
  }

  lemma Selects(x: word, y: word, z: word)
    ensures z ^ (x & (y ^ z)) == (x & y) | (!x & z)
  {
  }

  lemma SelectsSwapped(x: word, y: word, z: word)
    ensures y ^ (z & (x ^ y)) == (x & z) | (y & !z)
  {
  }

  lemma AddCommutes(a: word, b: word)
    ensures Add(a, b) == Add(b, a)
  {
  }

  lemma FFIsF(b: word, c: word, d: word)
    ensures FF(b, c, d) == F(b, c, d)
  {
    Selects(b, c, d);
  }

  lemma FGIsG(b: word, c: word, d: word)
    ensures FG(b, c, d) == G(b, c, d)
  {
    SelectsSwapped(b, c, d);
  }

  lemma MixIsMacro(r: nat, b: word, c: word, d: word)
    ensures Macro(r, b, c, d) == Mix(r, b, c, d)
  {
    hide FF, FG, F, G;
    FFIsF(b, c, d);
    FGIsG(b, c, d);
  }

  /** OP in place is a step of section 3.4. */
  lemma StepIsOp(q: Quad, x: seq<word>, i: nat)
    requires |x| == 16
    ensures Step(q, x, i) ==
            Quad(q.d, Op(i / 16, q.a, q.b, q.c, q.d, x[WordIndex(i)], Shift(i / 16, i % 4), T(i)), q.b, q.c)
  {
    hide Add, Macro, Mix, Rotl, WordIndex, Shift, T;
    var m := Mix(i / 16, q.b, q.c, q.d);
    MixIsMacro(i / 16, q.b, q.c, q.d);
    AddCommutes(q.b, Rotl(Add(q.a, Add(Add(m, x[WordIndex(i)]), T(i))), Shift(i / 16, i % 4)));
  }

  /** Step s of round r. */
  lemma RoundStep(q: Quad, x: seq<word>, r: nat, s: nat)
    requires |x| == 16 && r < 4 && s < 16
    ensures var i := 16 * r + s;
            Step(q, x, i) == Quad(q.d, Op(r, q.a, q.b, q.c, q.d, x[WordIndex(i)], Shift(r, s % 4), T(i)), q.b, q.c)
  {
    hide Op, Step, WordIndex, Shift, T;
    StepIsOp(q, x, 16 * r + s);
  }

  /** Four steps give every register its turn, so the roles are back where they were. */
  lemma {:induction false} FourSteps(q: Quad, x: seq<word>, r: nat, i: nat) returns (p: Quad)
    requires |x| == 16 && r < 4 && 16 * r <= i <= 16 * r + 12 && i % 4 == 0
    ensures p.a == Op(r, q.a, q.b, q.c, q.d, x[WordIndex(i)], Shift(r, 0), T(i))
    ensures p.d == Op(r, q.d, p.a, q.b, q.c, x[WordIndex(i + 1)], Shift(r, 1), T(i + 1))
    ensures p.c == Op(r, q.c, p.d, p.a, q.b, x[WordIndex(i + 2)], Shift(r, 2), T(i + 2))
    ensures p.b == Op(r, q.b, p.c, p.d, p.a, x[WordIndex(i + 3)], Shift(r, 3), T(i + 3))
    ensures Steps(q, x, i, 16 * r + 16) == Steps(p, x, i + 4, 16 * r + 16)
  {
    hide Op, Step, Steps, WordIndex, Shift, T;
    StepAt(q, x, r, i, 0);
    var q1 := Step(q, x, i);
    StepAt(q1, x, r, i, 1);
    var q2 := Step(q1, x, i + 1);
    StepAt(q2, x, r, i, 2);
    var q3 := Step(q2, x, i + 2);
    StepAt(q3, x, r, i, 3);
    p := Step(q3, x, i + 3);
    UnfoldFour(q, x, i, 16 * r + 16);
  }

  /** Step j of four in round r. */
  lemma StepAt(q: Quad, x: seq<word>, r: nat, i: nat, j: nat)
    requires |x| == 16 && r < 4 && 16 * r <= i <= 16 * r + 12 && i % 4 == 0 && j < 4
    ensures Step(q, x, i + j) ==
            Quad(q.d, Op(r, q.a, q.b, q.c, q.d, x[WordIndex(i + j)], Shift(r, j), T(i + j)), q.b, q.c)
  {
    hide Op, Step, WordIndex, Shift, T;
    RoundStep(q, x, r, i + j - 16 * r);
  }

  lemma UnfoldFour(q: Quad, x: seq<word>, i: nat, n: nat)
    requires |x| == 16 && i + 4 <= n
    ensures Steps(q, x, i, n) ==
            Steps(Step(Step(Step(Step(q, x, i), x, i + 1), x, i + 2), x, i + 3), x, i + 4, n)
  {
    hide Step, Steps;
    var q1 := Step(q, x, i);
    var q2 := Step(q1, x, i + 1);
    var q3 := Step(q2, x, i + 2);
    StepsUnfold(q, x, i, n);
    StepsUnfold(q1, x, i + 1, n);
    StepsUnfold(q2, x, i + 2, n);
    StepsUnfold(q3, x, i + 3, n);
  }

  lemma {:induction false} StepsUnfold(q: Quad, x: seq<word>, i: nat, n: nat)
    requires |x| == 16
    ensures Steps(q, x, i, n) == if i < n then Steps(Step(q, x, i), x, i + 1, n) else q
  {
    hide Step;
  }

  lemma {:induction false} StepsCompose(q: Quad, x: seq<word>, i: nat, m: nat, n: nat)
    requires |x| == 16 && i <= m <= n
    ensures Steps(q, x, i, n) == Steps(Steps(q, x, i, m), x, m, n)
    decreases m - i
  {
    hide Step;
    if i < m {
      StepsCompose(Step(q, x, i), x, i + 1, m, n);
    }
  }

  /** What RFC 1321 has for round 1. */
  lemma Table1()
    ensures Shift(0, 0) == 7 && Shift(0, 1) == 12 && Shift(0, 2) == 17 && Shift(0, 3) == 22
    ensures WordIndex(0) == 0 && WordIndex(1) == 1 && WordIndex(2) == 2 && WordIndex(3) == 3
    ensures WordIndex(4) == 4 && WordIndex(5) == 5 && WordIndex(6) == 6 && WordIndex(7) == 7
    ensures WordIndex(8) == 8 && WordIndex(9) == 9 && WordIndex(10) == 10 && WordIndex(11) == 11
    ensures WordIndex(12) == 12 && WordIndex(13) == 13 && WordIndex(14) == 14 && WordIndex(15) == 15
    ensures T(0) == 0xd76aa478 && T(1) == 0xe8c7b756
    ensures T(2) == 0x242070db && T(3) == 0xc1bdceee
    ensures T(4) == 0xf57c0faf && T(5) == 0x4787c62a
    ensures T(6) == 0xa8304613 && T(7) == 0xfd469501
    ensures T(8) == 0x698098d8 && T(9) == 0x8b44f7af
    ensures T(10) == 0xffff5bb1 && T(11) == 0x895cd7be
    ensures T(12) == 0x6b901122 && T(13) == 0xfd987193
    ensures T(14) == 0xa679438e && T(15) == 0x49b40821
  {
  }

  /** Lines 335-351 */
  method Round1(q: Quad, x: seq<word>) returns (r: Quad)
    requires |x| == 16
    ensures r == Steps(q, x, 0, 16)
  {
    hide Op, Steps, WordIndex, Shift, T;
    Table1();
    var A, B, C, D := q.a, q.b, q.c, q.d;
    ghost var p := q;
    A := Op(0, A, B, C, D, x[0], 7, 0xd76aa478);
    D := Op(0, D, A, B, C, x[1], 12, 0xe8c7b756);
    C := Op(0, C, D, A, B, x[2], 17, 0x242070db);
    B := Op(0, B, C, D, A, x[3], 22, 0xc1bdceee);
    p := FourSteps(p, x, 0, 0);
    assert p == Quad(A, B, C, D);
    A := Op(0, A, B, C, D, x[4], 7, 0xf57c0faf);
    D := Op(0, D, A, B, C, x[5], 12, 0x4787c62a);
    C := Op(0, C, D, A, B, x[6], 17, 0xa8304613);
    B := Op(0, B, C, D, A, x[7], 22, 0xfd469501);
    p := FourSteps(p, x, 0, 4);
    assert p == Quad(A, B, C, D);
    A := Op(0, A, B, C, D, x[8], 7, 0x698098d8);
    D := Op(0, D, A, B, C, x[9], 12, 0x8b44f7af);
    C := Op(0, C, D, A, B, x[10], 17, 0xffff5bb1);
    B := Op(0, B, C, D, A, x[11], 22, 0x895cd7be);
    p := FourSteps(p, x, 0, 8);
    assert p == Quad(A, B, C, D);
    A := Op(0, A, B, C, D, x[12], 7, 0x6b901122);
    D := Op(0, D, A, B, C, x[13], 12, 0xfd987193);
    C := Op(0, C, D, A, B, x[14], 17, 0xa679438e);
    B := Op(0, B, C, D, A, x[15], 22, 0x49b40821);
    p := FourSteps(p, x, 0, 12);
    assert p == Quad(A, B, C, D);
    StepsUnfold(p, x, 16, 16);
    r := Quad(A, B, C, D);
  }

  /** What RFC 1321 has for round 2. */
  lemma Table2()
    ensures Shift(1, 0) == 5 && Shift(1, 1) == 9 && Shift(1, 2) == 14 && Shift(1, 3) == 20
    ensures WordIndex(16) == 1 && WordIndex(17) == 6 && WordIndex(18) == 11 && WordIndex(19) == 0
    ensures WordIndex(20) == 5 && WordIndex(21) == 10 && WordIndex(22) == 15 && WordIndex(23) == 4
    ensures WordIndex(24) == 9 && WordIndex(25) == 14 && WordIndex(26) == 3 && WordIndex(27) == 8
    ensures WordIndex(28) == 13 && WordIndex(29) == 2 && WordIndex(30) == 7 && WordIndex(31) == 12
    ensures T(16) == 0xf61e2562 && T(17) == 0xc040b340
    ensures T(18) == 0x265e5a51 && T(19) == 0xe9b6c7aa
    ensures T(20) == 0xd62f105d && T(21) == 0x02441453
    ensures T(22) == 0xd8a1e681 && T(23) == 0xe7d3fbc8
    ensures T(24) == 0x21e1cde6 && T(25) == 0xc33707d6
    ensures T(26) == 0xf4d50d87 && T(27) == 0x455a14ed
    ensures T(28) == 0xa9e3e905 && T(29) == 0xfcefa3f8
    ensures T(30) == 0x676f02d9 && T(31) == 0x8d2a4c8a
  {
  }

  /** Lines 366-384 */
  method Round2(q: Quad, x: seq<word>) returns (r: Quad)
    requires |x| == 16
    ensures r == Steps(q, x, 16, 32)
  {
    hide Op, Steps, WordIndex, Shift, T;
    Table2();
    var A, B, C, D := q.a, q.b, q.c, q.d;
    ghost var p := q;
    A := Op(1, A, B, C, D, x[1], 5, 0xf61e2562);
    D := Op(1, D, A, B, C, x[6], 9, 0xc040b340);
    C := Op(1, C, D, A, B, x[11], 14, 0x265e5a51);
    B := Op(1, B, C, D, A, x[0], 20, 0xe9b6c7aa);
    p := FourSteps(p, x, 1, 16);
    assert p == Quad(A, B, C, D);
    A := Op(1, A, B, C, D, x[5], 5, 0xd62f105d);
    D := Op(1, D, A, B, C, x[10], 9, 0x02441453);
    C := Op(1, C, D, A, B, x[15], 14, 0xd8a1e681);
    B := Op(1, B, C, D, A, x[4], 20, 0xe7d3fbc8);
    p := FourSteps(p, x, 1, 20);
    assert p == Quad(A, B, C, D);
    A := Op(1, A, B, C, D, x[9], 5, 0x21e1cde6);
    D := Op(1, D, A, B, C, x[14], 9, 0xc33707d6);
    C := Op(1, C, D, A, B, x[3], 14, 0xf4d50d87);
    B := Op(1, B, C, D, A, x[8], 20, 0x455a14ed);
    p := FourSteps(p, x, 1, 24);
    assert p == Quad(A, B, C, D);
    A := Op(1, A, B, C, D, x[13], 5, 0xa9e3e905);
    D := Op(1, D, A, B, C, x[2], 9, 0xfcefa3f8);
    C := Op(1, C, D, A, B, x[7], 14, 0x676f02d9);
    B := Op(1, B, C, D, A, x[12], 20, 0x8d2a4c8a);
    p := FourSteps(p, x, 1, 28);
    assert p == Quad(A, B, C, D);
    StepsUnfold(p, x, 32, 32);
    r := Quad(A, B, C, D);
  }

  /** What RFC 1321 has for round 3. */
  lemma Table3()
    ensures Shift(2, 0) == 4 && Shift(2, 1) == 11 && Shift(2, 2) == 16 && Shift(2, 3) == 23
    ensures WordIndex(32) == 5 && WordIndex(33) == 8 && WordIndex(34) == 11 && WordIndex(35) == 14
    ensures WordIndex(36) == 1 && WordIndex(37) == 4 && WordIndex(38) == 7 && WordIndex(39) == 10
    ensures WordIndex(40) == 13 && WordIndex(41) == 0 && WordIndex(42) == 3 && WordIndex(43) == 6
    ensures WordIndex(44) == 9 && WordIndex(45) == 12 && WordIndex(46) == 15 && WordIndex(47) == 2
    ensures T(32) == 0xfffa3942 && T(33) == 0x8771f681
    ensures T(34) == 0x6d9d6122 && T(35) == 0xfde5380c
    ensures T(36) == 0xa4beea44 && T(37) == 0x4bdecfa9
    ensures T(38) == 0xf6bb4b60 && T(39) == 0xbebfbc70
    ensures T(40) == 0x289b7ec6 && T(41) == 0xeaa127fa
    ensures T(42) == 0xd4ef3085 && T(43) == 0x04881d05
    ensures T(44) == 0xd9d4d039 && T(45) == 0xe6db99e5
    ensures T(46) == 0x1fa27cf8 && T(47) == 0xc4ac5665
  {
  }

  /** Lines 387-405 */
  method Round3(q: Quad, x: seq<word>) returns (r: Quad)
    requires |x| == 16
    ensures r == Steps(q, x, 32, 48)
  {
    hide Op, Steps, WordIndex, Shift, T;
    Table3();
    var A, B, C, D := q.a, q.b, q.c, q.d;
    ghost var p := q;
    A := Op(2, A, B, C, D, x[5], 4, 0xfffa3942);
    D := Op(2, D, A, B, C, x[8], 11, 0x8771f681);
    C := Op(2, C, D, A, B, x[11], 16, 0x6d9d6122);
    B := Op(2, B, C, D, A, x[14], 23, 0xfde5380c);
    p := FourSteps(p, x, 2, 32);
    assert p == Quad(A, B, C, D);
    A := Op(2, A, B, C, D, x[1], 4, 0xa4beea44);
    D := Op(2, D, A, B, C, x[4], 11, 0x4bdecfa9);
    C := Op(2, C, D, A, B, x[7], 16, 0xf6bb4b60);
    B := Op(2, B, C, D, A, x[10], 23, 0xbebfbc70);
    p := FourSteps(p, x, 2, 36);
    assert p == Quad(A, B, C, D);
    A := Op(2, A, B, C, D, x[13], 4, 0x289b7ec6);
    D := Op(2, D, A, B, C, x[0], 11, 0xeaa127fa);
    C := Op(2, C, D, A, B, x[3], 16, 0xd4ef3085);
    B := Op(2, B, C, D, A, x[6], 23, 0x04881d05);
    p := FourSteps(p, x, 2, 40);
    assert p == Quad(A, B, C, D);
    A := Op(2, A, B, C, D, x[9], 4, 0xd9d4d039);
    D := Op(2, D, A, B, C, x[12], 11, 0xe6db99e5);
    C := Op(2, C, D, A, B, x[15], 16, 0x1fa27cf8);
    B := Op(2, B, C, D, A, x[2], 23, 0xc4ac5665);
    p := FourSteps(p, x, 2, 44);
    assert p == Quad(A, B, C, D);
    StepsUnfold(p, x, 48, 48);
    r := Quad(A, B, C, D);
  }

  /** What RFC 1321 has for round 4. */
  lemma Table4()
    ensures Shift(3, 0) == 6 && Shift(3, 1) == 10 && Shift(3, 2) == 15 && Shift(3, 3) == 21
    ensures WordIndex(48) == 0 && WordIndex(49) == 7 && WordIndex(50) == 14 && WordIndex(51) == 5
    ensures WordIndex(52) == 12 && WordIndex(53) == 3 && WordIndex(54) == 10 && WordIndex(55) == 1
    ensures WordIndex(56) == 8 && WordIndex(57) == 15 && WordIndex(58) == 6 && WordIndex(59) == 13
    ensures WordIndex(60) == 4 && WordIndex(61) == 11 && WordIndex(62) == 2 && WordIndex(63) == 9
    ensures T(48) == 0xf4292244 && T(49) == 0x432aff97
    ensures T(50) == 0xab9423a7 && T(51) == 0xfc93a039
    ensures T(52) == 0x655b59c3 && T(53) == 0x8f0ccc92
    ensures T(54) == 0xffeff47d && T(55) == 0x85845dd1
    ensures T(56) == 0x6fa87e4f && T(57) == 0xfe2ce6e0
    ensures T(58) == 0xa3014314 && T(59) == 0x4e0811a1
    ensures T(60) == 0xf7537e82 && T(61) == 0xbd3af235
    ensures T(62) == 0x2ad7d2bb && T(63) == 0xeb86d391
  {
  }

  /** Lines 408-426 */
  method Round4(q: Quad, x: seq<word>) returns (r: Quad)
    requires |x| == 16
    ensures r == Steps(q, x, 48, 64)
  {
    hide Op, Steps, WordIndex, Shift, T;
    Table4();
    var A, B, C, D := q.a, q.b, q.c, q.d;
    ghost var p := q;
    A := Op(3, A, B, C, D, x[0], 6, 0xf4292244);
    D := Op(3, D, A, B, C, x[7], 10, 0x432aff97);
    C := Op(3, C, D, A, B, x[14], 15, 0xab9423a7);
    B := Op(3, B, C, D, A, x[5], 21, 0xfc93a039);
    p := FourSteps(p, x, 3, 48);
    assert p == Quad(A, B, C, D);
    A := Op(3, A, B, C, D, x[12], 6, 0x655b59c3);
    D := Op(3, D, A, B, C, x[3], 10, 0x8f0ccc92);
    C := Op(3, C, D, A, B, x[10], 15, 0xffeff47d);
    B := Op(3, B, C, D, A, x[1], 21, 0x85845dd1);
    p := FourSteps(p, x, 3, 52);
    assert p == Quad(A, B, C, D);
    A := Op(3, A, B, C, D, x[8], 6, 0x6fa87e4f);
    D := Op(3, D, A, B, C, x[15], 10, 0xfe2ce6e0);
    C := Op(3, C, D, A, B, x[6], 15, 0xa3014314);
    B := Op(3, B, C, D, A, x[13], 21, 0x4e0811a1);
    p := FourSteps(p, x, 3, 56);
    assert p == Quad(A, B, C, D);
    A := Op(3, A, B, C, D, x[4], 6, 0xf7537e82);
    D := Op(3, D, A, B, C, x[11], 10, 0xbd3af235);
    C := Op(3, C, D, A, B, x[2], 15, 0x2ad7d2bb);
    B := Op(3, B, C, D, A, x[9], 21, 0xeb86d391);
    p := FourSteps(p, x, 3, 60);
    assert p == Quad(A, B, C, D);
    StepsUnfold(p, x, 64, 64);
    r := Quad(A, B, C, D);
  }

  /** One pass of the block loop. */
  method OneBlock(q: Quad, block: seq<byte>) returns (r: Quad)
    requires |block| == 64
    ensures r == Compress(q, block)
  {
    hide Steps;
    var x := Words(block);
    StepsCompose(q, x, 0, 16, 64);
    r := Round1(q, x);
    StepsCompose(r, x, 16, 32, 64);
    r := Round2(r, x);
    StepsCompose(r, x, 32, 48, 64);
    r := Round3(r, x);
    r := Round4(r, x);
    r := Sum(r, q);
  }
}
