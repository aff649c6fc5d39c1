/**
 MD5 in numbers: what the operations on words and bytes mean, apart from the
 shifts and masks that compute them.
 */
module Md5Laws {
  import opened Md5Spec
  import opened Md5Block
  import opened Md5Ctx
  import opened Powers

  // -------------------------------------------------------------------------
  // Words as numbers
  // -------------------------------------------------------------------------

  /** Byte k of a number written low-order byte first. */
  lemma {:induction false} LittleEndianAt(n: nat, w: nat, k: nat)
    requires k < w
    ensures LittleEndian(n, w)[k] as nat == n / Pow256(k) % 256
  {
    if k > 0 {
      LittleEndianAt(n / 256, w - 1, k - 1);
      DivideTwice(n, Pow256(k - 1));
    }
  }

  lemma DivideTwice(n: nat, b: nat)
    requires b > 0
    ensures 256 * b > 0 && n / 256 / b == n / (256 * b)
  {
    var q, r := n / 256 / b, n / 256 % b;
    assert n / 256 == b * q + r;
    Regroup(b, q);
    Quotient(n, 256 * b, q, 256 * r + n % 256);
  }

  lemma Regroup(b: nat, q: nat)
    ensures 256 * b * q == 256 * (b * q)
  {
  }

  lemma Quotient(n: nat, m: nat, q: nat, r: nat)
    requires m > 0 && n == m * q + r && r < m
    ensures n / m == q
  {
    ModuloUnique(n, m, q, r);
    if n / m < q {
      Grows(m, n / m, q);
    } else if q < n / m {
      Grows(m, q, n / m);
    }
  }

  lemma Grows(m: nat, x: nat, y: nat)
    requires m > 0 && x < y
    ensures m * x < m * y
  {
  }

  // The operations on bits that words are made with, apart from each other.
  function Value(w: word): nat { w as nat }
  function Bits(b: byte): word { b as word }
  function Twice(v: word): word { v << 1 }
  function TwiceAndOne(v: word): word { (v << 1) | 1 }
  function Put8(a: word, b: word): word { a | (b << 8) }
  function Put16(a: word, b: word): word { a | (b << 16) }
  function Put24(a: word, b: word): word { a | (b << 24) }
  predicate Under(v: word, bound: word) { v < bound }

  lemma Even(v: word)
    requires Under(v, 0x8000_0000)
    ensures Value(Twice(v)) == 2 * Value(v)
  {
  }

  lemma Odd(v: word)
    requires Under(v, 0x8000_0000)
    ensures Value(TwiceAndOne(v)) == 2 * Value(v) + 1
  {
  }

  lemma UnderTop(v: word)
    requires Value(v) < 0x8000_0000
    ensures Under(v, 0x8000_0000)
  {
  }

  lemma ThereAndBack(w: word)
    ensures Value(w) as word == w
  {
  }

  lemma Zero()
    ensures Value(0) == 0
  {
  }

  /** The word that stands for n, bit by bit. */
  lemma {:induction false} WordOf(n: nat) returns (w: word)
    requires n < M
    ensures Value(w) == n
  {
    hide Value, Twice, TwiceAndOne, Under;
    if n == 0 {
      w := 0;
      Zero();
    } else {
      var v := WordOf(n / 2);
      UnderTop(v);
      if n % 2 == 0 {
        Even(v);
        w := Twice(v);
      } else {
        Odd(v);
        w := TwiceAndOne(v);
      }
    }
  }

  lemma NumberOf(n: nat)
    requires n < M
    ensures Value(n as word) == n
  {
    hide Value;
    var w := WordOf(n);
    ThereAndBack(w);
  }

  lemma ByteWord(b: byte)
    ensures Value(Bits(b)) == b as nat && Under(Bits(b), 0x100)
  {
    hide Value, Under;
    NumberOf(b as nat);
    SmallWord(b as word);
  }

  lemma SmallWord(w: word)
    requires Value(w) < 0x100
    ensures Under(w, 0x100)
  {
  }

  lemma JoinTwo(a: word, b: word)
    requires Under(a, 0x100) && Under(b, 0x100)
    ensures Under(Put8(a, b), 0x1_0000) && Value(Put8(a, b)) == Value(a) + 0x100 * Value(b)
  {
  }

  lemma JoinThree(a: word, b: word)
    requires Under(a, 0x1_0000) && Under(b, 0x100)
    ensures Under(Put16(a, b), 0x100_0000) && Value(Put16(a, b)) == Value(a) + 0x1_0000 * Value(b)
  {
  }

  lemma JoinFour(a: word, b: word)
    requires Under(a, 0x100_0000) && Under(b, 0x100)
    ensures Value(Put24(a, b)) == Value(a) + 0x100_0000 * Value(b)
  {
  }

  lemma WordIsPut(s: seq<byte>, i: nat)
    requires i + 4 <= |s|
    ensures Word(s, i) == Put24(Put16(Put8(Bits(s[i]), Bits(s[i + 1])), Bits(s[i + 2])), Bits(s[i + 3]))
  {
  }

  lemma WordIsNumber(s: seq<byte>, i: nat)
    requires i + 4 <= |s|
    ensures Value(Word(s, i)) ==
            s[i] as nat + 0x100 * s[i + 1] as nat + 0x1_0000 * s[i + 2] as nat + 0x100_0000 * s[i + 3] as nat
  {
    hide Value, Under, Put8, Put16, Put24, Word, Bits;
    ByteWord(s[i]);
    ByteWord(s[i + 1]);
    ByteWord(s[i + 2]);
    ByteWord(s[i + 3]);
    var a, b, c, d := Bits(s[i]), Bits(s[i + 1]), Bits(s[i + 2]), Bits(s[i + 3]);
    JoinTwo(a, b);
    JoinThree(Put8(a, b), c);
    JoinFour(Put16(Put8(a, b), c), d);
    WordIsPut(s, i);
  }

  /** The words of a block are loaded low-order byte first, as the digest is written. */
  lemma WordIsLittleEndian(s: seq<byte>, i: nat)
    requires i + 4 <= |s|
    ensures LittleEndian(Word(s, i) as nat, 4) == s[i..i + 4]
  {
    hide Word;
    WordIsNumber(s, i);
    FourDigits(s[i] as nat, s[i + 1] as nat, s[i + 2] as nat, s[i + 3] as nat);
    assert s[i..i + 4] == [s[i], s[i + 1], s[i + 2], s[i + 3]];
  }

  lemma FourDigits(a: nat, b: nat, c: nat, d: nat)
    requires a < 256 && b < 256 && c < 256 && d < 256
    ensures LittleEndian(a + 0x100 * b + 0x1_0000 * c + 0x100_0000 * d, 4) ==
            [a as byte, b as byte, c as byte, d as byte]
  {
    var z := c + 256 * d;
    var y := b + 256 * z;
    var n := a + 256 * y;
    assert n % 256 == a && n / 256 == y && y % 256 == b && y / 256 == z && z % 256 == c && z / 256 == d;
    assert LittleEndian(d, 1) == [d as byte] + LittleEndian(d / 256, 0);
    assert LittleEndian(z, 2) == [c as byte] + LittleEndian(d, 1);
    assert LittleEndian(y, 3) == [b as byte] + LittleEndian(z, 2);
    assert LittleEndian(n, 4) == [a as byte] + LittleEndian(y, 3);
  }

  // -------------------------------------------------------------------------
  // Rotation
  // -------------------------------------------------------------------------

  function Top(w: word): word { w >> 31 }
  function Low(w: word): word { w & 0x7fff_ffff }

  lemma TopBit(w: word)
    ensures Value(w) == Value(Low(w)) + 0x8000_0000 * Value(Top(w)) && Under(Low(w), 0x8000_0000)
    ensures Top(w) == 0 || Top(w) == 1
  {
  }

  lemma RotateByOne(w: word)
    ensures Top(w) == 0 ==> Rotl(w, 1) == Twice(Low(w))
    ensures Top(w) == 1 ==> Rotl(w, 1) == TwiceAndOne(Low(w))
  {
    BitsByOne(w);
  }

  lemma BitsByOne(w: word)
    ensures w >> 31 == 0 ==> (w << 1) | (w >> 31) == (w & 0x7fff_ffff) << 1
    ensures w >> 31 == 1 ==> (w << 1) | (w >> 31) == ((w & 0x7fff_ffff) << 1) | 1
  {
  }

  lemma OneOrNone()
    ensures Value(0) == 0 && Value(1) == 1
  {
  }

  /** Rotation by one bit: the top bit comes back at the bottom. */
  lemma RotlOnce(w: word) returns (top: nat, low: nat)
    ensures top < 2 && low < 0x8000_0000 && Value(w) == 0x8000_0000 * top + low
    ensures Value(Rotl(w, 1)) == 2 * low + top
  {
    hide Value, Top, Low, Twice, TwiceAndOne, Under, Rotl;
    TopBit(w);
    OneOrNone();
    top, low := Value(Top(w)), Value(Low(w));
    Even(Low(w));
    Odd(Low(w));
    RotateByOne(w);
    InRange(Rotl(w, 1));
  }

  lemma InRange(w: word)
    ensures Value(w) < M
  {
  }

  lemma RotateOneMore(w: word, s: word)
    requires 0 < s < 31
    ensures var v := (w << s) | (w >> (32 - s));
            (w << (s + 1)) | (w >> (32 - (s + 1))) == (v << 1) | (v >> 31)
  {
  }

  lemma RotlOneMore(w: word, s: word)
    requires 0 < s < 31
    ensures Rotl(w, s + 1) == Rotl(Rotl(w, s), 1)
  {
    RotateOneMore(w, s);
  }

  lemma Pow2Of31()
    ensures Pow2(31) == 0x8000_0000 && Pow2(32) == M
  {
    assert Pow2(8) == 256;
    Pow2Adds(8, 8);
    Pow2Adds(16, 8);
    Pow2Adds(24, 7);
  }

  lemma NextShift(s: word)
    requires Under(s, 31)
    ensures Value(s + 1) == Value(s) + 1
  {
  }

  lemma SmallShift(s: word)
    requires Value(s) < 31
    ensures Under(s, 31)
  {
  }

  lemma ShiftPositive(s: word)
    ensures Value(s) > 0 <==> s > 0
  {
  }

  lemma SameWord(x: word, y: word)
    requires Value(x) == Value(y)
    ensures x == y
  {
    hide Value;
    ThereAndBack(x);
    ThereAndBack(y);
  }

  lemma ShiftOf(k: nat)
    requires 0 < k < 31
    ensures (k + 1) as word == (k as word) + 1 && 0 < k as word < 31
  {
    hide Value;
    NumberOf(k);
    NumberOf(k + 1);
    SmallShift(k as word);
    NextShift(k as word);
    ShiftPositive(k as word);
    SameWord((k + 1) as word, (k as word) + 1);
  }

  lemma SplitHigh(high: nat, k: nat)
    requires 0 < k < 31
    ensures high * Pow2(31 - k) == (high / 2) * Pow2(32 - k) + (high % 2) * Pow2(31 - k)
  {
    var p, h, b := Pow2(31 - k), high / 2, high % 2;
    assert Pow2(32 - k) == 2 * p;
    assert (2 * h + b) * p == h * (2 * p) + b * p;
  }

  /** What is above the low bits fits the bits above them. */
  lemma HighFits(k: nat, high: nat, low: nat)
    requires k <= 32 && high * Pow2(32 - k) + low < M
    ensures high < Pow2(k)
  {
    var p := Pow2(32 - k);
    Pow2Adds(k, 32 - k);
    Pow2Of31();
    if high >= Pow2(k) {
      Times(Pow2(k), high, p);
    }
  }

  lemma Times(x: nat, y: nat, p: nat)
    requires x <= y
    ensures x * p <= y * p
  {
  }

  /** The new low part, shifted, and the high part still fit 31 bits. */
  lemma LowFits(k: nat, high: nat, low: nat)
    requires 0 < k < 31 && low < Pow2(31 - k) && high < Pow2(k)
    ensures low * Pow2(k) + high < 0x8000_0000
  {
    Pow2Adds(31 - k, k);
    Pow2Of31();
    Times(low + 1, Pow2(31 - k), Pow2(k));
    assert (low + 1) * Pow2(k) == low * Pow2(k) + Pow2(k);
  }

  lemma Spread(b: nat, p: nat, low: nat, q: nat)
    ensures (b * p + low) * q == b * (p * q) + low * q
  {
  }

  lemma CarriedBit(b: nat, low: nat, j: nat, half: nat)
    requires j <= 31
    ensures (b * Pow2(31 - j) + low) * Pow2(j) + half == 0x8000_0000 * b + (low * Pow2(j) + half)
  {
    hide Pow2;
    Pow2Adds(31 - j, j);
    Pow2Of31();
    Spread(b, Pow2(31 - j), low, Pow2(j));
  }

  lemma DoubledPower(low: nat, j: nat)
    ensures low * Pow2(j + 1) == 2 * (low * Pow2(j))
  {
    assert Pow2(j + 1) == 2 * Pow2(j);
  }

  /** The lowest of the high-order bits goes to the others. */
  function Lowered(k: nat, high: nat, low: nat): nat
    requires k <= 32
  {
    high % 2 * Pow2(32 - k) + low
  }

  lemma TopAndRest(x: nat, b: nat, y: nat, top: nat, rest: nat)
    requires x == 0x8000_0000 * b + y && y < 0x8000_0000
    requires x == 0x8000_0000 * top + rest && rest < 0x8000_0000
    ensures top == b && rest == y
  {
  }

  lemma UnderIt(twice: nat, a: nat, high: nat, top: nat, rest: nat)
    requires twice == 2 * a && rest == a + high / 2 && top == high % 2
    ensures 2 * rest + top == twice + high
  {
  }

  /** One bit more of the number that rotation by j bits leaves. */
  lemma OneBitMore(x: nat, j: nat, high: nat, low: nat, top: nat, rest: nat)
    requires 0 < j < 31 && low < Pow2(31 - j) && high / 2 < Pow2(j)
    requires x == Lowered(j + 1, high, low) * Pow2(j) + high / 2
    requires x == 0x8000_0000 * top + rest && rest < 0x8000_0000
    ensures 2 * rest + top == low * Pow2(j + 1) + high
  {
    hide Pow2;
    var a := low * Pow2(j);
    CarriedBit(high % 2, low, j, high / 2);
    LowFits(j, high / 2, low);
    TopAndRest(x, high % 2, a + high / 2, top, rest);
    DoubledPower(low, j);
    UnderIt(low * Pow2(j + 1), a, high, top, rest);
  }

  lemma SplitFits(b: nat, j: nat, low: nat)
    requires b < 2 && j < 31 && low < Pow2(31 - j)
    ensures b * Pow2(31 - j) + low < Pow2(32 - j)
  {
    assert Pow2(32 - j) == 2 * Pow2(31 - j);
  }

  /** The word w in two parts, the k high-order bits and the others. */
  predicate Parts(w: word, k: nat, high: nat, low: nat)
    requires k <= 32
  {
    Value(w) == high * Pow2(32 - k) + low && low < Pow2(32 - k)
  }

  /** The word v with the parts exchanged. */
  predicate Exchanged(v: word, k: nat, high: nat, low: nat) {
    Value(v) == low * Pow2(k) + high
  }

  lemma FirstBit(w: word, high: nat, low: nat)
    requires Parts(w, 1, high, low)
    ensures Exchanged(Rotl(w, 1), 1, high, low)
  {
    hide Rotl, Value;
    var top, rest := RotlOnce(w);
    Pow2Of31();
    assert Pow2(1) == 2 * Pow2(0) == 2;
  }

  lemma FewerParts(w: word, j: nat, high: nat, low: nat)
    requires 0 < j < 31 && Parts(w, j + 1, high, low)
    ensures Parts(w, j, high / 2, Lowered(j + 1, high, low))
  {
    hide Value, Pow2;
    SplitHigh(high, j);
    SplitFits(high % 2, j, low);
  }

  lemma NextBit(w: word, v: word, j: nat, high: nat, low: nat)
    requires 0 < j < 31 && Parts(w, j + 1, high, low) && Parts(w, j, high / 2, Lowered(j + 1, high, low))
    requires Exchanged(v, j, high / 2, Lowered(j + 1, high, low))
    ensures Exchanged(Rotl(v, 1), j + 1, high, low)
  {
    hide Rotl, Value, Pow2;
    InRange(w);
    HighFits(j, high / 2, Lowered(j + 1, high, low));
    var top, rest := RotlOnce(v);
    OneBitMore(Value(v), j, high, low, top, rest);
  }

  lemma {:induction false} Rotates(w: word, k: nat, high: nat, low: nat)
    requires 0 < k < 32 && Parts(w, k, high, low)
    ensures 0 < k as word < 32 && Exchanged(Rotl(w, k as word), k, high, low)
  {
    hide Rotl, Value, Pow2, Parts, Exchanged, Lowered;
    if k == 1 {
      FirstBit(w, high, low);
    } else {
      var j := k - 1;
      FewerParts(w, j, high, low);
      Rotates(w, j, high / 2, Lowered(k, high, low));
      ShiftOf(j);
      NextBit(w, Rotl(w, j as word), j, high, low);
      RotlOneMore(w, j as word);
    }
  }

  /**
   Rotation left by k bits: the k high-order bits of the word become the
   low-order bits, and the others move up.
   */
  lemma RotlRotates(w: word, k: nat, high: nat, low: nat)
    requires 0 < k < 32 && w as nat == high * Pow2(32 - k) + low && low < Pow2(32 - k)
    ensures 0 < k as word < 32 && Rotl(w, k as word) as nat == low * Pow2(k) + high
  {
    hide Rotl, Pow2;
    Rotates(w, k, high, low);
  }
}
