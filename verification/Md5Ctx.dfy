/**
 The streaming context of siege-4.1.7/src/md5.c. Up to 64 bytes stay in the
 buffer unprocessed between calls, and a two-word counter counts the bytes
 handed to the block function.
 */
module Md5Ctx {
  import opened Md5Spec
  import Md5Block

  const M: nat := 0x1_0000_0000
  const MM: nat := 0x1_0000_0000_0000_0000

  // -------------------------------------------------------------------------
  // Absorbing, counting, trailer
  // -------------------------------------------------------------------------

  lemma {:induction false} AbsorbAppend(q: Quad, s: seq<byte>, t: seq<byte>)
    requires |s| % 64 == 0
    ensures Absorb(q, s + t) == Absorb(Absorb(q, s), t)
    decreases |s|
  {
    hide Compress;
    if |s| < 64 {
      assert s + t == t;
    } else {
      assert (s + t)[..64] == s[..64] && (s + t)[64..] == s[64..] + t;
      AbsorbAppend(Compress(q, s[..64]), s[64..], t);
    }
  }

  /** Lines 295-296: both words of the counter after a block call of n bytes. */
  function CountUp(t0: nat, t1: nat, n: nat): (nat, nat) {
    var s0 := (t0 + n) % M;
    (s0, (t1 + n / M + (if s0 < n then 1 else 0)) % M)
  }

  /** The carry test compares the new low word with all of n, so a call of 2^32 bytes or more always carries. */
  predicate Miscounts(t0: nat, n: nat) {
    n >= M && t0 + n % M < M
  }

  /** The counter is exact unless the call miscounts, and then it is 2^32 too high. */
  lemma CountUpExact(t0: nat, t1: nat, n: nat)
    requires t0 < M && t1 < M
    ensures var (s0, s1) := CountUp(t0, t1, n);
            && s0 < M && s1 < M
            && s0 + M * s1 == (t0 + M * t1 + n + (if Miscounts(t0, n) then M else 0)) % MM
            && (s0 + M * s1 == (t0 + M * t1 + n) % MM <==> !Miscounts(t0, n))
  {
    var l, h := n % M, n / M;
    var c := if t0 + l >= M then 1 else 0;
    var (s0, s1) := CountUp(t0, t1, n);
    assert n == M * h + l;
    assert s0 == t0 + l - M * c;
    var up := if s0 < n then 1 else 0;
    assert up == if Miscounts(t0, n) then c + 1 else c;
    HighWord(s0, t1 + h + up);
  }

  lemma HighWord(lo: nat, y: nat)
    requires lo < M
    ensures lo + M * (y % M) == (lo + M * y) % MM
  {
    var q := y / M;
    assert lo + M * y == lo + M * (y % M) + MM * q;
  }

  function Pow256(k: nat): (p: nat)
    ensures p > 0
  {
    if k == 0 then 1 else 256 * Pow256(k - 1)
  }

  lemma {:induction false} LittleEndianJoins(n: nat, h: nat, k: nat, w: nat)
    requires n < Pow256(k)
    ensures LittleEndian(n + Pow256(k) * h, k + w) == LittleEndian(n, k) + LittleEndian(h, w)
  {
    if k > 0 {
      var y := Pow256(k - 1) * h;
      HighBytes(k, h);
      OneByteOff(n, y);
      LittleEndianJoins(n / 256, h, k - 1, w);
    }
  }

  lemma HighBytes(k: nat, h: nat)
    requires k > 0
    ensures Pow256(k) * h == 256 * (Pow256(k - 1) * h)
  {
    assert Pow256(k) == 256 * Pow256(k - 1);
  }

  lemma OneByteOff(n: nat, y: nat)
    ensures (n + 256 * y) / 256 == n / 256 + y && (n + 256 * y) % 256 == n % 256
  {
  }

  lemma TwoWords(lo: nat, hi: nat, q: nat)
    requires lo < M && hi < M
    ensures LittleEndian(lo + M * (hi + M * q), 8) == LittleEndian(lo, 4) + LittleEndian(hi, 4)
  {
    FourBytes(q);
    hide LittleEndian, Pow256;
    LittleEndianJoins(lo, hi + M * q, 4, 4);
    LittleEndianJoins(hi, q, 4, 0);
  }

  lemma FourBytes(q: nat)
    ensures Pow256(4) == M && LittleEndian(q, 0) == []
  {
  }

  lemma EightFold(t: nat)
    requires t < M
    ensures 8 * t == t * 8 % M + M * (t / 0x2000_0000) && t * 8 % M + 8 <= M && t / 0x2000_0000 < 8
  {
    var c, r := t / 0x2000_0000, t % 0x2000_0000;
    assert t * 8 == M * c + 8 * r;
  }

  /** Lines 120-123: two words hold eight times a count kept modulo 2^64. */
  lemma TrailerIsBitLength(t0: nat, t1: nat, count: nat)
    requires t0 < M && t1 < M && t0 + M * t1 == count % MM
    ensures LittleEndian(t0 * 8 % M, 4) + LittleEndian(t1 * 8 % M + t0 / 0x2000_0000, 4) == LittleEndian(8 * count, 8)
  {
    EightFold(t0);
    EightFold(t1);
    var q := 8 * (count / MM) + t1 / 0x2000_0000;
    TwoWords(t0 * 8 % M, t1 * 8 % M + t0 / 0x2000_0000, q);
  }

  // -------------------------------------------------------------------------
  // The context
  // -------------------------------------------------------------------------

  /** The registers, the counter and the buffer describe the message `fed`. */
  ghost predicate Describes(q: Quad, kept: seq<byte>, t0: nat, t1: nat, fed: seq<byte>, lost: nat) {
    && |kept| <= 64 && |kept| <= |fed| && (|fed| - |kept|) % 64 == 0
    && fed[|fed| - |kept|..] == kept
    && q == Absorb(START, fed[..|fed| - |kept|])
    && t0 < M && t1 < M && t0 + M * t1 == (|fed| - |kept| + M * lost) % MM
  }

  lemma AddWithin(a: nat, b: nat)
    ensures (a % MM + b) % MM == (a + b) % MM
  {
    var x := a % MM + b;
    ModuloUnique(a + b, MM, a / MM + x / MM, x % MM);
  }

  lemma SixtyFours(a: nat, b: nat)
    requires a % 64 == 0 && b % 64 == 0
    ensures (a + b) % 64 == 0
  {
  }

  lemma SixtyFourLeft(a: nat, b: nat)
    requires a % 64 == 0 && (a + b) % 64 == 0
    ensures b % 64 == 0
  {
  }

  lemma ShortCount(t0: nat, t1: nat, n: nat)
    requires t1 < M && n < M
    ensures CountUp(t0, t1, n) == ((t0 + n) % M, if (t0 + n) % M < n then (t1 + 1) % M else t1)
  {
  }

  lemma OneOrTwoBlocks(held: nat)
    requires 64 < held <= 128
    ensures held / 64 * 64 == (if held == 128 then 128 else 64) && held % 64 == held - held / 64 * 64
  {
  }

  lemma PadIsGap(n: nat, bytes: nat)
    requires bytes <= 64 && bytes <= n && (n - bytes) % 64 == 0
    ensures (if bytes >= 56 then 64 + 56 - bytes else 56 - bytes) == 1 + Gap(n)
  {
  }

  lemma BlocksDescribe(q: Quad, t0: nat, t1: nat, fed: seq<byte>, lost: nat, kept: seq<byte>, more: seq<byte>)
    requires Describes(q, kept, t0, t1, fed, lost) && |kept + more| % 64 == 0
    ensures var (s0, s1) := CountUp(t0, t1, |kept + more|);
            var lost' := lost + if Miscounts(t0, |kept + more|) then 1 else 0;
            Describes(Absorb(q, kept + more), [], s0, s1, fed + more, lost')
  {
    hide Absorb;
    var n := |fed| - |kept|;
    var k := |kept + more|;
    assert fed == fed[..n] + kept;
    assert fed + more == fed[..n] + (kept + more);
    AbsorbAppend(START, fed[..n], kept + more);
    assert (fed + more)[..|fed + more|] == fed + more;
    SixtyFours(n, k);
    CountUpExact(t0, t1, k);
    AddWithin(n + M * lost, k + if Miscounts(t0, k) then M else 0);
  }

  /** Bytes that stay in the buffer join the message without touching registers or counter. */
  lemma KeepingDescribes(q: Quad, kept: seq<byte>, t0: nat, t1: nat, fed: seq<byte>, lost: nat, more: seq<byte>)
    requires Describes(q, kept, t0, t1, fed, lost) && |kept + more| <= 64
    ensures Describes(q, kept + more, t0, t1, fed + more, lost)
  {
    hide Absorb;
    var n := |fed| - |kept|;
    assert |fed + more| - |kept + more| == n;
    assert (fed + more)[..n] == fed[..n];
    assert (fed + more)[n..] == fed[n..] + more;
  }

  // What md5_process_bytes does with len bytes when `held` are in the buffer.

  /** Bytes that go into the buffer first. */
  function TopUp(held: nat, len: nat): nat
    requires held <= 64
  {
    if held == 0 then 0 else if 128 - held > len then len else 128 - held
  }

  /** Bytes of buffer that the top-up makes ready for the block function. */
  function Ready(held: nat, len: nat): nat
    requires held <= 64
  {
    if held != 0 && held + TopUp(held, len) > 64 then (held + TopUp(held, len)) / 64 * 64 else 0
  }

  /** Bytes of buffer that the top-up leaves there. */
  function Kept(held: nat, len: nat): (n: nat)
    requires held <= 64
    ensures n <= 64
  {
    var n := held + TopUp(held, len);
    if n > 64 then n % 64 else n
  }

  /** Bytes of the source that go into the empty buffer at last; an unaligned source may leave a whole block. */
  function LeftBehind(len: nat, unaligned: bool): (n: nat)
    ensures n <= 64 && n <= len
  {
    if len <= 64 then len else if unaligned then (len - 1) % 64 + 1 else len % 64
  }

  /** The blocks taken straight from a source of `len` bytes, and whether counting them goes wrong. */
  lemma BlocksOf(len: nat, t0: nat, unaligned: bool)
    requires t0 < M
    ensures var n := len / 64 * 64;
            && n % 64 == 0 && n <= len && (len > 64 ==> len - n == LeftBehind(len, false))
            && (Loses(0, t0, len, unaligned) <==> !unaligned && len > 64 && Miscounts(t0, n))
    ensures len <= 64 ==> LeftBehind(len, unaligned) == len
  {
  }

  lemma LastBlock(len: nat, n: nat)
    requires n < len <= n + 64 && n % 64 == 0 && len > 64
    ensures len - n == LeftBehind(len, true)
  {
  }

  /** Bytes in the buffer after the call. */
  function HeldAfter(held: nat, len: nat, unaligned: bool): (n: nat)
    requires held <= 64
    ensures n <= 64
  {
    if TopUp(held, len) < len then LeftBehind(len - TopUp(held, len), unaligned) else Kept(held, len)
  }

  lemma HeldCases(held: nat, len: nat, unaligned: bool)
    requires held <= 64
    ensures TopUp(held, len) < len ==> HeldAfter(held, len, unaligned) == LeftBehind(len - TopUp(held, len), unaligned)
    ensures TopUp(held, len) >= len ==> HeldAfter(held, len, unaligned) == Kept(held, len)
    ensures held == 0 ==> TopUp(held, len) == 0 && Kept(held, 0) == 0
  {
  }

  /** The call that hands whole blocks straight from an aligned source to the block function miscounts. */
  predicate Loses(held: nat, t0: nat, len: nat, unaligned: bool)
    requires held <= 64
  {
    var rest := len - TopUp(held, len);
    !unaligned && rest > 64 && Miscounts((t0 + Ready(held, len)) % M, rest / 64 * 64)
  }

  lemma NothingLeft(t0: nat, unaligned: bool)
    ensures !Loses(0, t0, 0, unaligned)
  {
  }

  lemma LosesRest(held: nat, t0: nat, len: nat, unaligned: bool)
    requires held <= 64
    ensures Loses(held, t0, len, unaligned) == Loses(0, (t0 + Ready(held, len)) % M, len - TopUp(held, len), unaligned)
  {
  }

  lemma ThreeParts(fed: seq<byte>, data: seq<byte>, off: nat, n: nat)
    requires off + n <= |data|
    ensures fed + data[..off] + data[off..][..n] + data[off + n..] == fed + data
    ensures off == 0 ==> fed + data[off..][..n] + data[off + n..] == fed + data
  {
  }

  lemma AbsorbBlock(q: Quad, data: seq<byte>, n: nat)
    requires |data| % 64 == 0 && n % 64 == 0 && n < |data|
    ensures n + 64 <= |data| && Absorb(q, data[n..]) == Absorb(Compress(q, data[n..n + 64]), data[n + 64..])
  {
    hide Compress;
    assert data[n..][..64] == data[n..n + 64] && data[n..][64..] == data[n + 64..];
  }

  lemma AbsorbNothing(q: Quad, data: seq<byte>)
    ensures data == [] ==> Absorb(q, data) == q
  {
  }

  class Context {
    var A: word
    var B: word
    var C: word
    var D: word
    var total0: nat
    var total1: nat
    var buflen: nat
    const buffer: array<byte>

    /** All bytes given to ProcessBytes so far. */
    ghost var fed: seq<byte>
    /** How many block calls have miscounted. */
    ghost var lost: nat

    function Registers(): Quad
      reads this
    {
      Quad(A, B, C, D)
    }

    ghost predicate Valid()
      reads this, buffer
    {
      && buffer.Length == 128 && buflen <= 64 && total0 < M
      && Describes(Registers(), buffer[..buflen], total0, total1, fed, lost)
    }

    /** md5_init_ctx */
    constructor ()
      ensures Valid() && fed == [] && lost == 0 && fresh(buffer) && buflen == 0
    {
      A, B, C, D := 0x67452301, 0xefcdab89, 0x98badcfe, 0x10325476;
      total0, total1 := 0, 0;
      buflen := 0;
      buffer := new byte[128];
      fed, lost := [], 0;
    }

    /** Lines 292-296: the count of bytes, with the carry test of the source. */
    method CountBlocks(len: nat)
      modifies this`total0, this`total1, this`lost
      ensures (total0, total1) == CountUp(old(total0), old(total1), len)
      ensures lost == old(lost) + if Miscounts(old(total0), len) then 1 else 0
    {
      lost := lost + if Miscounts(total0, len) then 1 else 0;
      total0 := (total0 + len) % M;
      total1 := (total1 + len / M + (if total0 < len then 1 else 0)) % M;
    }

    /** md5_process_block */
    method ProcessBlock(data: seq<byte>)
      requires |data| % 64 == 0
      modifies this`A, this`B, this`C, this`D, this`total0, this`total1, this`lost
      ensures Registers() == Absorb(old(Registers()), data)
      ensures (total0, total1) == CountUp(old(total0), old(total1), |data|)
      ensures lost == old(lost) + if Miscounts(old(total0), |data|) then 1 else 0
    {
      hide Compress, Absorb, CountUp, Miscounts;
      var len := |data|;
      CountBlocks(len);
      var q := Registers();
      var words := 0;
      while words < len
        invariant 0 <= words <= len && (len - words) % 64 == 0
        invariant Absorb(q, data[words..]) == Absorb(old(Registers()), data)
        invariant (total0, total1) == CountUp(old(total0), old(total1), len)
        invariant lost == old(lost) + if Miscounts(old(total0), len) then 1 else 0
      {
        AbsorbBlock(q, data, words);
        q := Md5Block.OneBlock(q, data[words..words + 64]);
        words := words + 64;
      }
      AbsorbNothing(q, data[words..]);
      A, B, C, D := q.a, q.b, q.c, q.d;
    }

    /** memcpy into the buffer. */
    method CopyIn(at: nat, data: seq<byte>)
      requires at + |data| <= buffer.Length
      modifies buffer
      ensures buffer[..at + |data|] == old(buffer[..at]) + data
    {
      forall k | 0 <= k < |data| {
        buffer[at + k] := data[k];
      }
    }

    /** Lines 218-225: all whole blocks of a buffer that holds more than one block are processed. */
    method Drain(held: nat, ghost kept: seq<byte>, ghost more: seq<byte>)
      requires buffer.Length == 128 && 64 < held <= 128 && buffer[..held] == kept + more && |kept| <= 64
      requires Describes(Registers(), kept, total0, total1, fed, lost)
      modifies this, buffer
      ensures Valid() && fed == old(fed) + more && lost == old(lost)
      ensures buflen == held % 64 && total0 == (old(total0) + held / 64 * 64) % M
    {
      hide Absorb, Describes;
      var n := held / 64 * 64;
      OneOrTwoBlocks(held);
      ghost var first, last := more[..n - |kept|], more[n - |kept|..];
      assert buffer[..n] == kept + first && buffer[n..held] == last;
      BlocksDescribe(Registers(), total0, total1, fed, lost, kept, first);
      ProcessBlock(buffer[..n]);
      CopyIn(0, buffer[n..held]);
      buflen := held % 64;
      assert buffer[..buflen] == [] + last;
      KeepingDescribes(Registers(), [], total0, total1, fed + first, lost, last);
      assert fed + first + last == fed + more;
      fed := fed + more;
    }

    /** Lines 212-228: the buffer is topped up, and its whole blocks processed once it holds more than one. */
    method FillBuffer(data: seq<byte>) returns (add: nat)
      requires Valid() && buflen != 0
      modifies this, buffer
      ensures Valid() && add == TopUp(old(buflen), |data|) && fed == old(fed) + data[..add]
      ensures buflen == Kept(old(buflen), |data|) && (add < |data| ==> buflen == 0)
      ensures lost == old(lost) && total0 == (old(total0) + Ready(old(buflen), |data|)) % M
    {
      hide Absorb, Describes;
      var left := buflen;
      ghost var kept := buffer[..left];
      add := if 128 - left > |data| then |data| else 128 - left;
      CopyIn(left, data[..add]);
      if left + add > 64 {
        Drain(left + add, kept, data[..add]);
      } else {
        buflen := left + add;
        KeepingDescribes(Registers(), kept, total0, total1, fed, lost, data[..add]);
        fed := fed + data[..add];
      }
    }

    /** md5_process_block on the next bytes of the message, while the buffer is empty. */
    method WholeBlock(data: seq<byte>)
      requires Valid() && buflen == 0 && |data| % 64 == 0
      modifies this
      ensures Valid() && buflen == 0 && fed == old(fed) + data
      ensures lost == old(lost) + if Miscounts(old(total0), |data|) then 1 else 0
    {
      hide Absorb;
      assert buffer[..0] == [] && [] + data == data;
      BlocksDescribe(Registers(), total0, total1, fed, lost, [], data);
      ProcessBlock(data);
      fed := fed + data;
    }

    /** Lines 232-257: whole blocks straight from the source; an unaligned source goes through the buffer. */
    method WholeBlocks(data: seq<byte>, unaligned: bool) returns (n: nat)
      requires Valid() && buflen == 0
      modifies this, buffer
      ensures n <= |data| && |data| - n == LeftBehind(|data|, unaligned)
      ensures Valid() && buflen == 0 && fed == old(fed) + data[..n]
      ensures lost == old(lost) + if Loses(0, old(total0), |data|, unaligned) then 1 else 0
    {
      hide Absorb, Describes, LeftBehind, Loses;
      n := 0;
      BlocksOf(|data|, total0, unaligned);
      if |data| > 64 {
        if unaligned {
          while |data| - n > 64
            invariant n < |data| && n % 64 == 0 && Valid() && buflen == 0
            invariant fed == old(fed) + data[..n] && lost == old(lost)
          {
            CopyThrough(data[n..n + 64]);
            assert data[..n] + data[n..n + 64] == data[..n + 64];
            n := n + 64;
          }
          LastBlock(|data|, n);
        } else {
          n := |data| / 64 * 64;
          WholeBlock(data[..n]);
        }
      }
    }

    /** Lines 245-248. */
    method CopyThrough(block: seq<byte>)
      requires Valid() && buflen == 0 && |block| == 64
      modifies this, buffer
      ensures Valid() && buflen == 0 && fed == old(fed) + block && lost == old(lost)
    {
      hide Absorb;
      assert buffer[..0] == [];
      CopyIn(0, block);
      assert buffer[..64] == block && buffer[..0] == [];
      WholeBlock(buffer[..64]);
    }

    /** Lines 260-264: what is left stays in the buffer. */
    method Keep(data: seq<byte>)
      requires Valid() && buflen == 0 && |data| <= 64
      modifies this, buffer
      ensures Valid() && fed == old(fed) + data && lost == old(lost) && buflen == |data|
    {
      hide Absorb;
      KeepingDescribes(Registers(), [], total0, total1, fed, lost, data);
      if |data| > 0 {
        CopyIn(0, data);
        buflen := |data|;
      }
      assert buffer[..buflen] == [] + data;
      fed := fed + data;
    }

    /** The low word of the counter counts the bytes that are not in the buffer. */
    lemma CountsLow()
      requires Valid()
      ensures buflen <= |fed| && total0 == (|fed| - buflen) % M
    {
      hide Absorb;
      LowWord(total0, total1, |fed| - buflen, lost);
    }

    /** md5_process_bytes */
    method ProcessBytes(data: seq<byte>, unaligned: bool)
      requires Valid()
      modifies this, buffer
      ensures Valid() && fed == old(fed) + data && buflen == HeldAfter(old(buflen), |data|, unaligned)
      ensures lost == old(lost) + if Loses(old(buflen), old(total0), |data|, unaligned) then 1 else 0
    {
      hide Absorb, Describes, Loses, Ready, LeftBehind, Kept, HeldAfter;
      HeldCases(buflen, |data|, unaligned);
      LosesRest(buflen, total0, |data|, unaligned);
      var off := 0;
      if buflen != 0 {
        off := FillBuffer(data);
      }
      if off < |data| {
        var n := WholeBlocks(data[off..], unaligned);
        Keep(data[off + n..]);
        ThreeParts(old(fed), data, off, n);
      } else {
        NothingLeft(total0, unaligned);
      }
    }

    /** Lines 109-112: the buffered bytes are counted too. */
    method CountBuffered()
      requires total0 < M && total1 < M && buflen <= 64 && buflen <= |fed|
      requires total0 + M * total1 == (|fed| - buflen + M * lost) % MM
      modifies this`total0, this`total1
      ensures total0 < M && total1 < M && total0 + M * total1 == (|fed| + M * lost) % MM
    {
      CountUpExact(total0, total1, buflen);
      AddWithin(|fed| - buflen + M * lost, buflen);
      ShortCount(total0, total1, buflen);
      total0 := (total0 + buflen) % M;
      if total0 < buflen {
        total1 := (total1 + 1) % M;
      }
    }

    /** Lines 109-115: padding follows the buffered bytes. */
    method Pad() returns (n: nat)
      requires buffer.Length == 128 && buflen <= 64 && buflen <= |fed| && (|fed| - buflen) % 64 == 0
      requires buffer[..buflen] == fed[|fed| - buflen..]
      modifies buffer
      ensures n <= 120
      ensures fed[..|fed| - buflen] + buffer[..n] == fed + [0x80] + Zeros(Gap(|fed|))
    {
      hide Gap;
      var bytes := buflen;
      ghost var done := fed[..|fed| - bytes];
      assert done + buffer[..bytes] == fed;
      var pad := if bytes >= 56 then 64 + 56 - bytes else 56 - bytes;
      PadIsGap(|fed|, bytes);
      CopyIn(bytes, [0x80] + Zeros(pad - 1));
      n := bytes + pad;
    }

    /** Lines 109-123: padding and bit length follow the buffered bytes. */
    method Terminate() returns (n: nat)
      requires Valid()
      modifies this`total0, this`total1, buffer
      ensures n <= 128
      ensures fed[..|fed| - buflen] + buffer[..n] == PadClaiming(fed, |fed| + M * lost)
    {
      hide Absorb, LittleEndian, Gap, Zeros;
      CountBuffered();
      ghost var done := fed[..|fed| - buflen];
      n := Pad();
      var lo, hi := LittleEndian(total0 * 8 % M, 4), LittleEndian(total1 * 8 % M + total0 / 0x2000_0000, 4);
      TrailerIsBitLength(total0, total1, |fed| + M * lost);
      ghost var padded := buffer[..n];
      CopyIn(n, lo);
      CopyIn(n + 4, hi);
      n := n + 8;
      assert buffer[..n] == padded + (lo + hi);
    }

    /** md5_finish_ctx: the digest of everything fed, with a length field as true as the counter. */
    method Finish() returns (digest: seq<byte>)
      requires Valid()
      modifies this, buffer
      ensures digest == DigestClaiming(old(fed), old(|fed|) + M * old(lost))
    {
      hide Absorb;
      var n := Terminate();
      SixtyFourLeft(|fed| - buflen, n);
      AbsorbAppend(START, fed[..|fed| - buflen], buffer[..n]);
      ProcessBlock(buffer[..n]);
      digest := Digest(Registers());
    }
  }

  // -------------------------------------------------------------------------
  // Whole runs
  // -------------------------------------------------------------------------

  function Flatten(pieces: seq<seq<byte>>): seq<byte> {
    if pieces == [] then [] else Flatten(pieces[..|pieces| - 1]) + pieces[|pieces| - 1]
  }

  lemma LongCallsOnly(held: nat, t0: nat, len: nat, unaligned: bool)
    requires held <= 64 && (len < M || unaligned)
    ensures !Loses(held, t0, len, unaligned)
  {
  }

  /** Bytes in the buffer after all these calls. */
  function Buffered(pieces: seq<seq<byte>>, unaligned: seq<bool>): (n: nat)
    requires |unaligned| == |pieces|
    ensures n <= 64
  {
    if pieces == [] then 0
    else
      var k := |pieces| - 1;
      HeldAfter(Buffered(pieces[..k], unaligned[..k]), |pieces[k]|, unaligned[k])
  }

  /** How many of these calls miscount; the low word of the counter counts the bytes that are not in the buffer. */
  function Lost(pieces: seq<seq<byte>>, unaligned: seq<bool>): (n: nat)
    requires |unaligned| == |pieces|
    ensures n <= |pieces|
  {
    if pieces == [] then 0
    else
      var k := |pieces| - 1;
      var held, len := Buffered(pieces[..k], unaligned[..k]), |Flatten(pieces[..k])|;
      Lost(pieces[..k], unaligned[..k])
      + if Loses(held, (if held <= len then len - held else 0) % M, |pieces[k]|, unaligned[k]) then 1 else 0
  }

  /** Only aligned calls of 2^32 bytes or more can miscount. */
  lemma {:induction false} ShortCallsLoseNothing(pieces: seq<seq<byte>>, unaligned: seq<bool>)
    requires |unaligned| == |pieces|
    requires forall i :: 0 <= i < |pieces| ==> |pieces[i]| < M || unaligned[i]
    ensures Lost(pieces, unaligned) == 0
  {
    hide Loses;
    if pieces != [] {
      var k := |pieces| - 1;
      ShortCallsLoseNothing(pieces[..k], unaligned[..k]);
      var held, len := Buffered(pieces[..k], unaligned[..k]), |Flatten(pieces[..k])|;
      LongCallsOnly(held, (if held <= len then len - held else 0) % M, |pieces[k]|, unaligned[k]);
    }
  }

  /** The low word of the counter, whatever has been lost. */
  lemma LowWord(t0: nat, t1: nat, count: nat, lost: nat)
    requires t0 < M && t0 + M * t1 == (count + M * lost) % MM
    ensures t0 == count % M
  {
    var q := (count + M * lost) / MM;
    assert count + M * lost == MM * q + t0 + M * t1;
    assert count == M * (M * q + t1 - lost) + t0;
    ModuloUnique(count, M, M * q + t1 - lost, t0);
  }

  lemma NoPieces(pieces: seq<seq<byte>>, unaligned: seq<bool>)
    requires |unaligned| == |pieces|
    ensures Flatten(pieces[..0]) == []
    ensures Buffered(pieces[..0], unaligned[..0]) == Lost(pieces[..0], unaligned[..0]) == 0
  {
  }

  lemma OnePiece(pieces: seq<seq<byte>>, unaligned: seq<bool>, i: nat)
    requires i < |pieces| == |unaligned|
    ensures Flatten(pieces[..i + 1]) == Flatten(pieces[..i]) + pieces[i]
    ensures var held, len := Buffered(pieces[..i], unaligned[..i]), |Flatten(pieces[..i])|;
            && Buffered(pieces[..i + 1], unaligned[..i + 1]) == HeldAfter(held, |pieces[i]|, unaligned[i])
            && (held <= len ==>
                  Lost(pieces[..i + 1], unaligned[..i + 1]) ==
                  Lost(pieces[..i], unaligned[..i])
                  + if Loses(held, (len - held) % M, |pieces[i]|, unaligned[i]) then 1 else 0)
  {
    hide Loses, HeldAfter;
    assert pieces[..i + 1][..i] == pieces[..i] && unaligned[..i + 1][..i] == unaligned[..i];
  }

  lemma ClaimsAlike(m: seq<byte>, a: nat, b: nat)
    ensures PadClaiming(m, a) == PadClaiming(m, b) ==> DigestClaiming(m, a) == DigestClaiming(m, b)
    ensures DigestClaiming(m, |m|) == Md5(m)
  {
    hide PadClaiming, Absorb, Digest;
  }

  /** The blocks hashed are those of RFC 1321 exactly when the calls that miscount are a multiple of 2^29. */
  lemma PiecesClaimTruth(pieces: seq<seq<byte>>, unaligned: seq<bool>)
    requires |unaligned| == |pieces|
    ensures var m, n := Flatten(pieces), Lost(pieces, unaligned);
            PadClaiming(m, |m| + M * n) == PadClaiming(m, |m|) <==> n % 0x2000_0000 == 0
  {
    hide Flatten, Lost, PadClaiming;
    ClaimIsTrue(Flatten(pieces), Lost(pieces, unaligned));
  }

  /** A single aligned call of 2^32 + 1 bytes miscounts, and the blocks hashed are not those of RFC 1321. */
  lemma LongCallMiscounts(s: seq<byte>)
    requires |s| == M + 1
    ensures CountUp(0, 0, M) == (0, 2)
    ensures Lost([s], [false]) == 1 && Flatten([s]) == s
    ensures PadClaiming(s, |s| + M) != PadClaiming(s, |s|)
  {
    hide PadClaiming;
    OnlyCall(s, false);
    assert Loses(0, 0, M + 1, false);
    PiecesClaimTruth([s], [false]);
  }

  lemma OnlyCall(s: seq<byte>, unaligned: bool)
    ensures Flatten([s]) == s && Lost([s], [unaligned]) == if Loses(0, 0, |s|, unaligned) then 1 else 0
  {
    hide Loses;
    assert [s][..0] == [] && [unaligned][..0] == [];
    NoPieces([s], [unaligned]);
    assert Flatten([]) + s == s;
  }

  /**
   md5_init_ctx, any sequence of md5_process_bytes calls, md5_finish_ctx. The
   result depends on the bytes and on the number of calls that miscount, not
   otherwise on how they were cut or aligned; it is the digest of RFC 1321 if no
   aligned call is given 2^32 bytes or more.
   */
  method DigestOfPieces(pieces: seq<seq<byte>>, unaligned: seq<bool>) returns (digest: seq<byte>)
    requires |unaligned| == |pieces|
    ensures digest == DigestClaiming(Flatten(pieces), |Flatten(pieces)| + M * Lost(pieces, unaligned))
    ensures Lost(pieces, unaligned) % 0x2000_0000 == 0 ==> digest == Md5(Flatten(pieces))
    ensures (forall i :: 0 <= i < |pieces| ==> |pieces[i]| < M || unaligned[i]) ==> digest == Md5(Flatten(pieces))
  {
    hide Context.Valid, Loses, HeldAfter, Lost, Buffered, Flatten, DigestClaiming;
    var ctx := new Context();
    NoPieces(pieces, unaligned);
    for i := 0 to |pieces|
      invariant fresh(ctx) && fresh(ctx.buffer) && ctx.Valid()
      invariant ctx.fed == Flatten(pieces[..i]) && ctx.buflen == Buffered(pieces[..i], unaligned[..i])
      invariant ctx.lost == Lost(pieces[..i], unaligned[..i])
    {
      ctx.CountsLow();
      OnePiece(pieces, unaligned, i);
      ctx.ProcessBytes(pieces[i], unaligned[i]);
    }
    assert pieces[..|pieces|] == pieces && unaligned[..|pieces|] == unaligned;
    digest := ctx.Finish();
    PiecesClaimTruth(pieces, unaligned);
    ClaimsAlike(Flatten(pieces), |Flatten(pieces)| + M * Lost(pieces, unaligned), |Flatten(pieces)|);
    if forall i :: 0 <= i < |pieces| ==> |pieces[i]| < M || unaligned[i] {
      ShortCallsLoseNothing(pieces, unaligned);
    }
  }

  lemma {:induction false} LittleEndianModulo(a: nat, b: nat, w: nat)
    ensures LittleEndian(a, w) == LittleEndian(b, w) <==> a % Pow256(w) == b % Pow256(w)
  {
    if w > 0 {
      LittleEndianModulo(a / 256, b / 256, w - 1);
      PeelByte(a, Pow256(w - 1));
      PeelByte(b, Pow256(w - 1));
      SameBytes(a, b, w);
    }
  }

  lemma SameBytes(a: nat, b: nat, w: nat)
    requires w > 0
    ensures LittleEndian(a, w) == LittleEndian(b, w) <==>
            a % 256 == b % 256 && LittleEndian(a / 256, w - 1) == LittleEndian(b / 256, w - 1)
  {
    var sa, sb := LittleEndian(a, w), LittleEndian(b, w);
    assert sa[0] == (a % 256) as byte && sa[1..] == LittleEndian(a / 256, w - 1);
    assert sb[0] == (b % 256) as byte && sb[1..] == LittleEndian(b / 256, w - 1);
  }

  lemma PeelByte(a: nat, p: nat)
    requires p > 0
    ensures a % (256 * p) == 256 * ((a / 256) % p) + a % 256
  {
    var y, r := (a / 256) / p, (a / 256) % p;
    assert a / 256 == p * y + r;
    assert a == (256 * p) * y + (256 * r + a % 256);
    assert 256 * r + a % 256 < 256 * p;
    ModuloUnique(a, 256 * p, y, 256 * r + a % 256);
  }

  lemma AtLeastOnce(m: nat, d: int)
    requires m > 0
    ensures d >= 1 ==> m * d >= m
    ensures d <= -1 ==> m * d + m <= 0
  {
  }

  lemma Distributes(m: nat, y: int, y': int)
    ensures m * y - m * y' == m * (y - y')
  {
  }

  lemma ModuloUnique(a: nat, m: nat, y: nat, r: nat)
    requires m > 0 && r < m && a == m * y + r
    ensures a % m == r
  {
    var q := a / m;
    assert a == m * q + a % m;
    Distributes(m, y, q);
    AtLeastOnce(m, y - q);
  }

  /** The blocks hashed are those of RFC 1321 exactly when the miscounts cancel modulo 2^64 bits. */
  lemma ClaimIsTrue(m: seq<byte>, lost: nat)
    ensures PadClaiming(m, |m| + M * lost) == PadClaiming(m, |m|) <==> lost % 0x2000_0000 == 0
  {
    hide LittleEndian;
    var a, b := 8 * (|m| + M * lost), 8 * |m|;
    LittleEndianModulo(a, b, 8);
    assert Pow256(4) == M && Pow256(8) == MM;
    var head := m + [0x80] + Zeros(Gap(|m|));
    assert PadClaiming(m, |m| + M * lost)[|head|..] == LittleEndian(a, 8);
    assert PadClaiming(m, |m|)[|head|..] == LittleEndian(b, 8);
    MissingWords(b, lost);
  }

  lemma MissingWords(b: nat, lost: nat)
    ensures (b + 8 * M * lost) % MM == b % MM <==> lost % 0x2000_0000 == 0
  {
    var k, r := lost / 0x2000_0000, lost % 0x2000_0000;
    var s, t := b % MM, 8 * M * r;
    assert b + 8 * M * lost == MM * (b / MM + k) + (s + t);
    WrapsOnce(b / MM + k, s + t);
  }

  lemma WrapsOnce(z: nat, u: nat)
    requires u < 2 * MM
    ensures (MM * z + u) % MM == if u < MM then u else u - MM
  {
  }

  /** What fread may deliver: nothing at the end of the file, else between one byte and the room there is. */
  method Fread(rest: seq<byte>, room: nat) returns (n: nat)
    ensures n <= room && n <= |rest|
    ensures n == 0 <==> rest == [] || room == 0
  {
    n :| n <= room && n <= |rest| && (n == 0 <==> rest == [] || room == 0);
  }

  /** md5_stream, without read errors: whole 4096-byte reads go to the block function, the rest to ProcessBytes. */
  method DigestOfStream(file: seq<byte>, unaligned: bool) returns (digest: seq<byte>)
    ensures digest == Md5(file)
  {
    hide Describes, Absorb, DigestClaiming;
    var ctx := new Context();
    var pos, sum := 0, 0;
    while true
      invariant fresh(ctx) && fresh(ctx.buffer) && ctx.Valid() && ctx.buflen == 0 && ctx.lost == 0
      invariant pos <= |file| && ctx.fed == file[..pos]
      decreases |file| - pos
    {
      sum := 0;
      var n := Fread(file[pos..], 4096);
      sum := n;
      while sum < 4096 && n != 0
        invariant sum <= 4096 && pos + sum <= |file|
        invariant n == 0 ==> pos + sum == |file|
        modifies {}
        decreases 4096 - sum, n
      {
        n := Fread(file[pos + sum..], 4096 - sum);
        sum := sum + n;
      }
      if n == 0 {
        break;
      }
      ctx.WholeBlock(file[pos..pos + sum]);
      assert file[..pos] + file[pos..pos + sum] == file[..pos + sum];
      pos := pos + sum;
    }
    if sum > 0 {
      LongCallsOnly(ctx.buflen, ctx.total0, sum, unaligned);
      ctx.ProcessBytes(file[pos..pos + sum], unaligned);
    }
    assert ctx.fed == file;
    digest := ctx.Finish();
  }
}
