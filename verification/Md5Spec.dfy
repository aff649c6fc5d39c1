/**
 MD5 as sections 3.1 to 3.5 of RFC 1321 define it: padding, length, the
 table-driven rounds, and the little-endian digest.
 */
module Md5Spec {

  newtype byte = x: int | 0 <= x < 256
  type word = bv32

  /** The four registers. */
  datatype Quad = Quad(a: word, b: word, c: word, d: word)

  const START := Quad(0x67452301, 0xefcdab89, 0x98badcfe, 0x10325476)

  function F(x: word, y: word, z: word): word { (x & y) | (!x & z) }
  function G(x: word, y: word, z: word): word { (x & z) | (y & !z) }
  function H(x: word, y: word, z: word): word { x ^ y ^ z }
  function I(x: word, y: word, z: word): word { y ^ (x | !z) }

  function Mix(round: nat, x: word, y: word, z: word): word {
    if round == 0 then F(x, y, z) else if round == 1 then G(x, y, z) else if round == 2 then H(x, y, z) else I(x, y, z)
  }

  /** Addition of words, modulo 2^32. */
  function Add(x: word, y: word): word { x + y }

  /** w rotated left by s bits. */
  function Rotl(w: word, s: word): word
    requires 0 < s < 32
  {
    (w << s) | (w >> (32 - s))
  }

  function T1(i: nat): word {
    match i
    case 0 => 0xd76aa478
    case 1 => 0xe8c7b756
    case 2 => 0x242070db
    case 3 => 0xc1bdceee
    case 4 => 0xf57c0faf
    case 5 => 0x4787c62a
    case 6 => 0xa8304613
    case 7 => 0xfd469501
    case 8 => 0x698098d8
    case 9 => 0x8b44f7af
    case 10 => 0xffff5bb1
    case 11 => 0x895cd7be
    case 12 => 0x6b901122
    case 13 => 0xfd987193
    case 14 => 0xa679438e
    case _ => 0x49b40821
  }

  function T2(i: nat): word {
    match i
    case 0 => 0xf61e2562
    case 1 => 0xc040b340
    case 2 => 0x265e5a51
    case 3 => 0xe9b6c7aa
    case 4 => 0xd62f105d
    case 5 => 0x02441453
    case 6 => 0xd8a1e681
    case 7 => 0xe7d3fbc8
    case 8 => 0x21e1cde6
    case 9 => 0xc33707d6
    case 10 => 0xf4d50d87
    case 11 => 0x455a14ed
    case 12 => 0xa9e3e905
    case 13 => 0xfcefa3f8
    case 14 => 0x676f02d9
    case _ => 0x8d2a4c8a
  }

  function T3(i: nat): word {
    match i
    case 0 => 0xfffa3942
    case 1 => 0x8771f681
    case 2 => 0x6d9d6122
    case 3 => 0xfde5380c
    case 4 => 0xa4beea44
    case 5 => 0x4bdecfa9
    case 6 => 0xf6bb4b60
    case 7 => 0xbebfbc70
    case 8 => 0x289b7ec6
    case 9 => 0xeaa127fa
    case 10 => 0xd4ef3085
    case 11 => 0x04881d05
    case 12 => 0xd9d4d039
    case 13 => 0xe6db99e5
    case 14 => 0x1fa27cf8
    case _ => 0xc4ac5665
  }

  function T4(i: nat): word {
    match i
    case 0 => 0xf4292244
    case 1 => 0x432aff97
    case 2 => 0xab9423a7
    case 3 => 0xfc93a039
    case 4 => 0x655b59c3
    case 5 => 0x8f0ccc92
    case 6 => 0xffeff47d
    case 7 => 0x85845dd1
    case 8 => 0x6fa87e4f
    case 9 => 0xfe2ce6e0
    case 10 => 0xa3014314
    case 11 => 0x4e0811a1
    case 12 => 0xf7537e82
    case 13 => 0xbd3af235
    case 14 => 0x2ad7d2bb
    case _ => 0xeb86d391
  }

  /** T[i + 1] of section 3.4, sixteen entries to a round. */
  function T(i: nat): word {
    if i < 16 then T1(i) else if i < 32 then T2(i - 16) else if i < 48 then T3(i - 32) else T4(i - 48)
  }

  function K2(i: nat): (k: nat)
    ensures k < 16
  {
    match i
    case 0 => 1 case 1 => 6 case 2 => 11 case 3 => 0
    case 4 => 5 case 5 => 10 case 6 => 15 case 7 => 4
    case 8 => 9 case 9 => 14 case 10 => 3 case 11 => 8
    case 12 => 13 case 13 => 2 case 14 => 7 case _ => 12
  }

  function K3(i: nat): (k: nat)
    ensures k < 16
  {
    match i
    case 0 => 5 case 1 => 8 case 2 => 11 case 3 => 14
    case 4 => 1 case 5 => 4 case 6 => 7 case 7 => 10
    case 8 => 13 case 9 => 0 case 10 => 3 case 11 => 6
    case 12 => 9 case 13 => 12 case 14 => 15 case _ => 2
  }

  function K4(i: nat): (k: nat)
    ensures k < 16
  {
    match i
    case 0 => 0 case 1 => 7 case 2 => 14 case 3 => 5
    case 4 => 12 case 5 => 3 case 6 => 10 case 7 => 1
    case 8 => 8 case 9 => 15 case 10 => 6 case 11 => 13
    case 12 => 4 case 13 => 11 case 14 => 2 case _ => 9
  }

  /** Which word of the block step i uses: the k of section 3.4. */
  function WordIndex(i: nat): (k: nat)
    ensures k < 16
  {
    if i < 16 then i else if i < 32 then K2(i - 16) else if i < 48 then K3(i - 32) else K4(i - 48)
  }

  /** By how many bits the steps of a round rotate, by position modulo 4. */
  function Shift(round: nat, j: nat): (s: word)
    ensures 4 <= s <= 23
  {
    if round == 0 then (if j == 0 then 7 else if j == 1 then 12 else if j == 2 then 17 else 22)
    else if round == 1 then (if j == 0 then 5 else if j == 1 then 9 else if j == 2 then 14 else 20)
    else if round == 2 then (if j == 0 then 4 else if j == 1 then 11 else if j == 2 then 16 else 23)
    else (if j == 0 then 6 else if j == 1 then 10 else if j == 2 then 15 else 21)
  }

  /** One step: the register whose turn it is takes its new value, and the roles of the registers move on by one. */
  function Step(q: Quad, x: seq<word>, i: nat): Quad
    requires |x| == 16
  {
    var sum := Add(q.a, Add(Add(Mix(i / 16, q.b, q.c, q.d), x[WordIndex(i)]), T(i)));
    Quad(q.d, Add(q.b, Rotl(sum, Shift(i / 16, i % 4))), q.b, q.c)
  }

  /** Steps i to n - 1. */
  function Steps(q: Quad, x: seq<word>, i: nat, n: nat): Quad
    requires |x| == 16
    decreases n - i
  {
    if i >= n then q else Steps(Step(q, x, i), x, i + 1, n)
  }

  function Word(s: seq<byte>, i: nat): word
    requires i + 4 <= |s|
  {
    (s[i] as word) | ((s[i + 1] as word) << 8) | ((s[i + 2] as word) << 16) | ((s[i + 3] as word) << 24)
  }

  function Words(block: seq<byte>): (x: seq<word>)
    requires |block| == 64
    ensures |x| == 16
  {
    seq(16, k requires 0 <= k < 16 => Word(block, 4 * k))
  }

  function Sum(p: Quad, q: Quad): Quad {
    Quad(Add(p.a, q.a), Add(p.b, q.b), Add(p.c, q.c), Add(p.d, q.d))
  }

  function Compress(q: Quad, block: seq<byte>): Quad
    requires |block| == 64
  {
    Sum(Steps(q, Words(block), 0, 64), q)
  }

  /** The registers after all whole blocks of `s`. */
  function Absorb(q: Quad, s: seq<byte>): Quad
    decreases |s|
  {
    if |s| < 64 then q else Absorb(Compress(q, s[..64]), s[64..])
  }

  function Zeros(n: nat): (s: seq<byte>)
    ensures |s| == n
  {
    seq(n, _ => 0)
  }

  /** n in `width` bytes, low-order byte first, keeping only the low-order bits. */
  function LittleEndian(n: nat, width: nat): (s: seq<byte>)
    ensures |s| == width
  {
    if width == 0 then [] else [(n % 256) as byte] + LittleEndian(n / 256, width - 1)
  }

  /** How many zero bytes bring a message of n bytes and the byte 0x80 to 56 modulo 64. */
  function Gap(n: nat): (g: nat)
    ensures g < 64 && (n + 1 + g) % 64 == 56
  {
    (55 - n) % 64
  }

  /** Section 3.1, followed by a length field that claims `count` bytes. */
  function PadClaiming(m: seq<byte>, count: nat): (s: seq<byte>)
    ensures |s| % 64 == 0
  {
    m + [0x80] + Zeros(Gap(|m|)) + LittleEndian(8 * count, 8)
  }

  function Digest(q: Quad): (s: seq<byte>)
    ensures |s| == 16
  {
    LittleEndian(q.a as nat, 4) + LittleEndian(q.b as nat, 4)
    + LittleEndian(q.c as nat, 4) + LittleEndian(q.d as nat, 4)
  }

  /** The digest of m had its length field claimed `count` bytes; `Md5` is the case where it tells the truth. */
  function DigestClaiming(m: seq<byte>, count: nat): seq<byte> {
    Digest(Absorb(START, PadClaiming(m, count)))
  }

  function Md5(m: seq<byte>): seq<byte> {
    DigestClaiming(m, |m|)
  }
}
