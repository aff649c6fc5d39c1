/**
 A test vector of RFC 1321 through the definition of Md5Spec, step by step.
 */
module Md5Vector {
  import opened Md5Spec
  import opened Md5Block
  import opened Md5Ctx
  import opened Md5Laws

  /** The message: the capitals, the small letters and the digits, in ASCII. */
  function Alphanumeric(): (m: seq<byte>)
    ensures |m| == 62
  {
    seq(62, k requires 0 <= k < 62 => Letter(k))
  }

  function Letter(k: nat): byte
    requires k < 62
  {
    (if k < 26 then 65 + k else if k < 52 then 97 + k - 26 else 48 + k - 52) as byte
  }

  /** The first block as words: the message, 0x80 and one zero byte. */
  function FirstWords(): (x: seq<word>)
    ensures |x| == 16
  {
    [
      0x44434241, 0x48474645, 0x4c4b4a49, 0x504f4e4d, 0x54535251, 0x58575655, 0x62615a59, 0x66656463,
      0x6a696867, 0x6e6d6c6b, 0x7271706f, 0x76757473, 0x7a797877, 0x33323130, 0x37363534, 0x00803938
    ]
  }

  lemma FirstAt()
    ensures FirstWords()[0] == 0x44434241 && FirstWords()[1] == 0x48474645
    ensures FirstWords()[2] == 0x4c4b4a49 && FirstWords()[3] == 0x504f4e4d
    ensures FirstWords()[4] == 0x54535251 && FirstWords()[5] == 0x58575655
    ensures FirstWords()[6] == 0x62615a59 && FirstWords()[7] == 0x66656463
    ensures FirstWords()[8] == 0x6a696867 && FirstWords()[9] == 0x6e6d6c6b
    ensures FirstWords()[10] == 0x7271706f && FirstWords()[11] == 0x76757473
    ensures FirstWords()[12] == 0x7a797877 && FirstWords()[13] == 0x33323130
    ensures FirstWords()[14] == 0x37363534 && FirstWords()[15] == 0x00803938
  {
  }

  /** The second block as words: zeros and the number of bits. */
  function SecondWords(): (x: seq<word>)
    ensures |x| == 16
  {
    [0, 0, 0, 0, 0, 0, 0, 0, 0, 0, 0, 0, 0, 0, 0x1f0, 0]
  }

  lemma SecondAt()
    ensures SecondWords()[14] == 0x1f0
    ensures forall k :: 0 <= k < 14 || k == 15 ==> SecondWords()[k] == 0
  {
  }

  lemma FirstOps1()
    ensures Op(0, 0x67452301, 0xefcdab89, 0x98badcfe, 0x10325476, 0x44434241, 7, 0xd76aa478) == 0xc6c10796
    ensures Op(0, 0x10325476, 0xc6c10796, 0xefcdab89, 0x98badcfe, 0x48474645, 12, 0xe8c7b756) == 0x99a09999
    ensures Op(0, 0x98badcfe, 0x99a09999, 0xc6c10796, 0xefcdab89, 0x4c4b4a49, 17, 0x242070db) == 0x11067980
    ensures Op(0, 0xefcdab89, 0x11067980, 0x99a09999, 0xc6c10796, 0x504f4e4d, 22, 0xc1bdceee) == 0x27bce07a
    ensures Op(0, 0xc6c10796, 0x27bce07a, 0x11067980, 0x99a09999, 0x54535251, 7, 0xf57c0faf) == 0xf22e6c4e
    ensures Op(0, 0x99a09999, 0xf22e6c4e, 0x27bce07a, 0x11067980, 0x58575655, 12, 0x4787c62a) == 0xb4ac9218
    ensures Op(0, 0x11067980, 0xb4ac9218, 0xf22e6c4e, 0x27bce07a, 0x62615a59, 17, 0xa8304613) == 0xa95a2fc0
    ensures Op(0, 0x27bce07a, 0xa95a2fc0, 0xb4ac9218, 0xf22e6c4e, 0x66656463, 22, 0xfd469501) == 0xa4799506
    ensures Op(0, 0xf22e6c4e, 0xa4799506, 0xa95a2fc0, 0xb4ac9218, 0x6a696867, 7, 0x698098d8) == 0x1eb3e7c1
    ensures Op(0, 0xb4ac9218, 0x1eb3e7c1, 0xa4799506, 0xa95a2fc0, 0x6e6d6c6b, 12, 0x8b44f7af) == 0xa6e70cfe
    ensures Op(0, 0xa95a2fc0, 0xa6e70cfe, 0x1eb3e7c1, 0xa4799506, 0x7271706f, 17, 0xffff5bb1) == 0xca27520b
    ensures Op(0, 0xa4799506, 0xca27520b, 0xa6e70cfe, 0x1eb3e7c1, 0x76757473, 22, 0x895cd7be) == 0x8a7612ec
    ensures Op(0, 0x1eb3e7c1, 0x8a7612ec, 0xca27520b, 0xa6e70cfe, 0x7a797877, 7, 0x6b901122) == 0x3cbdcd45
    ensures Op(0, 0xa6e70cfe, 0x3cbdcd45, 0x8a7612ec, 0xca27520b, 0x33323130, 12, 0xfd987193) == 0xb8dec763
    ensures Op(0, 0xca27520b, 0xb8dec763, 0x3cbdcd45, 0x8a7612ec, 0x37363534, 17, 0xa679438e) == 0xfa148c8a
    ensures Op(0, 0x8a7612ec, 0xfa148c8a, 0xb8dec763, 0x3cbdcd45, 0x00803938, 22, 0x49b40821) == 0x5d38e690
  {
  }

  lemma FirstRound1()
    ensures Steps(Quad(0x67452301, 0xefcdab89, 0x98badcfe, 0x10325476), FirstWords(), 0, 16) ==
            Quad(0x3cbdcd45, 0x5d38e690, 0xfa148c8a, 0xb8dec763)
  {
    hide Op, Steps, T, Shift, WordIndex, FirstWords;
    Table1();
    FirstOps1();
    FirstAt();
    var p1 := FourSteps(Quad(0x67452301, 0xefcdab89, 0x98badcfe, 0x10325476), FirstWords(), 0, 0);
    var p2 := FourSteps(p1, FirstWords(), 0, 4);
    var p3 := FourSteps(p2, FirstWords(), 0, 8);
    var p4 := FourSteps(p3, FirstWords(), 0, 12);
    StepsUnfold(p4, FirstWords(), 16, 16);
  }

  lemma FirstOps2()
    ensures Op(1, 0x3cbdcd45, 0x5d38e690, 0xfa148c8a, 0xb8dec763, 0x48474645, 5, 0xf61e2562) == 0x04b9d52a
    ensures Op(1, 0xb8dec763, 0x04b9d52a, 0x5d38e690, 0xfa148c8a, 0x62615a59, 9, 0xc040b340) == 0x783002eb
    ensures Op(1, 0xfa148c8a, 0x783002eb, 0x04b9d52a, 0x5d38e690, 0x76757473, 14, 0x265e5a51) == 0xd3ee3ed1
    ensures Op(1, 0x5d38e690, 0xd3ee3ed1, 0x783002eb, 0x04b9d52a, 0x44434241, 20, 0xe9b6c7aa) == 0x47ae7c81
    ensures Op(1, 0x04b9d52a, 0x47ae7c81, 0xd3ee3ed1, 0x783002eb, 0x58575655, 5, 0xd62f105d) == 0x2d7d8a3f
    ensures Op(1, 0x783002eb, 0x2d7d8a3f, 0x47ae7c81, 0xd3ee3ed1, 0x7271706f, 9, 0x02441453) == 0xd1210823
    ensures Op(1, 0xd3ee3ed1, 0xd1210823, 0x2d7d8a3f, 0x47ae7c81, 0x00803938, 14, 0xd8a1e681) == 0x4b534dc3
    ensures Op(1, 0x47ae7c81, 0x4b534dc3, 0xd1210823, 0x2d7d8a3f, 0x54535251, 20, 0xe7d3fbc8) == 0x75292030
    ensures Op(1, 0x2d7d8a3f, 0x75292030, 0x4b534dc3, 0xd1210823, 0x6e6d6c6b, 5, 0x21e1cde6) == 0x9d2a6e33
    ensures Op(1, 0xd1210823, 0x9d2a6e33, 0x75292030, 0x4b534dc3, 0x37363534, 9, 0xc33707d6) == 0x0e8d2e44
    ensures Op(1, 0x4b534dc3, 0x0e8d2e44, 0x9d2a6e33, 0x75292030, 0x504f4e4d, 14, 0xf4d50d87) == 0xd473b564
    ensures Op(1, 0x75292030, 0xd473b564, 0x0e8d2e44, 0x9d2a6e33, 0x6a696867, 20, 0x455a14ed) == 0xf2ff6ea0
    ensures Op(1, 0x9d2a6e33, 0xf2ff6ea0, 0xd473b564, 0x0e8d2e44, 0x33323130, 5, 0xa9e3e905) == 0x9b085fa9
    ensures Op(1, 0x0e8d2e44, 0x9b085fa9, 0xf2ff6ea0, 0xd473b564, 0x4c4b4a49, 9, 0xfcefa3f8) == 0x4400a9bd
    ensures Op(1, 0xd473b564, 0x4400a9bd, 0x9b085fa9, 0xf2ff6ea0, 0x66656463, 14, 0x676f02d9) == 0x5993248f
    ensures Op(1, 0xf2ff6ea0, 0x5993248f, 0x4400a9bd, 0x9b085fa9, 0x7a797877, 20, 0x8d2a4c8a) == 0xdd789ecc
  {
  }

  lemma FirstRound2()
    ensures Steps(Quad(0x3cbdcd45, 0x5d38e690, 0xfa148c8a, 0xb8dec763), FirstWords(), 16, 32) ==
            Quad(0x9b085fa9, 0xdd789ecc, 0x5993248f, 0x4400a9bd)
  {
    hide Op, Steps, T, Shift, WordIndex, FirstWords;
    Table2();
    FirstOps2();
    FirstAt();
    var p1 := FourSteps(Quad(0x3cbdcd45, 0x5d38e690, 0xfa148c8a, 0xb8dec763), FirstWords(), 1, 16);
    var p2 := FourSteps(p1, FirstWords(), 1, 20);
    var p3 := FourSteps(p2, FirstWords(), 1, 24);
    var p4 := FourSteps(p3, FirstWords(), 1, 28);
    StepsUnfold(p4, FirstWords(), 32, 32);
  }

  lemma FirstOps3()
    ensures Op(2, 0x9b085fa9, 0xdd789ecc, 0x5993248f, 0x4400a9bd, 0x58575655, 4, 0xfffa3942) == 0x21c8d2b7
    ensures Op(2, 0x4400a9bd, 0x21c8d2b7, 0xdd789ecc, 0x5993248f, 0x6a696867, 11, 0x8771f681) == 0x1d55a18e
    ensures Op(2, 0x5993248f, 0x1d55a18e, 0x21c8d2b7, 0xdd789ecc, 0x76757473, 16, 0x6d9d6122) == 0x056ec119
    ensures Op(2, 0xdd789ecc, 0x056ec119, 0x1d55a18e, 0x21c8d2b7, 0x37363534, 23, 0xfde5380c) == 0x1b9504f8
    ensures Op(2, 0x21c8d2b7, 0x1b9504f8, 0x056ec119, 0x1d55a18e, 0x48474645, 4, 0xa4beea44) == 0x436b7fe9
    ensures Op(2, 0x1d55a18e, 0x436b7fe9, 0x1b9504f8, 0x056ec119, 0x54535251, 11, 0x4bdecfa9) == 0x075800c1
    ensures Op(2, 0x056ec119, 0x075800c1, 0x436b7fe9, 0x1b9504f8, 0x66656463, 16, 0xf6bb4b60) == 0xf404c2f6
    ensures Op(2, 0x1b9504f8, 0xf404c2f6, 0x075800c1, 0x436b7fe9, 0x7271706f, 23, 0xbebfbc70) == 0xcf0341ed
    ensures Op(2, 0x436b7fe9, 0xcf0341ed, 0xf404c2f6, 0x075800c1, 0x33323130, 4, 0x289b7ec6) == 0x888e7d8a
    ensures Op(2, 0x075800c1, 0x888e7d8a, 0xcf0341ed, 0xf404c2f6, 0x44434241, 11, 0xeaa127fa) == 0xbbdaecd8
    ensures Op(2, 0xf404c2f6, 0xbbdaecd8, 0x888e7d8a, 0xcf0341ed, 0x504f4e4d, 16, 0xd4ef3085) == 0xce620273
    ensures Op(2, 0xcf0341ed, 0xce620273, 0xbbdaecd8, 0x888e7d8a, 0x62615a59, 23, 0x04881d05) == 0x047b9419
    ensures Op(2, 0x888e7d8a, 0x047b9419, 0xce620273, 0xbbdaecd8, 0x6e6d6c6b, 4, 0xd9d4d039) == 0x2dbee21d
    ensures Op(2, 0xbbdaecd8, 0x2dbee21d, 0x047b9419, 0xce620273, 0x7a797877, 11, 0xe6db99e5) == 0xe95c3a43
    ensures Op(2, 0xce620273, 0xe95c3a43, 0x2dbee21d, 0x047b9419, 0x00803938, 16, 0x1fa27cf8) == 0xee46e961
    ensures Op(2, 0x047b9419, 0xee46e961, 0xe95c3a43, 0x2dbee21d, 0x4c4b4a49, 23, 0xc4ac5665) == 0xf166f514
  {
  }

  lemma FirstRound3()
    ensures Steps(Quad(0x9b085fa9, 0xdd789ecc, 0x5993248f, 0x4400a9bd), FirstWords(), 32, 48) ==
            Quad(0x2dbee21d, 0xf166f514, 0xee46e961, 0xe95c3a43)
  {
    hide Op, Steps, T, Shift, WordIndex, FirstWords;
    Table3();
    FirstOps3();
    FirstAt();
    var p1 := FourSteps(Quad(0x9b085fa9, 0xdd789ecc, 0x5993248f, 0x4400a9bd), FirstWords(), 2, 32);
    var p2 := FourSteps(p1, FirstWords(), 2, 36);
    var p3 := FourSteps(p2, FirstWords(), 2, 40);
    var p4 := FourSteps(p3, FirstWords(), 2, 44);
    StepsUnfold(p4, FirstWords(), 48, 48);
  }

  lemma FirstOps4()
    ensures Op(3, 0x2dbee21d, 0xf166f514, 0xee46e961, 0xe95c3a43, 0x44434241, 6, 0xf4292244) == 0xe47fd4f3
    ensures Op(3, 0xe95c3a43, 0xe47fd4f3, 0xf166f514, 0xee46e961, 0x66656463, 10, 0x432aff97) == 0xfb887751
    ensures Op(3, 0xee46e961, 0xfb887751, 0xe47fd4f3, 0xf166f514, 0x37363534, 15, 0xab9423a7) == 0xf22aedcc
    ensures Op(3, 0xf166f514, 0xf22aedcc, 0xfb887751, 0xe47fd4f3, 0x58575655, 21, 0xfc93a039) == 0x7a13bc5c
    ensures Op(3, 0xe47fd4f3, 0x7a13bc5c, 0xf22aedcc, 0xfb887751, 0x7a797877, 6, 0x655b59c3) == 0xa691d430
    ensures Op(3, 0xfb887751, 0xa691d430, 0x7a13bc5c, 0xf22aedcc, 0x504f4e4d, 10, 0x8f0ccc92) == 0x528452f2
    ensures Op(3, 0xf22aedcc, 0x528452f2, 0xa691d430, 0x7a13bc5c, 0x7271706f, 15, 0xffeff47d) == 0x3fc23df6
    ensures Op(3, 0x7a13bc5c, 0x3fc23df6, 0x528452f2, 0xa691d430, 0x48474645, 21, 0x85845dd1) == 0xefb0e72f
    ensures Op(3, 0xa691d430, 0xefb0e72f, 0x3fc23df6, 0x528452f2, 0x6a696867, 6, 0x6fa87e4f) == 0x27145703
    ensures Op(3, 0x528452f2, 0x27145703, 0xefb0e72f, 0x3fc23df6, 0x00803938, 10, 0xfe2ce6e0) == 0x21a11069
    ensures Op(3, 0x3fc23df6, 0x21a11069, 0x27145703, 0xefb0e72f, 0x62615a59, 15, 0xa3014314) == 0x374fbe79
    ensures Op(3, 0xefb0e72f, 0x374fbe79, 0x21a11069, 0x27145703, 0x33323130, 21, 0x4e0811a1) == 0x49d9a5b4
    ensures Op(3, 0x27145703, 0x49d9a5b4, 0x374fbe79, 0x21a11069, 0x54535251, 6, 0xf7537e82) == 0x1cb80f0a
    ensures Op(3, 0x21a11069, 0x1cb80f0a, 0x49d9a5b4, 0x374fbe79, 0x76757473, 10, 0xbd3af235) == 0xea3d3eb4
    ensures Op(3, 0x374fbe79, 0xea3d3eb4, 0x1cb80f0a, 0x49d9a5b4, 0x4c4b4a49, 15, 0x2ad7d2bb) == 0x10f68731
    ensures Op(3, 0x49d9a5b4, 0x10f68731, 0xea3d3eb4, 0x1cb80f0a, 0x6e6d6c6b, 21, 0xeb86d391) == 0xef2e3a46
  {
  }

  lemma FirstRound4()
    ensures Steps(Quad(0x2dbee21d, 0xf166f514, 0xee46e961, 0xe95c3a43), FirstWords(), 48, 64) ==
            Quad(0x1cb80f0a, 0xef2e3a46, 0x10f68731, 0xea3d3eb4)
  {
    hide Op, Steps, T, Shift, WordIndex, FirstWords;
    Table4();
    FirstOps4();
    FirstAt();
    var p1 := FourSteps(Quad(0x2dbee21d, 0xf166f514, 0xee46e961, 0xe95c3a43), FirstWords(), 3, 48);
    var p2 := FourSteps(p1, FirstWords(), 3, 52);
    var p3 := FourSteps(p2, FirstWords(), 3, 56);
    var p4 := FourSteps(p3, FirstWords(), 3, 60);
    StepsUnfold(p4, FirstWords(), 64, 64);
  }

  lemma FirstBlock(block: seq<byte>)
    requires |block| == 64 && Words(block) == FirstWords()
    ensures Compress(Quad(0x67452301, 0xefcdab89, 0x98badcfe, 0x10325476), block) ==
            Quad(0x83fd320b, 0xdefbe5cf, 0xa9b1642f, 0xfa6f932a)
  {
    hide Steps, Words, Sum, FirstWords;
    FirstRound1();
    FirstRound2();
    FirstRound3();
    FirstRound4();
    StepsCompose(Quad(0x67452301, 0xefcdab89, 0x98badcfe, 0x10325476), FirstWords(), 0, 16, 64);
    StepsCompose(Quad(0x3cbdcd45, 0x5d38e690, 0xfa148c8a, 0xb8dec763), FirstWords(), 16, 32, 64);
    StepsCompose(Quad(0x9b085fa9, 0xdd789ecc, 0x5993248f, 0x4400a9bd), FirstWords(), 32, 48, 64);
    FirstSum();
  }

  lemma FirstSum()
    ensures Sum(Quad(0x1cb80f0a, 0xef2e3a46, 0x10f68731, 0xea3d3eb4),
                Quad(0x67452301, 0xefcdab89, 0x98badcfe, 0x10325476)) ==
            Quad(0x83fd320b, 0xdefbe5cf, 0xa9b1642f, 0xfa6f932a)
  {
  }

  lemma SecondOps1()
    ensures Op(0, 0x83fd320b, 0xdefbe5cf, 0xa9b1642f, 0xfa6f932a, 0x00000000, 7, 0xd76aa478) == 0xeda23ed1
    ensures Op(0, 0xfa6f932a, 0xeda23ed1, 0xdefbe5cf, 0xa9b1642f, 0x00000000, 12, 0xe8c7b756) == 0x989939cf
    ensures Op(0, 0xa9b1642f, 0x989939cf, 0xeda23ed1, 0xdefbe5cf, 0x00000000, 17, 0x242070db) == 0x3c307338
    ensures Op(0, 0xdefbe5cf, 0x3c307338, 0x989939cf, 0xeda23ed1, 0x00000000, 22, 0xc1bdceee) == 0xddcf0634
    ensures Op(0, 0xeda23ed1, 0xddcf0634, 0x3c307338, 0x989939cf, 0x00000000, 7, 0xf57c0faf) == 0x75144433
    ensures Op(0, 0x989939cf, 0x75144433, 0xddcf0634, 0x3c307338, 0x00000000, 12, 0x4787c62a) == 0xc8875807
    ensures Op(0, 0x3c307338, 0xc8875807, 0x75144433, 0xddcf0634, 0x00000000, 17, 0xa8304613) == 0xc783cb60
    ensures Op(0, 0xddcf0634, 0xc783cb60, 0xc8875807, 0x75144433, 0x00000000, 22, 0xfd469501) == 0x99b6b699
    ensures Op(0, 0x75144433, 0x99b6b699, 0xc783cb60, 0xc8875807, 0x00000000, 7, 0x698098d8) == 0xa60a3f69
    ensures Op(0, 0xc8875807, 0xa60a3f69, 0x99b6b699, 0xc783cb60, 0x00000000, 12, 0x8b44f7af) == 0xaa6630be
    ensures Op(0, 0xc783cb60, 0xaa6630be, 0xa60a3f69, 0x99b6b699, 0x00000000, 17, 0xffff5bb1) == 0x64db26e9
    ensures Op(0, 0x99b6b699, 0x64db26e9, 0xaa6630be, 0xa60a3f69, 0x00000000, 22, 0x895cd7be) == 0x64cc7c5a
    ensures Op(0, 0xa60a3f69, 0x64cc7c5a, 0x64db26e9, 0xaa6630be, 0x00000000, 7, 0x6b901122) == 0xa70737da
    ensures Op(0, 0xaa6630be, 0xa70737da, 0x64cc7c5a, 0x64db26e9, 0x00000000, 12, 0xfd987193) == 0x5473f8a7
    ensures Op(0, 0x64db26e9, 0x5473f8a7, 0xa70737da, 0x64cc7c5a, 0x000001f0, 17, 0xa679438e) == 0x96f6586e
    ensures Op(0, 0x64cc7c5a, 0x96f6586e, 0x5473f8a7, 0xa70737da, 0x00000000, 22, 0x49b40821) == 0xa36f556f
  {
  }

  lemma SecondRound1()
    ensures Steps(Quad(0x83fd320b, 0xdefbe5cf, 0xa9b1642f, 0xfa6f932a), SecondWords(), 0, 16) ==
            Quad(0xa70737da, 0xa36f556f, 0x96f6586e, 0x5473f8a7)
  {
    hide Op, Steps, T, Shift, WordIndex, SecondWords;
    Table1();
    SecondOps1();
    SecondAt();
    var p1 := FourSteps(Quad(0x83fd320b, 0xdefbe5cf, 0xa9b1642f, 0xfa6f932a), SecondWords(), 0, 0);
    var p2 := FourSteps(p1, SecondWords(), 0, 4);
    var p3 := FourSteps(p2, SecondWords(), 0, 8);
    var p4 := FourSteps(p3, SecondWords(), 0, 12);
    StepsUnfold(p4, SecondWords(), 16, 16);
  }

  lemma SecondOps2()
    ensures Op(1, 0xa70737da, 0xa36f556f, 0x96f6586e, 0x5473f8a7, 0x00000000, 5, 0xf61e2562) == 0xa5050ad3
    ensures Op(1, 0x5473f8a7, 0xa5050ad3, 0xa36f556f, 0x96f6586e, 0x00000000, 9, 0xc040b340) == 0x28776046
    ensures Op(1, 0x96f6586e, 0x28776046, 0xa5050ad3, 0xa36f556f, 0x00000000, 14, 0x265e5a51) == 0x27dcd8b4
    ensures Op(1, 0xa36f556f, 0x27dcd8b4, 0x28776046, 0xa5050ad3, 0x00000000, 20, 0xe9b6c7aa) == 0x82b8827c
    ensures Op(1, 0xa5050ad3, 0x82b8827c, 0x27dcd8b4, 0x28776046, 0x00000000, 5, 0xd62f105d) == 0xe04f070c
    ensures Op(1, 0x28776046, 0xe04f070c, 0x82b8827c, 0x27dcd8b4, 0x00000000, 9, 0x02441453) == 0x2f3cd2a2
    ensures Op(1, 0x27dcd8b4, 0x2f3cd2a2, 0xe04f070c, 0x82b8827c, 0x00000000, 14, 0xd8a1e681) == 0xc0d22b61
    ensures Op(1, 0x82b8827c, 0xc0d22b61, 0x2f3cd2a2, 0xe04f070c, 0x00000000, 20, 0xe7d3fbc8) == 0xdf35cb56
    ensures Op(1, 0xe04f070c, 0xdf35cb56, 0xc0d22b61, 0x2f3cd2a2, 0x00000000, 5, 0x21e1cde6) == 0x242dd210
    ensures Op(1, 0x2f3cd2a2, 0x242dd210, 0xdf35cb56, 0xc0d22b61, 0x000001f0, 9, 0xc33707d6) == 0x576ace33
    ensures Op(1, 0xc0d22b61, 0x576ace33, 0x242dd210, 0xdf35cb56, 0x00000000, 14, 0xf4d50d87) == 0x5c295967
    ensures Op(1, 0xdf35cb56, 0x5c295967, 0x576ace33, 0x242dd210, 0x00000000, 20, 0x455a14ed) == 0x2291191a
    ensures Op(1, 0x242dd210, 0x2291191a, 0x5c295967, 0x576ace33, 0x00000000, 5, 0xa9e3e905) == 0x24eba695
    ensures Op(1, 0x576ace33, 0x24eba695, 0x2291191a, 0x5c295967, 0x00000000, 9, 0xfcefa3f8) == 0x4bd0378b
    ensures Op(1, 0x5c295967, 0x4bd0378b, 0x24eba695, 0x2291191a, 0x00000000, 14, 0x676f02d9) == 0x10c42a2f
    ensures Op(1, 0x2291191a, 0x10c42a2f, 0x4bd0378b, 0x24eba695, 0x00000000, 20, 0x8d2a4c8a) == 0x9c03e2e8
  {
  }

  lemma SecondRound2()
    ensures Steps(Quad(0xa70737da, 0xa36f556f, 0x96f6586e, 0x5473f8a7), SecondWords(), 16, 32) ==
            Quad(0x24eba695, 0x9c03e2e8, 0x10c42a2f, 0x4bd0378b)
  {
    hide Op, Steps, T, Shift, WordIndex, SecondWords;
    Table2();
    SecondOps2();
    SecondAt();
    var p1 := FourSteps(Quad(0xa70737da, 0xa36f556f, 0x96f6586e, 0x5473f8a7), SecondWords(), 1, 16);
    var p2 := FourSteps(p1, SecondWords(), 1, 20);
    var p3 := FourSteps(p2, SecondWords(), 1, 24);
    var p4 := FourSteps(p3, SecondWords(), 1, 28);
    StepsUnfold(p4, SecondWords(), 32, 32);
  }

  lemma SecondOps3()
    ensures Op(2, 0x24eba695, 0x9c03e2e8, 0x10c42a2f, 0x4bd0378b, 0x00000000, 4, 0xfffa3942) == 0x5be1d526
    ensures Op(2, 0x4bd0378b, 0x5be1d526, 0x9c03e2e8, 0x10c42a2f, 0x00000000, 11, 0x8771f681) == 0x9e414279
    ensures Op(2, 0x10c42a2f, 0x9e414279, 0x5be1d526, 0x9c03e2e8, 0x00000000, 16, 0x6d9d6122) == 0x9f4a1a7e
    ensures Op(2, 0x9c03e2e8, 0x9f4a1a7e, 0x9e414279, 0x5be1d526, 0x000001f0, 23, 0xfde5380c) == 0xa2448453
    ensures Op(2, 0x5be1d526, 0xa2448453, 0x9f4a1a7e, 0x9e414279, 0x00000000, 4, 0xa4beea44) == 0xe14e403d
    ensures Op(2, 0x9e414279, 0xe14e403d, 0xa2448453, 0x9f4a1a7e, 0x00000000, 11, 0x4bdecfa9) == 0xe8cfd670
    ensures Op(2, 0x9f4a1a7e, 0xe8cfd670, 0xe14e403d, 0xa2448453, 0x00000000, 16, 0xf6bb4b60) == 0x60cc183a
    ensures Op(2, 0xa2448453, 0x60cc183a, 0xe8cfd670, 0xe14e403d, 0x00000000, 23, 0xbebfbc70) == 0xfe314121
    ensures Op(2, 0xe14e403d, 0xfe314121, 0x60cc183a, 0xe8cfd670, 0x00000000, 4, 0x289b7ec6) == 0xfff62809
    ensures Op(2, 0xe8cfd670, 0xfff62809, 0xfe314121, 0x60cc183a, 0x00000000, 11, 0xeaa127fa) == 0xe37209ac
    ensures Op(2, 0x60cc183a, 0xe37209ac, 0xfff62809, 0xfe314121, 0x00000000, 16, 0xd4ef3085) == 0x8cb5221c
    ensures Op(2, 0xfe314121, 0x8cb5221c, 0xe37209ac, 0xfff62809, 0x00000000, 23, 0x04881d05) == 0x7c7e974c
    ensures Op(2, 0xfff62809, 0x7c7e974c, 0x8cb5221c, 0xe37209ac, 0x00000000, 4, 0xd9d4d039) == 0x54c9eb3a
    ensures Op(2, 0xe37209ac, 0x54c9eb3a, 0x7c7e974c, 0x8cb5221c, 0x00000000, 11, 0xe6db99e5) == 0xd4d9c6ac
    ensures Op(2, 0x8cb5221c, 0xd4d9c6ac, 0x54c9eb3a, 0x7c7e974c, 0x00000000, 16, 0x1fa27cf8) == 0x2ec86f72
    ensures Op(2, 0x7c7e974c, 0x2ec86f72, 0xd4d9c6ac, 0x54c9eb3a, 0x00000000, 23, 0xc4ac5665) == 0x79c0710a
  {
  }

  lemma SecondRound3()
    ensures Steps(Quad(0x24eba695, 0x9c03e2e8, 0x10c42a2f, 0x4bd0378b), SecondWords(), 32, 48) ==
            Quad(0x54c9eb3a, 0x79c0710a, 0x2ec86f72, 0xd4d9c6ac)
  {
    hide Op, Steps, T, Shift, WordIndex, SecondWords;
    Table3();
    SecondOps3();
    SecondAt();
    var p1 := FourSteps(Quad(0x24eba695, 0x9c03e2e8, 0x10c42a2f, 0x4bd0378b), SecondWords(), 2, 32);
    var p2 := FourSteps(p1, SecondWords(), 2, 36);
    var p3 := FourSteps(p2, SecondWords(), 2, 40);
    var p4 := FourSteps(p3, SecondWords(), 2, 44);
    StepsUnfold(p4, SecondWords(), 48, 48);
  }

  lemma SecondOps4()
    ensures Op(3, 0x54c9eb3a, 0x79c0710a, 0x2ec86f72, 0xd4d9c6ac, 0x00000000, 6, 0xf4292244) == 0x02095af1
    ensures Op(3, 0xd4d9c6ac, 0x02095af1, 0x79c0710a, 0x2ec86f72, 0x00000000, 10, 0x432aff97) == 0x13d245fd
    ensures Op(3, 0x2ec86f72, 0x13d245fd, 0x02095af1, 0x79c0710a, 0x000001f0, 15, 0xab9423a7) == 0xa8dcfe26
    ensures Op(3, 0x79c0710a, 0xa8dcfe26, 0x13d245fd, 0x02095af1, 0x00000000, 21, 0xfc93a039) == 0x2ba98e3f
    ensures Op(3, 0x02095af1, 0x2ba98e3f, 0xa8dcfe26, 0x13d245fd, 0x00000000, 6, 0x655b59c3) == 0xe126c1aa
    ensures Op(3, 0x13d245fd, 0xe126c1aa, 0x2ba98e3f, 0xa8dcfe26, 0x00000000, 10, 0x8f0ccc92) == 0x96b00fa7
    ensures Op(3, 0xa8dcfe26, 0x96b00fa7, 0xe126c1aa, 0x2ba98e3f, 0x00000000, 15, 0xffeff47d) == 0x6f287ff5
    ensures Op(3, 0x2ba98e3f, 0x6f287ff5, 0x96b00fa7, 0xe126c1aa, 0x00000000, 21, 0x85845dd1) == 0xfb7bcee0
    ensures Op(3, 0xe126c1aa, 0xfb7bcee0, 0x6f287ff5, 0x96b00fa7, 0x00000000, 6, 0x6fa87e4f) == 0x452c1099
    ensures Op(3, 0x96b00fa7, 0x452c1099, 0xfb7bcee0, 0x6f287ff5, 0x00000000, 10, 0xfe2ce6e0) == 0xca801ba6
    ensures Op(3, 0x6f287ff5, 0xca801ba6, 0x452c1099, 0xfb7bcee0, 0x00000000, 15, 0xa3014314) == 0xc197ea8e
    ensures Op(3, 0xfb7bcee0, 0xc197ea8e, 0xca801ba6, 0x452c1099, 0x00000000, 21, 0x4e0811a1) == 0x5ac74608
    ensures Op(3, 0x452c1099, 0x5ac74608, 0xc197ea8e, 0xca801ba6, 0x00000000, 6, 0xf7537e82) == 0x14ae42c6
    ensures Op(3, 0xca801ba6, 0x14ae42c6, 0x5ac74608, 0xc197ea8e, 0x00000000, 10, 0xbd3af235) == 0xa52dae75
    ensures Op(3, 0xc197ea8e, 0xa52dae75, 0x14ae42c6, 0x5ac74608, 0x00000000, 15, 0x2ad7d2bb) == 0x826afd76
    ensures Op(3, 0x5ac74608, 0x826afd76, 0xa52dae75, 0x14ae42c6, 0x00000000, 21, 0xeb86d391) == 0x16dd9203
  {
  }

  lemma SecondRound4()
    ensures Steps(Quad(0x54c9eb3a, 0x79c0710a, 0x2ec86f72, 0xd4d9c6ac), SecondWords(), 48, 64) ==
            Quad(0x14ae42c6, 0x16dd9203, 0x826afd76, 0xa52dae75)
  {
    hide Op, Steps, T, Shift, WordIndex, SecondWords;
    Table4();
    SecondOps4();
    SecondAt();
    var p1 := FourSteps(Quad(0x54c9eb3a, 0x79c0710a, 0x2ec86f72, 0xd4d9c6ac), SecondWords(), 3, 48);
    var p2 := FourSteps(p1, SecondWords(), 3, 52);
    var p3 := FourSteps(p2, SecondWords(), 3, 56);
    var p4 := FourSteps(p3, SecondWords(), 3, 60);
    StepsUnfold(p4, SecondWords(), 64, 64);
  }

  lemma SecondBlock(block: seq<byte>)
    requires |block| == 64 && Words(block) == SecondWords()
    ensures Compress(Quad(0x83fd320b, 0xdefbe5cf, 0xa9b1642f, 0xfa6f932a), block) ==
            Quad(0x98ab74d1, 0xf5d977d2, 0x2c1c61a5, 0x9f9d419f)
  {
    hide Steps, Words, Sum, SecondWords;
    SecondRound1();
    SecondRound2();
    SecondRound3();
    SecondRound4();
    StepsCompose(Quad(0x83fd320b, 0xdefbe5cf, 0xa9b1642f, 0xfa6f932a), SecondWords(), 0, 16, 64);
    StepsCompose(Quad(0xa70737da, 0xa36f556f, 0x96f6586e, 0x5473f8a7), SecondWords(), 16, 32, 64);
    StepsCompose(Quad(0x24eba695, 0x9c03e2e8, 0x10c42a2f, 0x4bd0378b), SecondWords(), 32, 48, 64);
    SecondSum();
  }

  lemma SecondSum()
    ensures Sum(Quad(0x14ae42c6, 0x16dd9203, 0x826afd76, 0xa52dae75),
                Quad(0x83fd320b, 0xdefbe5cf, 0xa9b1642f, 0xfa6f932a)) ==
            Quad(0x98ab74d1, 0xf5d977d2, 0x2c1c61a5, 0x9f9d419f)
  {
  }

  lemma SmallNumber(k: nat)
    ensures 0x1f0 / Pow256(k) % 256 == if k == 0 then 0xf0 else if k == 1 then 1 else 0
  {
    if k > 1 {
      Times(1, Pow256(k - 2), 0x1_0000);
      assert Pow256(k) == 256 * Pow256(k - 1) && Pow256(k - 1) == 256 * Pow256(k - 2);
      Quotient(0x1f0, Pow256(k), 0, 0x1f0);
    } else if k == 1 {
      assert Pow256(1) == 256 * Pow256(0);
    }
  }

  /** The padded message: 62 letters, 0x80, 57 zeros, and the number of bits. */
  lemma Padded() returns (s: seq<byte>)
    ensures s == PadClaiming(Alphanumeric(), 62) && |s| == 128
    ensures (forall k :: 0 <= k < 62 ==> s[k] == Letter(k)) && s[62] == 0x80 && s[63] == 0
    ensures forall k :: 64 <= k < 128 ==> s[k] == if k == 120 then 0xf0 else if k == 121 then 1 else 0
  {
    hide LittleEndian, Letter;
    s := PadClaiming(Alphanumeric(), 62);
    assert Gap(62) == 57;
    var n := LittleEndian(0x1f0, 8);
    forall k | 0 <= k < 8
      ensures n[k] == if k == 0 then 0xf0 else if k == 1 then 1 else 0
    {
      LittleEndianAt(0x1f0, 8, k);
      SmallNumber(k);
    }
    assert s == Alphanumeric() + [0x80] + Zeros(57) + n;
  }

  lemma WordFrom(s: seq<byte>, i: nat, w: word)
    requires i + 4 <= |s|
    requires Value(w) ==
             s[i] as nat + 0x100 * s[i + 1] as nat + 0x1_0000 * s[i + 2] as nat + 0x100_0000 * s[i + 3] as nat
    ensures Word(s, i) == w
  {
    hide Value, Word;
    WordIsNumber(s, i);
    SameWord(Word(s, i), w);
  }

  lemma FirstNumbers()
    ensures Value(0x44434241) == 0x44434241 && Value(0x48474645) == 0x48474645 && Value(0x4c4b4a49) == 0x4c4b4a49
    ensures Value(0x504f4e4d) == 0x504f4e4d && Value(0x54535251) == 0x54535251 && Value(0x58575655) == 0x58575655
    ensures Value(0x62615a59) == 0x62615a59 && Value(0x66656463) == 0x66656463 && Value(0x6a696867) == 0x6a696867
    ensures Value(0x6e6d6c6b) == 0x6e6d6c6b && Value(0x7271706f) == 0x7271706f && Value(0x76757473) == 0x76757473
    ensures Value(0x7a797877) == 0x7a797877 && Value(0x33323130) == 0x33323130 && Value(0x37363534) == 0x37363534
    ensures Value(0x00803938) == 0x00803938
  {
  }

  lemma SecondNumbers()
    ensures Value(0x1f0) == 0x1f0 && Value(0) == 0
  {
  }

  lemma LoadFirst(s: seq<byte>)
    requires |s| == 64 && s[62] == 0x80 && s[63] == 0
    requires forall k :: 0 <= k < 62 ==> s[k] == Letter(k)
    ensures Words(s) == FirstWords()
  {
    hide Value, Word, FirstWords;
    FirstNumbers();
    FirstAt();
    forall k | 0 <= k < 16
      ensures Words(s)[k] == FirstWords()[k]
    {
      WordFrom(s, 4 * k, FirstWords()[k]);
    }
  }

  lemma LoadSecond(s: seq<byte>)
    requires |s| == 64
    requires forall k :: 0 <= k < 64 ==> s[k] == if k == 56 then 0xf0 else if k == 57 then 1 else 0
    ensures Words(s) == SecondWords()
  {
    hide Value, Word, SecondWords;
    SecondNumbers();
    SecondAt();
    forall k | 0 <= k < 16
      ensures Words(s)[k] == SecondWords()[k]
    {
      WordFrom(s, 4 * k, SecondWords()[k]);
    }
  }

  lemma TwoBlocks(q: Quad, s: seq<byte>)
    requires |s| == 128
    ensures Absorb(q, s) == Compress(Compress(q, s[..64]), s[64..])
  {
    hide Compress;
    assert s[64..][..64] == s[64..] && s[64..][64..] == [];
    assert Absorb(Compress(q, s[..64]), s[64..]) == Absorb(Compress(Compress(q, s[..64]), s[64..]), []);
  }

  lemma Registers()
    ensures Absorb(START, PadClaiming(Alphanumeric(), 62)) ==
            Quad(0x98ab74d1, 0xf5d977d2, 0x2c1c61a5, 0x9f9d419f)
  {
    hide Compress, Words, Absorb, PadClaiming, FirstWords, SecondWords, Letter;
    var s := Padded();
    LoadFirst(s[..64]);
    LoadSecond(s[64..]);
    TwoBlocks(START, s);
    FirstBlock(s[..64]);
    SecondBlock(s[64..]);
  }

  lemma RegisterNumbers()
    ensures (0x98ab74d1 as word) as nat == 0x98ab74d1
    ensures (0xf5d977d2 as word) as nat == 0xf5d977d2
    ensures (0x2c1c61a5 as word) as nat == 0x2c1c61a5
    ensures (0x9f9d419f as word) as nat == 0x9f9d419f
  {
  }

  lemma DigestBytes()
    ensures Digest(Quad(0x98ab74d1, 0xf5d977d2, 0x2c1c61a5, 0x9f9d419f)) ==
            [0xd1, 0x74, 0xab, 0x98, 0xd2, 0x77, 0xd9, 0xf5,
             0xa5, 0x61, 0x1c, 0x2c, 0x9f, 0x41, 0x9d, 0x9f]
  {
    hide LittleEndian;
    RegisterNumbers();
    FourDigits(0xd1, 0x74, 0xab, 0x98);
    FourDigits(0xd2, 0x77, 0xd9, 0xf5);
    FourDigits(0xa5, 0x61, 0x1c, 0x2c);
    FourDigits(0x9f, 0x41, 0x9d, 0x9f);
  }

  /** The digest that RFC 1321 lists for the message. */
  lemma Md5OfAlphanumeric()
    ensures Md5(Alphanumeric()) ==
            [0xd1, 0x74, 0xab, 0x98, 0xd2, 0x77, 0xd9, 0xf5,
             0xa5, 0x61, 0x1c, 0x2c, 0x9f, 0x41, 0x9d, 0x9f]
  {
    hide Absorb, PadClaiming, Digest, Alphanumeric;
    Registers();
    DigestBytes();
  }
}
