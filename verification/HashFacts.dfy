/**
 The tables and word operations of the two hashes, stated apart from their definitions: the
 constants are roots of primes, the bitwise functions have their truth tables, and first steps agree
 with the worked examples the standards come with.
 */
module HashFacts {
  import opened Words
  import opened Frames
  import opened HashPadding
  import S2 = Sha256
  import S1 = Sha1

  // ---------- constants ----------

  /** `k` is the first 32 bits of the fractional part of the square root of `p`, whose integer part is `n`. */
  predicate SquareRootBits(p: nat, n: nat, k: bv32) {
    var r := n * 0x1_0000_0000 + k as nat;
    r * r <= p * 0x1_0000_0000_0000_0000 < (r + 1) * (r + 1)
  }

  /** The same for the cube root. */
  predicate CubeRootBits(p: nat, n: nat, k: bv32) {
    var r := n * 0x1_0000_0000 + k as nat;
    r * r * r <= p * 0x1_0000_0000_0000_0000_0000_0000 < (r + 1) * (r + 1) * (r + 1)
  }

  /** SHA-256 starts from the square roots of the first eight primes. */
  lemma InitialState()
    ensures SquareRootBits(2, 1, S2.INITIAL[0])
    ensures SquareRootBits(3, 1, S2.INITIAL[1])
    ensures SquareRootBits(5, 2, S2.INITIAL[2])
    ensures SquareRootBits(7, 2, S2.INITIAL[3])
    ensures SquareRootBits(11, 3, S2.INITIAL[4])
    ensures SquareRootBits(13, 3, S2.INITIAL[5])
    ensures SquareRootBits(17, 4, S2.INITIAL[6])
    ensures SquareRootBits(19, 4, S2.INITIAL[7])
  {
  }

  /** Its round constants come from the cube roots of the first 64 primes. */
  lemma Constants0()
    ensures CubeRootBits(2, 1, S2.K[0]) && CubeRootBits(3, 1, S2.K[1])
    ensures CubeRootBits(5, 1, S2.K[2]) && CubeRootBits(7, 1, S2.K[3])
  {
  }

  lemma Constants4()
    ensures CubeRootBits(11, 2, S2.K[4]) && CubeRootBits(13, 2, S2.K[5])
    ensures CubeRootBits(17, 2, S2.K[6]) && CubeRootBits(19, 2, S2.K[7])
  {
  }

  lemma Constants8()
    ensures CubeRootBits(23, 2, S2.K[8]) && CubeRootBits(29, 3, S2.K[9])
    ensures CubeRootBits(31, 3, S2.K[10]) && CubeRootBits(37, 3, S2.K[11])
  {
  }

  lemma Constants12()
    ensures CubeRootBits(41, 3, S2.K[12]) && CubeRootBits(43, 3, S2.K[13])
    ensures CubeRootBits(47, 3, S2.K[14]) && CubeRootBits(53, 3, S2.K[15])
  {
  }

  lemma Constants16()
    ensures CubeRootBits(59, 3, S2.K[16]) && CubeRootBits(61, 3, S2.K[17])
    ensures CubeRootBits(67, 4, S2.K[18]) && CubeRootBits(71, 4, S2.K[19])
  {
  }

  lemma Constants20()
    ensures CubeRootBits(73, 4, S2.K[20]) && CubeRootBits(79, 4, S2.K[21])
    ensures CubeRootBits(83, 4, S2.K[22]) && CubeRootBits(89, 4, S2.K[23])
  {
  }

  lemma Constants24()
    ensures CubeRootBits(97, 4, S2.K[24]) && CubeRootBits(101, 4, S2.K[25])
    ensures CubeRootBits(103, 4, S2.K[26]) && CubeRootBits(107, 4, S2.K[27])
  {
  }

  lemma Constants28()
    ensures CubeRootBits(109, 4, S2.K[28]) && CubeRootBits(113, 4, S2.K[29])
    ensures CubeRootBits(127, 5, S2.K[30]) && CubeRootBits(131, 5, S2.K[31])
  {
  }

  lemma Constants32()
    ensures CubeRootBits(137, 5, S2.K[32]) && CubeRootBits(139, 5, S2.K[33])
    ensures CubeRootBits(149, 5, S2.K[34]) && CubeRootBits(151, 5, S2.K[35])
  {
  }

  lemma Constants36()
    ensures CubeRootBits(157, 5, S2.K[36]) && CubeRootBits(163, 5, S2.K[37])
    ensures CubeRootBits(167, 5, S2.K[38]) && CubeRootBits(173, 5, S2.K[39])
  {
  }

  lemma Constants40()
    ensures CubeRootBits(179, 5, S2.K[40]) && CubeRootBits(181, 5, S2.K[41])
    ensures CubeRootBits(191, 5, S2.K[42]) && CubeRootBits(193, 5, S2.K[43])
  {
  }

  lemma Constants44()
    ensures CubeRootBits(197, 5, S2.K[44]) && CubeRootBits(199, 5, S2.K[45])
    ensures CubeRootBits(211, 5, S2.K[46]) && CubeRootBits(223, 6, S2.K[47])
  {
  }

  lemma Constants48()
    ensures CubeRootBits(227, 6, S2.K[48]) && CubeRootBits(229, 6, S2.K[49])
    ensures CubeRootBits(233, 6, S2.K[50]) && CubeRootBits(239, 6, S2.K[51])
  {
  }

  lemma Constants52()
    ensures CubeRootBits(241, 6, S2.K[52]) && CubeRootBits(251, 6, S2.K[53])
    ensures CubeRootBits(257, 6, S2.K[54]) && CubeRootBits(263, 6, S2.K[55])
  {
  }

  lemma Constants56()
    ensures CubeRootBits(269, 6, S2.K[56]) && CubeRootBits(271, 6, S2.K[57])
    ensures CubeRootBits(277, 6, S2.K[58]) && CubeRootBits(281, 6, S2.K[59])
  {
  }

  lemma Constants60()
    ensures CubeRootBits(283, 6, S2.K[60]) && CubeRootBits(293, 6, S2.K[61])
    ensures CubeRootBits(307, 6, S2.K[62]) && CubeRootBits(311, 6, S2.K[63])
  {
  }

  /** SHA-1 takes 2^30 times the square roots of 2, 3, 5 and 10, each for twenty rounds. */
  predicate QuarterRoot(p: nat, k: bv32) {
    k as nat * k as nat <= p * 0x1000_0000_0000_0000 < (k as nat + 1) * (k as nat + 1)
  }

  lemma RoundConstants(t: nat)
    requires t < 80
    ensures QuarterRoot(if t < 20 then 2 else if t < 40 then 3 else if t < 60 then 5 else 10, S1.OPS.k(t))
  {
  }

  /** Its start is the bytes 01 23 45 67 89 ab cd ef, back again, and f0 e1 d2 c3, each word from its low end. */
  lemma InitialBytes()
    ensures var h := S1.INITIAL;
      && Backwards(h.a, 0x01, 0x23, 0x45, 0x67) && Backwards(h.b, 0x89, 0xab, 0xcd, 0xef)
      && Backwards(h.c, 0xfe, 0xdc, 0xba, 0x98) && Backwards(h.d, 0x76, 0x54, 0x32, 0x10)
      && Backwards(h.e, 0xf0, 0xe1, 0xd2, 0xc3)
  {
  }

  predicate Backwards(w: bv32, b0: bv32, b1: bv32, b2: bv32, b3: bv32) {
    w & 0xff == b0 && (w >> 8) & 0xff == b1 && (w >> 16) & 0xff == b2 && w >> 24 == b3
  }

  // ---------- bitwise functions ----------

  /** Three words whose bits run through all eight cases, so a bitwise function of them is its truth table. */
  const X: bv32 := 0x0f0f0f0f
  const Y: bv32 := 0x33333333
  const Z: bv32 := 0x55555555

  const CHOICE: bv32 := 0x53535353    // y where x is set, z elsewhere
  const MAJORITY: bv32 := 0x17171717  // at least two of the three
  const PARITY: bv32 := 0x69696969    // an odd number of the three

  lemma TruthTables256()
    ensures S2.OPS.ch(X, Y, Z) == CHOICE && S2.OPS.maj(X, Y, Z) == MAJORITY
  {
  }

  /** The functions of SHA-1 by round (section 5 of RFC 3174). */
  lemma TruthTables1(t: nat)
    requires t < 80
    ensures S1.OPS.f(t, X, Y, Z) == if t < 20 then CHOICE else if 40 <= t < 60 then MAJORITY else PARITY
  {
  }

  // ---------- padding and words of a block ----------

  /** The padding of a message: the message, one set bit, zeros, and its length in bits as a big-endian number. */
  lemma PaddingShape(msg: Bytes)
    requires |msg| < 0x2000_0000_0000_0000
    ensures var padded := Pad(msg);
      && |padded| >= |msg| + 9 && padded[..|msg|] == msg && padded[|msg|] == 0x80
      && (forall i :: |msg| < i < |padded| - 8 ==> padded[i] == 0)
      && FromBigEndian(padded[|padded| - 8..]) == |msg| * 8
  {
    PadParts(msg);
    ExtendedLengths(|msg| * 8);
  }

  /** A word is the big-endian number of its four bytes. */
  lemma WordIsBigEndian(data: Bytes, i: nat)
    requires i + 4 <= |data|
    ensures WordAt(data, i) as nat == FromBigEndian(data[i..i + 4])
  {
    WordOfBytes(data[i], data[i + 1], data[i + 2], data[i + 3]);
    FourBytes(data[i..i + 4]);
  }

  lemma FourBytes(b: Bytes)
    requires |b| == 4
    ensures FromBigEndian(b) == ((b[0] as nat * 256 + b[1] as nat) * 256 + b[2] as nat) * 256 + b[3] as nat
  {
    assert b[..3][..2] == b[..2] && b[..2][..1] == b[..1] && b[..1][..0] == [];
    assert FromBigEndian(b[..1]) == b[0] as nat;
    assert FromBigEndian(b[..2]) == FromBigEndian(b[..1]) * 256 + b[1] as nat;
    assert FromBigEndian(b[..3]) == FromBigEndian(b[..2]) * 256 + b[2] as nat;
  }

  lemma WordOfBytes(a: bv8, b: bv8, c: bv8, d: bv8)
    ensures (((a as bv32) << 24) | ((b as bv32) << 16) | ((c as bv32) << 8) | (d as bv32)) as nat
         == ((a as nat * 256 + b as nat) * 256 + c as nat) * 256 + d as nat
  {
  }

  /** Word `i` of a block is that of its bytes 4 i to 4 i + 3. */
  lemma BlockWordsInOrder(block: Bytes, i: nat)
    requires |block| == 64 && i < 16
    ensures BlockWords(block, WORD)[i] as nat == FromBigEndian(block[4 * i..4 * i + 4])
  {
    var bytes := block[4 * i..4 * i + 4];
    WordIsBigEndian(bytes, 0);
    assert bytes[0..4] == bytes;
  }

  // ---------- first steps of the standards' examples ----------

  /** The first block of the message "abcdbcdecdefdefg...". */
  const LONGER: seq<bv32> :=
    [0x61626364, 0x62636465, 0x63646566, 0x64656667, 0x65666768, 0x66676869, 0x6768696a, 0x68696a6b]
    + [0x696a6b6c, 0x6a6b6c6d, 0x6b6c6d6e, 0x6c6d6e6f, 0x6d6e6f70, 0x6e6f7071, 0x80000000, 0x00000000]

  lemma ExampleSchedules()
    ensures S2.Schedule(S2.OPS, LONGER, 16) == 0xeb8012ad && S2.Schedule(S2.OPS, LONGER, 17) == 0xa7c3ae92
    ensures S1.Schedule(S1.OPS, LONGER, 16) == 0x0a063a3e && S1.Schedule(S1.OPS, LONGER, 17) == 0xd8dadcdf
  {
  }

  /** The one block of the message "abc". */
  const ABC: seq<bv32> := [0x61626380, 0, 0, 0, 0, 0, 0, 0] + [0, 0, 0, 0, 0, 0, 0, 0x18]

  lemma ExampleRounds256()
    ensures S2.Rounds(S2.OPS, S2.Start(S2.INITIAL), S2.K, ABC, 1)
      == S2.Working(0x5d6aebcd, 0x6a09e667, 0xbb67ae85, 0x3c6ef372,
                    0xfa2a4622, 0x510e527f, 0x9b05688c, 0x1f83d9ab)
    ensures S2.Rounds(S2.OPS, S2.Start(S2.INITIAL), S2.K, ABC, 2)
      == S2.Working(0x5a6ad9ad, 0x5d6aebcd, 0x6a09e667, 0xbb67ae85,
                    0x78ce7989, 0xfa2a4622, 0x510e527f, 0x9b05688c)
  {
  }

  lemma ExampleRounds1()
    ensures S1.Rounds(S1.OPS, S1.INITIAL, ABC, 1)
      == S1.Working(0x0116fc33, 0x67452301, 0x7bf36ae2, 0x98badcfe, 0x10325476)
    ensures S1.Rounds(S1.OPS, S1.INITIAL, ABC, 2)
      == S1.Working(0x8990536d, 0x0116fc33, 0x59d148c0, 0x7bf36ae2, 0x98badcfe)
  {
  }

  // ---------- the last step of a block ----------

  function Field<W>(s: S2.Working<W>, i: nat): W
    requires i < 8
  {
    match i
    case 0 => s.a
    case 1 => s.b
    case 2 => s.c
    case 3 => s.d
    case 4 => s.e
    case 5 => s.f
    case 6 => s.g
    case _ => s.h
  }

  /** Word `i` of the state goes in as working variable `i`, and variable `i` is added to it in the end. */
  lemma FeedForward<W>(ops: S2.Ops<W>, k: seq<W>, h: seq<W>, words: seq<W>, i: nat)
    requires |h| == 8 && |words| == 16 && |k| == 64 && i < 8
    ensures Field(S2.Start(h), i) == h[i]
    ensures S2.Compress(ops, k, h, words)[i] == ops.add(Field(S2.Rounds(ops, S2.Start(h), k, words, 64), i), h[i])
  {
  }

  function Field1<W>(s: S1.Working<W>, i: nat): W
    requires i < 5
  {
    match i
    case 0 => s.a
    case 1 => s.b
    case 2 => s.c
    case 3 => s.d
    case _ => s.e
  }

  lemma FeedForward1<W>(ops: S1.Ops<W>, h: S1.Working<W>, words: seq<W>, i: nat)
    requires |words| == 16 && i < 5
    ensures Field1(S1.Compress(ops, h, words), i) == ops.add(Field1(h, i), Field1(S1.Rounds(ops, h, words, 80), i))
  {
  }
}
