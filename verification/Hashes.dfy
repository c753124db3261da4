/**
 The padding the two hashes share (section 5.1.1 of FIPS 180-4, section 4 of RFC 3174).
 */
module HashPadding {
  import opened Frames
  import opened Words

  function Zeros(n: nat): (z: Bytes)
    ensures |z| == n
  {
    seq(n, _ => 0)
  }

  /** How many zero bytes bring the message and its 0x80 to 56 modulo 64. */
  function ZeroCount(length: nat): (z: nat)
    ensures z < 64 && (length + 1 + z) % 64 == 56
  {
    (55 - length) % 64
  }

  lemma PaddedLength(length: nat)
    ensures (length + 1 + ZeroCount(length) + 8) % 64 == 0
  {
  }

  /** The message, a single one bit, the fewest zeros, and the bit length in 64 bits. */
  function Pad(msg: Bytes): (padded: Bytes)
    ensures |padded| % 64 == 0
  {
    PaddedLength(|msg|);
    msg + [0x80] + Zeros(ZeroCount(|msg|)) + BigEndian(|msg| * 8 % TWO_64, 8)
  }

  method PadMessage(msg: Bytes) returns (data: Bytes)
    ensures data == Pad(msg)
  {
    var bitLength := |msg| * 8 % TWO_64;
    data := msg + [0x80];
    ghost var zeros := 0;
    while |data| % 64 != 56
      invariant zeros <= ZeroCount(|msg|)
      invariant data == msg + [0x80] + Zeros(zeros)
      decreases ZeroCount(|msg|) - zeros
    {
      FewestZeros(|msg|, zeros);
      data := data + [0];
      zeros := zeros + 1;
      assert Zeros(zeros - 1) + [0] == Zeros(zeros);
    }
    FewestZeros(|msg|, zeros);
    data := PushUint64(data, bitLength);
  }

  /** No shorter run of zeros aligns the message to whole blocks. */
  lemma FewestZeros(length: nat, zeros: nat)
    ensures (length + 1 + zeros) % 64 == 56 ==> zeros >= ZeroCount(length)
    ensures zeros <= ZeroCount(length) && (length + 1 + zeros) % 64 != 56 ==> zeros < ZeroCount(length)
  {
  }

  /** Padding is injective on messages below 2^61 bytes, so it hides no difference from the hash. */
  lemma PadInjective(a: Bytes, b: Bytes)
    requires |a| < 0x2000_0000_0000_0000 && |b| < 0x2000_0000_0000_0000
    requires Pad(a) == Pad(b)
    ensures a == b
  {
    PadParts(a);
    PadParts(b);
    ExtendedLengths(|a| * 8);
    ExtendedLengths(|b| * 8);
  }

  lemma PadParts(msg: Bytes)
    requires |msg| < 0x2000_0000_0000_0000
    ensures var padded := Pad(msg); padded[|padded| - 8..] == BigEndian(|msg| * 8, 8) && padded[..|msg|] == msg
  {
    assert |msg| * 8 % TWO_64 == |msg| * 8;
  }

  lemma OneBlockLess(length: nat)
    requires length > 0 && length % 64 == 0
    ensures length >= 64 && (length - 64) % 64 == 0
  {
  }

  /** The 32-bit word at byte `i`, most significant byte first. */
  function WordAt(data: Bytes, i: nat): bv32
    requires i + 4 <= |data|
  {
    ((data[i] as bv32) << 24) | ((data[i + 1] as bv32) << 16) | ((data[i + 2] as bv32) << 8) | (data[i + 3] as bv32)
  }

  const WORD: Bytes -> bv32 := bytes => if |bytes| == 4 then WordAt(bytes, 0) else 0

  /** The sixteen words of a block, by a reading of four bytes. */
  function BlockWords<W>(block: Bytes, word: Bytes -> W): (words: seq<W>)
    requires |block| == 64
    ensures |words| == 16
  {
    seq(16, i requires 0 <= i < 16 => word(block[i * 4..i * 4 + 4]))
  }
}

/**
 SHA-256 (FIPS 180-4), as the commit ids use it.  The loops are proved for any word
 operations; the last part gives those of the standard.
 */
module Sha256 {
  import opened Words
  import opened HashPadding

  /** The operations of section 4.1.2, on words of type W. */
  datatype Ops<!W> = Ops(
    add: (W, W) -> W,
    sum4: (W, W, W, W) -> W,  // of four words, from the left
    ch: (W, W, W) -> W,
    maj: (W, W, W) -> W,
    bigSigma0: W -> W,
    bigSigma1: W -> W,
    smallSigma0: W -> W,
    smallSigma1: W -> W)

  // ---------- the definition of section 6.2.2, terms in the standard's order ----------

  /** Word `t` of the message schedule. */
  function Schedule<W>(ops: Ops<W>, words: seq<W>, t: nat): W
    requires |words| == 16
  {
    if t < 16 then words[t]
    else
      ops.sum4(ops.smallSigma1(Schedule(ops, words, t - 2)), Schedule(ops, words, t - 7),
               ops.smallSigma0(Schedule(ops, words, t - 15)), Schedule(ops, words, t - 16))
  }

  datatype Working<W> = Working(a: W, b: W, c: W, d: W, e: W, f: W, g: W, h: W)

  function Round<W>(ops: Ops<W>, s: Working<W>, k: W, w: W): Working<W> {
    var t1 := ops.add(ops.sum4(s.h, ops.bigSigma1(s.e), ops.ch(s.e, s.f, s.g), k), w);
    var t2 := ops.add(ops.bigSigma0(s.a), ops.maj(s.a, s.b, s.c));
    Working(ops.add(t1, t2), s.a, s.b, s.c, ops.add(s.d, t1), s.e, s.f, s.g)
  }

  function Rounds<W>(ops: Ops<W>, s: Working<W>, k: seq<W>, words: seq<W>, t: nat): Working<W>
    requires |words| == 16 && t <= |k|
  {
    if t == 0 then s else Round(ops, Rounds(ops, s, k, words, t - 1), k[t - 1], Schedule(ops, words, t - 1))
  }

  function Start<W>(h: seq<W>): Working<W>
    requires |h| == 8
  {
    Working(h[0], h[1], h[2], h[3], h[4], h[5], h[6], h[7])
  }

  function Compress<W>(ops: Ops<W>, k: seq<W>, h: seq<W>, words: seq<W>): (next: seq<W>)
    requires |h| == 8 && |words| == 16 && |k| == 64
    ensures |next| == 8
  {
    var s := Rounds(ops, Start(h), k, words, 64);
    [ops.add(s.a, h[0]), ops.add(s.b, h[1]), ops.add(s.c, h[2]), ops.add(s.d, h[3]),
     ops.add(s.e, h[4]), ops.add(s.f, h[5]), ops.add(s.g, h[6]), ops.add(s.h, h[7])]
  }

  // ---------- the loops ----------

  /** What the loops use of the additions: they add the schedule's terms and the new state from
      the other end than the standard writes them. */
  ghost predicate Reorders<W(!new)>(ops: Ops<W>) {
    && (forall a, b :: ops.add(a, b) == ops.add(b, a))
    && (forall a, b, c, d :: ops.sum4(a, b, c, d) == ops.sum4(d, c, b, a))
  }

  method MakeSchedule<W(!new)>(ops: Ops<W>, words: seq<W>) returns (w: seq<W>)
    requires Reorders(ops) && |words| == 16
    ensures |w| == 64 && forall j :: 0 <= j < 64 ==> w[j] == Schedule(ops, words, j)
  {
    w := words;
    for i := 16 to 64
      invariant |w| == i && forall j :: 0 <= j < i ==> w[j] == Schedule(ops, words, j)
    {
      var s0 := ops.smallSigma0(w[i - 15]);
      var s1 := ops.smallSigma1(w[i - 2]);
      w := w + [ops.sum4(w[i - 16], s0, w[i - 7], s1)];
    }
  }

  /** The eight working variables, shifted in place round by round, then added to the state. */
  method ProcessBlock<W(!new)>(ops: Ops<W>, k: seq<W>, h: array<W>, words: seq<W>)
    requires Reorders(ops) && h.Length == 8 && |words| == 16 && |k| == 64
    modifies h
    ensures h[..] == Compress(ops, k, old(h[..]), words)
  {
    var w := MakeSchedule(ops, words);
    var a, b, c, d, e, f, g, hh := h[0], h[1], h[2], h[3], h[4], h[5], h[6], h[7];
    for i := 0 to 64
      invariant Working(a, b, c, d, e, f, g, hh) == Rounds(ops, Start(old(h[..])), k, words, i)
    {
      var s1 := ops.bigSigma1(e);
      var ch := ops.ch(e, f, g);
      var temp1 := ops.add(ops.sum4(hh, s1, ch, k[i]), w[i]);
      var s0 := ops.bigSigma0(a);
      var maj := ops.maj(a, b, c);
      var temp2 := ops.add(s0, maj);
      hh := g;
      g := f;
      f := e;
      e := ops.add(d, temp1);
      d := c;
      c := b;
      b := a;
      a := ops.add(temp1, temp2);
    }
    h[0] := ops.add(h[0], a);
    h[1] := ops.add(h[1], b);
    h[2] := ops.add(h[2], c);
    h[3] := ops.add(h[3], d);
    h[4] := ops.add(h[4], e);
    h[5] := ops.add(h[5], f);
    h[6] := ops.add(h[6], g);
    h[7] := ops.add(h[7], hh);
  }

  // ---------- whole messages ----------

  /** All blocks of a padded message, in order. */
  function Digest<W>(ops: Ops<W>, k: seq<W>, word: Bytes -> W, h: seq<W>, data: Bytes): (next: seq<W>)
    requires |h| == 8 && |k| == 64 && |data| % 64 == 0
    ensures |next| == 8
    decreases |data|
  {
    if data == [] then h else Digest(ops, k, word, Compress(ops, k, h, BlockWords(data[..64], word)), data[64..])
  }

  method HashBlocks<W(!new)>(ops: Ops<W>, k: seq<W>, word: Bytes -> W, h: array<W>, data: Bytes)
    requires Reorders(ops) && h.Length == 8 && |k| == 64 && |data| % 64 == 0
    modifies h
    ensures h[..] == Digest(ops, k, word, old(h[..]), data)
  {
    var rest := data;
    while rest != []
      invariant |rest| % 64 == 0
      invariant Digest(ops, k, word, h[..], rest) == Digest(ops, k, word, old(h[..]), data)
      decreases |rest|
    {
      OneBlockLess(|rest|);
      ProcessBlock(ops, k, h, BlockWords(rest[..64], word));
      rest := rest[64..];
    }
  }

  /** Hashing whole blocks one part after the other is hashing their concatenation. */
  lemma {:induction false} DigestConcat<W>(ops: Ops<W>, k: seq<W>, word: Bytes -> W, h: seq<W>, a: Bytes, b: Bytes)
    requires |h| == 8 && |k| == 64 && |a| % 64 == 0 && |b| % 64 == 0
    ensures Digest(ops, k, word, h, a + b) == Digest(ops, k, word, Digest(ops, k, word, h, a), b)
    decreases |a|
  {
    if a == [] {
      assert a + b == b;
    } else {
      assert (a + b)[..64] == a[..64] && (a + b)[64..] == a[64..] + b;
      DigestConcat(ops, k, word, Compress(ops, k, h, BlockWords(a[..64], word)), a[64..], b);
    }
  }

  // ---------- the standard's operations on 32-bit words ----------

  const K: seq<bv32> :=
    [0x428a2f98, 0x71374491, 0xb5c0fbcf, 0xe9b5dba5, 0x3956c25b, 0x59f111f1, 0x923f82a4, 0xab1c5ed5]
    + [0xd807aa98, 0x12835b01, 0x243185be, 0x550c7dc3, 0x72be5d74, 0x80deb1fe, 0x9bdc06a7, 0xc19bf174]
    + [0xe49b69c1, 0xefbe4786, 0x0fc19dc6, 0x240ca1cc, 0x2de92c6f, 0x4a7484aa, 0x5cb0a9dc, 0x76f988da]
    + [0x983e5152, 0xa831c66d, 0xb00327c8, 0xbf597fc7, 0xc6e00bf3, 0xd5a79147, 0x06ca6351, 0x14292967]
    + [0x27b70a85, 0x2e1b2138, 0x4d2c6dfc, 0x53380d13, 0x650a7354, 0x766a0abb, 0x81c2c92e, 0x92722c85]
    + [0xa2bfe8a1, 0xa81a664b, 0xc24b8b70, 0xc76c51a3, 0xd192e819, 0xd6990624, 0xf40e3585, 0x106aa070]
    + [0x19a4c116, 0x1e376c08, 0x2748774c, 0x34b0bcb5, 0x391c0cb3, 0x4ed8aa4a, 0x5b9cca4f, 0x682e6ff3]
    + [0x748f82ee, 0x78a5636f, 0x84c87814, 0x8cc70208, 0x90befffa, 0xa4506ceb, 0xbef9a3f7, 0xc67178f2]

  const INITIAL: seq<bv32> := [
    0x6a09e667, 0xbb67ae85, 0x3c6ef372, 0xa54ff53a, 0x510e527f, 0x9b05688c, 0x1f83d9ab, 0x5be0cd19]

  function Rotr(x: bv32, n: bv32): bv32
    requires 0 < n < 32
  {
    (x >> n) | (x << (32 - n))
  }

  const OPS: Ops<bv32> := Ops(
    (x, y) => x + y,
    (a, b, c, d) => a + b + c + d,
    (x, y, z) => (x & y) ^ (!x & z),
    (x, y, z) => (x & y) ^ (x & z) ^ (y & z),
    x => Rotr(x, 2) ^ Rotr(x, 13) ^ Rotr(x, 22),
    x => Rotr(x, 6) ^ Rotr(x, 11) ^ Rotr(x, 25),
    x => Rotr(x, 7) ^ Rotr(x, 18) ^ (x >> 3),
    x => Rotr(x, 17) ^ Rotr(x, 19) ^ (x >> 10))

  /** Modulo 2^32 the order of the terms does not matter. */
  lemma WordsReorder()
    ensures Reorders(OPS)
  {
  }

  /** The hash of a message is the digest of its padding from the initial state. */
  method Hash(input: Bytes) returns (digest: seq<bv32>)
    ensures digest == Digest(OPS, K, WORD, INITIAL, Pad(input))
  {
    var data := PadMessage(input);
    var h := new bv32[8](i requires 0 <= i < 8 => INITIAL[i]);
    assert h[..] == INITIAL;
    WordsReorder();
    HashBlocks(OPS, K, WORD, h, data);
    digest := h[..];
  }
}
