/**
 SHA-1 (section 6.1 of RFC 3174), as the WebSocket handshake uses it.  As for SHA-256, the
 loops are proved for any word operations and then given those of the standard.
 */
module Sha1 {
  import opened Words
  import opened HashPadding

  /** The operations of sections 3 and 5 of RFC 3174; `f` and `k` depend on the round. */
  datatype Ops<!W> = Ops(
    add: (W, W) -> W,
    sum5: (W, W, W, W, W) -> W,  // of five words, from the left
    xor: (W, W) -> W,
    rotate1: W -> W,
    rotate5: W -> W,
    rotate30: W -> W,
    f: (nat, W, W, W) -> W,
    k: nat -> W)

  // ---------- the definition of section 6.1, terms in the standard's order ----------

  function Schedule<W>(ops: Ops<W>, words: seq<W>, t: nat): W
    requires |words| == 16
  {
    if t < 16 then words[t]
    else
      ops.rotate1(ops.xor(ops.xor(ops.xor(Schedule(ops, words, t - 3), Schedule(ops, words, t - 8)),
                                  Schedule(ops, words, t - 14)),
                          Schedule(ops, words, t - 16)))
  }

  datatype Working<W> = Working(a: W, b: W, c: W, d: W, e: W)

  function Round<W>(ops: Ops<W>, s: Working<W>, t: nat, w: W): Working<W> {
    var temp := ops.sum5(ops.rotate5(s.a), ops.f(t, s.b, s.c, s.d), s.e, w, ops.k(t));
    Working(temp, s.a, ops.rotate30(s.b), s.c, s.d)
  }

  function Rounds<W>(ops: Ops<W>, s: Working<W>, words: seq<W>, t: nat): Working<W>
    requires |words| == 16
  {
    if t == 0 then s else Round(ops, Rounds(ops, s, words, t - 1), t - 1, Schedule(ops, words, t - 1))
  }

  function Compress<W>(ops: Ops<W>, h: Working<W>, words: seq<W>): Working<W>
    requires |words| == 16
  {
    var s := Rounds(ops, h, words, 80);
    Working(ops.add(h.a, s.a), ops.add(h.b, s.b), ops.add(h.c, s.c), ops.add(h.d, s.d), ops.add(h.e, s.e))
  }

  function Digest<W>(ops: Ops<W>, word: Bytes -> W, h: Working<W>, data: Bytes): Working<W>
    requires |data| % 64 == 0
    decreases |data|
  {
    if data == [] then h else Digest(ops, word, Compress(ops, h, BlockWords(data[..64], word)), data[64..])
  }

  // ---------- the loops ----------

  /** The loop adds a round's constant before its word, the standard after it. */
  ghost predicate Reorders<W(!new)>(ops: Ops<W>) {
    forall a, b, c, d, e :: ops.sum5(a, b, c, d, e) == ops.sum5(a, b, c, e, d)
  }

  method MakeSchedule<W>(ops: Ops<W>, words: seq<W>) returns (w: seq<W>)
    requires |words| == 16
    ensures |w| == 80 && forall j :: 0 <= j < 80 ==> w[j] == Schedule(ops, words, j)
  {
    w := words;
    for i := 16 to 80
      invariant |w| == i && forall j :: 0 <= j < i ==> w[j] == Schedule(ops, words, j)
    {
      w := w + [ops.rotate1(ops.xor(ops.xor(ops.xor(w[i - 3], w[i - 8]), w[i - 14]), w[i - 16]))];
    }
  }

  lemma NextRound<W(!new)>(ops: Ops<W>, h: Working<W>, words: seq<W>, t: nat, temp: W)
    requires Reorders(ops) && |words| == 16
    requires var s := Rounds(ops, h, words, t);
      temp == ops.sum5(ops.rotate5(s.a), ops.f(t, s.b, s.c, s.d), s.e, ops.k(t), Schedule(ops, words, t))
    ensures var s := Rounds(ops, h, words, t);
      Rounds(ops, h, words, t + 1) == Working(temp, s.a, ops.rotate30(s.b), s.c, s.d)
  {
  }

  method ProcessBlock<W(!new)>(ops: Ops<W>, h: Working<W>, words: seq<W>) returns (next: Working<W>)
    requires Reorders(ops) && |words| == 16
    ensures next == Compress(ops, h, words)
  {
    var w := MakeSchedule(ops, words);
    var a, b, c, d, e := h.a, h.b, h.c, h.d, h.e;
    for i := 0 to 80
      invariant Working(a, b, c, d, e) == Rounds(ops, h, words, i)
    {
      var f, k := ops.f(i, b, c, d), ops.k(i);
      var temp := ops.sum5(ops.rotate5(a), f, e, k, w[i]);
      NextRound(ops, h, words, i, temp);
      e := d;
      d := c;
      c := ops.rotate30(b);
      b := a;
      a := temp;
    }
    next := Working(ops.add(h.a, a), ops.add(h.b, b), ops.add(h.c, c), ops.add(h.d, d), ops.add(h.e, e));
  }

  method HashBlocks<W(!new)>(ops: Ops<W>, word: Bytes -> W, start: Working<W>, data: Bytes) returns (h: Working<W>)
    requires Reorders(ops) && |data| % 64 == 0
    ensures h == Digest(ops, word, start, data)
  {
    h := start;
    var rest := data;
    while rest != []
      invariant |rest| % 64 == 0
      invariant Digest(ops, word, h, rest) == Digest(ops, word, start, data)
      decreases |rest|
    {
      OneBlockLess(|rest|);
      h := ProcessBlock(ops, h, BlockWords(rest[..64], word));
      rest := rest[64..];
    }
  }

  // ---------- the standard's operations on 32-bit words ----------

  function LeftRotate(x: bv32, n: bv32): bv32
    requires 0 < n < 32
  {
    (x << n) | (x >> (32 - n))
  }

  const OPS: Ops<bv32> := Ops(
    (x, y) => x + y,
    (a, b, c, d, e) => a + b + c + d + e,
    (x, y) => x ^ y,
    x => LeftRotate(x, 1),
    x => LeftRotate(x, 5),
    x => LeftRotate(x, 30),
    (t, b, c, d) =>
      if t < 20 then (b & c) | (!b & d)
      else if t < 40 then b ^ c ^ d
      else if t < 60 then (b & c) | (b & d) | (c & d)
      else b ^ c ^ d,
    t =>
      if t < 20 then 0x5A827999
      else if t < 40 then 0x6ED9EBA1
      else if t < 60 then 0x8F1BBCDC
      else 0xCA62C1D6)

  const INITIAL: Working<bv32> := Working(0x67452301, 0xEFCDAB89, 0x98BADCFE, 0x10325476, 0xC3D2E1F0)

  /** Modulo 2^32 the order of the terms does not matter. */
  lemma WordsReorder()
    ensures Reorders(OPS)
  {
  }

  method Hash(input: Bytes) returns (digest: Working<bv32>)
    ensures digest == Digest(OPS, WORD, INITIAL, Pad(input))
  {
    var data := PadMessage(input);
    WordsReorder();
    digest := HashBlocks(OPS, WORD, INITIAL, data);
  }
}
