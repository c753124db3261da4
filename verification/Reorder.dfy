/**
 Reordering the rules of a program.  Any permutation that keeps the relative order of
 every conflicting pair leaves the same memory and the same counters after every run.
 */
module Reorder {
  import opened ProcessImage
  import opened Logic
  import opened Runs

  /** One of the two rules writes a signal the other reads or writes. */
  ghost predicate Conflict(a: Rule, b: Rule) {
    a.out == b.out || Reads(a.condition, b.out) || Reads(b.condition, a.out)
  }

  /** `p` and `q` are inverse permutations of 0..|p|-1. */
  ghost predicate Permutation(p: seq<nat>, q: seq<nat>) {
    && |p| == |q|
    && (forall i :: 0 <= i < |p| ==> p[i] < |p| && q[p[i]] == i)
    && (forall i :: 0 <= i < |q| ==> q[i] < |q| && p[q[i]] == i)
  }

  /** `b` is `a` permuted (b[i] is a[p[i]]) with conflicting rules kept in order. */
  ghost predicate Reordering(a: seq<Rule>, b: seq<Rule>, p: seq<nat>, q: seq<nat>) {
    && |a| == |b| == |p| && Permutation(p, q)
    && (forall i :: 0 <= i < |b| ==> b[i] == a[p[i]])
    && (forall i, j :: 0 <= i < j < |b| && Conflict(b[i], b[j]) ==> p[i] < p[j])
  }

  // ---------- moving one rule past a block it does not conflict with ----------

  /** A block of rules that neither reads nor writes `out` does not notice a write to it. */
  lemma {:induction false} WriteCommutesWithBlock(block: seq<Rule>, m: Image, out: SignalRef, value: bool)
    requires forall i :: 0 <= i < |block| ==> block[i].out != out && !Reads(block[i].condition, out)
    ensures After(block, Write(m, out, value)) == Write(After(block, m), out, value)
  {
    if block != [] {
      var init, last := block[..|block| - 1], block[|block| - 1];
      WriteCommutesWithBlock(init, m, out, value);
      EvaluationIsLocal(last.condition, After(init, m), Write(After(init, m), out, value));
    }
  }

  lemma TicksCommuteWithBlock(block: seq<Rule>, m: Image, out: SignalRef, value: bool)
    requires forall i :: 0 <= i < |block| ==> block[i].out != out && !Reads(block[i].condition, out)
    ensures Ticked(block, Write(m, out, value)) == Ticked(block, m)
  {
    forall r | 0 <= r < |block|
      ensures Next(block[r].condition, After(block[..r], Write(m, out, value)))
           == Next(block[r].condition, After(block[..r], m))
    {
      WriteCommutesWithBlock(block[..r], m, out, value);
      EvaluationIsLocal(block[r].condition, After(block[..r], m), Write(After(block[..r], m), out, value));
    }
  }

  /** A rule that reads nothing a block writes evaluates alike before and after the block. */
  lemma EvaluationCommutesWithBlock(block: seq<Rule>, m: Image, x: Rule)
    requires forall i :: 0 <= i < |block| ==> !Reads(x.condition, block[i].out)
    ensures Val(x.condition, After(block, m)) == Val(x.condition, m)
    ensures Next(x.condition, After(block, m)) == Next(x.condition, m)
  {
    forall r | Reads(x.condition, r) ensures r in After(block, m) <==> r in m {
      UntargetedUnchanged(block, m, r);
    }
    EvaluationIsLocal(x.condition, After(block, m), m);
  }

  lemma OneRule(x: Rule, m: Image)
    ensures After([x], m) == Write(m, x.out, Val(x.condition, m))
    ensures Ticked([x], m) == [x.(condition := Next(x.condition, m))]
  {
    assert [x][..0] == [];
  }

  /** Moving a rule over a block without conflicts: same memory, same counters. */
  lemma RuleCommutesWithBlock(x: Rule, block: seq<Rule>, m: Image)
    requires forall i :: 0 <= i < |block| ==> !Conflict(x, block[i])
    ensures After(block, After([x], m)) == After([x], After(block, m))
    ensures Ticked([x], m) == Ticked([x], After(block, m))
    ensures Ticked(block, After([x], m)) == Ticked(block, m)
  {
    OneRule(x, m);
    OneRule(x, After(block, m));
    EvaluationCommutesWithBlock(block, m, x);
    WriteCommutesWithBlock(block, m, x.out, Val(x.condition, m));
    TicksCommuteWithBlock(block, m, x.out, Val(x.condition, m));
  }

  /** A scan of b1 + [x] + b2 is a scan of b1 + b2 followed by x. */
  lemma RuleMovesToEnd(b1: seq<Rule>, x: Rule, b2: seq<Rule>, m: Image)
    requires forall i :: 0 <= i < |b2| ==> !Conflict(x, b2[i])
    ensures After(b1 + [x] + b2, m) == After([x], After(b1 + b2, m))
    ensures Ticked(b1 + [x] + b2, m) == Ticked(b1, m) + Ticked([x], After(b1 + b2, m)) + Ticked(b2, After(b1, m))
  {
    AfterConcat(b1 + [x], b2, m);
    AfterConcat(b1, [x], m);
    AfterConcat(b1, b2, m);
    TickedConcat(b1 + [x], b2, m);
    TickedConcat(b1, [x], m);
    RuleCommutesWithBlock(x, b2, After(b1, m));
  }

  // ---------- one scan of a reordered program ----------

  /** The sequence without its element `k`. */
  function Without<T>(s: seq<T>, k: nat): (t: seq<T>)
    requires k < |s|
    ensures |t| == |s| - 1
    ensures forall i :: 0 <= i < |t| ==> t[i] == s[Skip(i, k)]
  {
    s[..k] + s[k + 1..]
  }

  function Skip(i: nat, k: nat): nat {
    if i < k then i else i + 1
  }

  /** Where the elements of an inverse permutation stand once position `k` is gone. */
  function Shifted(q: seq<nat>, k: nat): (t: seq<nat>)
    requires q != [] && forall i :: 0 <= i < |q| - 1 ==> q[i] != k
    ensures |t| == |q| - 1
    ensures forall i :: 0 <= i < |t| ==> Skip(t[i], k) == q[i]
  {
    seq(|q| - 1, i requires 0 <= i < |q| - 1 => if q[i] < k then q[i] else q[i] - 1)
  }

  lemma PermutationWithoutLast(p: seq<nat>, q: seq<nat>)
    requires Permutation(p, q) && q != []
    ensures var k := q[|q| - 1];
            (forall i :: 0 <= i < |q| - 1 ==> q[i] != k) && Permutation(Without(p, k), Shifted(q, k))
  {
    var n := |q| - 1;
    var k := q[n];
    forall i | 0 <= i < n ensures q[i] != k {
      assert p[q[i]] == i && p[k] == n;
    }
    var p', q' := Without(p, k), Shifted(q, k);
    forall i | 0 <= i < n ensures p'[i] < n && q'[p'[i]] == i {
      assert q[p[Skip(i, k)]] == Skip(i, k);
      assert p[Skip(i, k)] != n;
      assert Skip(q'[p'[i]], k) == Skip(i, k);
    }
    forall i | 0 <= i < n ensures q'[i] < n && p'[q'[i]] == i {
      assert Skip(q'[i], k) == q[i] && p[q[i]] == i;
    }
  }

  /** The reordering that is left when the last rule of `a` is taken out. */
  lemma ReorderingWithoutLast(a: seq<Rule>, b: seq<Rule>, p: seq<nat>, q: seq<nat>)
    requires Reordering(a, b, p, q) && a != []
    ensures var n, k := |a| - 1, q[|a| - 1];
            && k < |b| && b[k] == a[n]
            && (forall i :: 0 <= i < n ==> q[i] != k)
            && Reordering(a[..n], Without(b, k), Without(p, k), Shifted(q, k))
            && forall j :: k < j < |b| ==> !Conflict(b[k], b[j])
  {
    var n, k := |a| - 1, q[|a| - 1];
    PermutationWithoutLast(p, q);
    OrderWithoutOne(a, b, p, k);
    forall j | k < j < |b| ensures !Conflict(b[k], b[j]) {
      assert p[k] == n && p[j] <= n;
    }
  }

  lemma OrderWithoutOne(a: seq<Rule>, b: seq<Rule>, p: seq<nat>, k: nat)
    requires |a| == |b| == |p| && k < |b| && p[k] == |a| - 1
    requires forall i :: 0 <= i < |b| ==> p[i] < |a| && b[i] == a[p[i]]
    requires forall i :: 0 <= i < |b| && i != k ==> p[i] < |a| - 1
    requires forall i, j :: 0 <= i < j < |b| && Conflict(b[i], b[j]) ==> p[i] < p[j]
    ensures var n, b', p' := |a| - 1, Without(b, k), Without(p, k);
      && (forall i :: 0 <= i < n ==> p'[i] < n && b'[i] == a[..n][p'[i]])
      && (forall i, j :: 0 <= i < j < n && Conflict(b'[i], b'[j]) ==> p'[i] < p'[j])
  {
    var n, b', p' := |a| - 1, Without(b, k), Without(p, k);
    forall i | 0 <= i < n ensures p'[i] < n && b'[i] == a[..n][p'[i]] {
      assert p'[i] == p[Skip(i, k)] && b'[i] == b[Skip(i, k)];
    }
    forall i, j | 0 <= i < j < n && Conflict(b'[i], b'[j]) ensures p'[i] < p'[j] {
      assert Conflict(b[Skip(i, k)], b[Skip(j, k)]);
    }
  }

  /** One scan of the two orders: same memory, and rule i has the counters of rule p[i]. */
  lemma {:induction false} ReorderedScan(a: seq<Rule>, b: seq<Rule>, p: seq<nat>, q: seq<nat>, m: Image)
    requires Reordering(a, b, p, q)
    ensures After(a, m) == After(b, m)
    ensures forall i :: 0 <= i < |b| ==> Ticked(b, m)[i] == Ticked(a, m)[p[i]]
    decreases |a|
  {
    if a != [] {
      var n, k := |a| - 1, q[|a| - 1];
      ReorderingWithoutLast(a, b, p, q);
      var p' := Without(p, k);
      ReorderedScan(a[..n], Without(b, k), p', Shifted(q, k), m);
      LastRuleScan(a, m, n);
      MiddleRuleScan(b, k, k, m);
      forall i | 0 <= i < |b| ensures Ticked(b, m)[i] == Ticked(a, m)[p[i]] {
        ReorderedTick(a, b, p, q, m, i);
      }
    }
  }

  lemma ReorderedTick(a: seq<Rule>, b: seq<Rule>, p: seq<nat>, q: seq<nat>, m: Image, i: nat)
    requires Reordering(a, b, p, q) && i < |b|
    requires var n, k := |a| - 1, q[|a| - 1];
      && k < |b| && b[k] == a[n] && After(Without(b, k), m) == After(a[..n], m)
      && (forall j :: 0 <= j < n ==>
            Without(p, k)[j] < n && Ticked(Without(b, k), m)[j] == Ticked(a[..n], m)[Without(p, k)[j]])
      && (forall j :: k < j < |b| ==> !Conflict(b[k], b[j]))
    ensures Ticked(b, m)[i] == Ticked(a, m)[p[i]]
  {
    var n, k := |a| - 1, q[|a| - 1];
    assert q[p[i]] == i && p[k] == n;
    if i == k {
      MiddleRuleScan(b, k, k, m);
      LastRuleScan(a, m, n);
    } else {
      assert p[i] == Without(p, k)[Unskip(i, k)];
      EarlierTick(a, b, k, m, i, p[i]);
    }
  }

  lemma EarlierTick(a: seq<Rule>, b: seq<Rule>, k: nat, m: Image, i: nat, r: nat)
    requires |a| == |b| && k < |b| && i < |b| && i != k && r < |a| - 1
    requires forall j :: k < j < |b| ==> !Conflict(b[k], b[j])
    requires Ticked(Without(b, k), m)[Unskip(i, k)] == Ticked(a[..|a| - 1], m)[r]
    ensures Ticked(b, m)[i] == Ticked(a, m)[r]
  {
    MiddleRuleScan(b, k, i, m);
    LastRuleScan(a, m, r);
  }

  function Unskip(i: nat, k: nat): (j: nat)
    requires i != k
    ensures Skip(j, k) == i
  {
    if i < k then i else i - 1
  }

  lemma LastRuleScan(a: seq<Rule>, m: Image, r: nat)
    requires r < |a|
    ensures var n := |a| - 1;
            && After(a, m) == After([a[n]], After(a[..n], m))
            && Ticked(a, m)[r] == if r < n then Ticked(a[..n], m)[r] else Ticked([a[n]], After(a[..n], m))[0]
  {
    var n := |a| - 1;
    assert a == a[..n] + [a[n]];
    AfterConcat(a[..n], [a[n]], m);
    TickedConcatAt(a[..n], [a[n]], m, r);
  }

  lemma MiddleRuleScan(b: seq<Rule>, k: nat, i: nat, m: Image)
    requires k < |b| && i < |b| && forall j :: k < j < |b| ==> !Conflict(b[k], b[j])
    ensures After(b, m) == After([b[k]], After(Without(b, k), m))
    ensures Ticked(b, m)[i] == if i == k then Ticked([b[k]], After(Without(b, k), m))[0]
                               else Ticked(Without(b, k), m)[Unskip(i, k)]
  {
    var b1, b2 := b[..k], b[k + 1..];
    assert b == b1 + [b[k]] + b2;
    RuleMovesToEnd(b1, b[k], b2, m);
    TickedConcat(b1, b2, m);
  }

  lemma TickedStaysReordering(a: seq<Rule>, b: seq<Rule>, p: seq<nat>, q: seq<nat>, m: Image)
    requires Reordering(a, b, p, q)
    ensures Reordering(Ticked(a, m), Ticked(b, m), p, q)
  {
    ReorderedScan(a, b, p, q, m);
    var tb := Ticked(b, m);
    forall i, j | 0 <= i < j < |b| && Conflict(tb[i], tb[j]) ensures p[i] < p[j] {
      EvaluationKeepsShape(b[i].condition, After(b[..i], m));
      EvaluationKeepsShape(b[j].condition, After(b[..j], m));
      assert Conflict(b[i], b[j]);
    }
  }

  // ---------- every run ----------

  /** After every number of scans on every input sequence, the reordered program has the
      same memory, and each rule has the counters of the rule it is a copy of. */
  lemma {:induction false} ReorderingKeepsRuns(a: seq<Rule>, b: seq<Rule>, p: seq<nat>, q: seq<nat>,
                                             start: Image, inputs: seq<Image>, n: nat)
    requires Reordering(a, b, p, q) && n <= |inputs|
    ensures ImageAt(a, start, inputs, n) == ImageAt(b, start, inputs, n)
    ensures Reordering(RulesAt(a, start, inputs, n), RulesAt(b, start, inputs, n), p, q)
  {
    if n > 0 {
      ReorderingKeepsRuns(a, b, p, q, start, inputs, n - 1);
      var ready := ReadyAt(a, start, inputs, n - 1);
      assert ready == ReadyAt(b, start, inputs, n - 1);
      ReorderedScan(RulesAt(a, start, inputs, n - 1), RulesAt(b, start, inputs, n - 1), p, q, ready);
      TickedStaysReordering(RulesAt(a, start, inputs, n - 1), RulesAt(b, start, inputs, n - 1), p, q, ready);
    }
  }

  /** The order of a conflicting pair matters: a chain through %M read in the wrong order. */
  lemma ConflictingOrderMatters()
    ensures exists x: Rule, y: Rule, m: Image :: Conflict(x, y) && After([x, y], m) != After([y, x], m)
  {
    var i, mid, out := SignalRef(Input, 0, 0), SignalRef(Memory, 0, 0), SignalRef(Output, 0, 0);
    var x, y := Rule("stage1", mid, SignalNode(i)), Rule("stage2", out, SignalNode(mid));
    var m: Image := iset{i};
    assert [x, y] == [x] + [y] && [y, x] == [y] + [x];
    AfterConcat([x], [y], m);
    AfterConcat([y], [x], m);
    OneRule(x, m);
    OneRule(y, m);
    OneRule(y, After([x], m));
    OneRule(x, After([y], m));
    assert out in After([x, y], m) && out !in After([y, x], m);
    assert Conflict(x, y);
  }

  /** In particular two rules may change places when they write different signals and neither
      reads what the other writes. */
  lemma IndependentRulesSwap(x: Rule, y: Rule, start: Image, inputs: seq<Image>, n: nat)
    requires x.out != y.out && !Reads(x.condition, y.out) && !Reads(y.condition, x.out) && n <= |inputs|
    ensures ImageAt([x, y], start, inputs, n) == ImageAt([y, x], start, inputs, n)
  {
    var a, b, p := [x, y], [y, x], [1, 0];
    assert Permutation(p, p);
    assert Reordering(a, b, p, p);
    ReorderingKeepsRuns(a, b, p, p, start, inputs, n);
  }
}
