/**
 Condition trees and rules as values, with the counter of each timer in its node, and
 one evaluation of a tree and of a rule list as pure functions.  The heap objects of
 module `Interpreter` are proved to compute these functions in place.
 */
module Logic {
  import opened ProcessImage
  import opened Words

  datatype Node =
    | SignalNode(ref: SignalRef)
    | AndNode(inputs: seq<Node>)
    | OrNode(inputs: seq<Node>)
    | NotNode(input: Node)
    | TonNode(input: Node, preset: uint64, period: uint64, elapsed: uint64)

  datatype Rule = Rule(id: string, out: SignalRef, condition: Node)

  // ---------- one evaluation ----------

  /** The counter after one more true evaluation; `uint64_t` addition wraps around. */
  function Bump(elapsed: uint64): uint64 {
    (elapsed + 1) % TWO_64
  }

  /** The timer's comparison; `uint64_t` multiplication wraps around. */
  predicate Fires(elapsed: uint64, period: uint64, preset: uint64) {
    (elapsed * period) % TWO_64 >= preset
  }

  /** The result of evaluating a tree against an image. */
  ghost predicate Val(n: Node, m: Image) {
    match n
    case SignalNode(ref) => ref in m
    case AndNode(inputs) => forall i :: 0 <= i < |inputs| ==> Val(inputs[i], m)
    case OrNode(inputs) => exists i :: 0 <= i < |inputs| && Val(inputs[i], m)
    case NotNode(input) => !Val(input, m)
    case TonNode(input, preset, period, elapsed) => Val(input, m) && Fires(Bump(elapsed), period, preset)
  }

  /** The tree that evaluation leaves: every timer, wherever it stands, has ticked or reset. */
  ghost function Next(n: Node, m: Image): Node {
    match n
    case SignalNode(_) => n
    case AndNode(inputs) => AndNode(seq(|inputs|, i requires 0 <= i < |inputs| => Next(inputs[i], m)))
    case OrNode(inputs) => OrNode(seq(|inputs|, i requires 0 <= i < |inputs| => Next(inputs[i], m)))
    case NotNode(input) => NotNode(Next(input, m))
    case TonNode(input, preset, period, elapsed) =>
      TonNode(Next(input, m), preset, period, if Val(input, m) then Bump(elapsed) else 0)
  }

  // ---------- one scan of a rule list ----------

  /** The image after all rules, each seeing the writes of the rules before it. */
  ghost function After(rules: seq<Rule>, m: Image): Image {
    if rules == [] then m
    else
      var before := After(rules[..|rules| - 1], m);
      var rule := rules[|rules| - 1];
      Write(before, rule.out, Val(rule.condition, before))
  }

  /** The rules after the scan: rule `r` has been evaluated on the image left by rules 0..r-1. */
  ghost function Ticked(rules: seq<Rule>, m: Image): seq<Rule> {
    seq(|rules|, r requires 0 <= r < |rules| =>
      rules[r].(condition := Next(rules[r].condition, After(rules[..r], m))))
  }

  /** The rules in the middle of a scan: rules 0..r-1 have run, the others have not. */
  ghost function Partly(rules: seq<Rule>, m: Image, r: nat): (now: seq<Rule>)
    requires r <= |rules|
    ensures |now| == |rules|
  {
    Ticked(rules, m)[..r] + rules[r..]
  }

  // ---------- static properties ----------

  /** Does the tree read signal `r`? */
  ghost predicate Reads(n: Node, r: SignalRef) {
    match n
    case SignalNode(ref) => ref == r
    case AndNode(inputs) => exists i :: 0 <= i < |inputs| && Reads(inputs[i], r)
    case OrNode(inputs) => exists i :: 0 <= i < |inputs| && Reads(inputs[i], r)
    case NotNode(input) => Reads(input, r)
    case TonNode(input, _, _, _) => Reads(input, r)
  }

  ghost predicate RefsInRange(n: Node) {
    forall r :: Reads(n, r) ==> InRange(r)
  }

  /** The tree that an evaluation leaves which may stop at an error: everything in front of the
      first reference out of range has ticked, everything behind it is as it was. */
  ghost function Attempted(n: Node, m: Image): Node {
    match n
    case SignalNode(_) => n
    case AndNode(inputs) => AndNode(AttemptedInputs(n, inputs, m))
    case OrNode(inputs) => OrNode(AttemptedInputs(n, inputs, m))
    case NotNode(input) => NotNode(Attempted(input, m))
    case TonNode(input, preset, period, elapsed) =>
      TonNode(Attempted(input, m), preset, period,
              if !RefsInRange(input) then elapsed else if Val(input, m) then Bump(elapsed) else 0)
  }

  /** The first input out of range is attempted, and those behind it are not reached. */
  ghost function AttemptedInputs(n: Node, inputs: seq<Node>, m: Image): (attempted: seq<Node>)
    requires (n.AndNode? || n.OrNode?) && n.inputs == inputs
    ensures |attempted| == |inputs|
    decreases n, 0
  {
    seq(|inputs|, i requires 0 <= i < |inputs| =>
      if forall j :: 0 <= j < i ==> RefsInRange(inputs[j]) then Attempted(inputs[i], m) else inputs[i])
  }

  /** The tree with every counter at zero. */
  ghost function Reset(n: Node): Node {
    match n
    case SignalNode(_) => n
    case AndNode(inputs) => AndNode(seq(|inputs|, i requires 0 <= i < |inputs| => Reset(inputs[i])))
    case OrNode(inputs) => OrNode(seq(|inputs|, i requires 0 <= i < |inputs| => Reset(inputs[i])))
    case NotNode(input) => NotNode(Reset(input))
    case TonNode(input, preset, period, _) => TonNode(Reset(input), preset, period, 0)
  }

  /** Every counter of every rule is zero. */
  ghost predicate Zeroed(rules: seq<Rule>) {
    forall r :: 0 <= r < |rules| ==> rules[r].condition == Reset(rules[r].condition)
  }

  /** No timer of the tree counts on in this evaluation: its input is false, or its counter wraps. */
  ghost predicate TimersIdle(n: Node, m: Image) {
    match n
    case SignalNode(_) => true
    case AndNode(inputs) => forall i :: 0 <= i < |inputs| ==> TimersIdle(inputs[i], m)
    case OrNode(inputs) => forall i :: 0 <= i < |inputs| ==> TimersIdle(inputs[i], m)
    case NotNode(input) => TimersIdle(input, m)
    case TonNode(input, _, _, elapsed) => (!Val(input, m) || Bump(elapsed) == 0) && TimersIdle(input, m)
  }

  ghost predicate TimerFree(n: Node) {
    match n
    case SignalNode(_) => true
    case AndNode(inputs) => forall i :: 0 <= i < |inputs| ==> TimerFree(inputs[i])
    case OrNode(inputs) => forall i :: 0 <= i < |inputs| ==> TimerFree(inputs[i])
    case NotNode(input) => TimerFree(input)
    case TonNode(_, _, _, _) => false
  }

  ghost predicate Targets(rules: seq<Rule>, r: SignalRef) {
    exists i :: 0 <= i < |rules| && rules[i].out == r
  }

  // ---------- lemmas ----------

  /** Evaluation depends on the signals the tree reads and on nothing else. */
  lemma {:induction false} EvaluationIsLocal(n: Node, m: Image, w: Image)
    requires forall r :: Reads(n, r) ==> (r in m <==> r in w)
    ensures Val(n, m) == Val(n, w) && Next(n, m) == Next(n, w)
  {
    match n
    case SignalNode(ref) =>
      assert Reads(n, ref);
    case AndNode(inputs) =>
      InputsAreLocal(n, inputs, m, w);
    case OrNode(inputs) =>
      InputsAreLocal(n, inputs, m, w);
    case NotNode(input) =>
      EvaluationIsLocal(input, m, w);
    case TonNode(input, _, _, _) =>
      EvaluationIsLocal(input, m, w);
  }

  lemma {:induction false} InputsAreLocal(n: Node, inputs: seq<Node>, m: Image, w: Image)
    requires (n.AndNode? || n.OrNode?) && n.inputs == inputs
    requires forall r :: Reads(n, r) ==> (r in m <==> r in w)
    ensures forall i :: 0 <= i < |inputs| ==> Val(inputs[i], m) == Val(inputs[i], w)
    ensures forall i :: 0 <= i < |inputs| ==> Next(inputs[i], m) == Next(inputs[i], w)
    decreases n, 0
  {
    forall i | 0 <= i < |inputs|
      ensures Val(inputs[i], m) == Val(inputs[i], w) && Next(inputs[i], m) == Next(inputs[i], w)
    {
      forall r | Reads(inputs[i], r) ensures r in m <==> r in w {
        assert Reads(n, r);
      }
      EvaluationIsLocal(inputs[i], m, w);
    }
  }

  lemma InputsInRange(n: Node)
    requires n.AndNode? || n.OrNode?
    ensures RefsInRange(n) <==> forall i :: 0 <= i < |n.inputs| ==> RefsInRange(n.inputs[i])
  {
    if RefsInRange(n) {
      forall i, r | 0 <= i < |n.inputs| && Reads(n.inputs[i], r) ensures InRange(r) {
        assert Reads(n, r);
      }
    }
  }

  /** Without an error every timer ticks. */
  lemma {:induction false} AttemptSucceeds(n: Node, m: Image)
    requires RefsInRange(n)
    ensures Attempted(n, m) == Next(n, m)
  {
    match n
    case SignalNode(_) =>
    case AndNode(inputs) =>
      AttemptedInputsSucceed(n, inputs, m);
    case OrNode(inputs) =>
      AttemptedInputsSucceed(n, inputs, m);
    case NotNode(input) =>
      assert forall r :: Reads(input, r) ==> Reads(n, r);
      AttemptSucceeds(input, m);
    case TonNode(input, _, _, _) =>
      assert forall r :: Reads(input, r) ==> Reads(n, r);
      AttemptSucceeds(input, m);
  }

  lemma {:induction false} AttemptedInputsSucceed(n: Node, inputs: seq<Node>, m: Image)
    requires (n.AndNode? || n.OrNode?) && n.inputs == inputs && RefsInRange(n)
    ensures AttemptedInputs(n, inputs, m) == Next(n, m).inputs
    decreases n, 0
  {
    InputsInRange(n);
    forall i | 0 <= i < |inputs| ensures AttemptedInputs(n, inputs, m)[i] == Next(n, m).inputs[i] {
      AttemptSucceeds(inputs[i], m);
    }
  }

  /** The inputs when input `i` has raised an error. */
  lemma StoppedInputs(n: Node, i: nat, m: Image, now: seq<Node>)
    requires (n.AndNode? || n.OrNode?) && i < |n.inputs| == |now| && !RefsInRange(n.inputs[i])
    requires forall j :: 0 <= j < i ==> RefsInRange(n.inputs[j]) && now[j] == Next(n.inputs[j], m)
    requires now[i] == Attempted(n.inputs[i], m)
    requires forall j :: i < j < |now| ==> now[j] == n.inputs[j]
    ensures now == Attempted(n, m).inputs && !RefsInRange(n)
  {
    InputsInRange(n);
    forall j | 0 <= j < |now| ensures AttemptedInputs(n, n.inputs, m)[j] == now[j] {
      if j < i {
        AttemptSucceeds(n.inputs[j], m);
      } else {
        AttemptedAt(n, m, i, j);
      }
    }
  }

  lemma AttemptedAt(n: Node, m: Image, i: nat, j: nat)
    requires (n.AndNode? || n.OrNode?) && i <= j < |n.inputs| && !RefsInRange(n.inputs[i])
    requires forall k :: 0 <= k < i ==> RefsInRange(n.inputs[k])
    ensures AttemptedInputs(n, n.inputs, m)[j] == if j == i then Attempted(n.inputs[i], m) else n.inputs[j]
  {
  }

  /** The inputs when all of them have been evaluated. */
  lemma EvaluatedInputs(n: Node, m: Image, now: seq<Node>)
    requires (n.AndNode? || n.OrNode?) && |n.inputs| == |now|
    requires forall j :: 0 <= j < |now| ==> RefsInRange(n.inputs[j]) && now[j] == Next(n.inputs[j], m)
    ensures now == Next(n, m).inputs && RefsInRange(n) && Attempted(n, m) == Next(n, m)
  {
    InputsInRange(n);
    AttemptSucceeds(n, m);
  }

  /** Evaluation changes counters alone: the tree reads the same signals and keeps its shape. */
  lemma {:induction false} EvaluationKeepsShape(n: Node, m: Image)
    ensures Reset(Next(n, m)) == Reset(n)
    ensures forall r :: Reads(Next(n, m), r) == Reads(n, r)
    ensures TimerFree(Next(n, m)) == TimerFree(n)
  {
    match n
    case SignalNode(_) =>
    case AndNode(inputs) =>
      InputsKeepShape(n, inputs, m);
    case OrNode(inputs) =>
      InputsKeepShape(n, inputs, m);
    case NotNode(input) =>
      EvaluationKeepsShape(input, m);
    case TonNode(input, _, _, _) =>
      EvaluationKeepsShape(input, m);
  }

  lemma {:induction false} InputsKeepShape(n: Node, inputs: seq<Node>, m: Image)
    requires (n.AndNode? || n.OrNode?) && n.inputs == inputs
    ensures Reset(Next(n, m)) == Reset(n)
    ensures forall r :: Reads(Next(n, m), r) == Reads(n, r)
    ensures TimerFree(Next(n, m)) == TimerFree(n)
    decreases n, 0
  {
    var next := Next(n, m);
    assert |next.inputs| == |inputs|;
    forall i | 0 <= i < |inputs|
      ensures Reset(next.inputs[i]) == Reset(inputs[i])
      ensures forall r :: Reads(next.inputs[i], r) == Reads(inputs[i], r)
      ensures TimerFree(next.inputs[i]) == TimerFree(inputs[i])
    {
      EvaluationKeepsShape(inputs[i], m);
    }
    assert Reset(next).inputs == Reset(n).inputs;
  }

  lemma {:induction false} ZeroAfterIff(n: Node, m: Image)
    ensures Next(n, m) == Reset(n) <==> TimersIdle(n, m)
  {
    match n
    case SignalNode(_) =>
    case AndNode(inputs) =>
      InputsZeroAfterIff(n, inputs, m);
    case OrNode(inputs) =>
      InputsZeroAfterIff(n, inputs, m);
    case NotNode(input) =>
      ZeroAfterIff(input, m);
    case TonNode(input, _, _, _) =>
      ZeroAfterIff(input, m);
  }

  lemma {:induction false} InputsZeroAfterIff(n: Node, inputs: seq<Node>, m: Image)
    requires (n.AndNode? || n.OrNode?) && n.inputs == inputs
    ensures Next(n, m) == Reset(n) <==> TimersIdle(n, m)
    decreases n, 0
  {
    var next, reset := Next(n, m).inputs, Reset(n).inputs;
    forall i | 0 <= i < |inputs| ensures next[i] == reset[i] <==> TimersIdle(inputs[i], m) {
      ZeroAfterIff(inputs[i], m);
    }
    if TimersIdle(n, m) {
      assert next == reset;
    }
  }

  /** A program that has run has all counters at zero exactly when no timer counted on in its
      last scan, so only then does swapping the object in start its timers at zero. */
  lemma TickedZeroedIff(rules: seq<Rule>, m: Image)
    ensures Zeroed(Ticked(rules, m))
       <==> forall r :: 0 <= r < |rules| ==> TimersIdle(rules[r].condition, After(rules[..r], m))
  {
    var ticked := Ticked(rules, m);
    forall r | 0 <= r < |rules|
      ensures ticked[r].condition == Reset(ticked[r].condition)
         <==> TimersIdle(rules[r].condition, After(rules[..r], m))
    {
      ZeroAfterIff(rules[r].condition, After(rules[..r], m));
      EvaluationKeepsShape(rules[r].condition, After(rules[..r], m));
    }
  }

  /** A tree without timers has no state. */
  lemma {:induction false} TimerFreeIsStateless(n: Node, m: Image)
    requires TimerFree(n)
    ensures Next(n, m) == n
  {
    match n
    case SignalNode(_) =>
    case AndNode(inputs) =>
      forall i | 0 <= i < |inputs| { TimerFreeIsStateless(inputs[i], m); }
    case OrNode(inputs) =>
      forall i | 0 <= i < |inputs| { TimerFreeIsStateless(inputs[i], m); }
    case NotNode(input) =>
      TimerFreeIsStateless(input, m);
  }

  /** One more rule. */
  lemma AfterStep(rules: seq<Rule>, m: Image, r: nat)
    requires r < |rules|
    ensures After(rules[..r + 1], m)
         == var before := After(rules[..r], m); Write(before, rules[r].out, Val(rules[r].condition, before))
  {
    assert rules[..r + 1][..r] == rules[..r];
  }

  /** Running a list of rules is running its first part and then the rest. */
  lemma {:induction false} AfterConcat(a: seq<Rule>, b: seq<Rule>, m: Image)
    ensures After(a + b, m) == After(b, After(a, m))
  {
    if b == [] {
      assert a + b == a;
    } else {
      var init := b[..|b| - 1];
      assert (a + b)[..|a + b| - 1] == a + init;
      AfterConcat(a, init, m);
    }
  }

  lemma TickedConcat(a: seq<Rule>, b: seq<Rule>, m: Image)
    ensures Ticked(a + b, m) == Ticked(a, m) + Ticked(b, After(a, m))
  {
    forall r | 0 <= r < |a + b|
      ensures Ticked(a + b, m)[r] == (Ticked(a, m) + Ticked(b, After(a, m)))[r]
    {
      TickedConcatAt(a, b, m, r);
    }
  }

  lemma TickedConcatAt(a: seq<Rule>, b: seq<Rule>, m: Image, r: nat)
    requires r < |a| + |b|
    ensures Ticked(a + b, m)[r] == if r < |a| then Ticked(a, m)[r] else Ticked(b, After(a, m))[r - |a|]
  {
    if r < |a| {
      assert (a + b)[..r] == a[..r];
    } else {
      assert (a + b)[..r] == a + b[..r - |a|];
      AfterConcat(a, b[..r - |a|], m);
    }
  }

  /** One more rule has run. */
  lemma PartlyStep(rules: seq<Rule>, m: Image, r: nat)
    requires r < |rules|
    ensures Partly(rules, m, r)[r] == rules[r]
    ensures Partly(rules, m, r)[r := Ticked(rules, m)[r]] == Partly(rules, m, r + 1)
  {
    var now, next := Partly(rules, m, r), Partly(rules, m, r + 1);
    forall s | 0 <= s < |rules| ensures next[s] == if s == r then Ticked(rules, m)[r] else now[s] {
    }
  }

  /** A signal that no rule targets keeps its value. */
  lemma {:induction false} UntargetedUnchanged(rules: seq<Rule>, m: Image, r: SignalRef)
    requires !Targets(rules, r)
    ensures r in After(rules, m) <==> r in m
  {
    if rules != [] {
      var init := rules[..|rules| - 1];
      assert rules[|rules| - 1].out != r;
      forall i | 0 <= i < |init| ensures init[i].out != r {
        assert rules[i] == init[i];
      }
      UntargetedUnchanged(init, m, r);
    }
  }

  /** A targeted signal ends equal to the result of the last rule that targets it. */
  lemma {:induction false} LastWriterWins(rules: seq<Rule>, m: Image, k: nat)
    requires k < |rules|
    requires forall i :: k < i < |rules| ==> rules[i].out != rules[k].out
    ensures rules[k].out in After(rules, m) <==> Val(rules[k].condition, After(rules[..k], m))
  {
    var head, tail := rules[..k + 1], rules[k + 1..];
    assert rules == head + tail;
    AfterConcat(head, tail, m);
    assert head[..k] == rules[..k] && head[k] == rules[k];
    UntargetedUnchanged(tail, After(head, m), rules[k].out);
  }
}
