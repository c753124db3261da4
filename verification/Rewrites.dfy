/**
 Rewrites of conditions that keep their meaning on every history, and the programs they
 may be applied to.
 */
module Rewrites {
  import opened ProcessImage
  import opened Words
  import opened Logic
  import opened History
  import opened Runs

  ghost predicate AgreeOn(c: Node, d: Node, h: seq<Image>)
    requires PeriodsPositive(c) && PeriodsPositive(d) && h != []
  {
    Holds(c, h) == Holds(d, h)
  }

  /** Equal on every non-empty history. */
  ghost predicate SameMeaning(c: Node, d: Node)
    requires PeriodsPositive(c) && PeriodsPositive(d)
  {
    forall h: seq<Image> :: h != [] ==> AgreeOn(c, d, h)
  }

  /** The condition held in each of the last `k` cycles. */
  ghost predicate HeldFor(c: Node, h: seq<Image>, k: nat)
    requires PeriodsPositive(c)
  {
    |h| >= k && forall j {:trigger h[..j]} :: |h| - k < j <= |h| ==> Holds(c, h[..j])
  }

  // ---------- a timer over a conjunction ----------

  function EachTimed(inputs: seq<Node>, preset: uint64, period: uint64): (timed: seq<Node>)
    ensures |timed| == |inputs|
  {
    seq(|inputs|, i requires 0 <= i < |inputs| => TonNode(inputs[i], preset, period, 0))
  }

  /** On one history, TON(AND(c..)) and AND(TON(c)..) agree as soon as there is an input. */
  lemma TimerOverAnd(inputs: seq<Node>, preset: uint64, period: uint64, h: seq<Image>)
    requires period >= 1 && PeriodsPositive(AndNode(inputs)) && h != []
    requires inputs != [] || Threshold(preset, period) == 1
    ensures PeriodsPositive(AndNode(EachTimed(inputs, preset, period)))
    ensures Holds(TonNode(AndNode(inputs), preset, period, 0), h)
         == Holds(AndNode(EachTimed(inputs, preset, period)), h)
  {
    var k, timed := Threshold(preset, period), EachTimed(inputs, preset, period);
    var whole, each := TonNode(AndNode(inputs), preset, period, 0), AndNode(timed);
    if Holds(whole, h) {
      forall i | 0 <= i < |inputs| ensures Holds(timed[i], h) {
        forall j | |h| - k < j <= |h| ensures Holds(inputs[i], h[..j]) {
          assert Holds(AndNode(inputs), h[..j]);
        }
      }
    }
    if Holds(each, h) {
      if inputs != [] {
        assert Holds(timed[0], h);
      }
      forall j | |h| - k < j <= |h| ensures Holds(AndNode(inputs), h[..j]) {
        forall i | 0 <= i < |inputs| ensures Holds(inputs[i], h[..j]) {
          assert Holds(timed[i], h);
        }
      }
    }
  }

  /** The rewrite is valid exactly for a non-empty AND, which is all the parser accepts, or a
      timer that never delays. */
  lemma TimerOverAndIff(inputs: seq<Node>, preset: uint64, period: uint64)
    requires period >= 1 && PeriodsPositive(AndNode(inputs))
    ensures PeriodsPositive(AndNode(EachTimed(inputs, preset, period)))
    ensures SameMeaning(TonNode(AndNode(inputs), preset, period, 0), AndNode(EachTimed(inputs, preset, period)))
       <==> inputs != [] || Threshold(preset, period) == 1
  {
    var whole, each := TonNode(AndNode(inputs), preset, period, 0), AndNode(EachTimed(inputs, preset, period));
    if inputs != [] || Threshold(preset, period) == 1 {
      forall h: seq<Image> | h != [] ensures AgreeOn(whole, each, h) {
        TimerOverAnd(inputs, preset, period, h);
      }
    } else {
      var one: seq<Image> := [iset{}];
      assert !AgreeOn(whole, each, one);
    }
  }

  /** The same for the counting machine: no history tells the two conditions apart. */
  lemma TimerOverAndOnMachine(inputs: seq<Node>, preset: uint64, period: uint64, h: seq<Image>)
    requires period >= 1 && inputs != [] && h != []
    requires var n := TonNode(AndNode(inputs), preset, period, 0);
      PeriodsPositive(n) && TimersFit(n, |h|) && n == Reset(n)
    ensures Observed(TonNode(AndNode(inputs), preset, period, 0), h)
         == Observed(AndNode(EachTimed(inputs, preset, period)), h)
  {
    var whole, each := TonNode(AndNode(inputs), preset, period, 0), AndNode(EachTimed(inputs, preset, period));
    assert inputs == Reset(whole).input.inputs;
    assert each.inputs == Reset(each).inputs;
    MachineMeetsHistory(whole, h);
    MachineMeetsHistory(each, h);
    TimerOverAnd(inputs, preset, period, h);
  }

  // ---------- a timer over a timer ----------

  lemma NestedTimerNeeds(c: Node, k1: nat, k2: nat, h: seq<Image>)
    requires PeriodsPositive(c) && k1 >= 1 && k2 >= 1 && |h| >= k2
    requires forall j {:trigger h[..j]} :: |h| - k2 < j <= |h| ==> HeldFor(c, h[..j], k1)
    ensures HeldFor(c, h, k1 + k2 - 1)
  {
    assert HeldFor(c, h[..|h| - k2 + 1], k1);
    forall j | |h| - (k1 + k2 - 1) < j <= |h| ensures Holds(c, h[..j]) {
      var seen := if j <= |h| - k2 + 1 then |h| - k2 + 1 else j;
      assert HeldFor(c, h[..seen], k1);
      assert h[..seen][..j] == h[..j];
    }
  }

  lemma NestedTimerEnough(c: Node, k1: nat, k2: nat, h: seq<Image>, j: nat)
    requires PeriodsPositive(c) && k1 >= 1 && k2 >= 1 && HeldFor(c, h, k1 + k2 - 1) && |h| - k2 < j <= |h|
    ensures HeldFor(c, h[..j], k1)
  {
    forall i | j - k1 < i <= j ensures Holds(c, h[..j][..i]) {
      assert h[..j][..i] == h[..i];
    }
  }

  lemma TimerIsHeldFor(c: Node, preset: uint64, period: uint64, h: seq<Image>)
    requires PeriodsPositive(c) && period >= 1 && h != []
    ensures Holds(TonNode(c, preset, period, 0), h) == HeldFor(c, h, Threshold(preset, period))
  {
  }

  /** TON(TON(c)) needs k1 + k2 - 1 consecutive cycles of c. */
  lemma TimerOverTimer(c: Node, preset1: uint64, period1: uint64, preset2: uint64, period2: uint64, h: seq<Image>)
    requires PeriodsPositive(c) && period1 >= 1 && period2 >= 1 && h != []
    ensures Holds(TonNode(TonNode(c, preset1, period1, 0), preset2, period2, 0), h)
         == HeldFor(c, h, Threshold(preset1, period1) + Threshold(preset2, period2) - 1)
  {
    var k1, k2 := Threshold(preset1, period1), Threshold(preset2, period2);
    var inner := TonNode(c, preset1, period1, 0);
    TimerIsHeldFor(inner, preset2, period2, h);
    forall j | |h| - k2 < j <= |h| && |h| >= k2 ensures Holds(inner, h[..j]) == HeldFor(c, h[..j], k1) {
      TimerIsHeldFor(c, preset1, period1, h[..j]);
    }
    NestedHeldFor(c, inner, k1, k2, h);
  }

  lemma NestedHeldFor(c: Node, inner: Node, k1: nat, k2: nat, h: seq<Image>)
    requires PeriodsPositive(c) && PeriodsPositive(inner) && k1 >= 1 && k2 >= 1
    requires forall j {:trigger h[..j]} :: |h| - k2 < j <= |h| && |h| >= k2 ==>
      Holds(inner, h[..j]) == HeldFor(c, h[..j], k1)
    ensures HeldFor(inner, h, k2) == HeldFor(c, h, k1 + k2 - 1)
  {
    if HeldFor(inner, h, k2) {
      NestedTimerNeeds(c, k1, k2, h);
    }
    if HeldFor(c, h, k1 + k2 - 1) {
      forall j | |h| - k2 < j <= |h| ensures Holds(inner, h[..j]) {
        NestedTimerEnough(c, k1, k2, h, j);
      }
    }
  }

  /** So two nested timers are one timer, whose preset is not the sum of the two presets. */
  lemma NestedTimersAreOneTimer(c: Node, preset1: uint64, preset2: uint64, period: uint64, h: seq<Image>)
    requires PeriodsPositive(c) && period >= 1 && h != []
    requires (Threshold(preset1, period) + Threshold(preset2, period) - 1) * period < TWO_64
    ensures var k := Threshold(preset1, period) + Threshold(preset2, period) - 1;
            Holds(TonNode(TonNode(c, preset1, period, 0), preset2, period, 0), h)
            == Holds(TonNode(c, k * period, period, 0), h)
  {
    var k := Threshold(preset1, period) + Threshold(preset2, period) - 1;
    TimerOverTimer(c, preset1, period, preset2, period, h);
    ThresholdOfMultiple(k, period);
  }

  lemma ThresholdOfMultiple(k: nat, period: nat)
    requires k >= 1 && period >= 1
    ensures Threshold(k * period, period) == k
  {
    var t := Threshold(k * period, period);
    ThresholdIsLeast(k * period, period, k);
    ThresholdIsLeast(k * period, period, t);
    if t < k {
      ProductMonotone(t + 1, k, period);
    }
  }

  // ---------- a timer over a disjunction ----------

  /** TON distributes over OR in one direction... */
  lemma TimedAlternativeHolds(inputs: seq<Node>, preset: uint64, period: uint64, h: seq<Image>)
    requires period >= 1 && PeriodsPositive(OrNode(inputs)) && h != []
    requires PeriodsPositive(OrNode(EachTimed(inputs, preset, period)))
    requires Holds(OrNode(EachTimed(inputs, preset, period)), h)
    ensures Holds(TonNode(OrNode(inputs), preset, period, 0), h)
  {
    var i :| 0 <= i < |inputs| && Holds(EachTimed(inputs, preset, period)[i], h);
    forall j | |h| - Threshold(preset, period) < j <= |h| ensures Holds(OrNode(inputs), h[..j]) {
      assert Holds(inputs[i], h[..j]);
    }
  }

  /** Two signals that take turns keep their OR true, and neither of them stays true. */
  lemma TakingTurns(a: SignalRef, b: SignalRef, preset: uint64, period: uint64)
    requires a != b && period >= 1 && Threshold(preset, period) == 2
    ensures var inputs, h := [SignalNode(a), SignalNode(b)], [iset{a}, iset{b}];
      && Holds(TonNode(OrNode(inputs), preset, period, 0), h)
      && !Holds(OrNode(EachTimed(inputs, preset, period)), h)
  {
    var inputs := [SignalNode(a), SignalNode(b)];
    var h: seq<Image> := [iset{a}, iset{b}];
    assert h[..1] == [iset{a}] && h[..2] == h;
    assert Holds(inputs[0], h[..1]) && Holds(inputs[1], h[..2]);
    var timed := EachTimed(inputs, preset, period);
    assert !Holds(inputs[1], h[..1]) && !Holds(inputs[0], h[..2]);
    assert !Holds(timed[0], h) && !Holds(timed[1], h);
  }

  /** ... and in that direction alone: two signals that take turns keep the OR true. */
  lemma TimerOverOrDiffers()
    ensures var a, b := SignalRef(Area.Input, 0, 0), SignalRef(Area.Input, 0, 1);
            var inputs := [SignalNode(a), SignalNode(b)];
            !SameMeaning(TonNode(OrNode(inputs), 40, 20, 0), OrNode(EachTimed(inputs, 40, 20)))
  {
    var a, b := SignalRef(Area.Input, 0, 0), SignalRef(Area.Input, 0, 1);
    var h: seq<Image> := [iset{a}, iset{b}];
    TakingTurns(a, b, 40, 20);
    var inputs := [SignalNode(a), SignalNode(b)];
    assert !AgreeOn(TonNode(OrNode(inputs), 40, 20, 0), OrNode(EachTimed(inputs, 40, 20)), h);
  }

  // ---------- rewriting inside a condition ----------

  /** A condition with a hole in it. */
  datatype Context =
    | Hole
    | InAnd(left: seq<Node>, inner: Context, right: seq<Node>)
    | InOr(left: seq<Node>, inner: Context, right: seq<Node>)
    | InNot(inner: Context)
    | InTimer(inner: Context, preset: uint64, period: uint64)

  function Plug(context: Context, n: Node): Node {
    match context
    case Hole => n
    case InAnd(left, inner, right) => AndNode(left + [Plug(inner, n)] + right)
    case InOr(left, inner, right) => OrNode(left + [Plug(inner, n)] + right)
    case InNot(inner) => NotNode(Plug(inner, n))
    case InTimer(inner, preset, period) => TonNode(Plug(inner, n), preset, period, 0)
  }

  ghost predicate ContextPeriodsPositive(context: Context) {
    match context
    case Hole => true
    case InAnd(left, inner, right) =>
      PeriodsPositive(AndNode(left)) && PeriodsPositive(AndNode(right)) && ContextPeriodsPositive(inner)
    case InOr(left, inner, right) =>
      PeriodsPositive(OrNode(left)) && PeriodsPositive(OrNode(right)) && ContextPeriodsPositive(inner)
    case InNot(inner) => ContextPeriodsPositive(inner)
    case InTimer(inner, _, period) => period >= 1 && ContextPeriodsPositive(inner)
  }

  lemma InputsPositive(left: seq<Node>, n: Node, right: seq<Node>)
    ensures PeriodsPositive(AndNode(left + [n] + right))
       <==> PeriodsPositive(AndNode(left)) && PeriodsPositive(n) && PeriodsPositive(AndNode(right))
    ensures PeriodsPositive(OrNode(left + [n] + right)) <==> PeriodsPositive(AndNode(left + [n] + right))
  {
    var inputs := left + [n] + right;
    assert inputs[|left|] == n;
    assert forall i :: 0 <= i < |left| ==> inputs[i] == left[i];
    assert forall i :: 0 <= i < |right| ==> inputs[|left| + 1 + i] == right[i];
  }

  lemma {:induction false} PlugPositive(context: Context, n: Node)
    ensures PeriodsPositive(Plug(context, n)) ==> PeriodsPositive(n)
    ensures ContextPeriodsPositive(context) && PeriodsPositive(n) <==> PeriodsPositive(Plug(context, n))
  {
    if !context.Hole? {
      PlugPositive(context.inner, n);
      if context.InAnd? || context.InOr? {
        InputsPositive(context.left, Plug(context.inner, n), context.right);
      }
    }
  }

  /** One input of an AND or an OR may be replaced. */
  lemma InputReplaced(left: seq<Node>, c: Node, d: Node, right: seq<Node>, h: seq<Image>)
    requires PeriodsPositive(AndNode(left)) && PeriodsPositive(AndNode(right))
    requires PeriodsPositive(c) && PeriodsPositive(d) && h != [] && Holds(c, h) == Holds(d, h)
    ensures PeriodsPositive(AndNode(left + [c] + right)) && PeriodsPositive(AndNode(left + [d] + right))
    ensures PeriodsPositive(OrNode(left + [c] + right)) && PeriodsPositive(OrNode(left + [d] + right))
    ensures Holds(AndNode(left + [c] + right), h) == Holds(AndNode(left + [d] + right), h)
    ensures Holds(OrNode(left + [c] + right), h) == Holds(OrNode(left + [d] + right), h)
  {
    InputsPositive(left, c, right);
    InputsPositive(left, d, right);
    var cs, ds := left + [c] + right, left + [d] + right;
    forall i | 0 <= i < |cs| ensures Holds(cs[i], h) == Holds(ds[i], h) {
      assert i != |left| ==> cs[i] == ds[i];
    }
  }

  /** Replacing a part of a condition by one of the same meaning, however deep it stands under
      AND, OR, NOT and timers, keeps the meaning of the whole. */
  lemma {:induction false} PlugKeepsMeaning(context: Context, c: Node, d: Node, h: seq<Image>)
    requires ContextPeriodsPositive(context) && PeriodsPositive(c) && PeriodsPositive(d) && h != []
    requires SameMeaning(c, d)
    ensures PeriodsPositive(Plug(context, c)) && PeriodsPositive(Plug(context, d))
    ensures Holds(Plug(context, c), h) == Holds(Plug(context, d), h)
    decreases context
  {
    match context
    case Hole =>
      assert AgreeOn(c, d, h);
    case InAnd(left, inner, right) =>
      PlugKeepsMeaning(inner, c, d, h);
      InputReplaced(left, Plug(inner, c), Plug(inner, d), right, h);
    case InOr(left, inner, right) =>
      PlugKeepsMeaning(inner, c, d, h);
      InputReplaced(left, Plug(inner, c), Plug(inner, d), right, h);
    case InNot(inner) =>
      PlugKeepsMeaning(inner, c, d, h);
    case InTimer(inner, preset, period) =>
      PlugKeepsMeaning(inner, c, d, h);
      forall j | 0 < j <= |h| ensures Holds(Plug(inner, c), h[..j]) == Holds(Plug(inner, d), h[..j]) {
        PlugKeepsMeaning(inner, c, d, h[..j]);
      }
  }

  // ---------- rewriting inside a program ----------

  /** The same outputs, under conditions of the same meaning. */
  ghost predicate Rewritten(rules: seq<Rule>, others: seq<Rule>, cycles: nat) {
    && Meaningful(rules, cycles) && Meaningful(others, cycles) && |rules| == |others|
    && forall r :: 0 <= r < |rules| ==>
         rules[r].out == others[r].out && SameMeaning(rules[r].condition, others[r].condition)
  }

  lemma {:induction false} SameMeaningSameMemory(rules: seq<Rule>, others: seq<Rule>, start: Image,
                                                 inputs: seq<Image>, n: nat, r: nat)
    requires n < |inputs| && r <= |rules| && Rewritten(rules, others, |inputs|)
    ensures Before(rules, start, inputs, n, r) == Before(others, start, inputs, n, r)
    decreases n, r, 1
  {
    if r > 0 {
      SameMeaningSameWrite(rules, others, start, inputs, n, r - 1);
    } else if n > 0 {
      SameMeaningSameMemory(rules, others, start, inputs, n - 1, |rules|);
    }
  }

  lemma {:induction false} SameMeaningSameWrite(rules: seq<Rule>, others: seq<Rule>, start: Image,
                                                inputs: seq<Image>, n: nat, r: nat)
    requires n < |inputs| && r < |rules| && Rewritten(rules, others, |inputs|)
    ensures Before(rules, start, inputs, n, r + 1) == Before(others, start, inputs, n, r + 1)
    decreases n, r + 1, 0
  {
    var h, k := RuleHistory(rules, start, inputs, n + 1, r), RuleHistory(others, start, inputs, n + 1, r);
    forall i | 0 <= i < |h| ensures h[i] == k[i] {
      SameMeaningSameMemory(rules, others, start, inputs, i, r);
    }
    BeforeStep(rules, start, inputs, n, r);
    BeforeStep(others, start, inputs, n, r);
    assert h == k && h[n] == k[n];
    assert AgreeOn(rules[r].condition, others[r].condition, h);
  }

  lemma SameFinalMemory(rules: seq<Rule>, others: seq<Rule>, start: Image, inputs: seq<Image>, n: nat)
    requires 0 < n <= |inputs| && |rules| == |others|
    requires Meaningful(rules, |inputs|) && Meaningful(others, |inputs|)
    requires Before(rules, start, inputs, n - 1, |rules|) == Before(others, start, inputs, n - 1, |rules|)
    ensures ImageAt(rules, start, inputs, n) == ImageAt(others, start, inputs, n)
  {
    RunMeetsHistory(rules, start, inputs, n);
    RunMeetsHistory(others, start, inputs, n);
  }

  /** Replacing conditions by others of the same meaning changes no run of the program. */
  lemma RewritingKeepsRuns(rules: seq<Rule>, others: seq<Rule>, start: Image, inputs: seq<Image>, n: nat)
    requires n <= |inputs| && Rewritten(rules, others, |inputs|)
    ensures ImageAt(rules, start, inputs, n) == ImageAt(others, start, inputs, n)
  {
    if n > 0 {
      SameMeaningSameMemory(rules, others, start, inputs, n - 1, |rules|);
      SameFinalMemory(rules, others, start, inputs, n);
    }
  }

  /** So any part of any rule may be rewritten: no run of the program changes. */
  lemma RewritingInsideKeepsRuns(rules: seq<Rule>, r: nat, context: Context, c: Node, d: Node,
                                 start: Image, inputs: seq<Image>, n: nat)
    requires r < |rules| && rules[r].condition == Plug(context, c) && n <= |inputs|
    requires PeriodsPositive(c) && PeriodsPositive(d) && SameMeaning(c, d)
    requires Meaningful(rules, |inputs|)
    requires Meaningful(rules[r := rules[r].(condition := Plug(context, d))], |inputs|)
    ensures ImageAt(rules, start, inputs, n)
         == ImageAt(rules[r := rules[r].(condition := Plug(context, d))], start, inputs, n)
  {
    var others := rules[r := rules[r].(condition := Plug(context, d))];
    PlugPositive(context, c);
    forall h: seq<Image> | h != [] ensures AgreeOn(rules[r].condition, others[r].condition, h) {
      PlugKeepsMeaning(context, c, d, h);
    }
    assert SameMeaning(rules[r].condition, others[r].condition);
    RewritingKeepsRuns(rules, others, start, inputs, n);
  }
}
