/**
 Runs of a whole program: scan after scan, with new inputs loaded before each.
 The main theorem refines the counting machine to a semantics without counters.
 */
module Runs {
  import opened ProcessImage
  import opened Logic
  import opened History

  /** What the read step of the drivers does: %I is replaced, the rest stays. */
  ghost function Loaded(m: Image, inputs: Image): Image {
    m - AreaBits(Input) + inputs * AreaBits(Input)
  }

  // ---------- the counting machine ----------

  /** The rules, with their counters, at the start of scan `n`. */
  ghost function RulesAt(rules: seq<Rule>, start: Image, inputs: seq<Image>, n: nat): (now: seq<Rule>)
    requires n <= |inputs|
    ensures |now| == |rules|
    decreases n, 0
  {
    if n == 0 then rules
    else Ticked(RulesAt(rules, start, inputs, n - 1), ReadyAt(rules, start, inputs, n - 1))
  }

  /** The image when the logic of scan `n` begins. */
  ghost function ReadyAt(rules: seq<Rule>, start: Image, inputs: seq<Image>, n: nat): Image
    requires n < |inputs|
    decreases n, 1
  {
    Loaded(ImageAt(rules, start, inputs, n), inputs[n])
  }

  /** The image after `n` complete scans. */
  ghost function ImageAt(rules: seq<Rule>, start: Image, inputs: seq<Image>, n: nat): Image
    requires n <= |inputs|
    decreases n, 0
  {
    if n == 0 then start
    else After(RulesAt(rules, start, inputs, n - 1), ReadyAt(rules, start, inputs, n - 1))
  }

  /** One scan more. */
  lemma RunGrows(rules: seq<Rule>, start: Image, inputs: seq<Image>, n: nat)
    requires n < |inputs|
    ensures var was, ready := RulesAt(rules, start, inputs, n), Loaded(ImageAt(rules, start, inputs, n), inputs[n]);
      && RulesAt(rules, start, inputs, n + 1) == Ticked(was, ready)
      && ImageAt(rules, start, inputs, n + 1) == After(was, ready)
  {
    assert ReadyAt(rules, start, inputs, n) == Loaded(ImageAt(rules, start, inputs, n), inputs[n]);
  }

  // ---------- the stateless semantics ----------

  ghost predicate Meaningful(rules: seq<Rule>, cycles: nat) {
    forall r :: 0 <= r < |rules| ==>
      && PeriodsPositive(rules[r].condition)
      && TimersFit(rules[r].condition, cycles)
      && rules[r].condition == Reset(rules[r].condition)
  }

  /** The memory in front of rule `r` in scan `n`.  Rule r - 1 has written what its condition
      means on its own history: the memories left by the rules before it in scans 0..n. */
  ghost function Before(rules: seq<Rule>, start: Image, inputs: seq<Image>, n: nat, r: nat): Image
    requires n < |inputs| && r <= |rules|
    requires Meaningful(rules, |inputs|)
    decreases n, r
  {
    if r > 0 then
      var history := seq(n + 1, i requires 0 <= i <= n => Before(rules, start, inputs, i, r - 1));
      Write(history[n], rules[r - 1].out, Holds(rules[r - 1].condition, history))
    else
      Loaded(if n == 0 then start else Before(rules, start, inputs, n - 1, |rules|), inputs[n])
  }

  /** The history rule `r` has seen when it is evaluated in scan `n`. */
  ghost function RuleHistory(rules: seq<Rule>, start: Image, inputs: seq<Image>, n: nat, r: nat): (h: seq<Image>)
    requires n <= |inputs| && r < |rules|
    requires Meaningful(rules, |inputs|)
    ensures |h| == n
  {
    seq(n, i requires 0 <= i < n => Before(rules, start, inputs, i, r))
  }

  // ---------- the history theorem for programs ----------

  /** At every rule of every scan, the counting machine and the stateless semantics have
      the same memory, and the counters are those of the rule's history. */
  lemma {:induction false} ProgramMeetsHistory(rules: seq<Rule>, start: Image, inputs: seq<Image>, n: nat, r: nat)
    requires n < |inputs| && r <= |rules|
    requires Meaningful(rules, |inputs|)
    ensures After(RulesAt(rules, start, inputs, n)[..r], ReadyAt(rules, start, inputs, n))
         == Before(rules, start, inputs, n, r)
    decreases n, r, 1
  {
    var now, ready := RulesAt(rules, start, inputs, n), ReadyAt(rules, start, inputs, n);
    if r > 0 {
      AfterStep(now, ready, r - 1);
      BeforeStep(rules, start, inputs, n, r - 1);
      RuleOutputKept(rules, start, inputs, n, r - 1);
      ProgramMeetsHistory(rules, start, inputs, n, r - 1);
      RuleMeetsHistory(rules, start, inputs, n, r - 1);
    } else {
      ScanStart(rules, start, inputs, n);
    }
  }

  lemma {:induction false} ScanStart(rules: seq<Rule>, start: Image, inputs: seq<Image>, n: nat)
    requires n < |inputs|
    requires Meaningful(rules, |inputs|)
    ensures After(RulesAt(rules, start, inputs, n)[..0], ReadyAt(rules, start, inputs, n))
         == Before(rules, start, inputs, n, 0)
    decreases n, 0, 0
  {
    if n > 0 {
      RunMeetsHistory(rules, start, inputs, n);
    }
  }

  lemma BeforeStep(rules: seq<Rule>, start: Image, inputs: seq<Image>, n: nat, r: nat)
    requires n < |inputs| && r < |rules|
    requires Meaningful(rules, |inputs|)
    ensures Before(rules, start, inputs, n, r + 1)
         == Write(Before(rules, start, inputs, n, r), rules[r].out,
                  Holds(rules[r].condition, RuleHistory(rules, start, inputs, n + 1, r)))
  {
    var h := RuleHistory(rules, start, inputs, n + 1, r);
    assert h == seq(n + 1, i requires 0 <= i <= n => Before(rules, start, inputs, i, r));
  }

  /** The bit a rule writes is what its condition means on the rule's history. */
  lemma {:induction false} RuleMeetsHistory(rules: seq<Rule>, start: Image, inputs: seq<Image>, n: nat, r: nat)
    requires n < |inputs| && r < |rules|
    requires Meaningful(rules, |inputs|)
    ensures Val(RulesAt(rules, start, inputs, n)[r].condition, Before(rules, start, inputs, n, r))
       <==> Holds(rules[r].condition, RuleHistory(rules, start, inputs, n + 1, r))
    decreases n, r, 2
  {
    CountersMeetHistory(rules, start, inputs, n, r);
    var h := RuleHistory(rules, start, inputs, n + 1, r);
    assert h[..n] == RuleHistory(rules, start, inputs, n, r);
    FitsShorter(rules[r].condition, |inputs|, n + 1);
    MachineMeetsHistory(rules[r].condition, h);
  }

  lemma {:induction false} CountersMeetHistory(rules: seq<Rule>, start: Image, inputs: seq<Image>, n: nat, r: nat)
    requires n < |inputs| && r < |rules|
    requires Meaningful(rules, |inputs|)
    ensures RulesAt(rules, start, inputs, n)[r].condition
         == NodeAfter(rules[r].condition, RuleHistory(rules, start, inputs, n, r))
    decreases n, r, 0
  {
    if n > 0 {
      CountersMeetHistory(rules, start, inputs, n - 1, r);
      ProgramMeetsHistory(rules, start, inputs, n - 1, r);
      CounterStep(rules, start, inputs, n - 1, r);
      HistoryStep(rules, start, inputs, n - 1, r);
    }
  }

  lemma CounterStep(rules: seq<Rule>, start: Image, inputs: seq<Image>, n: nat, r: nat)
    requires n < |inputs| && r < |rules|
    ensures RulesAt(rules, start, inputs, n + 1)[r].condition
         == var was := RulesAt(rules, start, inputs, n);
            Next(was[r].condition, After(was[..r], ReadyAt(rules, start, inputs, n)))
  {
  }

  lemma HistoryStep(rules: seq<Rule>, start: Image, inputs: seq<Image>, n: nat, r: nat)
    requires n < |inputs| && r < |rules| && Meaningful(rules, |inputs|)
    ensures var was, h := RuleHistory(rules, start, inputs, n, r), RuleHistory(rules, start, inputs, n + 1, r);
      && h == was + [Before(rules, start, inputs, n, r)]
      && NodeAfter(rules[r].condition, h)
         == Next(NodeAfter(rules[r].condition, was), Before(rules, start, inputs, n, r))
  {
    var h := RuleHistory(rules, start, inputs, n + 1, r);
    assert h[..n] == RuleHistory(rules, start, inputs, n, r);
  }

  lemma {:induction false} RuleOutputKept(rules: seq<Rule>, start: Image, inputs: seq<Image>, n: nat, r: nat)
    requires n <= |inputs| && r < |rules|
    ensures RulesAt(rules, start, inputs, n)[r].out == rules[r].out
    ensures RulesAt(rules, start, inputs, n)[r].id == rules[r].id
  {
    if n > 0 {
      RuleOutputKept(rules, start, inputs, n - 1, r);
    }
  }

  /** The whole run: after any number of scans the memory is the stateless one. */
  lemma {:induction false} RunMeetsHistory(rules: seq<Rule>, start: Image, inputs: seq<Image>, n: nat)
    requires 0 < n <= |inputs| && Meaningful(rules, |inputs|)
    ensures ImageAt(rules, start, inputs, n) == Before(rules, start, inputs, n - 1, |rules|)
    decreases n - 1, |rules|, 3
  {
    var last := RulesAt(rules, start, inputs, n - 1);
    assert last[..|rules|] == last;
    ProgramMeetsHistory(rules, start, inputs, n - 1, |rules|);
  }
}
