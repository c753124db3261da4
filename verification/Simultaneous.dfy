/**
 When sequential execution solves all rules at once: for programs whose rules read only
 what earlier rules or nobody writes, one scan computes the only simultaneous solution.
 */
module Simultaneous {
  import opened ProcessImage
  import opened Logic
  import opened Runs

  /** No two rules write one signal, and no rule reads what it or a later rule writes. */
  ghost predicate Layered(rules: seq<Rule>) {
    && (forall i, j :: 0 <= i < j < |rules| ==> rules[i].out != rules[j].out)
    && (forall i, j :: 0 <= i <= j < |rules| ==> !Reads(rules[i].condition, rules[j].out))
  }

  /** Every output equals its condition, all evaluated on the one image `x`. */
  ghost predicate Solves(rules: seq<Rule>, x: Image) {
    forall r :: 0 <= r < |rules| ==> (rules[r].out in x <==> Val(rules[r].condition, x))
  }

  ghost predicate AgreesOffOutputs(rules: seq<Rule>, m: Image, x: Image) {
    forall s :: !Targets(rules, s) ==> (s in x <==> s in m)
  }

  /** The scan satisfies every equation at once. */
  lemma ScanSolves(rules: seq<Rule>, m: Image)
    requires Layered(rules)
    ensures Solves(rules, After(rules, m)) && AgreesOffOutputs(rules, m, After(rules, m))
  {
    forall s | !Targets(rules, s) ensures s in After(rules, m) <==> s in m {
      UntargetedUnchanged(rules, m, s);
    }
    forall r | 0 <= r < |rules|
      ensures rules[r].out in After(rules, m) <==> Val(rules[r].condition, After(rules, m))
    {
      LastWriterWins(rules, m, r);
      ConditionSettled(rules, m, r);
    }
  }

  /** A condition has its final value when its rule is reached. */
  lemma ConditionSettled(rules: seq<Rule>, m: Image, r: nat)
    requires Layered(rules) && r < |rules|
    ensures Val(rules[r].condition, After(rules, m)) <==> Val(rules[r].condition, After(rules[..r], m))
  {
    var before, tail := After(rules[..r], m), rules[r..];
    assert rules == rules[..r] + tail;
    AfterConcat(rules[..r], tail, m);
    forall s | Reads(rules[r].condition, s) ensures s in After(tail, before) <==> s in before {
      UnreadByEarlier(rules, r, s);
      UntargetedUnchanged(tail, before, s);
    }
    EvaluationIsLocal(rules[r].condition, After(tail, before), before);
  }

  lemma TargetsOfTail(rules: seq<Rule>, r: nat, s: SignalRef)
    requires r < |rules|
    ensures Targets(rules[r..], s) <==> s == rules[r].out || Targets(rules[r + 1..], s)
  {
    var tail, rest := rules[r..], rules[r + 1..];
    if Targets(rest, s) {
      var i :| 0 <= i < |rest| && rest[i].out == s;
      assert tail[i + 1].out == s;
    }
    if s == rules[r].out {
      assert tail[0].out == s;
    }
    if Targets(tail, s) && s != rules[r].out {
      var i :| 0 <= i < |tail| && tail[i].out == s;
      assert rest[i - 1].out == s;
    }
  }

  lemma UnreadByEarlier(rules: seq<Rule>, r: nat, s: SignalRef)
    requires Layered(rules) && r < |rules| && Reads(rules[r].condition, s)
    ensures !Targets(rules[r..], s)
  {
    forall i | 0 <= i < |rules[r..]| ensures rules[r..][i].out != s {
      assert rules[r..][i] == rules[r + i];
    }
  }

  /** Any solution agrees with the scan in progress on what the remaining rules do not write. */
  lemma {:induction false} SolutionIsForced(rules: seq<Rule>, m: Image, x: Image, r: nat)
    requires Layered(rules) && Solves(rules, x) && AgreesOffOutputs(rules, m, x)
    requires r <= |rules|
    ensures forall s :: !Targets(rules[r..], s) ==> (s in After(rules[..r], m) <==> s in x)
  {
    if r > 0 {
      SolutionIsForced(rules, m, x, r - 1);
      SolutionForcedStep(rules, m, x, r - 1);
    } else {
      assert rules[0..] == rules;
    }
  }

  lemma SolutionForcedStep(rules: seq<Rule>, m: Image, x: Image, r: nat)
    requires Layered(rules) && r < |rules|
    requires rules[r].out in x <==> Val(rules[r].condition, x)
    requires forall s :: !Targets(rules[r..], s) ==> (s in After(rules[..r], m) <==> s in x)
    ensures forall s :: !Targets(rules[r + 1..], s) ==> (s in After(rules[..r + 1], m) <==> s in x)
  {
    var rule, before := rules[r], After(rules[..r], m);
    AfterStep(rules, m, r);
    forall s | Reads(rule.condition, s) ensures s in before <==> s in x {
      UnreadByEarlier(rules, r, s);
    }
    EvaluationIsLocal(rule.condition, before, x);
    forall s | !Targets(rules[r + 1..], s) ensures s in After(rules[..r + 1], m) <==> s in x {
      TargetsOfTail(rules, r, s);
    }
  }

  /** The memory after a scan is the one and only simultaneous solution over the old memory. */
  lemma ScanIsTheOnlySolution(rules: seq<Rule>, m: Image, x: Image)
    requires Layered(rules)
    ensures x == After(rules, m) <==> Solves(rules, x) && AgreesOffOutputs(rules, m, x)
  {
    ScanSolves(rules, m);
    if Solves(rules, x) && AgreesOffOutputs(rules, m, x) {
      SolutionIsForced(rules, m, x, |rules|);
      assert rules[..|rules|] == rules;
    }
  }

  /** So a second scan with the same counters changes nothing. */
  lemma ScanIsIdempotent(rules: seq<Rule>, m: Image)
    requires Layered(rules)
    ensures After(rules, After(rules, m)) == After(rules, m)
  {
    ScanSolves(rules, m);
    ScanIsTheOnlySolution(rules, After(rules, m), After(rules, m));
  }

  lemma TimerFreeRulesStay(rules: seq<Rule>, m: Image)
    requires forall r :: 0 <= r < |rules| ==> TimerFree(rules[r].condition)
    ensures Ticked(rules, m) == rules
  {
    forall r | 0 <= r < |rules| ensures Ticked(rules, m)[r] == rules[r] {
      TimerFreeIsStateless(rules[r].condition, After(rules[..r], m));
    }
  }

  /** A layered program without timers settles in one scan: under unchanged inputs every
      later scan leaves the memory as the first one made it. */
  lemma {:induction false} SettlesInOneScan(rules: seq<Rule>, start: Image, inputs: seq<Image>, n: nat)
    requires Layered(rules) && forall r :: 0 <= r < |rules| ==>
      TimerFree(rules[r].condition) && rules[r].out.area != Input
    requires 1 <= n <= |inputs| && forall i :: 0 <= i < |inputs| ==> inputs[i] == inputs[0]
    ensures ImageAt(rules, start, inputs, n) == After(rules, Loaded(start, inputs[0]))
    ensures RulesAt(rules, start, inputs, n) == rules
  {
    var settled := After(rules, Loaded(start, inputs[0]));
    if n == 1 {
      TimerFreeRulesStay(rules, ReadyAt(rules, start, inputs, 0));
    } else {
      SettlesInOneScan(rules, start, inputs, n - 1);
      forall s: SignalRef | s.area == Input ensures s in settled <==> s in inputs[0] {
        UntargetedUnchanged(rules, Loaded(start, inputs[0]), s);
      }
      assert Loaded(settled, inputs[0]) == settled;
      ScanIsIdempotent(rules, Loaded(start, inputs[0]));
      TimerFreeRulesStay(rules, ReadyAt(rules, start, inputs, n - 1));
    }
  }

  /** Without the layering it need not: a rule that negates its own output never settles. */
  lemma SelfNegationNeverSettles(m: Image)
    ensures var q := SignalRef(Output, 0, 0);
            var rules := [Rule("blink", q, NotNode(SignalNode(q)))];
            After(rules, m) != m && forall x: Image :: !Solves(rules, x)
  {
    var q := SignalRef(Output, 0, 0);
    var rules := [Rule("blink", q, NotNode(SignalNode(q)))];
    AfterStep(rules, m, 0);
    assert rules[..0] == [] && rules[..1] == rules;
    assert q in After(rules, m) <==> q !in m;
    forall x: Image ensures !Solves(rules, x) {
      assert rules[0].out == q;
    }
  }
}
