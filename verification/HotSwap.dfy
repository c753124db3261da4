/**
 Hot swap under concurrency.  The scan thread copies the program pointer under the lock and
 then runs rule by rule without it, while other threads parse documents and install
 programs at any point.  Every interleaving is proved to end as a serial run in which each
 cycle is one indivisible step and each swap falls before or after it.
 */
module HotSwap {
  import opened Wrappers
  import opened ProcessImage
  import opened Words
  import opened Logic
  import opened Runs
  import I = Interpreter
  import J = Json
  import Parser

  /** Where the scan thread is: between cycles, or inside one with its copy of the pointer. */
  datatype Phase = Idle | Running(program: nat, next: nat)

  /** `programs` are the program objects in order of creation; an object keeps its counters
      however often it is installed. */
  datatype State = State(programs: seq<seq<Rule>>, current: Option<nat>, image: Image, phase: Phase)

  datatype Action =
    | LoadInputs(inputs: Image)         // scan thread: the drivers' read step
    | CopyPointer                       // scan thread, under the lock
    | RunRule                           // scan thread: evaluate one condition, write one bit
    | Finish                            // scan thread: the cycle is over
    | Cycle                             // serial runs alone: a whole cycle at once
    | Parse(doc: J.Json)                // any thread: from_json, outside the lock
    | Install(program: Option<nat>)     // any thread: the assignment under the lock

  ghost predicate ValidState(s: State) {
    && (s.current.Some? ==> s.current.value < |s.programs|)
    && (s.phase.Running? ==> s.phase.program < |s.programs| && s.phase.next <= |s.programs[s.phase.program]|)
  }

  predicate IsSwap(a: Action) {
    a.Parse? || a.Install?
  }

  ghost predicate Enabled(s: State, a: Action)
    requires ValidState(s)
  {
    match a
    case LoadInputs(_) => s.phase.Idle?
    case CopyPointer => s.phase.Idle?
    case RunRule => s.phase.Running? && s.phase.next < |s.programs[s.phase.program]|
    case Finish => s.phase.Running? && s.phase.next == |s.programs[s.phase.program]|
    case Cycle => s.phase.Idle?
    case Parse(_) => true
    case Install(program) => program.Some? ==> program.value < |s.programs|
  }

  ghost function Step(s: State, a: Action, period: uint64): (t: State)
    requires ValidState(s) && Enabled(s, a)
    ensures ValidState(t)
  {
    match a
    case LoadInputs(inputs) => s.(image := Loaded(s.image, inputs))
    case CopyPointer => if s.current == None then s else s.(phase := Running(s.current.value, 0))
    case RunRule =>
      var p, r := s.phase.program, s.phase.next;
      var rule := s.programs[p][r];
      s.(image := Write(s.image, rule.out, Val(rule.condition, s.image)),
         programs := s.programs[p := s.programs[p][r := rule.(condition := Next(rule.condition, s.image))]],
         phase := Running(p, r + 1))
    case Finish => s.(phase := Idle)
    case Cycle =>
      if s.current == None then s
      else
        var p := s.current.value;
        s.(image := After(s.programs[p], s.image), programs := s.programs[p := Ticked(s.programs[p], s.image)])
    case Parse(doc) =>
      var parsed := Parser.FromJson(doc, period);
      if parsed == None then s else s.(programs := s.programs + [parsed.value])
    case Install(program) => s.(current := program)
  }

  /** The states an action sequence can be executed from. */
  ghost predicate Executable(s: State, w: seq<Action>, period: uint64)
    requires ValidState(s)
    decreases |w|
  {
    w == [] || (Enabled(s, w[0]) && Executable(Step(s, w[0], period), w[1..], period))
  }

  ghost function Exec(s: State, w: seq<Action>, period: uint64): (t: State)
    requires ValidState(s) && Executable(s, w, period)
    ensures ValidState(t)
    decreases |w|
  {
    if w == [] then s else Exec(Step(s, w[0], period), w[1..], period)
  }

  lemma {:induction false} ExecConcat(s: State, v: seq<Action>, w: seq<Action>, period: uint64)
    requires ValidState(s) && Executable(s, v, period) && Executable(Exec(s, v, period), w, period)
    ensures Executable(s, v + w, period) && Exec(s, v + w, period) == Exec(Exec(s, v, period), w, period)
    decreases |v|
  {
    if v == [] {
      assert v + w == w;
    } else {
      assert (v + w)[1..] == v[1..] + w;
      ExecConcat(Step(s, v[0], period), v[1..], w, period);
    }
  }

  // ---------- what a swap does ----------

  /** The program in the holder after some actions: that of the last install, or what it was. */
  function LastInstalled(w: seq<Action>, was: Option<nat>): Option<nat> {
    if w == [] then was
    else LastInstalled(w[1..], if w[0].Install? then w[0].program else was)
  }

  /** Installs alone decide which program is current, and the last one does. */
  lemma {:induction false} CurrentIsLastInstalled(s: State, w: seq<Action>, period: uint64)
    requires ValidState(s) && Executable(s, w, period)
    ensures Exec(s, w, period).current == LastInstalled(w, s.current)
    decreases |w|
  {
    if w != [] {
      CurrentIsLastInstalled(Step(s, w[0], period), w[1..], period);
    }
  }

  /** The documents that were accepted, in order, as rules. */
  function AcceptedRules(w: seq<Action>, period: uint64): seq<seq<Rule>> {
    if w == [] then []
    else
      var parsed := if w[0].Parse? then Parser.FromJson(w[0].doc, period) else None;
      (if parsed.Some? then [parsed.value] else []) + AcceptedRules(w[1..], period)
  }

  /** The objects without the state of their timers. */
  ghost function Cleared(programs: seq<seq<Rule>>): (cleared: seq<seq<Rule>>)
    ensures |cleared| == |programs|
  {
    seq(|programs|, p requires 0 <= p < |programs| => ClearedRules(programs[p]))
  }

  ghost function ClearedRules(rules: seq<Rule>): (cleared: seq<Rule>)
    ensures |cleared| == |rules|
  {
    seq(|rules|, r requires 0 <= r < |rules| => rules[r].(condition := Reset(rules[r].condition)))
  }

  lemma TickedCleared(rules: seq<Rule>, m: Image)
    ensures ClearedRules(Ticked(rules, m)) == ClearedRules(rules)
  {
    forall r | 0 <= r < |rules| ensures Reset(Ticked(rules, m)[r].condition) == Reset(rules[r].condition) {
      EvaluationKeepsShape(rules[r].condition, After(rules[..r], m));
    }
  }

  lemma RuleTickCleared(rules: seq<Rule>, r: nat, m: Image)
    requires r < |rules|
    ensures ClearedRules(rules[r := rules[r].(condition := Next(rules[r].condition, m))]) == ClearedRules(rules)
  {
    EvaluationKeepsShape(rules[r].condition, m);
  }

  /** A parse of an accepted document makes one more object, with its rules and with zero timers;
      nothing else makes one, and scans move the timers alone. */
  lemma StepMakesPrograms(s: State, a: Action, period: uint64)
    requires ValidState(s) && Enabled(s, a)
    ensures Cleared(Step(s, a, period).programs) == Cleared(s.programs) + AcceptedRules([a], period)
    ensures a.Parse? && Parser.FromJson(a.doc, period) == None ==> Step(s, a, period) == s
    ensures a.Parse? && Parser.FromJson(a.doc, period).Some? ==>
      Step(s, a, period) == s.(programs := s.programs + [Parser.FromJson(a.doc, period).value])
  {
    assert [a][1..] == [];
    if a.RunRule? {
      RuleTickCleared(s.programs[s.phase.program], s.phase.next, s.image);
    } else if a.Cycle? && s.current.Some? {
      TickedCleared(s.programs[s.current.value], s.image);
    } else if a.Parse? && Parser.FromJson(a.doc, period).Some? {
      var rules := Parser.FromJson(a.doc, period).value;
      Parser.AcceptedIsSafe(a.doc, period);
      assert ClearedRules(rules) == rules;
    }
  }

  lemma AcceptedFirst(w: seq<Action>, period: uint64)
    requires w != []
    ensures AcceptedRules(w, period) == AcceptedRules([w[0]], period) + AcceptedRules(w[1..], period)
  {
    assert [w[0]][1..] == [];
  }

  lemma {:induction false} ProgramsAreAccepted(s: State, w: seq<Action>, period: uint64)
    requires ValidState(s) && Executable(s, w, period)
    ensures Cleared(Exec(s, w, period).programs) == Cleared(s.programs) + AcceptedRules(w, period)
    decreases |w|
  {
    if w != [] {
      StepMakesPrograms(s, w[0], period);
      ProgramsAreAccepted(Step(s, w[0], period), w[1..], period);
      AcceptedFirst(w, period);
    }
  }

  /** No thread ever waits for another: parses and installs are always possible, and the scan
      thread always has exactly one next step. */
  lemma NothingBlocks(s: State, doc: J.Json, program: Option<nat>, inputs: Image)
    requires ValidState(s)
    ensures Enabled(s, Parse(doc))
    ensures (program.Some? ==> program.value < |s.programs|) ==> Enabled(s, Install(program))
    ensures Enabled(s, CopyPointer) == Enabled(s, LoadInputs(inputs)) == s.phase.Idle?
    ensures s.phase.Running? ==> Enabled(s, RunRule) == !Enabled(s, Finish)
  {
  }

  /** The step for a whole cycle is what the runtime's method leaves: whatever rules and image
      `ExecuteCycle` reports without an error are those of the step. */
  lemma CycleIsExecuted(s: State, now: seq<Rule>, image: Image, period: uint64)
    requires ValidState(s) && s.phase.Idle? && s.current.Some?
    requires I.ScanResult(s.programs[s.current.value], s.image, true, now, image)
    ensures Step(s, Cycle, period) == WithCycle(s, s.current.value, now, image, Idle)
  {
  }

  /** The scan thread in the middle of a cycle of the current program. */
  ghost function Midway(s: State, r: nat): State
    requires ValidState(s) && s.current.Some? && r <= |s.programs[s.current.value]|
  {
    var p := s.current.value;
    WithCycle(s, p, Partly(s.programs[p], s.image, r), After(s.programs[p][..r], s.image), Running(p, r))
  }

  /** The steps of one cycle: copy the pointer, run `r` rules. */
  function CycleSteps(r: nat): seq<Action> {
    if r == 0 then [CopyPointer] else CycleSteps(r - 1) + [RunRule]
  }

  lemma RuleAfterRules(s: State, r: nat, period: uint64)
    requires ValidState(s) && s.current.Some? && r < |s.programs[s.current.value]|
    ensures ValidState(Midway(s, r)) && Executable(Midway(s, r), [RunRule], period)
    ensures Exec(Midway(s, r), [RunRule], period) == Midway(s, r + 1)
  {
    var rules := s.programs[s.current.value];
    AfterStep(rules, s.image, r);
    PartlyStep(rules, s.image, r);
    assert Partly(rules, s.image, r)[r := Ticked(rules, s.image)[r]] == Partly(rules, s.image, r + 1);
    assert Step(Midway(s, r), RunRule, period).programs == Midway(s, r + 1).programs;
    assert [RunRule][1..] == [] && Executable(Step(Midway(s, r), RunRule, period), [], period);
  }

  lemma {:induction false} CycleGoesOn(s: State, r: nat, period: uint64)
    requires ValidState(s) && s.phase.Idle? && s.current.Some? && r <= |s.programs[s.current.value]|
    ensures Executable(s, CycleSteps(r), period) && Exec(s, CycleSteps(r), period) == Midway(s, r)
  {
    var rules := s.programs[s.current.value];
    if r == 0 {
      assert Partly(rules, s.image, 0) == rules;
      assert [CopyPointer][1..] == [] && Executable(Step(s, CopyPointer, period), [], period);
      assert s.programs[s.current.value := rules] == s.programs;
    } else {
      CycleGoesOn(s, r - 1, period);
      RuleAfterRules(s, r - 1, period);
      ExecConcat(s, CycleSteps(r - 1), [RunRule], period);
    }
  }

  /** Left alone, the scan thread's steps are a whole cycle of the current program. */
  lemma CycleStepByStep(s: State, period: uint64)
    requires ValidState(s) && s.phase.Idle? && s.current.Some?
    ensures var n := |s.programs[s.current.value]|;
      && Executable(s, CycleSteps(n) + [Finish], period)
      && Exec(s, CycleSteps(n) + [Finish], period) == Step(s, Cycle, period)
  {
    var rules := s.programs[s.current.value];
    var n := |rules|;
    CycleGoesOn(s, n, period);
    assert rules[..n] == rules && Partly(rules, s.image, n) == Ticked(rules, s.image);
    assert [Finish][1..] == [] && Executable(Step(Midway(s, n), Finish, period), [], period);
    ExecConcat(s, CycleSteps(n), [Finish], period);
  }

  /** `n` scans, each with its inputs. */
  function Scans(inputs: seq<Image>): seq<Action> {
    if inputs == [] then [] else Scans(inputs[..|inputs| - 1]) + [LoadInputs(inputs[|inputs| - 1]), Cycle]
  }

  lemma OneScan(s: State, inputs: Image, period: uint64)
    requires ValidState(s) && s.phase.Idle? && s.current.Some?
    ensures var rules, ready := s.programs[s.current.value], Loaded(s.image, inputs);
      && Executable(s, [LoadInputs(inputs), Cycle], period)
      && Exec(s, [LoadInputs(inputs), Cycle], period)
         == WithCycle(s, s.current.value, Ticked(rules, ready), After(rules, ready), Idle)
  {
    var a, b := LoadInputs(inputs), Cycle;
    assert [a, b][1..] == [b] && [b][1..] == [];
    assert Executable(Step(Step(s, a, period), b, period), [], period);
    assert Executable(Step(s, a, period), [b], period);
    assert Exec(Step(s, a, period), [b], period) == Step(Step(s, a, period), b, period);
  }

  /** The state after `n` scans of the current program: the images and the counters of its run. */
  ghost function AfterScans(s: State, inputs: seq<Image>, n: nat): (t: State)
    requires ValidState(s) && s.phase.Idle? && s.current.Some? && n <= |inputs|
    ensures ValidState(t) && t.phase.Idle? && t.current == s.current && |t.programs| == |s.programs|
  {
    var p := s.current.value;
    WithCycle(s, p, RulesAt(s.programs[p], s.image, inputs, n), ImageAt(s.programs[p], s.image, inputs, n), Idle)
  }

  lemma OneScanMore(s: State, was: seq<Rule>, m: Image, inputs: Image, now: seq<Rule>, w: Image, period: uint64)
    requires ValidState(s) && s.phase.Idle? && s.current.Some?
    requires now == Ticked(was, Loaded(m, inputs)) && w == After(was, Loaded(m, inputs))
    ensures var before := WithCycle(s, s.current.value, was, m, Idle);
      && Executable(before, [LoadInputs(inputs), Cycle], period)
      && Exec(before, [LoadInputs(inputs), Cycle], period) == WithCycle(s, s.current.value, now, w, Idle)
  {
    var p := s.current.value;
    OneScan(WithCycle(s, p, was, m, Idle), inputs, period);
    assert s.programs[p := was][p := now] == s.programs[p := now];
  }

  lemma ScanAfterScans(s: State, inputs: seq<Image>, n: nat, period: uint64)
    requires ValidState(s) && s.phase.Idle? && s.current.Some? && n < |inputs|
    ensures var before, last := AfterScans(s, inputs, n), [LoadInputs(inputs[n]), Cycle];
      Executable(before, last, period) && Exec(before, last, period) == AfterScans(s, inputs, n + 1)
  {
    var rules := s.programs[s.current.value];
    RunGrows(rules, s.image, inputs, n);
    OneScanMore(s, RulesAt(rules, s.image, inputs, n), ImageAt(rules, s.image, inputs, n), inputs[n],
                RulesAt(rules, s.image, inputs, n + 1), ImageAt(rules, s.image, inputs, n + 1), period);
  }

  lemma {:induction false} ScansAreRun(s: State, inputs: seq<Image>, n: nat, period: uint64)
    requires ValidState(s) && s.phase.Idle? && s.current.Some? && n <= |inputs|
    ensures Executable(s, Scans(inputs[..n]), period)
    ensures Exec(s, Scans(inputs[..n]), period) == AfterScans(s, inputs, n)
  {
    if n > 0 {
      ScansAreRun(s, inputs, n - 1, period);
      ScanAfterScans(s, inputs, n - 1, period);
      assert inputs[..n][..n - 1] == inputs[..n - 1];
      ExecConcat(s, Scans(inputs[..n - 1]), [LoadInputs(inputs[n - 1]), Cycle], period);
    }
  }

  /** End to end: parsing a document, installing the new object and scanning gives the images of
      the document's rules, from zero timers. */
  lemma DeployedThenScanned(s: State, doc: J.Json, inputs: seq<Image>, period: uint64)
    requires ValidState(s) && s.phase.Idle? && Parser.FromJson(doc, period).Some?
    ensures var w := [Parse(doc), Install(Some(|s.programs|))] + Scans(inputs);
      && Executable(s, w, period)
      && Exec(s, w, period).current == Some(|s.programs|)
      && Exec(s, w, period).image == ImageAt(Parser.FromJson(doc, period).value, s.image, inputs, |inputs|)
  {
    var rules := Parser.FromJson(doc, period).value;
    var t := s.(programs := s.programs + [rules], current := Some(|s.programs|));
    DeployedFirst(s, doc, period);
    ScansAreRun(t, inputs, |inputs|, period);
    assert inputs[..|inputs|] == inputs;
    ExecConcat(s, [Parse(doc), Install(Some(|s.programs|))], Scans(inputs), period);
  }

  lemma DeployedFirst(s: State, doc: J.Json, period: uint64)
    requires ValidState(s) && Parser.FromJson(doc, period).Some?
    ensures var w := [Parse(doc), Install(Some(|s.programs|))];
      && Executable(s, w, period)
      && Exec(s, w, period)
         == s.(programs := s.programs + [Parser.FromJson(doc, period).value], current := Some(|s.programs|))
  {
    var a, b := Parse(doc), Install(Some(|s.programs|));
    var rules := Parser.FromJson(doc, period).value;
    var t := s.(programs := s.programs + [rules], current := Some(|s.programs|));
    assert [a, b][1..] == [b] && [b][1..] == [];
    assert Executable(t, [], period) && Step(Step(s, a, period), b, period) == t;
    assert Executable(Step(s, a, period), [b], period) && Exec(Step(s, a, period), [b], period) == t;
  }

  // ---------- swaps do not touch a cycle in progress ----------

  ghost predicate AllSwaps(w: seq<Action>) {
    forall i :: 0 <= i < |w| ==> IsSwap(w[i])
  }

  /** Replaces what a cycle changes: the image and the counters of one program. */
  ghost function WithCycle(s: State, p: nat, rules: seq<Rule>, m: Image, phase: Phase): State
    requires p < |s.programs|
  {
    s.(programs := s.programs[p := rules], image := m, phase := phase)
  }

  lemma SwapOnCycle(s: State, a: Action, p: nat, rules: seq<Rule>, m: Image, phase: Phase, period: uint64)
    requires ValidState(s) && p < |s.programs| && ValidState(WithCycle(s, p, rules, m, phase))
    requires IsSwap(a) && Enabled(s, a)
    ensures var t := Step(s, a, period);
      && Enabled(WithCycle(s, p, rules, m, phase), a)
      && |t.programs| >= |s.programs| && t.programs[p] == s.programs[p] && t.image == s.image && t.phase == s.phase
      && Step(WithCycle(s, p, rules, m, phase), a, period) == WithCycle(t, p, rules, m, phase)
  {
  }

  /** Swaps give the same result whether they come before or after a change to a cycle's own state. */
  lemma {:induction false} SwapsCommuteWithCycle(s: State, w: seq<Action>, p: nat, rules: seq<Rule>,
                                               m: Image, phase: Phase, period: uint64)
    requires ValidState(s) && p < |s.programs| && ValidState(WithCycle(s, p, rules, m, phase))
    requires phase.Running? ==> phase.program == p
    requires AllSwaps(w) && Executable(s, w, period)
    ensures Executable(WithCycle(s, p, rules, m, phase), w, period)
    ensures var t := Exec(s, w, period);
      && |t.programs| >= |s.programs| && t.programs[p] == s.programs[p] && t.image == s.image && t.phase == s.phase
      && Exec(WithCycle(s, p, rules, m, phase), w, period) == WithCycle(t, p, rules, m, phase)
    decreases |w|
  {
    if w != [] {
      var t := Step(s, w[0], period);
      assert IsSwap(w[0]);
      SwapOnCycle(s, w[0], p, rules, m, phase, period);
      SwapsCommuteWithCycle(t, w[1..], p, rules, m, phase, period);
    }
  }

  // ---------- the serial order of an interleaving ----------

  /** `done` is the serial run so far; `pending` are the swaps made during the open cycle. */
  datatype Order = Order(done: seq<Action>, pending: seq<Action>)

  ghost function Place(s: State, o: Order, a: Action): Order {
    match a
    case LoadInputs(_) => o.(done := o.done + [a])
    case CopyPointer => if s.current == None then o.(done := o.done + [Cycle]) else o
    case RunRule => o
    case Finish => Order(o.done + [Cycle] + o.pending, [])
    case Cycle => o.(done := o.done + [a])
    case Parse(_) => if s.phase.Idle? then o.(done := o.done + [a]) else o.(pending := o.pending + [a])
    case Install(_) => if s.phase.Idle? then o.(done := o.done + [a]) else o.(pending := o.pending + [a])
  }

  ghost function PlaceAll(s: State, o: Order, w: seq<Action>, period: uint64): Order
    requires ValidState(s) && Executable(s, w, period)
    decreases |w|
  {
    if w == [] then o else PlaceAll(Step(s, w[0], period), Place(s, o, w[0]), w[1..], period)
  }

  /** How an interleaved state relates to its serial order: between cycles the serial run ends
      in that very state; inside a cycle it is the serial run, then the pending swaps, then
      the part of one program that has run. */
  ghost predicate Explains(start: State, o: Order, s: State, period: uint64)
    requires ValidState(start) && ValidState(s)
  {
    && Executable(start, o.done, period) && AllSwaps(o.pending)
    && var z := Exec(start, o.done, period);
       && z.phase == Idle && Executable(z, o.pending, period)
       && match s.phase
          case Idle => o.pending == [] && z == s
          case Running(p, r) =>
            && z.current == Some(p) && r <= |z.programs[p]|
            && var y := Exec(z, o.pending, period);
               && p < |y.programs|
               && s == WithCycle(y, p, Partly(z.programs[p], z.image, r),
                                  After(z.programs[p][..r], z.image), Running(p, r))
  }

  lemma IdleStep(start: State, o: Order, s: State, a: Action, period: uint64)
    requires ValidState(start) && ValidState(s) && Explains(start, o, s, period)
    requires s.phase.Idle? && Enabled(s, a)
    ensures Explains(start, Place(s, o, a), Step(s, a, period), period)
  {
    var t := Step(s, a, period);
    if a.CopyPointer? {
      if s.current == None {
        ExecConcat(start, o.done, [Cycle], period);
      } else {
        var rules := s.programs[s.current.value];
        assert Partly(rules, s.image, 0) == rules;
        assert t.programs == t.programs[s.current.value := rules];
      }
    } else {
      assert Executable(Step(s, a, period), [], period);
      assert [a][1..] == [];
      ExecConcat(start, o.done, [a], period);
    }
  }

  lemma RunRuleStep(start: State, o: Order, s: State, period: uint64)
    requires ValidState(start) && ValidState(s) && Explains(start, o, s, period)
    requires Enabled(s, RunRule)
    ensures Explains(start, o, Step(s, RunRule, period), period)
  {
    var z := Exec(start, o.done, period);
    var p, r := s.phase.program, s.phase.next;
    var rules := z.programs[p];
    assert s.programs[p][r] == rules[r];
    AfterStep(rules, z.image, r);
    PartlyStep(rules, z.image, r);
  }

  lemma FinishStep(start: State, o: Order, s: State, period: uint64)
    requires ValidState(start) && ValidState(s) && Explains(start, o, s, period)
    requires Enabled(s, Finish)
    ensures Explains(start, Place(s, o, Finish), Step(s, Finish, period), period)
  {
    var z := Exec(start, o.done, period);
    var p := s.phase.program;
    var rules := z.programs[p];
    var n := |rules|;
    assert |s.programs[p]| == n;
    assert rules[..n] == rules && Partly(rules, z.image, n) == Ticked(rules, z.image);
    var cycled := Step(z, Cycle, period);
    assert cycled == WithCycle(z, p, Ticked(rules, z.image), After(rules, z.image), Idle);
    SwapsCommuteWithCycle(z, o.pending, p, Ticked(rules, z.image), After(rules, z.image), Idle, period);
    assert [Cycle][1..] == [];
    ExecConcat(start, o.done, [Cycle], period);
    ExecConcat(start, o.done + [Cycle], o.pending, period);
  }

  lemma SwapStep(start: State, o: Order, s: State, a: Action, period: uint64)
    requires ValidState(start) && ValidState(s) && Explains(start, o, s, period)
    requires s.phase.Running? && IsSwap(a) && Enabled(s, a)
    ensures Explains(start, Place(s, o, a), Step(s, a, period), period)
  {
    var z := Exec(start, o.done, period);
    var y := Exec(z, o.pending, period);
    var p, r := s.phase.program, s.phase.next;
    SwapOnCycle(y, a, p, Partly(z.programs[p], z.image, r), After(z.programs[p][..r], z.image), s.phase, period);
    assert [a][1..] == [];
    ExecConcat(z, o.pending, [a], period);
  }

  lemma {:induction false} EveryPrefixExplained(start: State, o: Order, s: State, w: seq<Action>, period: uint64)
    requires ValidState(start) && ValidState(s) && Explains(start, o, s, period) && Executable(s, w, period)
    requires forall i :: 0 <= i < |w| ==> w[i] != Cycle
    ensures Explains(start, PlaceAll(s, o, w, period), Exec(s, w, period), period)
    decreases |w|
  {
    if w != [] {
      var a := w[0];
      if s.phase.Idle? {
        IdleStep(start, o, s, a, period);
      } else if a == RunRule {
        RunRuleStep(start, o, s, period);
      } else if a == Finish {
        FinishStep(start, o, s, period);
      } else {
        SwapStep(start, o, s, a, period);
      }
      EveryPrefixExplained(start, Place(s, o, a), Step(s, a, period), w[1..], period);
    }
  }

  // ---------- the orders of the threads are kept ----------

  /** The swaps of a sequence, or everything but the swaps, in order. */
  ghost function Select(w: seq<Action>, swaps: bool): seq<Action> {
    if w == [] then []
    else if IsSwap(w[0]) == swaps then [w[0]] + Select(w[1..], swaps)
    else Select(w[1..], swaps)
  }

  /** What one action of the scan thread amounts to once each cycle is a single step. */
  ghost function ScanPart(s: State, a: Action): seq<Action> {
    match a
    case LoadInputs(_) => [a]
    case CopyPointer => if s.current == None then [Cycle] else []
    case Finish => [Cycle]
    case Cycle => [Cycle]
    case _ => []
  }

  /** What the scan thread did, in order. */
  ghost function ScansOf(s: State, w: seq<Action>, period: uint64): seq<Action>
    requires ValidState(s) && Executable(s, w, period)
    decreases |w|
  {
    if w == [] then [] else ScanPart(s, w[0]) + ScansOf(Step(s, w[0], period), w[1..], period)
  }

  lemma {:induction false} SelectConcat(v: seq<Action>, w: seq<Action>, swaps: bool)
    ensures Select(v + w, swaps) == Select(v, swaps) + Select(w, swaps)
  {
    if v == [] {
      assert v + w == w;
    } else {
      assert (v + w)[1..] == v[1..] + w;
      SelectConcat(v[1..], w, swaps);
    }
  }

  lemma {:induction false} SelectSwaps(w: seq<Action>)
    requires AllSwaps(w)
    ensures Select(w, true) == w && Select(w, false) == []
  {
    if w != [] {
      SelectSwaps(w[1..]);
    }
  }

  lemma SelectOne(a: Action, swaps: bool)
    ensures Select([a], swaps) == if IsSwap(a) == swaps then [a] else []
  {
    assert [a][1..] == [];
  }

  lemma SelectFirst(w: seq<Action>, swaps: bool)
    requires w != []
    ensures Select(w, swaps) == Select([w[0]], swaps) + Select(w[1..], swaps)
  {
    SelectOne(w[0], swaps);
  }

  lemma SequencesAssociate<T>(a: seq<T>, b: seq<T>, c: seq<T>)
    ensures (a + b) + c == a + (b + c)
  {
  }

  /** Placing one action adds it to its own thread's order and to no other. */
  lemma PlaceKeepsSwapOrder(s: State, o: Order, a: Action)
    requires AllSwaps(o.pending) && (s.phase.Idle? ==> o.pending == [])
    ensures var q := Place(s, o, a);
      AllSwaps(q.pending) && Select(q.done + q.pending, true) == Select(o.done + o.pending, true) + Select([a], true)
  {
    SelectOne(a, true);
    if IsSwap(a) {
      assert Place(s, o, a).done + Place(s, o, a).pending == (o.done + o.pending) + [a];
      SelectConcat(o.done + o.pending, [a], true);
    } else if Place(s, o, a) != o {
      ScanKeepsSwapOrder(o, if a.LoadInputs? then a else Cycle);
    }
  }

  /** A scan step behind the serial run, in front of the pending swaps, is no swap. */
  lemma ScanKeepsSwapOrder(o: Order, a: Action)
    requires !IsSwap(a)
    ensures Select(o.done + [a] + o.pending, true) == Select(o.done + o.pending, true)
    ensures (o.done + [a] + o.pending) + [] == o.done + [a] + o.pending
  {
    SelectOne(a, true);
    SelectConcat(o.done, [a], true);
    SelectConcat(o.done + [a], o.pending, true);
    SelectConcat(o.done, o.pending, true);
  }

  lemma PlaceKeepsScanOrder(s: State, o: Order, a: Action)
    requires AllSwaps(o.pending)
    ensures Select(Place(s, o, a).done, false) == Select(o.done, false) + ScanPart(s, a)
  {
    SelectOne(a, false);
    SelectOne(Cycle, false);
    SelectConcat(o.done, [a], false);
    SelectConcat(o.done, [Cycle], false);
    SelectConcat(o.done + [Cycle], o.pending, false);
    SelectSwaps(o.pending);
  }

  lemma {:induction false} PlaceAllKeepsSwapOrder(s: State, o: Order, w: seq<Action>, period: uint64)
    requires ValidState(s) && Executable(s, w, period) && AllSwaps(o.pending) && (s.phase.Idle? ==> o.pending == [])
    ensures var q := PlaceAll(s, o, w, period);
      Select(q.done + q.pending, true) == Select(o.done + o.pending, true) + Select(w, true)
    decreases |w|
  {
    if w != [] {
      var next := Place(s, o, w[0]);
      PlaceKeepsSwapOrder(s, o, w[0]);
      PlaceAllKeepsSwapOrder(Step(s, w[0], period), next, w[1..], period);
      SelectFirst(w, true);
      SequencesAssociate(Select(o.done + o.pending, true), Select([w[0]], true), Select(w[1..], true));
    }
  }

  lemma {:induction false} PlaceAllKeepsScanOrder(s: State, o: Order, w: seq<Action>, period: uint64)
    requires ValidState(s) && Executable(s, w, period) && AllSwaps(o.pending)
    ensures Select(PlaceAll(s, o, w, period).done, false) == Select(o.done, false) + ScansOf(s, w, period)
    decreases |w|
  {
    if w != [] {
      PlaceKeepsScanOrder(s, o, w[0]);
      PlaceAllKeepsScanOrder(Step(s, w[0], period), Place(s, o, w[0]), w[1..], period);
    }
  }

  // ---------- the main theorem ----------

  /** A serial run: whole cycles and swaps only. */
  predicate IsSerial(u: seq<Action>) {
    forall i :: 0 <= i < |u| ==> u[i].LoadInputs? || u[i].Cycle? || IsSwap(u[i])
  }

  lemma {:induction false} PlaceAllIsSerial(s: State, o: Order, w: seq<Action>, period: uint64)
    requires ValidState(s) && Executable(s, w, period) && IsSerial(o.done) && AllSwaps(o.pending)
    ensures IsSerial(PlaceAll(s, o, w, period).done)
    decreases |w|
  {
    if w != [] {
      PlaceAllIsSerial(Step(s, w[0], period), Place(s, o, w[0]), w[1..], period);
    }
  }

  /** Every interleaving that ends between two cycles equals a serial run: the same memory,
      the same counters in every program object, the same installed program, with the swaps
      in their order and the cycles and input loads in theirs. */
  lemma EveryInterleavingIsSerial(start: State, w: seq<Action>, period: uint64) returns (u: seq<Action>)
    requires ValidState(start) && start.phase == Idle && Executable(start, w, period)
    requires forall i :: 0 <= i < |w| ==> w[i] != Cycle
    requires Exec(start, w, period).phase == Idle
    ensures IsSerial(u) && Executable(start, u, period) && Exec(start, u, period) == Exec(start, w, period)
    ensures Select(u, true) == Select(w, true) && Select(u, false) == ScansOf(start, w, period)
  {
    var o := Order([], []);
    assert Executable(start, [], period) && Exec(start, [], period) == start && AllSwaps([]);
    EveryPrefixExplained(start, o, start, w, period);
    u := PlaceAll(start, o, w, period).done;
    OrdersFromStart(start, w, period);
    PlaceAllIsSerial(start, o, w, period);
  }

  lemma OrdersFromStart(start: State, w: seq<Action>, period: uint64)
    requires ValidState(start) && start.phase == Idle && Executable(start, w, period)
    ensures var q := PlaceAll(start, Order([], []), w, period);
      && (q.pending == [] ==> Select(q.done, true) == Select(w, true))
      && Select(q.done, false) == ScansOf(start, w, period)
  {
    var o := Order([], []);
    var q := PlaceAll(start, o, w, period);
    PlaceAllKeepsSwapOrder(start, o, w, period);
    PlaceAllKeepsScanOrder(start, o, w, period);
    assert o.done + o.pending == [] && Select([], true) == [] && Select([], false) == [];
    assert q.pending == [] ==> q.done + q.pending == q.done;
  }
}
