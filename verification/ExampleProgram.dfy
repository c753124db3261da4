/**
 The example document that ships with the program, from its text to what it does: parsed,
 deployed and run, its three outputs follow the inputs as an operator would say it.
 */
module ExampleProgram {
  import opened Wrappers
  import opened ProcessImage
  import opened Words
  import opened Logic
  import opened History
  import opened Runs
  import opened Scan
  import Parser
  import Simultaneous
  import J = Json

  function Signal(area: string, byte: nat, bit: nat): map<string, J.Json>
    requires byte <= 1024 && bit < 8
  {
    map["area" := J.String(area), "byte" := J.Int(byte), "bit" := J.Int(bit)]
  }

  function InputNode(byte: nat, bit: nat): J.Json
    requires byte < 1024 && bit < 8
  {
    J.Object(Signal("I", byte, bit)["type" := J.String("INPUT")])
  }

  const PASSTHROUGH := J.Object(map[
    "id" := J.String("passthrough"),
    "output" := J.Object(Signal("Q", 0, 0)),
    "condition" := InputNode(0, 0)])

  const AND_GATE := J.Object(map[
    "id" := J.String("and_gate"),
    "output" := J.Object(Signal("Q", 0, 1)),
    "condition" := J.Object(map[
      "type" := J.String("AND"),
      "inputs" := J.Array([InputNode(0, 0), InputNode(0, 1)])])])

  const CONVEYOR_TIMER := J.Object(map[
    "id" := J.String("conveyor_timer"),
    "output" := J.Object(Signal("Q", 0, 2)),
    "condition" := J.Object(map[
      "type" := J.String("TON_TIMER"),
      "preset_ms" := J.Int(100),
      "input" := InputNode(0, 2)])])

  const ELEMENTS := [PASSTHROUGH, AND_GATE, CONVEYOR_TIMER]

  const DOCUMENT := J.Object(map["version" := J.Int(1), "rules" := J.Array(ELEMENTS)])

  const I0 := SignalRef(Area.Input, 0, 0)
  const I1 := SignalRef(Area.Input, 0, 1)
  const I2 := SignalRef(Area.Input, 0, 2)
  const Q0 := SignalRef(Area.Output, 0, 0)
  const Q1 := SignalRef(Area.Output, 0, 1)
  const Q2 := SignalRef(Area.Output, 0, 2)

  const PERIOD: uint64 := 20

  const RULES := [
    Rule("passthrough", Q0, SignalNode(I0)),
    Rule("and_gate", Q1, AndNode([SignalNode(I0), SignalNode(I1)])),
    Rule("conveyor_timer", Q2, TonNode(SignalNode(I2), 100, PERIOD, 0))]

  // ---------- parsing ----------

  lemma InputParses(bit: nat)
    requires bit < 8
    ensures Parser.ParseCondition(InputNode(0, bit), PERIOD) == Some(SignalNode(SignalRef(Area.Input, 0, bit)))
  {
  }

  lemma OutputParses(bit: nat)
    requires bit < 8
    ensures Parser.ParseSignalRef(J.Object(Signal("Q", 0, bit)), false) == Some(SignalRef(Area.Output, 0, bit))
  {
  }

  lemma InputsParse()
    ensures Parser.ParseInputs([InputNode(0, 0), InputNode(0, 1)], PERIOD) == Some([SignalNode(I0), SignalNode(I1)])
  {
    var elems := [InputNode(0, 0), InputNode(0, 1)];
    var parsed := Parser.ParseInputs(elems, PERIOD);
    InputParses(0);
    InputParses(1);
    forall i | 0 <= i < 2 ensures Parser.ParseCondition(elems[i], PERIOD).Some? {
      assert elems[i] == InputNode(0, i);
    }
    assert Some(parsed.value[0]) == Parser.ParseCondition(elems[0], PERIOD);
    assert Some(parsed.value[1]) == Parser.ParseCondition(elems[1], PERIOD);
    assert parsed.value == [SignalNode(I0), SignalNode(I1)];
  }

  lemma PassthroughParses(index: nat)
    ensures Parser.ParseRule(PASSTHROUGH, index, PERIOD) == Some(RULES[0])
  {
    InputParses(0);
    OutputParses(0);
  }

  lemma AndGateParses(index: nat)
    ensures Parser.ParseRule(AND_GATE, index, PERIOD) == Some(RULES[1])
  {
    InputsParse();
    OutputParses(1);
  }

  lemma ConveyorTimerParses(index: nat)
    ensures Parser.ParseRule(CONVEYOR_TIMER, index, PERIOD) == Some(RULES[2])
  {
    InputParses(2);
    OutputParses(2);
  }

  lemma ThreeRulesParse(e0: J.Json, e1: J.Json, e2: J.Json, r0: Rule, r1: Rule, r2: Rule)
    requires Parser.ParseRule(e0, 0, PERIOD) == Some(r0)
    requires Parser.ParseRule(e1, 1, PERIOD) == Some(r1)
    requires Parser.ParseRule(e2, 2, PERIOD) == Some(r2)
    ensures Parser.ParseRules([e0, e1, e2], PERIOD) == Some([r0, r1, r2])
  {
    var elems := [e0, e1, e2];
    var parsed := Parser.ParseRules(elems, PERIOD);
    assert parsed.Some? && parsed.value == [r0, r1, r2];
  }

  lemma ElementsParse()
    ensures Parser.ParseRules(ELEMENTS, PERIOD) == Some(RULES)
  {
    PassthroughParses(0);
    AndGateParses(1);
    ConveyorTimerParses(2);
    ThreeRulesParse(PASSTHROUGH, AND_GATE, CONVEYOR_TIMER, RULES[0], RULES[1], RULES[2]);
  }

  /** The document is the program of three rules it looks like. */
  lemma DocumentParses()
    ensures Parser.FromJson(DOCUMENT, PERIOD) == Some(RULES)
  {
    ElementsParse();
  }

  /** A rule without an identifier is called by its place. */
  lemma UnnamedRule()
    ensures Parser.ParseRule(J.Object(PASSTHROUGH.fields - {"id"}), 107, PERIOD)
         == Some(RULES[0].(id := "rules[107]"))
  {
    InputParses(0);
    OutputParses(0);
    assert Parser.Decimal(1) == "1" && Parser.Decimal(0) == "0" && Parser.Decimal(7) == "7";
    assert Parser.Decimal(10) == Parser.Decimal(1) + Parser.Decimal(0);
    assert Parser.Decimal(107) == Parser.Decimal(10) + Parser.Decimal(7);
    assert Parser.DefaultId(107) == "rules[107]";
  }

  /** The other words of the schema: OR and NOT around AND, the memory area, and a remote node,
      which no reference may name. */
  lemma OtherWordsParse()
    ensures Parser.ParseCondition(J.Object(map["type" := J.String("NOT"), "input" := InputNode(0, 2)]), PERIOD)
         == Some(NotNode(SignalNode(I2)))
    ensures Parser.ParseCondition(
              J.Object(map["type" := J.String("OR"), "inputs" := J.Array([InputNode(0, 0), InputNode(0, 1)])]), PERIOD)
         == Some(OrNode([SignalNode(I0), SignalNode(I1)]))
    ensures Parser.ParseSignalRef(J.Object(Signal("M", 3, 7)), false) == Some(SignalRef(Area.Memory, 3, 7))
    ensures Parser.ParseSignalRef(J.Object(Signal("I", 3, 7)), false) == None
    ensures Parser.ParseSignalRef(J.Object(Signal("I", 3, 7)["node" := J.String("a1")]), true) == None
  {
    InputParses(2);
    InputsParse();
  }

  /** The last byte of each area is accepted, the next one is not. */
  lemma AreasEnd()
    ensures Parser.ParseSignalRef(J.Object(Signal("I", 511, 7)), true).Some?
    ensures Parser.ParseSignalRef(J.Object(Signal("I", 512, 0)), true) == None
    ensures Parser.ParseSignalRef(J.Object(Signal("Q", 511, 7)), false).Some?
    ensures Parser.ParseSignalRef(J.Object(Signal("Q", 512, 0)), false) == None
    ensures Parser.ParseSignalRef(J.Object(Signal("M", 1023, 7)), false).Some?
    ensures Parser.ParseSignalRef(J.Object(Signal("M", 1024, 0)), false) == None
  {
  }

  // ---------- running ----------

  lemma RulesMeaningful(cycles: nat)
    requires cycles * PERIOD < TWO_64
    ensures Meaningful(RULES, cycles)
  {
    forall r | 0 <= r < 3
      ensures PeriodsPositive(RULES[r].condition) && TimersFit(RULES[r].condition, cycles)
      ensures RULES[r].condition == Reset(RULES[r].condition)
    {
      if r == 1 {
        assert Reset(RULES[1].condition).inputs == RULES[1].condition.inputs;
      }
    }
  }

  /** No rule writes an input, so every rule sees the inputs of the scan. */
  lemma {:induction false} InputsSeen(start: Image, inputs: seq<Image>, n: nat, r: nat, ref: SignalRef)
    requires n < |inputs| && r <= 3 && Meaningful(RULES, |inputs|) && ref.area == Input
    ensures ref in Before(RULES, start, inputs, n, r) <==> ref in inputs[n]
  {
    if r > 0 {
      BeforeStep(RULES, start, inputs, n, r - 1);
      InputsSeen(start, inputs, n, r - 1, ref);
    }
  }

  /** What an output holds after a scan: its rule's condition on the history of that rule. */
  lemma OutputHolds(start: Image, inputs: seq<Image>, n: nat, r: nat)
    requires n < |inputs| && r < 3 && Meaningful(RULES, |inputs|)
    ensures RULES[r].out in Before(RULES, start, inputs, n, 3)
       <==> Holds(RULES[r].condition, RuleHistory(RULES, start, inputs, n + 1, r))
  {
    BeforeStep(RULES, start, inputs, n, r);
    if r < 2 {
      BeforeStep(RULES, start, inputs, n, r + 1);
    }
    if r < 1 {
      BeforeStep(RULES, start, inputs, n, r + 2);
    }
  }

  lemma SeenInHistory(start: Image, inputs: seq<Image>, n: nat, r: nat, ref: SignalRef)
    requires n <= |inputs| && r < 3 && Meaningful(RULES, |inputs|) && ref.area == Input
    ensures forall j :: 0 < j <= n ==>
      (Holds(SignalNode(ref), RuleHistory(RULES, start, inputs, n, r)[..j]) <==> ref in inputs[j - 1])
  {
    forall j | 0 < j <= n
      ensures Holds(SignalNode(ref), RuleHistory(RULES, start, inputs, n, r)[..j]) <==> ref in inputs[j - 1]
    {
      InputsSeen(start, inputs, j - 1, r, ref);
    }
  }

  /** What the operator sees after scan `n` of the loaded inputs. */
  lemma OutputsFollow(start: Image, inputs: seq<Image>, n: nat)
    requires 0 < n <= |inputs| && Meaningful(RULES, |inputs|)
    ensures var image := Before(RULES, start, inputs, n - 1, 3);
      && (Q0 in image <==> I0 in inputs[n - 1])
      && (Q1 in image <==> I0 in inputs[n - 1] && I1 in inputs[n - 1])
      && (Q2 in image <==> n >= 5 && forall j :: n - 5 <= j < n ==> I2 in inputs[j])
  {
    PassthroughFollows(start, inputs, n);
    AndGateFollows(start, inputs, n);
    ConveyorTimerFollows(start, inputs, n);
  }

  lemma PassthroughFollows(start: Image, inputs: seq<Image>, n: nat)
    requires 0 < n <= |inputs| && Meaningful(RULES, |inputs|)
    ensures Q0 in Before(RULES, start, inputs, n - 1, 3) <==> I0 in inputs[n - 1]
  {
    var h := RuleHistory(RULES, start, inputs, n, 0);
    OutputHolds(start, inputs, n - 1, 0);
    SeenInHistory(start, inputs, n, 0, I0);
    assert h[..n] == h;
  }

  lemma AndGateFollows(start: Image, inputs: seq<Image>, n: nat)
    requires 0 < n <= |inputs| && Meaningful(RULES, |inputs|)
    ensures Q1 in Before(RULES, start, inputs, n - 1, 3) <==> I0 in inputs[n - 1] && I1 in inputs[n - 1]
  {
    var h := RuleHistory(RULES, start, inputs, n, 1);
    OutputHolds(start, inputs, n - 1, 1);
    SeenInHistory(start, inputs, n, 1, I0);
    SeenInHistory(start, inputs, n, 1, I1);
    assert h[..n] == h;
    BothHold(I0, I1, h);
  }

  lemma BothHold(a: SignalRef, b: SignalRef, h: seq<Image>)
    requires h != []
    ensures Holds(AndNode([SignalNode(a), SignalNode(b)]), h) <==> Holds(SignalNode(a), h) && Holds(SignalNode(b), h)
  {
    var inputs := [SignalNode(a), SignalNode(b)];
    assert Holds(AndNode(inputs), h) <==> Holds(inputs[0], h) && Holds(inputs[1], h);
  }

  lemma ConveyorTimerFollows(start: Image, inputs: seq<Image>, n: nat)
    requires 0 < n <= |inputs| && Meaningful(RULES, |inputs|)
    ensures Q2 in Before(RULES, start, inputs, n - 1, 3)
       <==> n >= 5 && forall j :: n - 5 <= j < n ==> I2 in inputs[j]
  {
    var h := RuleHistory(RULES, start, inputs, n, 2);
    OutputHolds(start, inputs, n - 1, 2);
    SeenInHistory(start, inputs, n, 2, I2);
    assert Threshold(100, PERIOD) == 5;
    if Holds(RULES[2].condition, h) {
      forall j | n - 5 <= j < n ensures I2 in inputs[j] {
        assert Holds(SignalNode(I2), h[..j + 1]);
      }
    }
  }

  /** From the text of the document to the outputs: after it is deployed, in every run and after
      every scan, %Q0.0 is %I0.0, %Q0.1 is the conjunction of %I0.0 and %I0.1, and %Q0.2 is on
      exactly when %I0.2 has been on in each of the last five scans. */
  lemma ExampleFollowsInputs(was: System, script: seq<seq<Event>>, states: seq<System>, n: nat)
    requires OnlyInputs(script) && IsRun(Handled(was, Deploy(DOCUMENT), PERIOD), script, states, PERIOD)
    requires 0 < n < |states| && |script| * PERIOD < TWO_64
    ensures var inputs, image := LoadedInputs(script, states, PERIOD), states[n].image;
      && (Q0 in image <==> I0 in inputs[n - 1])
      && (Q1 in image <==> I0 in inputs[n - 1] && I1 in inputs[n - 1])
      && (Q2 in image <==> n >= 5 && forall j :: n - 5 <= j < n ==> I2 in inputs[j])
  {
    DocumentParses();
    RulesMeaningful(|script|);
    DeployedDocumentMeetsHistory(was, DOCUMENT, script, states, PERIOD, n);
    OutputsFollow(was.image, LoadedInputs(script, states, PERIOD), n);
  }

  /** The rules read inputs alone, so one scan solves their equations at once, in any order. */
  lemma RulesLayered(m: Image)
    ensures Simultaneous.Layered(RULES) && Simultaneous.Solves(RULES, After(RULES, m))
  {
    forall i, s | 0 <= i < 3 && Reads(RULES[i].condition, s) ensures s.area == Area.Input {
      ReadsInputs(i, s);
    }
    Simultaneous.ScanSolves(RULES, m);
  }

  lemma ReadsInputs(i: nat, s: SignalRef)
    requires i < 3 && Reads(RULES[i].condition, s)
    ensures s.area == Area.Input
  {
    if i == 1 {
      var inputs := RULES[1].condition.inputs;
      var k :| 0 <= k < |inputs| && Reads(inputs[k], s);
      assert inputs[k] == if k == 0 then SignalNode(I0) else SignalNode(I1);
    }
  }
}
