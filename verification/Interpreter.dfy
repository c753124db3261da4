/**
 The interpreter's objects: condition trees whose timers count in place, programs that
 write the process image rule by rule, and the runtime that swaps programs.  Each method
 is proved against the pure functions of module `Logic`.
 */
module Interpreter {
  import opened Wrappers
  import opened ProcessImage
  import opened Words
  import opened Logic
  import J = Json
  import Parser

  /** Which of the source's node classes an object is. */
  datatype Kind = INPUT | AND | OR | NOT | TON_TIMER

  class LogicNode {
    const kind: Kind
    const ref: SignalRef
    const inputs: seq<LogicNode>
    const preset: uint64
    const period: uint64
    var elapsed: uint64
    ghost const Repr: set<LogicNode>

    /** The children are owned: their subtrees are disjoint. */
    ghost predicate Valid()
      decreases Repr
    {
      && this in Repr
      && (kind == INPUT ==> inputs == [] && ref.byte + 1 < TWO_64)
      && (kind == NOT || kind == TON_TIMER ==> |inputs| == 1)
      && (forall i :: 0 <= i < |inputs| ==> inputs[i].Repr < Repr && this !in inputs[i].Repr && inputs[i].Valid())
      && (forall i, j :: 0 <= i < j < |inputs| ==> inputs[i].Repr !! inputs[j].Repr)
    }

    /** The tree and its counters as a value. */
    ghost function Tree(): Node
      requires Valid()
      reads Repr
      decreases Repr
    {
      match kind
      case INPUT => SignalNode(ref)
      case AND => AndNode(seq(|inputs|, i requires 0 <= i < |inputs| reads Repr => inputs[i].Tree()))
      case OR => OrNode(seq(|inputs|, i requires 0 <= i < |inputs| reads Repr => inputs[i].Tree()))
      case NOT => NotNode(inputs[0].Tree())
      case TON_TIMER => TonNode(inputs[0].Tree(), preset, period, elapsed)
    }

    ghost function InputTrees(): (trees: seq<Node>)
      requires Valid()
      reads Repr
      ensures |trees| == |inputs|
    {
      seq(|inputs|, i requires 0 <= i < |inputs| reads Repr => inputs[i].Tree())
    }

    constructor Signal(ref: SignalRef)
      requires ref.byte + 1 < TWO_64
      ensures Valid() && fresh(Repr) && Tree() == SignalNode(ref)
    {
      this.kind, this.ref, this.inputs, this.preset, this.period, this.elapsed := INPUT, ref, [], 0, 0, 0;
      this.Repr := {this};
    }

    constructor Combine(kind: Kind, inputs: seq<LogicNode>, preset: uint64, period: uint64)
      requires kind != INPUT && (kind == NOT || kind == TON_TIMER ==> |inputs| == 1)
      requires forall i :: 0 <= i < |inputs| ==> inputs[i].Valid()
      requires forall i, j :: 0 <= i < j < |inputs| ==> inputs[i].Repr !! inputs[j].Repr
      ensures Valid() && fresh(Repr - UnionRepr(inputs))
      ensures this.kind == kind && this.inputs == inputs
        && this.preset == preset && this.period == period && elapsed == 0
    {
      this.kind, this.inputs, this.preset, this.period, this.elapsed := kind, inputs, preset, period, 0;
      this.ref := SignalRef(Input, 0, 0);
      this.Repr := {this} + UnionRepr(inputs);
    }

    /** Evaluates the tree once.  A reference outside the image raises the map's error and leaves
        what is behind it unevaluated; otherwise the result and the new counters are those of
        `Val` and `Next`. */
    method Evaluate(mem: MemoryMap) returns (r: Result<bool, MemoryError>)
      requires Valid() && mem.Valid()
      modifies Repr
      ensures r.Success? <==> RefsInRange(old(Tree()))
      ensures Tree() == Attempted(old(Tree()), mem.Image())
      ensures r.Success? ==> r.value == Val(old(Tree()), mem.Image()) && Tree() == Next(old(Tree()), mem.Image())
      ensures mem.Image() == old(mem.Image())
      decreases Repr, 2
    {
      match kind {
        case INPUT =>
          r := mem.ReadBit(ref);
          assert Reads(Tree(), ref);
        case AND =>
          r := EvaluateAnd(mem);
        case OR =>
          r := EvaluateOr(mem);
        case NOT =>
          var input := EvaluateInput(0, mem);
          match input {
            case Failure(e) => r := Failure(e);
            case Success(value) => r := Success(!value);
          }
        case TON_TIMER =>
          var input := EvaluateInput(0, mem);
          match input {
            case Failure(e) => r := Failure(e);
            case Success(value) =>
              if !value {
                elapsed := 0;
                r := Success(false);
              } else {
                elapsed := (elapsed + 1) % TWO_64;
                r := Success((elapsed * period) % TWO_64 >= preset);
              }
          }
      }
    }

    /** One child; the counters of its siblings are out of its reach. */
    method EvaluateInput(i: nat, mem: MemoryMap) returns (r: Result<bool, MemoryError>)
      requires Valid() && mem.Valid() && i < |inputs|
      modifies inputs[i].Repr
      ensures r.Success? <==> RefsInRange(old(inputs[i].Tree()))
      ensures inputs[i].Tree() == Attempted(old(inputs[i].Tree()), mem.Image())
      ensures r.Success? ==> r.value == Val(old(inputs[i].Tree()), mem.Image())
      ensures r.Success? ==> inputs[i].Tree() == Next(old(inputs[i].Tree()), mem.Image())
      ensures forall j :: 0 <= j < |inputs| && j != i ==> inputs[j].Tree() == old(inputs[j].Tree())
      ensures mem.Image() == old(mem.Image())
      decreases Repr, 0
    {
      r := inputs[i].Evaluate(mem);
    }

    /** Every child is evaluated, whatever the earlier ones gave. */
    method EvaluateAnd(mem: MemoryMap) returns (r: Result<bool, MemoryError>)
      requires Valid() && mem.Valid() && kind == AND
      modifies Repr
      ensures r.Success? <==> RefsInRange(old(Tree()))
      ensures Tree() == Attempted(old(Tree()), mem.Image())
      ensures r.Success? ==> r.value == Val(old(Tree()), mem.Image()) && Tree() == Next(old(Tree()), mem.Image())
      ensures mem.Image() == old(mem.Image())
      decreases Repr, 1
    {
      ghost var trees, m := InputTrees(), mem.Image();
      var result := true;
      for i := 0 to |inputs|
        invariant mem.Image() == m
        invariant forall j :: 0 <= j < i ==> inputs[j].Tree() == Next(trees[j], m) && RefsInRange(trees[j])
        invariant forall j :: i <= j < |inputs| ==> inputs[j].Tree() == trees[j]
        invariant result == forall j :: 0 <= j < i ==> Val(trees[j], m)
      {
        var child := EvaluateInput(i, mem);
        if child.Failure? {
          StoppedInputs(AndNode(trees), i, m, InputTrees());
          return child;
        }
        result := child.value && result;
      }
      EvaluatedInputs(AndNode(trees), m, InputTrees());
      r := Success(result);
    }

    method EvaluateOr(mem: MemoryMap) returns (r: Result<bool, MemoryError>)
      requires Valid() && mem.Valid() && kind == OR
      modifies Repr
      ensures r.Success? <==> RefsInRange(old(Tree()))
      ensures Tree() == Attempted(old(Tree()), mem.Image())
      ensures r.Success? ==> r.value == Val(old(Tree()), mem.Image()) && Tree() == Next(old(Tree()), mem.Image())
      ensures mem.Image() == old(mem.Image())
      decreases Repr, 1
    {
      ghost var trees, m := InputTrees(), mem.Image();
      var result := false;
      for i := 0 to |inputs|
        invariant mem.Image() == m
        invariant forall j :: 0 <= j < i ==> inputs[j].Tree() == Next(trees[j], m) && RefsInRange(trees[j])
        invariant forall j :: i <= j < |inputs| ==> inputs[j].Tree() == trees[j]
        invariant result == exists j :: 0 <= j < i && Val(trees[j], m)
      {
        var child := EvaluateInput(i, mem);
        if child.Failure? {
          StoppedInputs(OrNode(trees), i, m, InputTrees());
          return child;
        }
        result := child.value || result;
      }
      EvaluatedInputs(OrNode(trees), m, InputTrees());
      r := Success(result);
    }
  }

  ghost function UnionRepr(nodes: seq<LogicNode>): set<LogicNode> {
    set i, o | 0 <= i < |nodes| && o in nodes[i].Repr :: o
  }

  lemma UnionReprAppend(nodes: seq<LogicNode>, node: LogicNode)
    ensures UnionRepr(nodes + [node]) == UnionRepr(nodes) + node.Repr
  {
    var more := nodes + [node];
    forall o | o in UnionRepr(nodes) + node.Repr ensures o in UnionRepr(more) {
      if o in node.Repr {
        assert o in more[|nodes|].Repr;
      } else {
        var i :| 0 <= i < |nodes| && o in nodes[i].Repr;
        assert o in more[i].Repr;
      }
    }
  }

  // ---------- building trees ----------

  /** Allocates the tree a parsed condition describes. */
  method Build(n: Node, ghost period: uint64) returns (node: LogicNode)
    requires Parser.WellFormed(n, period)
    ensures node.Valid() && fresh(node.Repr) && node.Tree() == n
    decreases n
  {
    if n.SignalNode? {
      node := new LogicNode.Signal(n.ref);
    } else if n.AndNode? || n.OrNode? {
      var nodes := BuildInputs(n.inputs, period);
      node := new LogicNode.Combine(if n.AndNode? then AND else OR, nodes, 0, 0);
      assert node.InputTrees() == n.inputs;
    } else if n.NotNode? {
      var child := Build(n.input, period);
      node := new LogicNode.Combine(NOT, [child], 0, 0);
    } else {
      var child := Build(n.input, period);
      node := new LogicNode.Combine(TON_TIMER, [child], n.preset, n.period);
    }
  }

  method BuildInputs(inputs: seq<Node>, ghost period: uint64) returns (nodes: seq<LogicNode>)
    requires forall i :: 0 <= i < |inputs| ==> Parser.WellFormed(inputs[i], period)
    ensures |nodes| == |inputs| && fresh(UnionRepr(nodes))
    ensures forall i :: 0 <= i < |nodes| ==> nodes[i].Valid() && nodes[i].Tree() == inputs[i]
    ensures forall i, j :: 0 <= i < j < |nodes| ==> nodes[i].Repr !! nodes[j].Repr
    decreases inputs
  {
    nodes := [];
    for i := 0 to |inputs|
      invariant |nodes| == i && fresh(UnionRepr(nodes))
      invariant forall j :: 0 <= j < i ==> nodes[j].Valid() && nodes[j].Tree() == inputs[j]
      invariant forall j, k :: 0 <= j < k < i ==> nodes[j].Repr !! nodes[k].Repr
    {
      var node := Build(inputs[i], period);
      UnionReprAppend(nodes, node);
      nodes := nodes + [node];
    }
  }

  // ---------- programs ----------

  datatype RuleObject = RuleObject(id: string, output: SignalRef, condition: LogicNode)

  /** A rule that cannot make the map raise an error. */
  ghost predicate SafeRule(rule: Rule) {
    InRange(rule.out) && RefsInRange(rule.condition)
  }

  /** Rule `r` is the first that makes the map raise an error. */
  ghost predicate StoppedAt(rules: seq<Rule>, r: nat) {
    r < |rules| && !SafeRule(rules[r]) && forall s :: 0 <= s < r ==> SafeRule(rules[s])
  }

  /** A scan in front of rule `r`: all rules before it were safe and have run. */
  ghost predicate Midway(was: seq<Rule>, m: Image, r: nat, now: seq<Rule>, image: Image) {
    && r <= |was| && (forall s :: 0 <= s < r ==> SafeRule(was[s]))
    && image == After(was[..r], m) && now == Partly(was, m, r)
  }

  /** The rules after a scan that stopped at rule `r`. */
  ghost function StoppedRules(rules: seq<Rule>, r: nat, m: Image): (stopped: seq<Rule>)
    requires r < |rules|
    ensures |stopped| == |rules|
  {
    Partly(rules, m, r)[r := rules[r].(condition := Attempted(rules[r].condition, After(rules[..r], m)))]
  }

  /** A scan stopped at the first rule that makes the map raise an error: the rules in front of
      it have written and ticked, the timers of that rule have ticked up to the error, the
      rules behind it have not been reached. */
  ghost predicate StoppedScan(was: seq<Rule>, now: seq<Rule>, m: Image, image: Image) {
    exists r: nat :: StoppedAt(was, r) && image == After(was[..r], m) && now == StoppedRules(was, r, m)
  }

  /** What a scan leaves: without an error, which takes all rules to be safe, it has run them all. */
  ghost predicate ScanResult(was: seq<Rule>, m: Image, ok: bool, now: seq<Rule>, image: Image) {
    if ok then
      && (forall r :: 0 <= r < |was| ==> SafeRule(was[r]))
      && image == After(was, m) && now == Ticked(was, m)
    else
      StoppedScan(was, now, m, image)
  }

  lemma MidwayEnds(was: seq<Rule>, m: Image)
    ensures Midway(was, m, 0, was, m)
    ensures forall now, image :: Midway(was, m, |was|, now, image) ==> ScanResult(was, m, true, now, image)
  {
    assert was[..|was|] == was;
  }

  lemma SafeScanSucceeds(was: seq<Rule>, m: Image, ok: bool, now: seq<Rule>, image: Image)
    requires ScanResult(was, m, ok, now, image)
    ensures ok <==> forall r :: 0 <= r < |was| ==> SafeRule(was[r])
  {
    if !ok {
      var r: nat :| StoppedAt(was, r) && image == After(was[..r], m) && now == StoppedRules(was, r, m);
    }
  }

  class LogicProgram {
    const rules: seq<RuleObject>

    ghost predicate Valid() {
      && (forall r :: 0 <= r < |rules| ==> rules[r].condition.Valid() && rules[r].output.byte + 1 < TWO_64)
      && (forall r, s :: 0 <= r < s < |rules| ==> rules[r].condition.Repr !! rules[s].condition.Repr)
    }

    ghost function Footprint(): set<LogicNode> {
      set r, o | 0 <= r < |rules| && o in rules[r].condition.Repr :: o
    }

    /** The rules and their counters as values. */
    ghost function Rules(): (values: seq<Rule>)
      requires Valid()
      reads Footprint()
      ensures |values| == |rules|
    {
      seq(|rules|, r requires 0 <= r < |rules| reads Footprint() =>
        Rule(rules[r].id, rules[r].output, rules[r].condition.Tree()))
    }

    constructor (rules: seq<RuleObject>)
      requires forall r :: 0 <= r < |rules| ==> rules[r].condition.Valid() && rules[r].output.byte + 1 < TWO_64
      requires forall r, s :: 0 <= r < s < |rules| ==> rules[r].condition.Repr !! rules[s].condition.Repr
      ensures Valid() && this.rules == rules
    {
      this.rules := rules;
    }

    /** One rule: evaluate the condition, write the output bit. */
    method ExecuteRule(r: nat, mem: MemoryMap) returns (ok: Result<(), MemoryError>)
      requires Valid() && mem.Valid() && r < |rules|
      modifies rules[r].condition.Repr, mem.input, mem.output, mem.memory
      ensures ok.Success? <==> SafeRule(old(Rules())[r])
      ensures ok.Success? ==> var rule, m := old(Rules())[r], old(mem.Image());
        && mem.Image() == Write(m, rule.out, Val(rule.condition, m))
        && Rules() == old(Rules())[r := rule.(condition := Next(rule.condition, m))]
      ensures ok.Failure? ==> var rule, m := old(Rules())[r], old(mem.Image());
        && mem.Image() == m
        && Rules() == old(Rules())[r := rule.(condition := Attempted(rule.condition, m))]
    {
      var result := rules[r].condition.Evaluate(mem);
      match result {
        case Failure(e) =>
          ok := Failure(e);
        case Success(value) =>
          AttemptSucceeds(old(rules[r].condition.Tree()), mem.Image());
          ok := mem.WriteBit(rules[r].output, value);
      }
    }

    /** The next rule of a scan that began with the rules `was` on the image `m`. */
    method ExecuteNext(r: nat, mem: MemoryMap, ghost was: seq<Rule>, ghost m: Image)
      returns (ok: Result<(), MemoryError>)
      requires Valid() && mem.Valid() && r < |rules| == |was|
      requires Midway(was, m, r, Rules(), mem.Image())
      modifies rules[r].condition.Repr, mem.input, mem.output, mem.memory
      ensures ok.Success? ==> Midway(was, m, r + 1, Rules(), mem.Image())
      ensures ok.Failure? ==> ScanResult(was, m, false, Rules(), mem.Image())
    {
      AfterStep(was, m, r);
      PartlyStep(was, m, r);
      ok := ExecuteRule(r, mem);
      if ok.Failure? {
        assert StoppedAt(was, r);
      }
    }

    /** Runs the rules top to bottom; an error stops the scan. */
    method Execute(mem: MemoryMap) returns (ok: Result<(), MemoryError>)
      requires Valid() && mem.Valid()
      modifies Footprint(), mem.input, mem.output, mem.memory
      ensures ScanResult(old(Rules()), old(mem.Image()), ok.Success?, Rules(), mem.Image())
    {
      ghost var was, m := Rules(), mem.Image();
      MidwayEnds(was, m);
      for r := 0 to |rules|
        invariant Midway(was, m, r, Rules(), mem.Image())
      {
        var step := ExecuteNext(r, mem, was, m);
        if step.Failure? {
          return step;
        }
      }
      ok := Success(());
    }
  }

  method BuildRules(rules: seq<Rule>, ghost period: uint64) returns (objects: seq<RuleObject>)
    requires Parser.WellFormedProgram(rules, period)
    ensures |objects| == |rules|
    ensures forall r :: 0 <= r < |rules| ==>
      && objects[r].id == rules[r].id && objects[r].output == rules[r].out
      && objects[r].condition.Valid() && fresh(objects[r].condition.Repr)
      && objects[r].condition.Tree() == rules[r].condition
    ensures forall r, s :: 0 <= r < s < |rules| ==> objects[r].condition.Repr !! objects[s].condition.Repr
  {
    objects := [];
    for r := 0 to |rules|
      invariant |objects| == r
      invariant forall s :: 0 <= s < r ==>
        && objects[s].id == rules[s].id && objects[s].output == rules[s].out
        && objects[s].condition.Valid() && fresh(objects[s].condition.Repr)
        && objects[s].condition.Tree() == rules[s].condition
      invariant forall s, t :: 0 <= s < t < r ==> objects[s].condition.Repr !! objects[t].condition.Repr
    {
      var condition := Build(rules[r].condition, period);
      objects := objects + [RuleObject(rules[r].id, rules[r].out, condition)];
    }
  }

  /** `LogicProgram::from_json`: parses the document and allocates the program. */
  method FromJson(doc: J.Json, period: uint64) returns (program: Option<LogicProgram>)
    ensures program.Some? <==> Parser.FromJson(doc, period).Some?
    ensures program.Some? ==> fresh(program.value) && program.value.Valid() && fresh(program.value.Footprint())
    ensures program.Some? ==> Some(program.value.Rules()) == Parser.FromJson(doc, period)
  {
    var parsed := Parser.FromJson(doc, period);
    if parsed == None {
      return None;
    }
    Parser.ParserExact(doc, period, parsed.value);
    var objects := BuildRules(parsed.value, period);
    var result := new LogicProgram(objects);
    assert result.Rules() == parsed.value;
    program := Some(result);
  }

  // ---------- the runtime ----------

  /** The holder of the running program.  Each method here runs without interruption; module
      `HotSwap` treats the interleavings. */
  class LogicRuntime {
    const period: uint64
    var current: LogicProgram?

    constructor (period: uint64, initial: LogicProgram?)
      ensures this.period == period && current == initial
    {
      this.period, this.current := period, initial;
    }

    /** One cycle of the current program, or nothing when none is loaded. */
    method ExecuteCycle(mem: MemoryMap) returns (ok: Result<(), MemoryError>)
      requires mem.Valid() && (current != null ==> current.Valid())
      modifies if current != null then current.Footprint() else {}, mem.input, mem.output, mem.memory
      ensures current == null ==> ok.Success? && mem.Image() == old(mem.Image())
      ensures current != null ==>
        ScanResult(old(current.Rules()), old(mem.Image()), ok.Success?, current.Rules(), mem.Image())
    {
      ok := Success(());
      var local := current;
      if local != null {
        ok := local.Execute(mem);
      }
    }

    /** Swaps in a program as it is: its timers start at zero only if the object's counters are. */
    method Reload(program: LogicProgram?)
      requires program != null ==> program.Valid()
      modifies this
      ensures current == program
      ensures program != null ==> current.Rules() == old(program.Rules())
      ensures program != null ==> (Zeroed(current.Rules()) <==> Zeroed(old(program.Rules())))
    {
      current := program;
    }

    /** Parses first and swaps only on success; a rejected document changes nothing. */
    method ReloadFromJson(doc: J.Json) returns (program: Option<LogicProgram>)
      modifies this
      ensures program.Some? <==> Parser.FromJson(doc, period).Some?
      ensures program == None ==> current == old(current)
      ensures program.Some? ==> current == program.value
      ensures program.Some? ==> fresh(current) && current.Valid() && fresh(current.Footprint())
      ensures program.Some? ==> Some(current.Rules()) == Parser.FromJson(doc, period) && Zeroed(current.Rules())
    {
      program := FromJson(doc, period);
      if program.Some? {
        Parser.AcceptedIsSafe(doc, period);
        Reload(program.value);
      }
    }
  }
}
