/**
 The parser from JSON documents to rule lists, and its exactness: it accepts a document as
 a program if and only if the document says what the program's canonical document says.
 */
module Parser {
  import opened Wrappers
  import opened ProcessImage
  import opened Words
  import opened Logic
  import opened History
  import J = Json
  type Json = J.Json

  // ---------- parsing ----------

  function ParseArea(s: string): Option<Area> {
    if s == "I" then Some(Input)
    else if s == "Q" then Some(Output)
    else if s == "M" then Some(Memory)
    else None
  }

  /** A reference that names a remote node is rejected whether or not the name is well formed. */
  function ParseSignalRef(j: Json, allowInputArea: bool): Option<SignalRef> {
    if !j.Object? || "node" in j.fields then None
    else
      match J.RequireString(j, "area")
      case None => None
      case Some(name) =>
        match ParseArea(name)
        case None => None
        case Some(area) =>
          if !allowInputArea && area == Input then None
          else
            match J.RequireInt(j, "byte")
            case None => None
            case Some(byte) =>
              if byte < 0 || byte >= AreaSize(area) then None
              else
                match J.RequireInt(j, "bit")
                case None => None
                case Some(bit) => if bit < 0 || bit > 7 then None else Some(SignalRef(area, byte, bit))
  }

  function ParseCondition(j: Json, period: uint64): (n: Option<Node>)
    decreases j, 1
  {
    if !j.Object? then None
    else
      match J.RequireString(j, "type")
      case None => None
      case Some(kind) =>
        if kind == "INPUT" then
          match ParseSignalRef(j, true)
          case None => None
          case Some(ref) => Some(SignalNode(ref))
        else if kind == "AND" then
          match ParseCombinator(j, period)
          case None => None
          case Some(inputs) => Some(AndNode(inputs))
        else if kind == "OR" then
          match ParseCombinator(j, period)
          case None => None
          case Some(inputs) => Some(OrNode(inputs))
        else if kind == "NOT" then
          if "input" !in j.fields then None
          else
            match ParseCondition(j.fields["input"], period)
            case None => None
            case Some(input) => Some(NotNode(input))
        else if kind == "TON_TIMER" then
          if "input" !in j.fields then None
          else
            match ParseCondition(j.fields["input"], period)
            case None => None
            case Some(input) =>
              match J.RequireInt(j, "preset_ms")
              case None => None
              case Some(preset) => if preset < 0 then None else Some(TonNode(input, preset, period, 0))
        else None
  }

  function ParseCombinator(j: Json, period: uint64): (inputs: Option<seq<Node>>)
    requires j.Object?
    decreases j, 0
  {
    if "inputs" !in j.fields then None
    else
      var field := j.fields["inputs"];
      if !field.Array? || field.elems == [] then None else ParseInputs(field.elems, period)
  }

  /** The loop over the children; it fails as soon as one of them does. */
  function ParseInputs(elems: seq<Json>, period: uint64): (inputs: Option<seq<Node>>)
    ensures inputs.Some? <==> forall i :: 0 <= i < |elems| ==> ParseCondition(elems[i], period).Some?
    ensures inputs.Some? ==> |inputs.value| == |elems|
    ensures inputs.Some? ==> forall i :: 0 <= i < |elems| ==> ParseCondition(elems[i], period) == Some(inputs.value[i])
    decreases elems, 0
  {
    if elems == [] then Some([])
    else
      match ParseCondition(elems[0], period)
      case None => None
      case Some(first) =>
        match ParseInputs(elems[1..], period)
        case None => assert forall i :: 0 <= i < |elems| - 1 ==> elems[1..][i] == elems[i + 1]; None
        case Some(rest) => Some([first] + rest)
  }

  function Decimal(n: nat): string {
    if n < 10 then [('0' as int + n) as char] else Decimal(n / 10) + Decimal(n % 10)
  }

  /** The identifier of a rule that names none. */
  function DefaultId(index: nat): string {
    "rules[" + Decimal(index) + "]"
  }

  function ParseRule(j: Json, index: nat, period: uint64): Option<Rule> {
    if !j.Object? then None
    else
      match if "id" in j.fields then J.RequireString(j, "id") else Some(DefaultId(index))
      case None => None
      case Some(id) =>
        if "output" !in j.fields then None
        else
          match ParseSignalRef(j.fields["output"], false)
          case None => None
          case Some(out) =>
            if "condition" !in j.fields then None
            else
              match ParseCondition(j.fields["condition"], period)
              case None => None
              case Some(condition) => Some(Rule(id, out, condition))
  }

  function ParseRules(elems: seq<Json>, period: uint64): (rules: Option<seq<Rule>>)
    ensures rules.Some? <==> forall i :: 0 <= i < |elems| ==> ParseRule(elems[i], i, period).Some?
    ensures rules.Some? ==> |rules.value| == |elems|
    ensures rules.Some? ==> forall i :: 0 <= i < |elems| ==> ParseRule(elems[i], i, period) == Some(rules.value[i])
  {
    if elems == [] then Some([])
    else
      var last := |elems| - 1;
      match ParseRules(elems[..last], period)
      case None => None
      case Some(rest) =>
        match ParseRule(elems[last], last, period)
        case None => None
        case Some(rule) => Some(rest + [rule])
  }

  function FromJson(doc: Json, period: uint64): Option<seq<Rule>> {
    if !doc.Object? || "rules" !in doc.fields || !doc.fields["rules"].Array? then None
    else ParseRules(doc.fields["rules"].elems, period)
  }

  // ---------- what a program's document says ----------

  function AreaName(area: Area): string {
    match area
    case Input => "I"
    case Output => "Q"
    case Memory => "M"
  }

  function SignalFields(ref: SignalRef): map<string, Json>
    requires InRange(ref)
  {
    map["area" := J.String(AreaName(ref.area)), "byte" := J.Int(ref.byte), "bit" := J.Int(ref.bit)]
  }

  /** What the parser makes: references in range, combinators non-empty, counters at zero. */
  ghost predicate WellFormed(n: Node, period: uint64) {
    match n
    case SignalNode(ref) => InRange(ref)
    case AndNode(inputs) => inputs != [] && forall i :: 0 <= i < |inputs| ==> WellFormed(inputs[i], period)
    case OrNode(inputs) => inputs != [] && forall i :: 0 <= i < |inputs| ==> WellFormed(inputs[i], period)
    case NotNode(input) => WellFormed(input, period)
    case TonNode(input, preset, p, elapsed) =>
      WellFormed(input, period) && preset < 0x8000_0000_0000_0000 && p == period && elapsed == 0
  }

  ghost predicate WellFormedRule(rule: Rule, period: uint64) {
    InRange(rule.out) && rule.out.area != Input && WellFormed(rule.condition, period)
  }

  ghost predicate WellFormedProgram(rules: seq<Rule>, period: uint64) {
    forall r :: 0 <= r < |rules| ==> WellFormedRule(rules[r], period)
  }

  ghost function CanonicalNode(n: Node, period: uint64): Json
    requires WellFormed(n, period)
  {
    match n
    case SignalNode(ref) => J.Object(SignalFields(ref)["type" := J.String("INPUT")])
    case AndNode(inputs) =>
      J.Object(map["type" := J.String("AND"),
                   "inputs" := J.Array(seq(|inputs|, i requires 0 <= i < |inputs| =>
                      CanonicalNode(inputs[i], period)))])
    case OrNode(inputs) =>
      J.Object(map["type" := J.String("OR"),
                   "inputs" := J.Array(seq(|inputs|, i requires 0 <= i < |inputs| =>
                      CanonicalNode(inputs[i], period)))])
    case NotNode(input) =>
      J.Object(map["type" := J.String("NOT"), "input" := CanonicalNode(input, period)])
    case TonNode(input, preset, _, _) =>
      J.Object(map["type" := J.String("TON_TIMER"),
                   "input" := CanonicalNode(input, period), "preset_ms" := J.Int(preset)])
  }

  ghost function CanonicalRule(rule: Rule, period: uint64): Json
    requires WellFormedRule(rule, period)
  {
    J.Object(map["id" := J.String(rule.id),
                 "output" := J.Object(SignalFields(rule.out)),
                 "condition" := CanonicalNode(rule.condition, period)])
  }

  ghost function CanonicalProgram(rules: seq<Rule>, period: uint64): Json
    requires WellFormedProgram(rules, period)
  {
    J.Object(map["rules" := J.Array(seq(|rules|, r requires 0 <= r < |rules| => CanonicalRule(rules[r], period)))])
  }

  /** `j` says everything `c` says and may say more, except that a signal reference may not
      name a remote node. */
  ghost predicate Says(j: Json, c: Json)
    decreases c
  {
    match c
    case Object(fields) =>
      && j.Object?
      && (forall key :: key in fields ==> key in j.fields && Says(j.fields[key], fields[key]))
      && ("area" in fields ==> "node" !in j.fields)
    case Array(elems) =>
      && j.Array? && |j.elems| == |elems|
      && forall i :: 0 <= i < |elems| ==> Says(j.elems[i], elems[i])
    case _ => j == c
  }

  /** The document with an identifier filled in for every rule that names none. */
  function WithId(j: Json, index: nat): Json {
    if j.Object? && "id" !in j.fields then J.Object(j.fields["id" := J.String(DefaultId(index))]) else j
  }

  function WithIds(doc: Json): Json {
    if doc.Object? && "rules" in doc.fields && doc.fields["rules"].Array? then
      var elems := doc.fields["rules"].elems;
      J.Object(doc.fields["rules" := J.Array(seq(|elems|, i requires 0 <= i < |elems| => WithId(elems[i], i)))])
    else doc
  }

  // ---------- exactness ----------

  lemma SignalExact(j: Json, allowInputArea: bool, ref: SignalRef)
    ensures ParseSignalRef(j, allowInputArea) == Some(ref)
       <==> InRange(ref) && (allowInputArea || ref.area != Input) && Says(j, J.Object(SignalFields(ref)))
  {
    if InRange(ref) {
      var c := SignalFields(ref);
      assert c.Keys == {"area", "byte", "bit"};
      assert c["area"] == J.String(AreaName(ref.area)) && c["byte"] == J.Int(ref.byte) && c["bit"] == J.Int(ref.bit);
      assert Says(j, J.Object(c)) <==>
        j.Object? && "node" !in j.fields && "area" in j.fields && "byte" in j.fields && "bit" in j.fields
        && j.fields["area"] == c["area"] && j.fields["byte"] == c["byte"] && j.fields["bit"] == c["bit"];
    }
  }

  lemma SaysTwoFields(j: Json, k1: string, v1: Json, k2: string, v2: Json)
    requires k1 != k2 && "area" !in {k1, k2}
    ensures Says(j, J.Object(map[k1 := v1, k2 := v2]))
       <==> j.Object? && k1 in j.fields && k2 in j.fields && Says(j.fields[k1], v1) && Says(j.fields[k2], v2)
  {
    var c := map[k1 := v1, k2 := v2];
    assert c.Keys == {k1, k2} && c[k1] == v1 && c[k2] == v2;
  }

  lemma SaysThreeFields(j: Json, k1: string, v1: Json, k2: string, v2: Json, k3: string, v3: Json)
    requires k1 != k2 && k1 != k3 && k2 != k3 && "area" !in {k1, k2, k3}
    ensures Says(j, J.Object(map[k1 := v1, k2 := v2, k3 := v3]))
       <==> j.Object? && k1 in j.fields && k2 in j.fields && k3 in j.fields
            && Says(j.fields[k1], v1) && Says(j.fields[k2], v2) && Says(j.fields[k3], v3)
  {
    var c := map[k1 := v1, k2 := v2, k3 := v3];
    assert c.Keys == {k1, k2, k3} && c[k1] == v1 && c[k2] == v2 && c[k3] == v3;
  }

  lemma SaysInput(j: Json, ref: SignalRef)
    requires InRange(ref)
    ensures Says(j, J.Object(SignalFields(ref)["type" := J.String("INPUT")]))
       <==> Says(j, J.Object(SignalFields(ref))) && J.RequireString(j, "type") == Some("INPUT")
  {
    var c := SignalFields(ref);
    var d := c["type" := J.String("INPUT")];
    assert c.Keys == {"area", "byte", "bit"} && d.Keys == {"area", "byte", "bit", "type"};
    assert d["type"] == J.String("INPUT") && forall key :: key in c ==> d[key] == c[key];
  }

  lemma ParsedSignal(j: Json, period: uint64, n: Node)
    requires n.SignalNode?
    ensures ParseCondition(j, period) == Some(n)
       <==> J.RequireString(j, "type") == Some("INPUT") && ParseSignalRef(j, true) == Some(n.ref)
  {
  }

  lemma ParsedNot(j: Json, period: uint64, n: Node)
    requires n.NotNode?
    ensures ParseCondition(j, period) == Some(n)
       <==> J.RequireString(j, "type") == Some("NOT") && "input" in j.fields
            && ParseCondition(j.fields["input"], period) == Some(n.input)
  {
  }

  lemma ParsedTimer(j: Json, period: uint64, n: Node)
    requires n.TonNode?
    ensures ParseCondition(j, period) == Some(n)
       <==> J.RequireString(j, "type") == Some("TON_TIMER") && "input" in j.fields
            && ParseCondition(j.fields["input"], period) == Some(n.input)
            && n.preset < 0x8000_0000_0000_0000 && J.RequireField(j, "preset_ms") == Some(J.Int(n.preset))
            && n.period == period && n.elapsed == 0
  {
  }

  function CombinatorName(n: Node): string {
    if n.AndNode? then "AND" else "OR"
  }

  lemma ParsedCombinator(j: Json, period: uint64, n: Node)
    requires n.AndNode? || n.OrNode?
    ensures ParseCondition(j, period) == Some(n)
       <==> J.RequireString(j, "type") == Some(CombinatorName(n)) && "inputs" in j.fields
            && j.fields["inputs"].Array? && n.inputs != [] && |j.fields["inputs"].elems| == |n.inputs|
            && forall i :: 0 <= i < |n.inputs| ==>
                 ParseCondition(j.fields["inputs"].elems[i], period) == Some(n.inputs[i])
  {
    if J.RequireString(j, "type") == Some(CombinatorName(n)) && "inputs" in j.fields && j.fields["inputs"].Array? {
      InputsParsed(j.fields["inputs"].elems, period, n.inputs);
    }
  }

  lemma InputsParsed(elems: seq<Json>, period: uint64, inputs: seq<Node>)
    ensures ParseInputs(elems, period) == Some(inputs)
       <==> |inputs| == |elems| && forall i :: 0 <= i < |elems| ==> ParseCondition(elems[i], period) == Some(inputs[i])
  {
    var parsed := ParseInputs(elems, period);
    if |inputs| == |elems| && forall i :: 0 <= i < |elems| ==> ParseCondition(elems[i], period) == Some(inputs[i]) {
      assert parsed.Some?;
      forall i | 0 <= i < |elems| ensures parsed.value[i] == inputs[i] {
        assert ParseCondition(elems[i], period) == Some(inputs[i]);
      }
      assert parsed.value == inputs;
    }
  }

  /** Parsing a condition gives `n` exactly when the document says what `n` says. */
  lemma {:induction false} ConditionExact(j: Json, period: uint64, n: Node)
    ensures ParseCondition(j, period) == Some(n) <==> WellFormed(n, period) && Says(j, CanonicalNode(n, period))
    decreases n, 1
  {
    match n
    case SignalNode(ref) =>
      ParsedSignal(j, period, n);
      SignalExact(j, true, ref);
      if InRange(ref) {
        SaysInput(j, ref);
      }
    case AndNode(_) =>
      CombinatorExact(j, period, n);
    case OrNode(_) =>
      CombinatorExact(j, period, n);
    case NotNode(input) =>
      ParsedNot(j, period, n);
      if j.Object? && "input" in j.fields {
        ConditionExact(j.fields["input"], period, input);
      }
      if WellFormed(n, period) {
        SaysTwoFields(j, "type", J.String("NOT"), "input", CanonicalNode(input, period));
      }
    case TonNode(_, _, _, _) =>
      TimerExact(j, period, n);
  }

  lemma {:induction false} TimerExact(j: Json, period: uint64, n: Node)
    requires n.TonNode?
    ensures ParseCondition(j, period) == Some(n) <==> WellFormed(n, period) && Says(j, CanonicalNode(n, period))
    decreases n, 0
  {
    ParsedTimer(j, period, n);
    if j.Object? && "input" in j.fields {
      ConditionExact(j.fields["input"], period, n.input);
    }
    if WellFormed(n, period) {
      SaysThreeFields(j, "type", J.String("TON_TIMER"), "input", CanonicalNode(n.input, period),
                      "preset_ms", J.Int(n.preset));
    }
  }

  lemma {:induction false} CombinatorExact(j: Json, period: uint64, n: Node)
    requires n.AndNode? || n.OrNode?
    ensures ParseCondition(j, period) == Some(n) <==> WellFormed(n, period) && Says(j, CanonicalNode(n, period))
    decreases n, 0
  {
    ParsedCombinator(j, period, n);
    if j.Object? && "inputs" in j.fields && j.fields["inputs"].Array? && |j.fields["inputs"].elems| == |n.inputs| {
      var elems := j.fields["inputs"].elems;
      forall i | 0 <= i < |elems|
        ensures ParseCondition(elems[i], period) == Some(n.inputs[i])
           <==> WellFormed(n.inputs[i], period) && Says(elems[i], CanonicalNode(n.inputs[i], period))
      {
        ConditionExact(elems[i], period, n.inputs[i]);
      }
    }
    if WellFormed(n, period) {
      var canonical := seq(|n.inputs|, i requires 0 <= i < |n.inputs| => CanonicalNode(n.inputs[i], period));
      SaysTwoFields(j, "type", J.String(CombinatorName(n)), "inputs", J.Array(canonical));
    }
  }

  lemma RuleParsed(j: Json, index: nat, period: uint64, rule: Rule)
    ensures ParseRule(j, index, period) == Some(rule)
       <==> J.RequireString(WithId(j, index), "id") == Some(rule.id)
            && "output" in j.fields && ParseSignalRef(j.fields["output"], false) == Some(rule.out)
            && "condition" in j.fields && ParseCondition(j.fields["condition"], period) == Some(rule.condition)
  {
  }

  lemma RuleExact(j: Json, index: nat, period: uint64, rule: Rule)
    ensures ParseRule(j, index, period) == Some(rule)
       <==> WellFormedRule(rule, period) && Says(WithId(j, index), CanonicalRule(rule, period))
  {
    RuleParsed(j, index, period, rule);
    if j.Object? && "output" in j.fields {
      SignalExact(j.fields["output"], false, rule.out);
    }
    if j.Object? && "condition" in j.fields {
      ConditionExact(j.fields["condition"], period, rule.condition);
    }
    if WellFormedRule(rule, period) {
      RuleSays(WithId(j, index), rule, period);
    }
  }

  lemma RuleSays(j: Json, rule: Rule, period: uint64)
    requires WellFormedRule(rule, period)
    ensures Says(j, CanonicalRule(rule, period))
       <==> J.RequireString(j, "id") == Some(rule.id)
            && "output" in j.fields && Says(j.fields["output"], J.Object(SignalFields(rule.out)))
            && "condition" in j.fields && Says(j.fields["condition"], CanonicalNode(rule.condition, period))
  {
    SaysThreeFields(j, "id", J.String(rule.id), "output", J.Object(SignalFields(rule.out)),
                    "condition", CanonicalNode(rule.condition, period));
  }

  lemma RulesParsed(elems: seq<Json>, period: uint64, rules: seq<Rule>)
    ensures ParseRules(elems, period) == Some(rules)
       <==> |rules| == |elems| && forall i :: 0 <= i < |elems| ==> ParseRule(elems[i], i, period) == Some(rules[i])
  {
    var parsed := ParseRules(elems, period);
    if |rules| == |elems| && forall i :: 0 <= i < |elems| ==> ParseRule(elems[i], i, period) == Some(rules[i]) {
      assert parsed.Some?;
      forall i | 0 <= i < |elems| ensures parsed.value[i] == rules[i] {
        assert ParseRule(elems[i], i, period) == Some(rules[i]);
      }
      assert parsed.value == rules;
    }
  }

  lemma SaysRules(j: Json, elems: seq<Json>)
    ensures Says(j, J.Object(map["rules" := J.Array(elems)]))
       <==> j.Object? && "rules" in j.fields && j.fields["rules"].Array? && |j.fields["rules"].elems| == |elems|
            && forall i :: 0 <= i < |elems| ==> Says(j.fields["rules"].elems[i], elems[i])
  {
    var c := map["rules" := J.Array(elems)];
    assert c.Keys == {"rules"} && c["rules"] == J.Array(elems);
    assert "rules" != "area";
  }

  predicate HasRules(doc: Json) {
    doc.Object? && "rules" in doc.fields && doc.fields["rules"].Array?
  }

  lemma DocumentParsed(doc: Json, period: uint64, rules: seq<Rule>)
    ensures FromJson(doc, period) == Some(rules)
       <==> HasRules(doc) && |doc.fields["rules"].elems| == |rules|
            && forall r :: 0 <= r < |rules| ==> ParseRule(doc.fields["rules"].elems[r], r, period) == Some(rules[r])
  {
    if HasRules(doc) {
      RulesParsed(doc.fields["rules"].elems, period, rules);
    }
  }

  lemma DocumentSays(doc: Json, period: uint64, rules: seq<Rule>)
    requires WellFormedProgram(rules, period)
    ensures Says(WithIds(doc), CanonicalProgram(rules, period))
       <==> HasRules(doc) && |doc.fields["rules"].elems| == |rules|
            && forall r :: 0 <= r < |rules| ==>
                 Says(WithId(doc.fields["rules"].elems[r], r), CanonicalRule(rules[r], period))
  {
    var canonical := seq(|rules|, r requires 0 <= r < |rules| => CanonicalRule(rules[r], period));
    SaysRules(WithIds(doc), canonical);
    if HasRules(doc) && |doc.fields["rules"].elems| == |rules| {
      var elems, filled := doc.fields["rules"].elems, WithIds(doc).fields["rules"].elems;
      assert forall r :: 0 <= r < |rules| ==>
        filled[r] == WithId(elems[r], r) && canonical[r] == CanonicalRule(rules[r], period);
    }
  }

  /** The parser is exact: a document is accepted as `rules` if and only if `rules` is well
      formed and the document, with its rule identifiers filled in, says what the canonical
      document of `rules` says. */
  lemma ParserExact(doc: Json, period: uint64, rules: seq<Rule>)
    ensures FromJson(doc, period) == Some(rules)
       <==> WellFormedProgram(rules, period) && Says(WithIds(doc), CanonicalProgram(rules, period))
  {
    DocumentParsed(doc, period, rules);
    if WellFormedProgram(rules, period) {
      DocumentSays(doc, period, rules);
    }
    if HasRules(doc) && |doc.fields["rules"].elems| == |rules| {
      forall r | 0 <= r < |rules| {
        RuleExact(doc.fields["rules"].elems[r], r, period, rules[r]);
      }
    }
  }

  // ---------- consequences ----------

  lemma {:induction false} CanonicalNodeSaysItself(n: Node, period: uint64)
    requires WellFormed(n, period)
    ensures Says(CanonicalNode(n, period), CanonicalNode(n, period))
  {
    var c := CanonicalNode(n, period);
    match n
    case SignalNode(ref) =>
      assert c.fields.Keys == {"area", "byte", "bit", "type"};
    case AndNode(inputs) =>
      forall i | 0 <= i < |inputs| { CanonicalNodeSaysItself(inputs[i], period); }
      SaysTwoFields(c, "type", J.String("AND"), "inputs", c.fields["inputs"]);
    case OrNode(inputs) =>
      forall i | 0 <= i < |inputs| { CanonicalNodeSaysItself(inputs[i], period); }
      SaysTwoFields(c, "type", J.String("OR"), "inputs", c.fields["inputs"]);
    case NotNode(input) =>
      CanonicalNodeSaysItself(input, period);
      SaysTwoFields(c, "type", J.String("NOT"), "input", c.fields["input"]);
    case TonNode(input, preset, _, _) =>
      CanonicalNodeSaysItself(input, period);
      SaysThreeFields(c, "type", J.String("TON_TIMER"), "input", c.fields["input"], "preset_ms", J.Int(preset));
  }

  lemma CanonicalRuleSaysItself(rule: Rule, period: uint64, index: nat)
    requires WellFormedRule(rule, period)
    ensures var c := CanonicalRule(rule, period); WithId(c, index) == c && Says(c, c)
  {
    var c := CanonicalRule(rule, period);
    CanonicalNodeSaysItself(rule.condition, period);
    assert SignalFields(rule.out).Keys == {"area", "byte", "bit"};
    SaysThreeFields(c, "id", J.String(rule.id), "output", J.Object(SignalFields(rule.out)),
                    "condition", CanonicalNode(rule.condition, period));
  }

  /** Round trip: the canonical document of a well-formed program parses to that program. */
  lemma CanonicalRoundTrip(rules: seq<Rule>, period: uint64)
    requires WellFormedProgram(rules, period)
    ensures FromJson(CanonicalProgram(rules, period), period) == Some(rules)
  {
    var doc := CanonicalProgram(rules, period);
    var elems := doc.fields["rules"].elems;
    forall r | 0 <= r < |rules| ensures WithId(elems[r], r) == elems[r] && Says(elems[r], elems[r]) {
      CanonicalRuleSaysItself(rules[r], period, r);
    }
    assert WithIds(doc).fields["rules"].elems == elems;
    SaysRules(WithIds(doc), elems);
    ParserExact(doc, period, rules);
  }

  /** Two programs with one canonical document are one program. */
  lemma CanonicalInjective(a: seq<Rule>, b: seq<Rule>, period: uint64)
    requires WellFormedProgram(a, period) && WellFormedProgram(b, period)
    requires CanonicalProgram(a, period) == CanonicalProgram(b, period)
    ensures a == b
  {
    CanonicalRoundTrip(a, period);
    CanonicalRoundTrip(b, period);
  }

  lemma {:induction false} WellFormedIsSafe(n: Node, period: uint64)
    requires WellFormed(n, period)
    ensures RefsInRange(n) && n == Reset(n) && (period >= 1 ==> PeriodsPositive(n))
  {
    match n
    case SignalNode(_) =>
    case AndNode(inputs) =>
      forall i | 0 <= i < |inputs| ensures RefsInRange(inputs[i]) && inputs[i] == Reset(inputs[i]) {
        WellFormedIsSafe(inputs[i], period);
      }
      forall i | 0 <= i < |inputs| && period >= 1 ensures PeriodsPositive(inputs[i]) {
        WellFormedIsSafe(inputs[i], period);
      }
      assert inputs == Reset(n).inputs;
    case OrNode(inputs) =>
      forall i | 0 <= i < |inputs| ensures RefsInRange(inputs[i]) && inputs[i] == Reset(inputs[i]) {
        WellFormedIsSafe(inputs[i], period);
      }
      forall i | 0 <= i < |inputs| && period >= 1 ensures PeriodsPositive(inputs[i]) {
        WellFormedIsSafe(inputs[i], period);
      }
      assert inputs == Reset(n).inputs;
    case NotNode(input) =>
      WellFormedIsSafe(input, period);
    case TonNode(input, _, _, _) =>
      WellFormedIsSafe(input, period);
  }

  /** Every accepted program reads and writes inside the image, never writes %I, and starts
      with its timers at zero. */
  lemma AcceptedIsSafe(doc: Json, period: uint64)
    ensures var rules := FromJson(doc, period);
      rules.Some? ==> forall r :: 0 <= r < |rules.value| ==>
        var rule := rules.value[r];
        && RefsInRange(rule.condition) && InRange(rule.out) && rule.out.area != Input
        && rule.condition == Reset(rule.condition)
        && (period >= 1 ==> PeriodsPositive(rule.condition))
  {
    var rules := FromJson(doc, period);
    if rules.Some? {
      ParserExact(doc, period, rules.value);
      forall r | 0 <= r < |rules.value| {
        WellFormedIsSafe(rules.value[r].condition, period);
      }
    }
  }
}
