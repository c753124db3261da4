/**
 The scan loop: the driver loads %I, the runtime runs its program, the driver takes the
 outputs, over any sequence of input changes and deployments in between.  The objects are
 proved against the value `System`, and the promises about runs are proved on it.
 */
module Scan {
  import opened Wrappers
  import opened ProcessImage
  import opened Words
  import opened Logic
  import opened Runs
  import History
  import opened Interpreter
  import J = Json
  import Parser

  // ---------- the system as a value ----------

  datatype System = System(
    simulated: seq<bv8>,           // the driver's input bytes
    program: Option<seq<Rule>>,    // the running program with its counters
    image: Image,                  // the process image
    outputs: seq<bv8>)             // the output bytes the driver saw last

  /** What may happen between two scans. */
  datatype Event =
    | SetInput(byte: nat, bit: nat, value: bool)
    | Deploy(doc: J.Json)

  /** An input change outside the area or the byte is ignored; a rejected document changes nothing. */
  ghost function Handled(s: System, event: Event, period: uint64): System {
    match event
    case SetInput(byte, bit, value) =>
      if byte >= |s.simulated| || bit > 7 then s
      else s.(simulated := s.simulated[byte := WithBit(s.simulated[byte], bit, value)])
    case Deploy(doc) =>
      var parsed := Parser.FromJson(doc, period);
      if parsed == None then s else s.(program := parsed)
  }

  ghost function HandledAll(s: System, events: seq<Event>, period: uint64): System {
    if events == [] then s
    else Handled(HandledAll(s, events[..|events| - 1], period), events[|events| - 1], period)
  }

  /** One scan; `Outputs` is what the packed output area must hold to show the image. */
  ghost function Scanned(s: System): System {
    var ready := Loaded(s.image, BytesImage(Input, s.simulated));
    match s.program
    case None => s.(image := ready)
    case Some(rules) => s.(image := After(rules, ready), program := Some(Ticked(rules, ready)))
  }

  /** `s` is a state after a scan from `was`, with the outputs the driver recorded. */
  ghost predicate ScanStep(was: System, s: System) {
    && s == Scanned(was).(outputs := s.outputs)
    && |s.outputs| == OUTPUT_SIZE
    && BytesImage(Output, s.outputs) == s.image * AreaBits(Output)
  }

  /** Every signal of the image lies inside the areas, and the program is one the parser made. */
  ghost predicate Sound(s: System) {
    && |s.simulated| == INPUT_SIZE
    && (forall r :: r in s.image ==> InRange(r))
    && (s.program.Some? ==> forall i :: 0 <= i < |s.program.value| ==>
          SafeRule(s.program.value[i]) && s.program.value[i].out.area != Input)
  }

  // ---------- what an event does ----------

  /** An input change writes that signal and no other; one out of range does nothing. */
  lemma InputChangeWritesSignal(s: System, byte: nat, bit: nat, value: bool, period: uint64)
    requires |s.simulated| == INPUT_SIZE
    ensures var t := Handled(s, SetInput(byte, bit, value), period);
      if byte < INPUT_SIZE && bit <= 7 then
        && BytesImage(Input, t.simulated)
           == Write(BytesImage(Input, s.simulated), SignalRef(Input, byte, bit), value)
        && t == s.(simulated := t.simulated) && StoresBit(s.simulated, t.simulated, byte, bit, value)
      else t == s
  {
    if byte < INPUT_SIZE && bit <= 7 {
      var bytes := s.simulated;
      WithBitStores(bytes, byte, bit, value);
      forall r: SignalRef
        ensures r in BytesImage(Input, bytes[byte := WithBit(bytes[byte], bit, value)])
           <==> r in Write(BytesImage(Input, bytes), SignalRef(Input, byte, bit), value)
      {
        if r.area == Input && r.byte == byte && r.bit <= 7 {
          WithBitSetsOneBit(bytes[byte], bit, value, r.bit);
        }
      }
    }
  }

  /** A deployment of an accepted document changes the program to its rules and nothing else;
      that of a rejected one changes nothing. */
  lemma DeploymentSwapsProgram(s: System, doc: J.Json, rules: seq<Rule>, period: uint64)
    ensures var t := Handled(s, Deploy(doc), period);
      && t.simulated == s.simulated && t.image == s.image && t.outputs == s.outputs
      && (Parser.FromJson(doc, period) == Some(rules) ==> t.program == Some(rules))
      && (Parser.FromJson(doc, period) == None ==> t == s)
  {
  }

  // ---------- every event and every scan keeps the system sound ----------

  lemma EventKeepsSound(s: System, event: Event, period: uint64)
    requires Sound(s)
    ensures Sound(Handled(s, event, period))
  {
    match event
    case SetInput(_, _, _) =>
    case Deploy(doc) => Parser.AcceptedIsSafe(doc, period);
  }

  lemma {:induction false} SafeRulesStayInRange(rules: seq<Rule>, m: Image)
    requires forall i :: 0 <= i < |rules| ==> SafeRule(rules[i])
    requires forall r :: r in m ==> InRange(r)
    ensures forall r :: r in After(rules, m) ==> InRange(r)
  {
    if rules != [] {
      SafeRulesStayInRange(rules[..|rules| - 1], m);
    }
  }

  lemma TickedStaysSafe(rules: seq<Rule>, m: Image)
    requires forall i :: 0 <= i < |rules| ==> SafeRule(rules[i])
    ensures forall i :: 0 <= i < |rules| ==> SafeRule(Ticked(rules, m)[i]) && Ticked(rules, m)[i].out == rules[i].out
  {
    forall i | 0 <= i < |rules| ensures SafeRule(Ticked(rules, m)[i]) {
      EvaluationKeepsShape(rules[i].condition, After(rules[..i], m));
    }
  }

  lemma ScanKeepsSound(s: System)
    requires Sound(s)
    ensures Sound(Scanned(s))
  {
    if s.program.Some? {
      var ready := Loaded(s.image, BytesImage(Input, s.simulated));
      SafeRulesStayInRange(s.program.value, ready);
      TickedStaysSafe(s.program.value, ready);
    }
  }

  lemma ScanStepKeepsSound(was: System, s: System)
    requires Sound(was) && ScanStep(was, s)
    ensures Sound(s)
  {
    ScanKeepsSound(was);
  }

  // ---------- runs ----------

  /** Scan `i` of a run: the events `script[i]` happen, then the scan. */
  ghost predicate RunStep(script: seq<seq<Event>>, states: seq<System>, i: nat, period: uint64)
    requires i < |script| && |states| == |script| + 1
  {
    ScanStep(HandledAll(states[i], script[i], period), states[i + 1])
  }

  /** States after each scan of a run that starts in `start`. */
  ghost predicate IsRun(start: System, script: seq<seq<Event>>, states: seq<System>, period: uint64) {
    && |states| == |script| + 1 && states[0] == start
    && forall i :: 0 <= i < |script| ==> RunStep(script, states, i, period)
  }

  lemma {:induction false} EventsKeepSound(s: System, events: seq<Event>, period: uint64)
    requires Sound(s)
    ensures Sound(HandledAll(s, events, period))
    ensures HandledAll(s, events, period).image == s.image
  {
    if events != [] {
      EventsKeepSound(s, events[..|events| - 1], period);
      EventKeepsSound(HandledAll(s, events[..|events| - 1], period), events[|events| - 1], period);
    }
  }

  /** Accepted programs never go wrong: whatever is deployed during a run, every program the
      scan meets stays inside the image and out of %I. */
  lemma {:induction false} RunStaysSound(start: System, script: seq<seq<Event>>, states: seq<System>,
                                       period: uint64, n: nat)
    requires IsRun(start, script, states, period) && Sound(start) && n < |states|
    ensures Sound(states[n])
  {
    if n > 0 {
      RunStaysSound(start, script, states, period, n - 1);
      EventsKeepSound(states[n - 1], script[n - 1], period);
      ScanKeepsSound(HandledAll(states[n - 1], script[n - 1], period));
      assert RunStep(script, states, n - 1, period);
    }
  }

  ghost predicate TargetedBy(program: Option<seq<Rule>>, r: SignalRef) {
    program.Some? && Targets(program.value, r)
  }

  /** %I is what the driver simulates, before, during and after the logic step. */
  lemma ScanShowsInputs(s: System, k: nat)
    requires Sound(s) && s.program.Some? && k <= |s.program.value|
    ensures var ready := Loaded(s.image, BytesImage(Input, s.simulated));
            After(s.program.value[..k], ready) * AreaBits(Input) == BytesImage(Input, s.simulated)
  {
    var ready := Loaded(s.image, BytesImage(Input, s.simulated));
    forall r | r in AreaBits(Input) ensures r in After(s.program.value[..k], ready) <==> r in ready {
      UntargetedUnchanged(s.program.value[..k], ready, r);
    }
  }

  lemma ScanKeepsUntargeted(was: System, events: seq<Event>, s: System, period: uint64, r: SignalRef)
    requires Sound(was) && ScanStep(HandledAll(was, events, period), s) && r.area != Input
    requires !TargetedBy(HandledAll(was, events, period).program, r)
    ensures r in s.image <==> r in was.image
  {
    EventsKeepSound(was, events, period);
    var ready := HandledAll(was, events, period);
    if ready.program.Some? {
      UntargetedUnchanged(ready.program.value, Loaded(ready.image, BytesImage(Input, ready.simulated)), r);
    }
  }

  /** A %Q or %M signal changes only in a scan whose program targets it, so it survives any
      number of scans, input changes and deployments of programs that do not. */
  lemma {:induction false} UntargetedSurvives(start: System, script: seq<seq<Event>>, states: seq<System>,
                                            period: uint64, n: nat, r: SignalRef)
    requires IsRun(start, script, states, period) && Sound(start) && n < |states| && r.area != Input
    requires forall i :: 0 <= i < n ==> !TargetedBy(HandledAll(states[i], script[i], period).program, r)
    ensures r in states[n].image <==> r in start.image
  {
    if n > 0 {
      UntargetedSurvives(start, script, states, period, n - 1, r);
      RunStaysSound(start, script, states, period, n - 1);
      assert RunStep(script, states, n - 1, period);
      ScanKeepsUntargeted(states[n - 1], script[n - 1], states[n], period, r);
    }
  }

  /** A targeted signal ends the scan equal to its last rule, and the recorded output byte
      shows it. */
  lemma TargetedFollowsLastRule(was: System, s: System, k: nat)
    requires ScanStep(was, s) && Sound(was) && was.program.Some? && k < |was.program.value|
    requires forall i :: k < i < |was.program.value| ==> was.program.value[i].out != was.program.value[k].out
    ensures var rules, ready := was.program.value, Loaded(was.image, BytesImage(Input, was.simulated));
            var value := Val(rules[k].condition, After(rules[..k], ready));
            && (rules[k].out in s.image <==> value)
            && (rules[k].out.area == Output ==> BitOf(s.outputs[rules[k].out.byte], rules[k].out.bit) == value)
  {
    var rules, ready := was.program.value, Loaded(was.image, BytesImage(Input, was.simulated));
    LastWriterWins(rules, ready, k);
    assert SafeRule(rules[k]);
    assert rules[k].out in BytesImage(Output, s.outputs) <==> rules[k].out in s.image * AreaBits(Output);
  }

  // ---------- a run follows its events ----------

  /** An input bit after some events: the value of its last change, or what it was. */
  function BitAfter(events: seq<Event>, byte: nat, bit: nat, was: bool): bool {
    if events == [] then was
    else
      match events[|events| - 1]
      case SetInput(b, i, value) =>
        if b == byte && i == bit then value else BitAfter(events[..|events| - 1], byte, bit, was)
      case Deploy(_) => BitAfter(events[..|events| - 1], byte, bit, was)
  }

  /** The program after some events: the rules of the last document accepted, or what it was. */
  function ProgramAfter(events: seq<Event>, was: Option<seq<Rule>>, period: uint64): Option<seq<Rule>> {
    if events == [] then was
    else
      match events[|events| - 1]
      case SetInput(_, _, _) => ProgramAfter(events[..|events| - 1], was, period)
      case Deploy(doc) =>
        var parsed := Parser.FromJson(doc, period);
        if parsed.Some? then parsed else ProgramAfter(events[..|events| - 1], was, period)
  }

  function EventsBefore(script: seq<seq<Event>>, n: nat): seq<Event>
    requires n <= |script|
  {
    if n == 0 then [] else EventsBefore(script, n - 1) + script[n - 1]
  }

  lemma {:induction false} BitAfterConcat(a: seq<Event>, b: seq<Event>, byte: nat, bit: nat, was: bool)
    ensures BitAfter(a + b, byte, bit, was) == BitAfter(b, byte, bit, BitAfter(a, byte, bit, was))
  {
    if b == [] {
      assert a + b == a;
    } else {
      assert (a + b)[..|a + b| - 1] == a + b[..|b| - 1];
      BitAfterConcat(a, b[..|b| - 1], byte, bit, was);
    }
  }

  lemma {:induction false} ProgramAfterConcat(a: seq<Event>, b: seq<Event>, was: Option<seq<Rule>>, period: uint64)
    ensures ProgramAfter(a + b, was, period) == ProgramAfter(b, ProgramAfter(a, was, period), period)
  {
    if b == [] {
      assert a + b == a;
    } else {
      assert (a + b)[..|a + b| - 1] == a + b[..|b| - 1];
      ProgramAfterConcat(a, b[..|b| - 1], was, period);
    }
  }

  lemma {:induction false} EventsSetInputs(s: System, events: seq<Event>, byte: nat, bit: nat, period: uint64)
    requires |s.simulated| == INPUT_SIZE && byte < INPUT_SIZE && bit <= 7
    ensures var t, r := HandledAll(s, events, period), SignalRef(Input, byte, bit);
      && |t.simulated| == INPUT_SIZE
      && (r in BytesImage(Input, t.simulated)) == BitAfter(events, byte, bit, r in BytesImage(Input, s.simulated))
  {
    if events != [] {
      var init, last := events[..|events| - 1], events[|events| - 1];
      EventsSetInputs(s, init, byte, bit, period);
      if last.SetInput? {
        InputChangeWritesSignal(HandledAll(s, init, period), last.byte, last.bit, last.value, period);
      }
    }
  }

  /** In every run, the driver shows in scan n what the input changes say, and so does %I. */
  lemma {:induction false} RunFollowsInputs(start: System, script: seq<seq<Event>>, states: seq<System>,
                                            period: uint64, n: nat, byte: nat, bit: nat)
    requires IsRun(start, script, states, period) && Sound(start) && n < |states|
    requires byte < INPUT_SIZE && bit <= 7
    ensures var r := SignalRef(Input, byte, bit);
      && (r in BytesImage(Input, states[n].simulated))
         == BitAfter(EventsBefore(script, n), byte, bit, r in BytesImage(Input, start.simulated))
      && (n > 0 ==> (r in states[n].image <==> r in BytesImage(Input, states[n].simulated)))
  {
    if n > 0 {
      var r := SignalRef(Input, byte, bit);
      RunFollowsInputs(start, script, states, period, n - 1, byte, bit);
      RunStaysSound(start, script, states, period, n - 1);
      EventsSetInputs(states[n - 1], script[n - 1], byte, bit, period);
      BitAfterConcat(EventsBefore(script, n - 1), script[n - 1], byte, bit, r in BytesImage(Input, start.simulated));
      EventsKeepSound(states[n - 1], script[n - 1], period);
      assert RunStep(script, states, n - 1, period);
      var ready := HandledAll(states[n - 1], script[n - 1], period);
      ScanKeepsInputs(ready, r);
    }
  }

  lemma ScanKeepsInputs(s: System, r: SignalRef)
    requires Sound(s) && r.area == Input
    ensures Scanned(s).simulated == s.simulated
    ensures r in Scanned(s).image <==> r in BytesImage(Input, s.simulated)
  {
    if s.program.Some? {
      UntargetedUnchanged(s.program.value, Loaded(s.image, BytesImage(Input, s.simulated)), r);
    }
  }

  /** A program without the state of its timers. */
  ghost function Cleared(program: Option<seq<Rule>>): Option<seq<Rule>> {
    match program
    case None => None
    case Some(rules) =>
      Some(seq(|rules|, r requires 0 <= r < |rules| => rules[r].(condition := Reset(rules[r].condition))))
  }

  lemma ScanKeepsProgram(s: System)
    ensures Cleared(Scanned(s).program) == Cleared(s.program)
  {
    if s.program.Some? {
      var rules, ready := s.program.value, Loaded(s.image, BytesImage(Input, s.simulated));
      forall r | 0 <= r < |rules| ensures Reset(Ticked(rules, ready)[r].condition) == Reset(rules[r].condition) {
        EvaluationKeepsShape(rules[r].condition, After(rules[..r], ready));
      }
      assert Cleared(Some(Ticked(rules, ready))).value == Cleared(s.program).value;
    }
  }

  lemma AcceptedIsCleared(doc: J.Json, period: uint64)
    requires Parser.FromJson(doc, period).Some?
    ensures Cleared(Parser.FromJson(doc, period)) == Parser.FromJson(doc, period)
  {
    Parser.AcceptedIsSafe(doc, period);
    assert Cleared(Parser.FromJson(doc, period)).value == Parser.FromJson(doc, period).value;
  }

  lemma {:induction false} EventsSetProgram(s: System, events: seq<Event>, period: uint64)
    ensures Cleared(HandledAll(s, events, period).program) == ProgramAfter(events, Cleared(s.program), period)
  {
    if events != [] {
      var last := events[|events| - 1];
      EventsSetProgram(s, events[..|events| - 1], period);
      if last.Deploy? && Parser.FromJson(last.doc, period).Some? {
        AcceptedIsCleared(last.doc, period);
      }
    }
  }

  lemma ScanFollowsDeployments(was: System, events: seq<Event>, s: System, period: uint64)
    requires ScanStep(HandledAll(was, events, period), s)
    ensures Cleared(s.program) == ProgramAfter(events, Cleared(was.program), period)
  {
    EventsSetProgram(was, events, period);
    ScanKeepsProgram(HandledAll(was, events, period));
  }

  lemma TurnFollowsDeployments(script: seq<seq<Event>>, states: seq<System>, period: uint64, i: nat)
    requires i < |script| && |states| == |script| + 1 && RunStep(script, states, i, period)
    ensures Cleared(states[i + 1].program) == ProgramAfter(script[i], Cleared(states[i].program), period)
  {
    ScanFollowsDeployments(states[i], script[i], states[i + 1], period);
  }

  /** In every run, the program of scan n is that of the last accepted document, or the one at
      the start; only its timers have moved. */
  lemma {:induction false} RunFollowsDeployments(start: System, script: seq<seq<Event>>, states: seq<System>,
                                                 period: uint64, n: nat)
    requires IsRun(start, script, states, period) && n < |states|
    ensures Cleared(states[n].program) == ProgramAfter(EventsBefore(script, n), Cleared(start.program), period)
  {
    if n > 0 {
      RunFollowsDeployments(start, script, states, period, n - 1);
      TurnFollowsDeployments(script, states, period, n - 1);
      ProgramAfterConcat(EventsBefore(script, n - 1), script[n - 1], Cleared(start.program), period);
    }
  }

  // ---------- from a document to its meaning ----------

  /** The input images the scans of a run load. */
  ghost function LoadedInputs(script: seq<seq<Event>>, states: seq<System>, period: uint64): (inputs: seq<Image>)
    requires |states| == |script| + 1
    ensures |inputs| == |script|
  {
    seq(|script|, i requires 0 <= i < |script| => BytesImage(Input, HandledAll(states[i], script[i], period).simulated))
  }

  ghost predicate OnlyInputs(script: seq<seq<Event>>) {
    forall i, j :: 0 <= i < |script| && 0 <= j < |script[i]| ==> script[i][j].SetInput?
  }

  lemma {:induction false} InputsKeepProgram(s: System, events: seq<Event>, period: uint64)
    requires forall j :: 0 <= j < |events| ==> events[j].SetInput?
    ensures HandledAll(s, events, period).program == s.program && HandledAll(s, events, period).image == s.image
  {
    if events != [] {
      InputsKeepProgram(s, events[..|events| - 1], period);
    }
  }

  lemma OneProgramScans(was: System, events: seq<Event>, s: System, period: uint64)
    requires was.program.Some? && ScanStep(HandledAll(was, events, period), s)
    requires forall j :: 0 <= j < |events| ==> events[j].SetInput?
    ensures var ready := Loaded(was.image, BytesImage(Input, HandledAll(was, events, period).simulated));
      && s.image == After(was.program.value, ready) && s.program == Some(Ticked(was.program.value, ready))
  {
    InputsKeepProgram(was, events, period);
  }

  /** Between deployments the system runs one program: its states are those of module `Runs`. */
  lemma {:induction false} SystemRunsProgram(start: System, script: seq<seq<Event>>, states: seq<System>,
                                           period: uint64, n: nat)
    requires IsRun(start, script, states, period) && start.program.Some? && OnlyInputs(script) && n < |states|
    ensures var inputs, rules := LoadedInputs(script, states, period), start.program.value;
      && states[n].image == ImageAt(rules, start.image, inputs, n)
      && states[n].program == Some(RulesAt(rules, start.image, inputs, n))
  {
    if n > 0 {
      SystemRunsProgram(start, script, states, period, n - 1);
      assert RunStep(script, states, n - 1, period);
      OneProgramScans(states[n - 1], script[n - 1], states[n], period);
    }
  }

  lemma {:induction false} AcceptedTimersFit(n: Node, period: uint64, cycles: nat)
    requires Parser.WellFormed(n, period) && cycles * period < TWO_64
    ensures History.TimersFit(n, cycles)
  {
    match n
    case SignalNode(_) =>
    case AndNode(inputs) =>
      forall i | 0 <= i < |inputs| { AcceptedTimersFit(inputs[i], period, cycles); }
    case OrNode(inputs) =>
      forall i | 0 <= i < |inputs| { AcceptedTimersFit(inputs[i], period, cycles); }
    case NotNode(input) =>
      AcceptedTimersFit(input, period, cycles);
    case TonNode(input, _, _, _) =>
      AcceptedTimersFit(input, period, cycles);
  }

  lemma AcceptedIsMeaningful(doc: J.Json, period: uint64, cycles: nat)
    requires Parser.FromJson(doc, period).Some? && period >= 1 && cycles * period < TWO_64
    ensures Meaningful(Parser.FromJson(doc, period).value, cycles)
  {
    var rules := Parser.FromJson(doc, period).value;
    Parser.AcceptedIsSafe(doc, period);
    Parser.ParserExact(doc, period, rules);
    forall r | 0 <= r < |rules| ensures History.TimersFit(rules[r].condition, cycles) {
      AcceptedTimersFit(rules[r].condition, period, cycles);
    }
  }

  /** End to end: after a document is deployed, every scan leaves the memory that the
      stateless semantics of its rules gives for the inputs loaded since. */
  lemma DeployedDocumentMeetsHistory(was: System, doc: J.Json, script: seq<seq<Event>>, states: seq<System>,
                                     period: uint64, n: nat)
    requires Parser.FromJson(doc, period).Some? && OnlyInputs(script)
    requires IsRun(Handled(was, Deploy(doc), period), script, states, period) && 0 < n < |states|
    requires period >= 1 && |script| * period < TWO_64
    ensures var rules, inputs := Parser.FromJson(doc, period).value, LoadedInputs(script, states, period);
      Meaningful(rules, |inputs|) && states[n].image == Before(rules, was.image, inputs, n - 1, |rules|)
  {
    var rules, inputs := Parser.FromJson(doc, period).value, LoadedInputs(script, states, period);
    AcceptedIsMeaningful(doc, period, |script|);
    SystemRunsProgram(Handled(was, Deploy(doc), period), script, states, period, n);
    RunMeetsHistory(rules, was.image, inputs, n);
  }

  /** The first `i` scans of a script have been run and have ended in `s`. */
  ghost predicate Ran(start: System, script: seq<seq<Event>>, i: nat, states: seq<System>, s: System, period: uint64) {
    i <= |script| && IsRun(start, script[..i], states, period) && s == states[i]
  }

  lemma RunExtends(start: System, script: seq<seq<Event>>, i: nat, states: seq<System>, s: System, next: System,
                   period: uint64)
    requires i < |script| && Ran(start, script, i, states, s, period)
    requires ScanStep(HandledAll(s, script[i], period), next)
    ensures Ran(start, script, i + 1, states + [next], next, period)
  {
    var longer, more := script[..i + 1], states + [next];
    forall j | 0 <= j <= i ensures RunStep(longer, more, j, period) {
      assert j < i ==> RunStep(script[..i], states, j, period);
    }
  }

  lemma RunEnds(start: System, script: seq<seq<Event>>, states: seq<System>, s: System, period: uint64)
    requires Ran(start, script, |script|, states, s, period)
    ensures IsRun(start, script, states, period) && s == states[|script|]
  {
    assert script[..|script|] == script;
  }

  // ---------- the cycle counter ----------

  /** The counter after a number of cycles, cut to 64 bits. */
  function CountAfter(count: uint64, cycles: nat): uint64 {
    (count + cycles) % TWO_64
  }

  lemma CycleCounted(count: uint64, cycles: nat)
    ensures CountAfter(count, 0) == count && Bump(CountAfter(count, cycles)) == CountAfter(count, cycles + 1)
  {
    var n := count + cycles;
    assert n == n / TWO_64 * TWO_64 + n % TWO_64;
  }

  // ---------- the objects ----------

  class MockDriver {
    var mockInputs: seq<bv8>
    var previousOutputs: seq<bv8>

    constructor ()
      ensures |mockInputs| == INPUT_SIZE && |previousOutputs| == OUTPUT_SIZE
      ensures BytesImage(Input, mockInputs) == iset{}
    {
      mockInputs := seq(INPUT_SIZE, _ => 0);
      previousOutputs := seq(OUTPUT_SIZE, _ => 0);
    }

    method ReadInputs(mem: MemoryMap) returns (ok: Result<(), MemoryError>)
      requires mem.Valid() && |mockInputs| == INPUT_SIZE
      modifies mem.input, mem.output, mem.memory
      ensures ok.Success?
      ensures mem.Image() == Loaded(old(mem.Image()), BytesImage(Input, mockInputs))
    {
      ReplacedAreaImage(mem.Contents(), Input, mockInputs);
      ok := mem.WriteBytes(Input, 0, mockInputs);
      assert BytesImage(Input, mockInputs) * AreaBits(Input) == BytesImage(Input, mockInputs);
    }

    method WriteOutputs(mem: MemoryMap)
      requires mem.Valid()
      modifies this
      ensures mockInputs == old(mockInputs) && |previousOutputs| == OUTPUT_SIZE
      ensures BytesImage(Output, previousOutputs) == mem.Image() * AreaBits(Output)
    {
      previousOutputs := mem.GetAreaSnapshot(Output);
    }

    method SetMockInputBit(byte: nat, bit: nat, value: bool)
      modifies this
      ensures previousOutputs == old(previousOutputs)
      ensures mockInputs == if byte >= old(|mockInputs|) || bit > 7 then old(mockInputs)
                            else old(mockInputs[byte := WithBit(mockInputs[byte], bit, value)])
    {
      if byte >= |mockInputs| || bit > 7 {
        return;
      }
      if value {
        mockInputs := mockInputs[byte := mockInputs[byte] | Mask(bit)];
      } else {
        mockInputs := mockInputs[byte := mockInputs[byte] & !Mask(bit)];
      }
    }
  }

  class AslcEngine {
    const mem: MemoryMap
    const driver: MockDriver
    const runtime: LogicRuntime
    var cycleCount: uint64

    ghost predicate Valid()
      reads runtime
    {
      mem.Valid() && (runtime.current != null ==> runtime.current.Valid())
    }

    ghost function State(): System
      requires Valid()
      reads driver, runtime, mem.input, mem.output, mem.memory
      reads if runtime.current != null then runtime.current.Footprint() else {}
    {
      System(driver.mockInputs,
             if runtime.current == null then None else Some(runtime.current.Rules()),
             mem.Image(), driver.previousOutputs)
    }

    constructor (mem: MemoryMap, driver: MockDriver, runtime: LogicRuntime)
      ensures this.mem == mem && this.driver == driver && this.runtime == runtime && cycleCount == 0
    {
      this.mem, this.driver, this.runtime, this.cycleCount := mem, driver, runtime, 0;
    }

    /** The read and logic steps of a turn. */
    method ReadAndExecute()
      requires Valid() && Sound(State())
      modifies mem.input, mem.output, mem.memory
      modifies if runtime.current != null then runtime.current.Footprint() else {}
      ensures Valid() && State() == Scanned(old(State()))
    {
      var read := driver.ReadInputs(mem);
      assert runtime.current != null ==> runtime.current.Rules() == old(runtime.current.Rules());
      var ran := runtime.ExecuteCycle(mem);
      if runtime.current != null {
        SafeScanSucceeds(old(runtime.current.Rules()), Loaded(old(mem.Image()), BytesImage(Input, driver.mockInputs)),
                         ran.Success?, runtime.current.Rules(), mem.Image());
      }
    }

    /** The write step of a turn. */
    method HandOutOutputs()
      requires Valid()
      modifies this, driver
      ensures Valid() && State() == old(State()).(outputs := State().outputs)
      ensures |State().outputs| == OUTPUT_SIZE
        && BytesImage(Output, State().outputs) == State().image * AreaBits(Output)
      ensures cycleCount == Bump(old(cycleCount))
    {
      driver.WriteOutputs(mem);
      cycleCount := Bump(cycleCount);
      assert runtime.current != null ==> runtime.current.Rules() == old(runtime.current.Rules());
    }

    /** One turn of the scan loop: read inputs, run the logic, hand out outputs. */
    method RunCycle()
      requires Valid() && Sound(State())
      modifies this, driver, mem.input, mem.output, mem.memory
      modifies if runtime.current != null then runtime.current.Footprint() else {}
      ensures Valid() && ScanStep(old(State()), State())
      ensures cycleCount == Bump(old(cycleCount))
    {
      ReadAndExecute();
      HandOutOutputs();
    }

    /** Something that happens between scans. */
    method Handle(event: Event)
      requires Valid() && Sound(State())
      modifies driver, runtime
      ensures Valid() && State() == Handled(old(State()), event, runtime.period) && Sound(State())
      ensures runtime.current == old(runtime.current) || (runtime.current != null && fresh(runtime.current.Footprint()))
    {
      EventKeepsSound(State(), event, runtime.period);
      match event {
        case SetInput(byte, bit, value) =>
          driver.SetMockInputBit(byte, bit, value);
          assert runtime.current != null ==> runtime.current.Rules() == old(runtime.current.Rules());
        case Deploy(doc) =>
          var program := runtime.ReloadFromJson(doc);
          assert program == None && runtime.current != null ==> runtime.current.Rules() == old(runtime.current.Rules());
          assert mem.Image() == old(mem.Image());
      }
    }

    method HandleEvents(events: seq<Event>)
      requires Valid() && Sound(State())
      modifies driver, runtime
      ensures Valid() && State() == HandledAll(old(State()), events, runtime.period) && Sound(State())
      ensures runtime.current == old(runtime.current) || (runtime.current != null && fresh(runtime.current.Footprint()))
    {
      ghost var s := State();
      for i := 0 to |events|
        invariant Valid() && State() == HandledAll(s, events[..i], runtime.period) && Sound(State())
        invariant runtime.current == old(runtime.current)
          || (runtime.current != null && fresh(runtime.current.Footprint()))
      {
        assert events[..i + 1][..i] == events[..i];
        Handle(events[i]);
      }
      assert events[..|events|] == events;
    }

    /** What happens before a scan, and the scan. */
    method RunTurn(events: seq<Event>)
      requires Valid() && Sound(State())
      modifies this, driver, runtime, mem.input, mem.output, mem.memory
      modifies if runtime.current != null then runtime.current.Footprint() else {}
      ensures Valid() && Sound(State()) && ScanStep(HandledAll(old(State()), events, runtime.period), State())
      ensures runtime.current == old(runtime.current)
           || (runtime.current != null && fresh(runtime.current.Footprint()))
      ensures cycleCount == Bump(old(cycleCount))
    {
      HandleEvents(events);
      ghost var ready := State();
      RunCycle();
      ScanStepKeepsSound(ready, State());
    }

    /** The scan loop for |script| cycles, with the events of the script between them. */
    method Run(script: seq<seq<Event>>) returns (ghost states: seq<System>)
      requires Valid() && Sound(State())
      modifies this, driver, runtime, mem.input, mem.output, mem.memory
      modifies if runtime.current != null then runtime.current.Footprint() else {}
      ensures Valid() && IsRun(old(State()), script, states, runtime.period) && State() == states[|script|]
      ensures cycleCount == CountAfter(old(cycleCount), |script|)
    {
      ghost var start := State();
      states := [start];
      CycleCounted(cycleCount, 0);
      for i := 0 to |script|
        invariant Valid() && Sound(State())
        invariant Ran(start, script, i, states, State(), runtime.period)
        invariant runtime.current == old(runtime.current)
               || (runtime.current != null && fresh(runtime.current.Footprint()))
        invariant cycleCount == CountAfter(old(cycleCount), i)
      {
        CycleCounted(old(cycleCount), i);
        ghost var s := State();
        RunTurn(script[i]);
        RunExtends(start, script, i, states, s, State(), runtime.period);
        states := states + [State()];
      }
      RunEnds(start, script, states, State(), runtime.period);
    }
  }
}
