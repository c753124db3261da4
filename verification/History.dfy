/**
 What a program means over a whole history of scans.  `Holds` and `Before` are
 stateless: they have no counters and look at past images instead.  The theorems say
 that the counting machine of module `Logic` computes exactly them.
 */
module History {
  import opened ProcessImage
  import opened Words
  import opened Logic

  // ---------- the stateless meaning of a tree ----------

  /** The number of consecutive true cycles a timer needs: max(1, ceil(preset / period)). */
  function Threshold(preset: nat, period: nat): nat
    requires period >= 1
  {
    if preset <= period then 1 else (preset + period - 1) / period
  }

  ghost predicate PeriodsPositive(n: Node) {
    match n
    case SignalNode(_) => true
    case AndNode(inputs) => forall i :: 0 <= i < |inputs| ==> PeriodsPositive(inputs[i])
    case OrNode(inputs) => forall i :: 0 <= i < |inputs| ==> PeriodsPositive(inputs[i])
    case NotNode(input) => PeriodsPositive(input)
    case TonNode(input, _, period, _) => period >= 1 && PeriodsPositive(input)
  }

  /** The value of a tree in the last cycle of `h`; a timer holds when its input has held
      in each of the last `Threshold` cycles.  Counters play no part. */
  ghost predicate Holds(n: Node, h: seq<Image>)
    requires h != [] && PeriodsPositive(n)
    decreases n
  {
    match n
    case SignalNode(ref) => ref in h[|h| - 1]
    case AndNode(inputs) => forall i :: 0 <= i < |inputs| ==> Holds(inputs[i], h)
    case OrNode(inputs) => exists i :: 0 <= i < |inputs| && Holds(inputs[i], h)
    case NotNode(input) => !Holds(input, h)
    case TonNode(input, preset, period, _) =>
      var k := Threshold(preset, period);
      |h| >= k && forall j :: |h| - k < j <= |h| ==> Holds(input, h[..j])
  }

  // ---------- the counting machine over a history ----------

  /** The tree after one evaluation against each image of `h`. */
  ghost function NodeAfter(n: Node, h: seq<Image>): Node {
    if h == [] then n else Next(NodeAfter(n, h[..|h| - 1]), h[|h| - 1])
  }

  /** No timer's product of cycles and period reaches 2^64 within this many cycles. */
  ghost predicate TimersFit(n: Node, cycles: nat) {
    match n
    case SignalNode(_) => true
    case AndNode(inputs) => forall i :: 0 <= i < |inputs| ==> TimersFit(inputs[i], cycles)
    case OrNode(inputs) => forall i :: 0 <= i < |inputs| ==> TimersFit(inputs[i], cycles)
    case NotNode(input) => TimersFit(input, cycles)
    case TonNode(input, _, period, _) => cycles * period < TWO_64 && TimersFit(input, cycles)
  }

  /** The result the machine gives in the last cycle of `h`. */
  ghost predicate Observed(n: Node, h: seq<Image>)
    requires h != []
  {
    Val(NodeAfter(n, h[..|h| - 1]), h[|h| - 1])
  }

  /** Length of the run of true results at the end of the history. */
  ghost function Streak(n: Node, h: seq<Image>): (s: nat)
    ensures s <= |h|
  {
    if h == [] || !Observed(n, h) then 0 else 1 + Streak(n, h[..|h| - 1])
  }

  // ---------- timers ----------

  lemma ProductMonotone(a: nat, b: nat, d: nat)
    requires a <= b
    ensures a * d <= b * d
  {
  }

  /** The threshold is the least positive count whose product with the period reaches the preset. */
  lemma ThresholdIsLeast(preset: nat, period: nat, count: nat)
    requires period >= 1 && count >= 1
    ensures count >= Threshold(preset, period) <==> count * period >= preset
  {
    if preset > period {
      var k := Threshold(preset, period);
      assert preset + period - 1 == k * period + (preset + period - 1) % period;
      if count >= k {
        ProductMonotone(k, count, period);
      } else {
        ProductMonotone(count, k - 1, period);
      }
    } else {
      ProductMonotone(1, count, period);
    }
  }

  /** Below the overflow, the comparison is the threshold test. */
  lemma FiresAtThreshold(elapsed: uint64, period: uint64, preset: uint64)
    requires period >= 1 && elapsed >= 1 && elapsed * period < TWO_64
    ensures Fires(elapsed, period, preset) <==> elapsed >= Threshold(preset, period)
  {
    ThresholdIsLeast(preset, period, elapsed);
  }

  /** The first count whose product with the period passes 2^64. */
  lemma FirstOverflow(period: uint64) returns (s: nat)
    requires period >= 1
    ensures 1 <= s <= TWO_64 && TWO_64 <= s * period < TWO_64 + period
  {
    s := (TWO_64 + period - 1) / period;
    assert s * period + (TWO_64 + period - 1) % period == TWO_64 + period - 1;
    if s > TWO_64 {
      ProductMonotone(TWO_64 + 1, s, period);
    }
  }

  /** At the first overflow the timer is off again, although its rule says on. */
  lemma OverflowTurnsOff(s: nat, period: uint64, preset: uint64)
    requires 1 <= period <= preset && 1 <= s <= TWO_64 && TWO_64 <= s * period < TWO_64 + period
    ensures !Fires(s % TWO_64, period, preset) && s >= Threshold(preset, period)
  {
    ThresholdIsLeast(preset, period, s);
    if s < TWO_64 {
      assert s % TWO_64 == s;
      assert (s * period) % TWO_64 == s * period - TWO_64;
    } else {
      assert s % TWO_64 == 0;
    }
  }

  /** The timer meets its rule when the run of true cycles has length `s`. */
  predicate ExactAt(s: nat, period: uint64, preset: uint64)
    requires period >= 1
  {
    Fires(s % TWO_64, period, preset) == (s >= Threshold(preset, period))
  }

  lemma ExactWhileFits(s: nat, period: uint64, preset: uint64, cycles: nat)
    requires period >= 1 && 1 <= s <= cycles && cycles * period < TWO_64
    ensures ExactAt(s, period, preset)
  {
    ProductMonotone(s, cycles, period);
    ProductMonotone(1, period, s);
    assert s % TWO_64 == s;
    FiresAtThreshold(s, period, preset);
  }

  lemma OverflowsWithin(period: uint64, cycles: nat) returns (s: nat)
    requires period >= 1 && cycles * period >= TWO_64
    ensures 1 <= s <= TWO_64 && s <= cycles && TWO_64 <= s * period < TWO_64 + period
  {
    s := FirstOverflow(period);
    if s > cycles {
      ProductMonotone(cycles + 1, s, period);
    }
  }

  /** A timer that delays meets its rule at every length of the run of true cycles up to N if
      and only if N cycles fit: the bound the history theorems ask for is exact. */
  lemma TimerExactWhileIff(period: uint64, preset: uint64, cycles: nat)
    requires 1 <= period <= preset && cycles >= 1
    ensures (forall s: nat :: 1 <= s <= cycles ==> ExactAt(s, period, preset)) <==> cycles * period < TWO_64
  {
    if cycles * period < TWO_64 {
      forall s: nat | 1 <= s <= cycles ensures ExactAt(s, period, preset) {
        ExactWhileFits(s, period, preset, cycles);
      }
    } else {
      var s := OverflowsWithin(period, cycles);
      OverflowTurnsOff(s, period, preset);
      assert !ExactAt(s, period, preset);
    }
  }

  /** With the wrap-around of `uint64_t`, a timer meets its rule at every length of the run
      of true cycles exactly when its preset is zero. */
  lemma TimerExactForeverIff(period: uint64, preset: uint64)
    requires period >= 1
    ensures (forall s: nat :: s >= 1 ==> ExactAt(s, period, preset)) <==> preset == 0
  {
    if preset > 0 {
      assert !Fires(TWO_64 % TWO_64, period, preset);
      ProductMonotone(1, period, TWO_64);
      ThresholdIsLeast(preset, period, TWO_64);
      assert !ExactAt(TWO_64, period, preset);
    }
  }

  /** A tree ticks its children independently. */
  lemma {:induction false} NodeAfterAnd(inputs: seq<Node>, h: seq<Image>)
    ensures NodeAfter(AndNode(inputs), h)
         == AndNode(seq(|inputs|, i requires 0 <= i < |inputs| => NodeAfter(inputs[i], h)))
  {
    if h == [] {
      assert inputs == seq(|inputs|, i requires 0 <= i < |inputs| => NodeAfter(inputs[i], h));
    } else {
      NodeAfterAnd(inputs, h[..|h| - 1]);
      assert NodeAfter(AndNode(inputs), h).inputs
          == seq(|inputs|, i requires 0 <= i < |inputs| => NodeAfter(inputs[i], h));
    }
  }

  lemma {:induction false} NodeAfterOr(inputs: seq<Node>, h: seq<Image>)
    ensures NodeAfter(OrNode(inputs), h)
         == OrNode(seq(|inputs|, i requires 0 <= i < |inputs| => NodeAfter(inputs[i], h)))
  {
    if h == [] {
      assert inputs == seq(|inputs|, i requires 0 <= i < |inputs| => NodeAfter(inputs[i], h));
    } else {
      NodeAfterOr(inputs, h[..|h| - 1]);
      assert NodeAfter(OrNode(inputs), h).inputs
          == seq(|inputs|, i requires 0 <= i < |inputs| => NodeAfter(inputs[i], h));
    }
  }

  lemma {:induction false} NodeAfterNot(input: Node, h: seq<Image>)
    ensures NodeAfter(NotNode(input), h) == NotNode(NodeAfter(input, h))
  {
    if h != [] {
      NodeAfterNot(input, h[..|h| - 1]);
    }
  }

  lemma {:induction false} NodeAfterSignal(ref: SignalRef, h: seq<Image>)
    ensures NodeAfter(SignalNode(ref), h) == SignalNode(ref)
  {
    if h != [] {
      NodeAfterSignal(ref, h[..|h| - 1]);
    }
  }

  /** A timer's counter is the length of the run of true results of its input. */
  lemma {:induction false} CounterIsStreak(input: Node, preset: uint64, period: uint64, h: seq<Image>)
    requires |h| < TWO_64
    ensures NodeAfter(TonNode(input, preset, period, 0), h)
         == TonNode(NodeAfter(input, h), preset, period, Streak(input, h))
  {
    if h != [] {
      var init := h[..|h| - 1];
      CounterIsStreak(input, preset, period, init);
      assert (Streak(input, init) + 1) % TWO_64 == Streak(input, init) + 1;
    }
  }

  lemma {:induction false} StreakReaches(n: Node, h: seq<Image>, k: nat)
    requires k >= 1
    ensures Streak(n, h) >= k <==> |h| >= k && forall j :: |h| - k < j <= |h| ==> Observed(n, h[..j])
  {
    if h != [] {
      var init := h[..|h| - 1];
      assert h[..|h|] == h;
      assert forall j :: 0 <= j <= |init| ==> init[..j] == h[..j];
      if k >= 2 {
        StreakReaches(n, init, k - 1);
        if Observed(n, h) && |h| >= k && forall j :: |init| - (k - 1) < j <= |init| ==> Observed(n, init[..j]) {
          forall j | |h| - k < j <= |h| ensures Observed(n, h[..j]) {
            if j <= |init| {
              assert init[..j] == h[..j];
            }
          }
        }
        if |h| >= k && forall j :: |h| - k < j <= |h| ==> Observed(n, h[..j]) {
          assert Observed(n, h[..|h|]);
          forall j | |init| - (k - 1) < j <= |init| ensures Observed(n, init[..j]) {
            assert init[..j] == h[..j];
          }
        }
      } else {
        assert Observed(n, h) <==> Observed(n, h[..|h|]);
      }
    }
  }

  // ---------- the history theorem for trees ----------

  /** From zeroed counters, the counting machine gives the stateless value after every history. */
  lemma {:induction false} MachineMeetsHistory(n: Node, h: seq<Image>)
    requires h != [] && n == Reset(n) && TimersFit(n, |h|) && PeriodsPositive(n)
    ensures Observed(n, h) <==> Holds(n, h)
    decreases n, 1
  {
    var init, m := h[..|h| - 1], h[|h| - 1];
    match n
    case SignalNode(ref) =>
      NodeAfterSignal(ref, init);
    case AndNode(inputs) =>
      NodeAfterAnd(inputs, init);
      forall i | 0 <= i < |inputs| ensures Observed(inputs[i], h) <==> Holds(inputs[i], h) {
        assert inputs[i] == Reset(n).inputs[i];
        MachineMeetsHistory(inputs[i], h);
      }
      assert forall i :: 0 <= i < |inputs| ==> NodeAfter(n, init).inputs[i] == NodeAfter(inputs[i], init);
    case OrNode(inputs) =>
      NodeAfterOr(inputs, init);
      forall i | 0 <= i < |inputs| ensures Observed(inputs[i], h) <==> Holds(inputs[i], h) {
        assert inputs[i] == Reset(n).inputs[i];
        MachineMeetsHistory(inputs[i], h);
      }
      assert forall i :: 0 <= i < |inputs| ==> NodeAfter(n, init).inputs[i] == NodeAfter(inputs[i], init);
    case NotNode(input) =>
      NodeAfterNot(input, init);
      MachineMeetsHistory(input, h);
    case TonNode(input, preset, period, _) =>
      TimerMeetsHistory(input, preset, period, h);
  }

  lemma {:induction false} TimerMeetsHistory(input: Node, preset: uint64, period: uint64, h: seq<Image>)
    requires h != [] && period >= 1 && |h| * period < TWO_64
    requires input == Reset(input) && TimersFit(input, |h|) && PeriodsPositive(input)
    ensures var timer := TonNode(input, preset, period, 0); Observed(timer, h) <==> Holds(timer, h)
    decreases input, 2
  {
    TimerIsStreak(input, preset, period, h);
    StreakReaches(input, h, Threshold(preset, period));
    forall j | 0 < j <= |h| ensures Observed(input, h[..j]) <==> Holds(input, h[..j]) {
      FitsShorter(input, |h|, j);
      MachineMeetsHistory(input, h[..j]);
    }
  }

  lemma {:induction false} NodeAfterConcat(n: Node, before: seq<Image>, h: seq<Image>)
    ensures NodeAfter(n, before + h) == NodeAfter(NodeAfter(n, before), h)
  {
    if h == [] {
      assert before + h == before;
    } else {
      assert (before + h)[..|before + h| - 1] == before + h[..|h| - 1];
      NodeAfterConcat(n, before, h[..|h| - 1]);
    }
  }

  /** A tree that is put back to work with the counters it had goes on as if the cycles in
      between had not been: its history is that of its own evaluations. */
  lemma ResumedMeetsHistory(n: Node, before: seq<Image>, h: seq<Image>)
    requires h != [] && n == Reset(n) && TimersFit(n, |before| + |h|) && PeriodsPositive(n)
    ensures Observed(NodeAfter(n, before), h) <==> Holds(n, before + h)
  {
    ObservedConcat(n, before, h);
    MachineMeetsHistory(n, before + h);
  }

  lemma ObservedConcat(n: Node, before: seq<Image>, h: seq<Image>)
    requires h != []
    ensures Observed(NodeAfter(n, before), h) <==> Observed(n, before + h)
  {
    assert (before + h)[..|before + h| - 1] == before + h[..|h| - 1];
    NodeAfterConcat(n, before, h[..|h| - 1]);
  }

  /** A timer fires when the run of true results of its input has reached the threshold. */
  lemma TimerIsStreak(input: Node, preset: uint64, period: uint64, h: seq<Image>)
    requires h != [] && period >= 1 && |h| * period < TWO_64
    ensures Observed(TonNode(input, preset, period, 0), h) <==> Streak(input, h) >= Threshold(preset, period)
  {
    ProductMonotone(1, period, |h|);
    TimerObserved(input, preset, period, h);
    NextCount(Streak(input, h[..|h| - 1]), |h|, preset, period);
  }

  lemma TimerObserved(input: Node, preset: uint64, period: uint64, h: seq<Image>)
    requires 0 < |h| < TWO_64
    ensures Observed(TonNode(input, preset, period, 0), h)
       <==> Observed(input, h) && Fires(Bump(Streak(input, h[..|h| - 1])), period, preset)
  {
    CounterIsStreak(input, preset, period, h[..|h| - 1]);
  }

  lemma NextCount(elapsed: nat, cycles: nat, preset: uint64, period: uint64)
    requires elapsed < cycles < TWO_64 && period >= 1 && cycles * period < TWO_64
    ensures Bump(elapsed) == elapsed + 1
    ensures Fires(Bump(elapsed), period, preset) <==> elapsed + 1 >= Threshold(preset, period)
  {
    ProductMonotone(elapsed + 1, cycles, period);
    FiresAtThreshold(elapsed + 1, period, preset);
  }

  lemma {:induction false} FitsShorter(n: Node, cycles: nat, fewer: nat)
    requires TimersFit(n, cycles) && fewer <= cycles
    ensures TimersFit(n, fewer)
  {
    match n
    case SignalNode(_) =>
    case AndNode(inputs) =>
      forall i | 0 <= i < |inputs| { FitsShorter(inputs[i], cycles, fewer); }
    case OrNode(inputs) =>
      forall i | 0 <= i < |inputs| { FitsShorter(inputs[i], cycles, fewer); }
    case NotNode(input) =>
      FitsShorter(input, cycles, fewer);
    case TonNode(input, _, period, _) =>
      FitsShorter(input, cycles, fewer);
      assert fewer * period <= cycles * period;
  }
}
