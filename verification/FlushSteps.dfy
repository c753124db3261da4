/**
 The logger as its threads run it: any thread logs, the flusher drains under the lock and
 writes outside it, and `stop` joins the flusher before its own last flush.  The account of
 every entry is proved for every interleaving.
 */
module FlushSteps {
  import opened Logger

  datatype Flusher = Off | Looping | FlusherWrites(batch: seq<Entry>)

  /** The thread that starts and stops the logger. */
  datatype Owner = Stopped | Started | Joining | Draining | OwnerWrites(batch: seq<Entry>)

  datatype State = State(ring: seq<Entry>, dropped: nat, written: seq<Entry>, flusher: Flusher, owner: Owner)

  const INITIAL := State([], 0, [], Off, Stopped)

  datatype Action =
    | Log(level: Level, message: string, now: int)  // any thread, under the lock
    | Start                                         // owner: a no-op when running
    | FlusherDrain                                  // flusher, under the lock
    | FlusherWrite                                  // flusher, outside the lock
    | RequestStop                                   // owner: is_running_ cleared, stop requested
    | FlusherExit                                   // flusher sees the request between flushes
    | Join                                          // owner: the flusher has ended
    | FinalDrain                                    // owner, under the lock
    | FinalWrite                                    // owner, outside the lock

  predicate Enabled(s: State, a: Action) {
    match a
    case Log(_, _, _) => true
    case Start => s.owner.Stopped?
    case FlusherDrain => s.flusher.Looping?
    case FlusherWrite => s.flusher.FlusherWrites?
    case RequestStop => s.owner.Started?
    case FlusherExit => s.flusher.Looping? && s.owner.Joining?
    case Join => s.owner.Joining? && s.flusher.Off?
    case FinalDrain => s.owner.Draining?
    case FinalWrite => s.owner.OwnerWrites?
  }

  /** A flush of an empty ring returns before writing. */
  function Step(s: State, a: Action): State
    requires Enabled(s, a)
  {
    match a
    case Log(level, message, now) =>
      s.(ring := Push(s.ring, Entry(now, level, Cut(message))),
         dropped := s.dropped + if |s.ring| >= CAPACITY then 1 else 0)
    case Start => s.(owner := Started, flusher := Looping)
    case FlusherDrain => if s.ring == [] then s else s.(flusher := FlusherWrites(s.ring), ring := [])
    case FlusherWrite => s.(written := s.written + s.flusher.batch, flusher := Looping)
    case RequestStop => s.(owner := Joining)
    case FlusherExit => s.(flusher := Off)
    case Join => s.(owner := Draining)
    case FinalDrain => if s.ring == [] then s.(owner := Stopped) else s.(owner := OwnerWrites(s.ring), ring := [])
    case FinalWrite => s.(written := s.written + s.owner.batch, owner := Stopped)
  }

  predicate Executable(w: seq<Action>)
    decreases |w|, 0
  {
    w == [] || (Executable(w[..|w| - 1]) && Enabled(Exec(w[..|w| - 1]), w[|w| - 1]))
  }

  function Exec(w: seq<Action>): State
    requires Executable(w)
    decreases |w|, 1
  {
    if w == [] then INITIAL else Step(Exec(w[..|w| - 1]), w[|w| - 1])
  }

  // ---------- the account ----------

  /** All entries logged, in order. */
  function Logged(w: seq<Action>): seq<Entry> {
    if w == [] then []
    else
      var a := w[|w| - 1];
      Logged(w[..|w| - 1]) + if a.Log? then [Entry(a.now, a.level, Cut(a.message))] else []
  }

  function EpochsAfter(epochs: seq<seq<Entry>>, a: Action): (more: seq<seq<Entry>>)
    requires epochs != []
    ensures more != []
  {
    match a
    case Log(level, message, now) =>
      epochs[..|epochs| - 1] + [epochs[|epochs| - 1] + [Entry(now, level, Cut(message))]]
    case FlusherDrain => epochs + [[]]
    case FinalDrain => epochs + [[]]
    case _ => epochs
  }

  /** The logged entries, grouped by the drain that took them; the last group is still open. */
  function Epochs(w: seq<Action>): (epochs: seq<seq<Entry>>)
    ensures epochs != []
  {
    if w == [] then [[]] else EpochsAfter(Epochs(w[..|w| - 1]), w[|w| - 1])
  }

  function Flatten(epochs: seq<seq<Entry>>): seq<Entry> {
    if epochs == [] then [] else Flatten(epochs[..|epochs| - 1]) + epochs[|epochs| - 1]
  }

  /** Of each group, its last `CAPACITY` entries. */
  function Survivors(epochs: seq<seq<Entry>>): (kept: seq<Entry>)
    ensures |kept| <= |Flatten(epochs)|
  {
    if epochs == [] then [] else Survivors(epochs[..|epochs| - 1]) + Latest(epochs[|epochs| - 1])
  }

  /** The batch that has left the ring and not reached the file. */
  function InTransit(s: State): seq<Entry> {
    (if s.flusher.FlusherWrites? then s.flusher.batch else [])
    + (if s.owner.OwnerWrites? then s.owner.batch else [])
  }

  /** `stop` joins before its own flush, so the two threads never hold batches together. */
  predicate OneWriter(s: State) {
    && (s.owner.Draining? || s.owner.OwnerWrites? || s.owner.Stopped? ==> s.flusher.Off?)
    && (s.flusher.Off? ==> !s.owner.Started?)
  }

  lemma EpochsExtend(epochs: seq<seq<Entry>>, e: Entry)
    requires epochs != []
    ensures var last := |epochs| - 1;
            var more := epochs[..last] + [epochs[last] + [e]];
            && Flatten(more) == Flatten(epochs) + [e]
            && Survivors(more) == Survivors(epochs[..last]) + Push(Latest(epochs[last]), e)
  {
    var last := |epochs| - 1;
    var more := epochs[..last] + [epochs[last] + [e]];
    assert more[..last] == epochs[..last];
    PushKeepsLatest(epochs[last], e);
  }

  lemma EpochsClose(epochs: seq<seq<Entry>>)
    ensures Flatten(epochs + [[]]) == Flatten(epochs) && Survivors(epochs + [[]]) == Survivors(epochs)
  {
    assert (epochs + [[]])[..|epochs|] == epochs;
  }

  lemma {:induction false} EpochsAreLogged(w: seq<Action>)
    ensures Flatten(Epochs(w)) == Logged(w)
  {
    if w == [] {
      assert Flatten([[]]) == Flatten([[]][..0]) + [];
    } else {
      var init, a := w[..|w| - 1], w[|w| - 1];
      EpochsAreLogged(init);
      if a.Log? {
        EpochsExtend(Epochs(init), Entry(a.now, a.level, Cut(a.message)));
      } else {
        EpochsClose(Epochs(init));
      }
    }
  }

  /** Written entries, then the batch in transit, then the ring, are exactly the last 1024
      entries of each group, in order; the ring is that part of the open group; and the
      dropped counter is the number of entries that are missing. */
  predicate Accounted(s: State, epochs: seq<seq<Entry>>)
    requires epochs != []
  {
    && OneWriter(s)
    && s.ring == Latest(epochs[|epochs| - 1])
    && s.written + InTransit(s) + s.ring == Survivors(epochs)
    && s.dropped == |Flatten(epochs)| - |Survivors(epochs)|
  }

  lemma LogAccounted(s: State, epochs: seq<seq<Entry>>, a: Action)
    requires epochs != [] && Accounted(s, epochs) && a.Log?
    ensures Accounted(Step(s, a), EpochsAfter(epochs, a))
  {
    var last := |epochs| - 1;
    var e := Entry(a.now, a.level, Cut(a.message));
    EpochsExtend(epochs, e);
    PushKeepsLatest(epochs[last], e);
    PrefixKept(s.written + InTransit(s), s.ring, Survivors(epochs[..last]), Push(s.ring, e));
    assert EpochsAfter(epochs, a)[last] == epochs[last] + [e];
  }

  lemma RingMovesToTransit(written: seq<Entry>, ring: seq<Entry>)
    ensures written + ring + [] == written + [] + ring
  {
  }

  lemma DrainAccounted(s: State, epochs: seq<seq<Entry>>, a: Action)
    requires epochs != [] && Accounted(s, epochs) && Enabled(s, a) && (a.FlusherDrain? || a.FinalDrain?)
    ensures Accounted(Step(s, a), EpochsAfter(epochs, a))
  {
    var t, more := Step(s, a), EpochsAfter(epochs, a);
    EpochsClose(epochs);
    assert more == epochs + [[]] && more[|more| - 1] == [] && Latest([]) == [];
    assert InTransit(s) == [] && t.written == s.written && t.ring == [];
    assert InTransit(t) == s.ring;
    RingMovesToTransit(s.written, s.ring);
    assert OneWriter(t) && t.dropped == s.dropped;
  }

  lemma WriteAccounted(s: State, epochs: seq<seq<Entry>>, a: Action)
    requires epochs != [] && Accounted(s, epochs) && Enabled(s, a) && !a.Log? && !a.FlusherDrain? && !a.FinalDrain?
    ensures Accounted(Step(s, a), EpochsAfter(epochs, a))
  {
    var t := Step(s, a);
    assert t.written + InTransit(t) == s.written + InTransit(s);
  }

  /** In every interleaving of logging, draining, writing and stopping, every entry is accounted for. */
  lemma {:induction false} EveryEntryAccounted(w: seq<Action>)
    requires Executable(w)
    ensures Accounted(Exec(w), Epochs(w)) && Flatten(Epochs(w)) == Logged(w)
  {
    EpochsAreLogged(w);
    if w == [] {
      assert Survivors([[]]) == Survivors([[]][..0]) + Latest([]);
    } else {
      var init, a := w[..|w| - 1], w[|w| - 1];
      EveryEntryAccounted(init);
      if a.Log? {
        LogAccounted(Exec(init), Epochs(init), a);
      } else if a.FlusherDrain? || a.FinalDrain? {
        DrainAccounted(Exec(init), Epochs(init), a);
      } else {
        WriteAccounted(Exec(init), Epochs(init), a);
      }
    }
  }

  /** Replacing the same tail on both sides of an equation. */
  lemma PrefixKept(a: seq<Entry>, tail: seq<Entry>, b: seq<Entry>, other: seq<Entry>)
    requires a + tail == b + tail
    ensures a + other == b + other
  {
    assert a == (a + tail)[..|a|] && b == (b + tail)[..|b|];
  }

  /** When the logger has stopped, nothing is in transit: what was not dropped is in the file
      or, if logged after the last flush, still in the ring. */
  lemma StopLosesNothing(w: seq<Action>)
    requires Executable(w) && Exec(w).owner.Stopped?
    ensures InTransit(Exec(w)) == [] && Exec(w).written + Exec(w).ring == Survivors(Epochs(w))
  {
    EveryEntryAccounted(w);
  }

  /** `part` consists of the elements of `whole` at the increasing positions `at`. */
  predicate Picks(part: seq<Entry>, whole: seq<Entry>, at: seq<nat>) {
    && |at| == |part|
    && (forall i :: 0 <= i < |at| ==> at[i] < |whole| && part[i] == whole[at[i]])
    && (forall i, j :: 0 <= i < j < |at| ==> at[i] < at[j])
  }

  lemma LatestIsSuffix(s: seq<Entry>)
    ensures Latest(s) == s[|s| - |Latest(s)|..]
  {
  }

  lemma PicksMore(part: seq<Entry>, whole: seq<Entry>, at: seq<nat>, more: seq<Entry>, skip: nat)
    returns (all: seq<nat>)
    requires Picks(part, whole, at) && skip <= |more|
    ensures Picks(part + more[skip..], whole + more, all)
  {
    all := at + seq(|more| - skip, i requires 0 <= i < |more| - skip => |whole| + skip + i);
  }

  /** Order is kept: the survivors are the logged entries at increasing positions. */
  lemma {:induction false} SurvivorsInOrder(epochs: seq<seq<Entry>>) returns (kept: seq<nat>)
    ensures Picks(Survivors(epochs), Flatten(epochs), kept)
  {
    kept := [];
    if epochs != [] {
      var init, last := epochs[..|epochs| - 1], epochs[|epochs| - 1];
      kept := SurvivorsInOrder(init);
      LatestIsSuffix(last);
      kept := PicksMore(Survivors(init), Flatten(init), kept, last, |last| - |Latest(last)|);
    }
  }

  lemma {:induction false} SameCountIff(epochs: seq<seq<Entry>>)
    ensures |Survivors(epochs)| == |Flatten(epochs)| <==> forall i :: 0 <= i < |epochs| ==> |epochs[i]| <= CAPACITY
  {
    if epochs != [] {
      var init, last := epochs[..|epochs| - 1], epochs[|epochs| - 1];
      SameCountIff(init);
      FitsWithLast(init, last);
      assert init + [last] == epochs;
    }
  }

  lemma FitsWithLast(init: seq<seq<Entry>>, last: seq<Entry>)
    ensures (forall i :: 0 <= i < |init + [last]| ==> |(init + [last])[i]| <= CAPACITY)
       <==> (forall i :: 0 <= i < |init| ==> |init[i]| <= CAPACITY) && |last| <= CAPACITY
  {
    var all := init + [last];
    assert all[|init|] == last && forall i :: 0 <= i < |init| ==> all[i] == init[i];
  }

  /** Nothing is dropped exactly when no more than 1024 entries come between two drains. */
  lemma DroppedNothingIff(w: seq<Action>)
    requires Executable(w)
    ensures Exec(w).dropped == 0 <==> forall i :: 0 <= i < |Epochs(w)| ==> |Epochs(w)[i]| <= 1024
  {
    EveryEntryAccounted(w);
    SameCountIff(Epochs(w));
  }

  // ---------- nobody waits for ever ----------

  lemma OneMore(w: seq<Action>, a: Action) returns (v: seq<Action>)
    requires Executable(w) && Enabled(Exec(w), a) && !a.Log?
    ensures w <= v && Executable(v) && Exec(v) == Step(Exec(w), a) && Logged(v) == Logged(w)
  {
    v := w + [a];
    assert v[..|w|] == w && Logged(w) + [] == Logged(w);
  }

  /** Logging is possible in every state: a call never waits for the file.  It makes the newest
      entry of the ring, with the level, the time and the first 160 characters of the message. */
  lemma LoggingNeverWaits(s: State, level: Level, message: string, now: int)
    ensures Enabled(s, Log(level, message, now))
    ensures var ring := Step(s, Log(level, message, now)).ring;
      && ring != [] && ring[|ring| - 1].level == level && ring[|ring| - 1].timestamp == now
      && ring[|ring| - 1].message == if |message| <= 160 then message else message[..160]
  {
  }

  /** A stopped logger can be started, and a started one can write all that is pending without
      being stopped. */
  lemma StartedWrites(w: seq<Action>) returns (v: seq<Action>)
    requires Executable(w) && (Exec(w).owner.Stopped? || Exec(w).owner.Started?)
    ensures w <= v && Executable(v) && Logged(v) == Logged(w) && Exec(v).owner.Started?
    ensures Exec(v).ring == [] && Exec(v).written == Survivors(Epochs(v))
  {
    v := w;
    if Exec(v).owner.Stopped? {
      v := OneMore(v, Start);
    }
    EveryEntryAccounted(v);
    if Exec(v).flusher.FlusherWrites? {
      v := OneMore(v, FlusherWrite);
    }
    v := OneMore(v, FlusherDrain);
    if Exec(v).flusher.FlusherWrites? {
      v := OneMore(v, FlusherWrite);
    }
    IdleIsAllWritten(v);
  }

  lemma IdleIsAllWritten(w: seq<Action>)
    requires Executable(w) && Exec(w).owner.Started? && !Exec(w).flusher.FlusherWrites? && Exec(w).ring == []
    ensures Exec(w).written == Survivors(Epochs(w))
  {
    EveryEntryAccounted(w);
    assert Exec(w).written + [] + [] == Exec(w).written;
  }

  /** The flusher hears the stop: it finishes its batch and ends. */
  lemma FlusherEnds(w: seq<Action>) returns (v: seq<Action>)
    requires Executable(w) && Exec(w).owner.Joining?
    ensures w <= v && Executable(v) && Logged(v) == Logged(w)
    ensures Exec(v).owner.Joining? && Exec(v).flusher.Off?
  {
    v := w;
    if Exec(v).flusher.FlusherWrites? {
      v := OneMore(v, FlusherWrite);
    }
    if Exec(v).flusher.Looping? {
      v := OneMore(v, FlusherExit);
    }
  }

  /** From every reachable state `stop` can run to its end without further calls to the logger;
      begun before the last drain, it leaves nothing in the ring: what was not dropped is written. */
  lemma StopFinishes(w: seq<Action>) returns (v: seq<Action>)
    requires Executable(w) && !Exec(w).owner.Stopped?
    ensures w <= v && Executable(v) && Logged(v) == Logged(w) && Exec(v).owner.Stopped?
    ensures !Exec(w).owner.OwnerWrites? ==> Exec(v).ring == [] && Exec(v).written == Survivors(Epochs(v))
  {
    v := w;
    if Exec(v).owner.Started? {
      v := OneMore(v, RequestStop);
    }
    if Exec(v).owner.Joining? {
      v := FlusherEnds(v);
      v := OneMore(v, Join);
    }
    if Exec(v).owner.Draining? {
      v := OneMore(v, FinalDrain);
    }
    if Exec(v).owner.OwnerWrites? {
      v := OneMore(v, FinalWrite);
    }
    if Exec(v).ring == [] {
      StoppedIsAllWritten(v);
    }
  }

  lemma StoppedIsAllWritten(w: seq<Action>)
    requires Executable(w) && Exec(w).owner.Stopped? && Exec(w).ring == []
    ensures Exec(w).written == Survivors(Epochs(w))
  {
    StopLosesNothing(w);
    assert Exec(w).written + [] == Exec(w).written;
  }
}
