/**
 The logger from call to file: the batches that the threads of module `FlushSteps` write go
 through the rotating files of module `LogRotation`, so what the files hold is a suffix of
 the lines of the entries that survived the ring, whatever the interleaving.
 */
module LoggedFiles {
  import opened Wrappers
  import opened Logger
  import opened FlushSteps
  import opened LogRotation
  import opened LogReader

  /** The batches that have been written, in order. */
  function Batches(w: seq<Action>): seq<seq<Entry>>
    requires Executable(w)
  {
    if w == [] then []
    else
      var s, a := Exec(w[..|w| - 1]), w[|w| - 1];
      Batches(w[..|w| - 1]) + if a.FlusherWrite? then [s.flusher.batch]
                              else if a.FinalWrite? then [s.owner.batch]
                              else []
  }

  // ---------- what a batch can be ----------

  predicate Fits(entries: seq<Entry>) {
    |entries| <= CAPACITY && forall i :: 0 <= i < |entries| ==> |entries[i].message| <= MAX_MESSAGE
  }

  predicate AllFit(s: State) {
    && Fits(s.ring)
    && (s.flusher.FlusherWrites? ==> Fits(s.flusher.batch))
    && (s.owner.OwnerWrites? ==> Fits(s.owner.batch))
  }

  lemma StepKeepsFit(s: State, a: Action)
    requires Enabled(s, a) && AllFit(s)
    ensures AllFit(Step(s, a))
  {
  }

  lemma {:induction false} BatchesFit(w: seq<Action>)
    requires Executable(w)
    ensures AllFit(Exec(w)) && forall i :: 0 <= i < |Batches(w)| ==> Fits(Batches(w)[i])
  {
    if w != [] {
      BatchesFit(w[..|w| - 1]);
      StepKeepsFit(Exec(w[..|w| - 1]), w[|w| - 1]);
    }
  }

  lemma FlattenMore(batches: seq<seq<Entry>>, batch: seq<Entry>)
    ensures Flatten(batches + [batch]) == Flatten(batches) + batch
  {
    assert (batches + [batch])[..|batches|] == batches;
  }

  lemma {:induction false} BatchesAreWritten(w: seq<Action>)
    requires Executable(w)
    ensures Flatten(Batches(w)) == Exec(w).written
  {
    if w != [] {
      var init, a := w[..|w| - 1], w[|w| - 1];
      BatchesAreWritten(init);
      if a.FlusherWrite? {
        FlattenMore(Batches(init), Exec(init).flusher.batch);
      } else if a.FinalWrite? {
        FlattenMore(Batches(init), Exec(init).owner.batch);
      } else {
        assert Batches(init) + [] == Batches(init);
      }
    }
  }

  // ---------- batches as text ----------

  function Texts(batches: seq<seq<Entry>>, stamp: int -> string): (texts: seq<string>)
    ensures |texts| == |batches|
  {
    seq(|batches|, i requires 0 <= i < |batches| => Lines(batches[i], stamp))
  }

  lemma {:induction false} TextsAreLines(batches: seq<seq<Entry>>, stamp: int -> string)
    ensures AllText(Texts(batches, stamp)) == Lines(Flatten(batches), stamp)
  {
    if batches != [] {
      var init, last := batches[..|batches| - 1], batches[|batches| - 1];
      TextsAreLines(init, stamp);
      LinesConcat(Flatten(init), last, stamp);
      assert Texts(batches, stamp)[..|init|] == Texts(init, stamp);
    }
  }

  // ---------- from the calls to the files ----------

  lemma WrittenIsPrefix(w: seq<Action>)
    requires Executable(w)
    ensures Exec(w).written <= Survivors(Epochs(w))
  {
    EveryEntryAccounted(w);
    var s := Exec(w);
    Associative(s.written, InTransit(s), s.ring);
  }

  /** `states` are the files before and after each write of the run, from a clean directory. */
  ghost predicate WritesOf(w: seq<Action>, states: seq<Files>, stamp: int -> string, maxFileBytes: nat, maxBackups: int)
    requires Executable(w)
  {
    && |states| == |Batches(w)| + 1 && states[0] == map[]
    && forall i :: 0 <= i < |Batches(w)| ==>
         Written(states[i], states[i + 1], Lines(Batches(w)[i], stamp), maxFileBytes, maxBackups)
  }

  lemma SizesOfFiles(files: Files, family: Family, maxFileBytes: nat)
    requires Shows(files, family) && SizesBounded(family, maxFileBytes, CAPACITY * MAX_LINE)
    ensures 0 in files ==> |files[0]| < maxFileBytes
    ensures forall k :: k in files && k >= 1 ==>
      maxFileBytes <= |files[k]| < (if maxFileBytes == 0 then 1 else maxFileBytes) + CAPACITY * MAX_LINE
  {
    assert Lookup(files, 0) == family.live;
    forall k | k in files && k >= 1
      ensures maxFileBytes <= |files[k]| < (if maxFileBytes == 0 then 1 else maxFileBytes) + CAPACITY * MAX_LINE
    {
      assert Lookup(files, k) == if k <= |family.backups| then Some(family.backups[k - 1]) else None;
    }
  }

  lemma {:induction false} FlattenSplits(batches: seq<seq<Entry>>, n: nat)
    requires n <= |batches|
    ensures Flatten(batches) == Flatten(batches[..n]) + Flatten(batches[n..])
  {
    if n == |batches| {
      assert batches[..n] == batches;
    } else {
      var init, last := batches[..|batches| - 1], batches[|batches| - 1];
      FlattenSplits(init, n);
      assert init[..n] == batches[..n] && init[n..] == batches[n..][..|batches| - n - 1];
      Associative(Flatten(batches[..n]), Flatten(init[n..]), last);
    }
  }

  /** After any interleaving of logging, draining, writing and stopping: what has been written
      is a prefix of the entries that survived; the files are a contiguous family and hold the
      lines of all written entries but the oldest ones; a reader gets these entries back from
      them; entries are lost only when every backup exists; and no file outgrows its bound. */
  lemma FilesHoldSurvivors(w: seq<Action>, states: seq<Files>, stamp: int -> string,
                           maxFileBytes: nat, maxBackups: int)
    returns (family: Family, kept: seq<Entry>)
    requires Executable(w) && Stamps(stamp) && WritesOf(w, states, stamp, maxFileBytes, maxBackups)
    ensures Exec(w).written <= Survivors(Epochs(w))
    ensures Shows(states[|states| - 1], family) && |family.backups| <= Limit(maxBackups)
    ensures Text(family) == Lines(kept, stamp)
    ensures Newest(kept, Exec(w).written)
    ensures kept != Exec(w).written ==> |family.backups| == Limit(maxBackups)
    ensures OneLine(kept, stamp) ==> ReadLines(Text(family)) == Some(Records(kept, stamp))
    ensures var files := states[|states| - 1];
      && (0 in files ==> |files[0]| < maxFileBytes)
      && forall k :: k in files && k >= 1 ==>
           maxFileBytes <= |files[k]| < (if maxFileBytes == 0 then 1 else maxFileBytes) + CAPACITY * MAX_LINE
  {
    var lost: nat;
    WrittenIsPrefix(w);
    family, lost := FilesHoldBatches(w, states, stamp, maxFileBytes, maxBackups);
    kept := KeptEntries(w, lost, stamp);
    if OneLine(kept, stamp) {
      LinesReadBack(kept, stamp);
    }
  }

  /** `kept` is the newest part of `all`. */
  predicate Newest(kept: seq<Entry>, all: seq<Entry>) {
    |kept| <= |all| && kept == all[|all| - |kept|..]
  }

  lemma NewestOfBoth(a: seq<Entry>, b: seq<Entry>)
    ensures Newest(b, a + b)
  {
  }

  /** The entries of all batches but the first `lost`. */
  lemma KeptEntries(w: seq<Action>, lost: nat, stamp: int -> string) returns (kept: seq<Entry>)
    requires Executable(w) && lost <= |Batches(w)|
    ensures AllText(Texts(Batches(w), stamp)[lost..]) == Lines(kept, stamp)
    ensures Newest(kept, Exec(w).written)
    ensures lost == 0 ==> kept == Exec(w).written
  {
    kept := Flatten(Batches(w)[lost..]);
    BatchesAreWritten(w);
    LaterTexts(Batches(w), lost, stamp);
    LaterBatches(Batches(w), lost);
  }

  lemma LaterTexts(batches: seq<seq<Entry>>, lost: nat, stamp: int -> string)
    requires lost <= |batches|
    ensures AllText(Texts(batches, stamp)[lost..]) == Lines(Flatten(batches[lost..]), stamp)
  {
    TextsAreLines(batches[lost..], stamp);
    assert Texts(batches[lost..], stamp) == Texts(batches, stamp)[lost..];
  }

  lemma LaterBatches(batches: seq<seq<Entry>>, lost: nat)
    requires lost <= |batches|
    ensures Newest(Flatten(batches[lost..]), Flatten(batches))
    ensures lost == 0 ==> Flatten(batches[lost..]) == Flatten(batches)
  {
    FlattenSplits(batches, lost);
    NewestOfBoth(Flatten(batches[..lost]), Flatten(batches[lost..]));
    assert batches[0..] == batches;
  }

  /** The same in batches. */
  lemma FilesHoldBatches(w: seq<Action>, states: seq<Files>, stamp: int -> string,
                         maxFileBytes: nat, maxBackups: int)
    returns (family: Family, lost: nat)
    requires Executable(w) && Stamps(stamp) && WritesOf(w, states, stamp, maxFileBytes, maxBackups)
    ensures Shows(states[|states| - 1], family) && |family.backups| <= Limit(maxBackups)
    ensures lost <= |Batches(w)| && Text(family) == AllText(Texts(Batches(w), stamp)[lost..])
    ensures lost > 0 ==> |family.backups| == Limit(maxBackups)
    ensures var files := states[|states| - 1];
      && (0 in files ==> |files[0]| < maxFileBytes)
      && forall k :: k in files && k >= 1 ==>
           maxFileBytes <= |files[k]| < (if maxFileBytes == 0 then 1 else maxFileBytes) + CAPACITY * MAX_LINE
  {
    var batches, texts := Batches(w), Texts(Batches(w), stamp);
    BatchesFit(w);
    forall i | 0 <= i < |texts| ensures |texts[i]| <= CAPACITY * MAX_LINE {
      BatchLength(batches[i], stamp);
    }
    family := FamilyAfter(texts, maxFileBytes, maxBackups);
    lost := RetentionAndBound(texts, maxFileBytes, maxBackups, CAPACITY * MAX_LINE);
    assert texts[..|texts|] == texts;
    FilesShowFamily(states, texts, maxFileBytes, maxBackups, |texts|);
    SizesOfFiles(states[|texts|], family, maxFileBytes);
  }

  /** And once the logger has stopped without logging on, the files hold the newest survivors. */
  lemma StoppedFilesHoldAll(w: seq<Action>, states: seq<Files>, stamp: int -> string,
                            maxFileBytes: nat, maxBackups: int)
    returns (family: Family, kept: seq<Entry>)
    requires Executable(w) && Stamps(stamp) && WritesOf(w, states, stamp, maxFileBytes, maxBackups)
    requires Exec(w).owner.Stopped? && Exec(w).ring == []
    ensures Shows(states[|states| - 1], family) && Text(family) == Lines(kept, stamp)
    ensures Newest(kept, Survivors(Epochs(w)))
    ensures kept != Survivors(Epochs(w)) ==> |family.backups| == Limit(maxBackups)
  {
    StoppedIsAllWritten(w);
    family, kept := FilesHoldSurvivors(w, states, stamp, maxFileBytes, maxBackups);
  }
}
