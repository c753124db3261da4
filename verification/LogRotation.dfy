/**
 The file family below the logger: a live file and numbered backups.  One rotation is
 proved file by file; over any number of writes the backups stay contiguous, keep a suffix
 of everything written, and stay below a fixed size.
 */
module LogRotation {
  import opened Wrappers
  import opened Logger

  /** File contents by suffix number: 0 is the live file, i is `<path>.i`. */
  type Files = map<nat, string>

  const STAMP_LENGTH := 24
  const MAX_LINE := 194

  // ---------- lines ----------

  function LevelName(level: Level): string {
    match level
    case Info => "INFO"
    case Warn => "WARN"
    case Error => "ERROR"
  }

  /** One line of the file; `stamp` renders a time in 24 characters. */
  function Line(e: Entry, stamp: int -> string): string {
    stamp(e.timestamp) + " [" + LevelName(e.level) + "] " + e.message + "\n"
  }

  function Lines(entries: seq<Entry>, stamp: int -> string): string {
    if entries == [] then "" else Lines(entries[..|entries| - 1], stamp) + Line(entries[|entries| - 1], stamp)
  }

  ghost predicate Stamps(stamp: int -> string) {
    forall t :: |stamp(t)| == STAMP_LENGTH
  }

  /** A batch of n entries whose messages fit their slots is at most 194 n characters. */
  lemma {:induction false} BatchLength(entries: seq<Entry>, stamp: int -> string)
    requires Stamps(stamp) && forall i :: 0 <= i < |entries| ==> |entries[i].message| <= MAX_MESSAGE
    ensures |Lines(entries, stamp)| <= |entries| * MAX_LINE
  {
    if entries != [] {
      BatchLength(entries[..|entries| - 1], stamp);
    }
  }

  lemma {:induction false} LinesConcat(a: seq<Entry>, b: seq<Entry>, stamp: int -> string)
    ensures Lines(a + b, stamp) == Lines(a, stamp) + Lines(b, stamp)
  {
    if b == [] {
      assert a + b == a;
    } else {
      var init, e := b[..|b| - 1], b[|b| - 1];
      assert a + b == a + init + [e];
      LinesConcat(a, init, stamp);
      LineAppended(a + init, e, stamp);
      Associative(Lines(a, stamp), Lines(init, stamp), Line(e, stamp));
    }
  }

  lemma LineAppended(entries: seq<Entry>, e: Entry, stamp: int -> string)
    ensures Lines(entries + [e], stamp) == Lines(entries, stamp) + Line(e, stamp)
  {
    assert (entries + [e])[..|entries|] == entries;
  }

  lemma Associative<T>(a: seq<T>, b: seq<T>, c: seq<T>)
    ensures a + b + c == a + (b + c)
    ensures a <= a + b + c
  {
  }

  // ---------- one rotation ----------

  /** `rename` replaces the destination. */
  function Renamed(files: Files, src: nat, dst: nat): Files
    requires src in files && src != dst
  {
    (files - {src})[dst := files[src]]
  }

  function Lookup(files: Files, k: nat): Option<string> {
    if k in files then Some(files[k]) else None
  }

  /** What a rotation leaves under suffix `k`: the live file becomes .1, and each .k below the
      limit becomes .k+1; the file at the limit is replaced, or stays if there is none to replace it. */
  function AfterRotation(was: Files, maxBackups: int, k: nat): Option<string> {
    if k == 0 then None
    else if k == 1 then Lookup(was, 0)
    else if k <= maxBackups && k - 1 in was then Some(was[k - 1])
    else if k < maxBackups then None
    else Lookup(was, k)
  }

  ghost predicate Rotated(was: Files, files: Files, maxBackups: int) {
    forall k: nat :: Lookup(files, k) == AfterRotation(was, maxBackups, k)
  }

  /** The family inside the loop, when suffixes above `i` are done and the file at `i` has moved up. */
  function DuringRotation(was: Files, maxBackups: int, i: int, k: nat): Option<string> {
    if k < i || k > maxBackups || i == maxBackups then Lookup(was, k)
    else if k == i then None
    else AfterRotation(was, maxBackups, k)
  }

  ghost predicate PartlyRotated(was: Files, files: Files, maxBackups: int, i: int) {
    forall k: nat :: Lookup(files, k) == DuringRotation(was, maxBackups, i, k)
  }

  lemma RotationStep(was: Files, files: Files, maxBackups: int, i: int)
    requires 2 <= i <= maxBackups && PartlyRotated(was, files, maxBackups, i)
    ensures PartlyRotated(was, if i - 1 in files then Renamed(files, i - 1, i) else files, maxBackups, i - 1)
  {
    var next := if i - 1 in files then Renamed(files, i - 1, i) else files;
    assert Lookup(files, i - 1) == Lookup(was, i - 1);
    forall k: nat ensures Lookup(next, k) == DuringRotation(was, maxBackups, i - 1, k) {
      assert Lookup(files, k) == DuringRotation(was, maxBackups, i, k);
    }
  }

  lemma RotationEnds(was: Files, files: Files, maxBackups: int, i: int)
    requires i == (if maxBackups >= 2 then 1 else maxBackups) && PartlyRotated(was, files, maxBackups, i)
    requires 0 in was
    ensures 0 in files && Rotated(was, Renamed(files, 0, 1), maxBackups)
  {
    assert Lookup(files, 0) == Lookup(was, 0);
    forall k: nat ensures Lookup(Renamed(files, 0, 1), k) == AfterRotation(was, maxBackups, k) {
      assert Lookup(files, k) == DuringRotation(was, maxBackups, i, k);
    }
  }

  class LogFiles {
    var files: Files
    const maxFileBytes: nat
    const maxBackups: int

    constructor (maxFileBytes: nat, maxBackups: int)
      ensures files == map[] && this.maxFileBytes == maxFileBytes && this.maxBackups == maxBackups
    {
      this.files, this.maxFileBytes, this.maxBackups := map[], maxFileBytes, maxBackups;
    }

    method RotateIfNeeded()
      modifies this
      ensures 0 !in old(files) || |old(files[0])| < maxFileBytes ==> files == old(files)
      ensures 0 in old(files) && |old(files[0])| >= maxFileBytes ==> Rotated(old(files), files, maxBackups)
    {
      if 0 !in files || |files[0]| < maxFileBytes {
        return;
      }
      ghost var was := files;
      var i := maxBackups;
      while i >= 2
        invariant i <= maxBackups && (maxBackups >= 2 ==> i >= 1) && (maxBackups < 2 ==> i == maxBackups)
        invariant PartlyRotated(was, files, maxBackups, i)
      {
        RotationStep(was, files, maxBackups, i);
        if i - 1 in files {
          files := Renamed(files, i - 1, i);
        }
        i := i - 1;
      }
      RotationEnds(was, files, maxBackups, i);
      files := Renamed(files, 0, 1);
    }

    /** Appends a batch to the live file, which is created if absent, and rotates. */
    method WriteEntries(entries: seq<Entry>, stamp: int -> string)
      modifies this
      ensures entries == [] ==> files == old(files)
      ensures entries != [] ==> Written(old(files), files, Lines(entries, stamp), maxFileBytes, maxBackups)
    {
      if entries == [] {
        return;
      }
      var text := "";
      for i := 0 to |entries|
        invariant text == Lines(entries[..i], stamp)
      {
        assert entries[..i + 1][..i] == entries[..i];
        text := text + Line(entries[i], stamp);
      }
      assert entries[..|entries|] == entries;
      files := files[0 := (if 0 in files then files[0] else "") + text];
      RotateIfNeeded();
    }
  }

  ghost predicate Written(was: Files, files: Files, text: string, maxFileBytes: nat, maxBackups: int) {
    var appended := was[0 := (if 0 in was then was[0] else "") + text];
    if |appended[0]| < maxFileBytes then files == appended else Rotated(appended, files, maxBackups)
  }

  // ---------- the family as a value ----------

  /** A contiguous family: backups .1, .2, ... from newest to oldest, and the live file. */
  datatype Family = Family(backups: seq<string>, live: Option<string>)

  ghost predicate Shows(files: Files, family: Family) {
    && Lookup(files, 0) == family.live
    && forall k: nat :: k >= 1 ==>
         Lookup(files, k) == if k <= |family.backups| then Some(family.backups[k - 1]) else None
  }

  /** At least one backup is made, whatever the configured limit. */
  function Limit(maxBackups: int): nat {
    if maxBackups < 1 then 1 else maxBackups
  }

  function LiveText(family: Family): string {
    if family.live.Some? then family.live.value else ""
  }

  function WrittenFamily(family: Family, text: string, maxFileBytes: nat, maxBackups: int): Family {
    var live := LiveText(family) + text;
    if |live| < maxFileBytes then family.(live := Some(live))
    else if |family.backups| < Limit(maxBackups) then Family([live] + family.backups, None)
    else Family([live] + family.backups[..Limit(maxBackups) - 1], None)
  }

  /** The files written by the loop of renames are the family with its oldest backup pushed out. */
  lemma WrittenShowsFamily(was: Files, files: Files, family: Family, text: string, maxFileBytes: nat, maxBackups: int)
    requires Shows(was, family) && |family.backups| <= Limit(maxBackups)
    requires Written(was, files, text, maxFileBytes, maxBackups)
    ensures Shows(files, WrittenFamily(family, text, maxFileBytes, maxBackups))
  {
    var live := LiveText(family) + text;
    var appended := was[0 := live];
    assert Lookup(was, 0) == family.live;
    forall k: nat | k >= 1
      ensures Lookup(appended, k) == if k <= |family.backups| then Some(family.backups[k - 1]) else None
    {
      assert Lookup(appended, k) == Lookup(was, k);
    }
    if |live| >= maxFileBytes {
      var next := WrittenFamily(family, text, maxFileBytes, maxBackups);
      forall k: nat | k >= 1
        ensures Lookup(files, k) == if k <= |next.backups| then Some(next.backups[k - 1]) else None
      {
        assert Lookup(files, k) == AfterRotation(appended, maxBackups, k);
        assert k >= 2 ==>
          Lookup(appended, k - 1) == if k - 1 <= |family.backups| then Some(family.backups[k - 2]) else None;
      }
    }
  }

  // ---------- retention over a run ----------

  /** All text a family holds, oldest first. */
  function Joined(backups: seq<string>): string {
    if backups == [] then "" else Joined(backups[1..]) + backups[0]
  }

  function Text(family: Family): string {
    Joined(family.backups) + LiveText(family)
  }

  function AllText(texts: seq<string>): string {
    if texts == [] then "" else AllText(texts[..|texts| - 1]) + texts[|texts| - 1]
  }

  /** The family after writing the texts, one batch each, from a clean directory. */
  function FamilyAfter(texts: seq<string>, maxFileBytes: nat, maxBackups: int): Family {
    if texts == [] then Family([], None)
    else WrittenFamily(FamilyAfter(texts[..|texts| - 1], maxFileBytes, maxBackups),
                       texts[|texts| - 1], maxFileBytes, maxBackups)
  }

  lemma {:induction false} AllTextSplits(texts: seq<string>, n: nat)
    requires n <= |texts|
    ensures AllText(texts) == AllText(texts[..n]) + AllText(texts[n..])
  {
    if n == |texts| {
      assert texts[..n] == texts;
    } else {
      var init := texts[..|texts| - 1];
      AllTextSplits(init, n);
      assert init[..n] == texts[..n] && init[n..] == texts[n..][..|texts| - n - 1];
    }
  }

  lemma AllTextJoins(texts: seq<string>, a: nat, b: nat, c: nat)
    requires a <= b <= c <= |texts|
    ensures AllText(texts[a..c]) == AllText(texts[a..b]) + AllText(texts[b..c])
  {
    AllTextSplits(texts[a..c], b - a);
    assert texts[a..c][..b - a] == texts[a..b] && texts[a..c][b - a..] == texts[b..c];
  }

  /** The files are made of whole batches: `marks[k]` is the number of batches written when backup
      .k + 1 was made, so it holds the batches from `marks[k + 1]` on, and the live file holds
      those from `marks[0]` on. */
  ghost predicate Marked(family: Family, texts: seq<string>, marks: seq<nat>) {
    && |marks| == |family.backups| + 1
    && (forall k :: 0 <= k < |marks| ==> marks[k] <= |texts|)
    && (forall k :: 0 <= k < |family.backups| ==>
          marks[k + 1] <= marks[k] && family.backups[k] == AllText(texts[marks[k + 1]..marks[k]]))
    && LiveText(family) == AllText(texts[marks[0]..])
  }

  lemma {:induction false} JoinedMarked(backups: seq<string>, texts: seq<string>, marks: seq<nat>)
    requires |marks| == |backups| + 1 && forall k :: 0 <= k < |marks| ==> marks[k] <= |texts|
    requires forall k :: 0 <= k < |backups| ==>
      marks[k + 1] <= marks[k] && backups[k] == AllText(texts[marks[k + 1]..marks[k]])
    ensures marks[|backups|] <= marks[0] && Joined(backups) == AllText(texts[marks[|backups|]..marks[0]])
    decreases |backups|
  {
    if backups != [] {
      JoinedMarked(backups[1..], texts, marks[1..]);
      AllTextJoins(texts, marks[|backups|], marks[1], marks[0]);
    }
  }

  /** So a family holds all batches from its last mark on. */
  lemma MarkedText(family: Family, texts: seq<string>, marks: seq<nat>)
    requires Marked(family, texts, marks)
    ensures Text(family) == AllText(texts[marks[|family.backups|]..])
  {
    JoinedMarked(family.backups, texts, marks);
    AllTextJoins(texts, marks[|family.backups|], marks[0], |texts|);
    assert forall n :: 0 <= n <= |texts| ==> texts[n..|texts|] == texts[n..];
  }

  /** A batch makes the live file grow... */
  lemma MarkedGrows(family: Family, texts: seq<string>, marks: seq<nat>, text: string)
    requires Marked(family, texts, marks)
    ensures Marked(family.(live := Some(LiveText(family) + text)), texts + [text], marks)
  {
    LiveGrows(texts, marks[0], text);
    var longer := texts + [text];
    forall k | 0 <= k < |family.backups| ensures family.backups[k] == AllText(longer[marks[k + 1]..marks[k]]) {
      assert longer[marks[k + 1]..marks[k]] == texts[marks[k + 1]..marks[k]];
    }
  }

  /** ... a rotation makes it the newest backup, ... */
  lemma MarkedCloses(family: Family, texts: seq<string>, marks: seq<nat>)
    requires Marked(family, texts, marks)
    ensures Marked(Family([LiveText(family)] + family.backups, None), texts, [|texts|] + marks)
  {
    assert texts[marks[0]..|texts|] == texts[marks[0]..] && texts[|texts|..] == [];
  }

  /** ... and the oldest backup may be forgotten. */
  lemma MarkedForgets(family: Family, texts: seq<string>, marks: seq<nat>, n: nat)
    requires Marked(family, texts, marks) && n <= |family.backups|
    ensures Marked(family.(backups := family.backups[..n]), texts, marks[..n + 1])
  {
  }

  /** One write closes the live file when it rotates, and forgets the oldest backup when the
      family is full. */
  lemma WriteMarks(family: Family, texts: seq<string>, marks: seq<nat>, text: string,
                   maxFileBytes: nat, maxBackups: int) returns (more: seq<nat>)
    requires Marked(family, texts, marks) && |family.backups| <= Limit(maxBackups)
    ensures var next := WrittenFamily(family, text, maxFileBytes, maxBackups);
      && Marked(next, texts + [text], more)
      && |family.backups| <= |next.backups| <= Limit(maxBackups)
      && (more[|next.backups|] != marks[|family.backups|] ==> |next.backups| == Limit(maxBackups))
  {
    var grown := family.(live := Some(LiveText(family) + text));
    MarkedGrows(family, texts, marks, text);
    more := marks;
    if |grown.live.value| >= maxFileBytes {
      var closed, n := Family([grown.live.value] + family.backups, None), |family.backups|;
      more := [|texts| + 1] + marks;
      MarkedCloses(grown, texts + [text], marks);
      if n == Limit(maxBackups) {
        MarkedForgets(closed, texts + [text], more, n);
        more := more[..n + 1];
        assert closed.backups[..n] == [grown.live.value] + family.backups[..n - 1];
      }
    }
  }

  lemma LiveGrows(texts: seq<string>, mark: nat, text: string)
    requires mark <= |texts|
    ensures var longer := texts + [text];
      && AllText(longer[mark..]) == AllText(texts[mark..]) + text
      && longer[mark..|longer|] == longer[mark..] && AllText(longer[|longer|..]) == ""
  {
    assert (texts + [text])[mark..][..|texts| - mark] == texts[mark..];
  }

  /** A backup is a live file that had reached the limit with its last batch. */
  ghost predicate SizesBounded(family: Family, maxFileBytes: nat, maxBatch: nat) {
    && (family.live.Some? ==> |family.live.value| < maxFileBytes)
    && forall i :: 0 <= i < |family.backups| ==>
         maxFileBytes <= |family.backups[i]| < (if maxFileBytes == 0 then 1 else maxFileBytes) + maxBatch
  }

  lemma WriteKeepsSizes(family: Family, text: string, maxFileBytes: nat, maxBackups: int, maxBatch: nat)
    requires |family.backups| <= Limit(maxBackups) && SizesBounded(family, maxFileBytes, maxBatch) && |text| <= maxBatch
    ensures SizesBounded(WrittenFamily(family, text, maxFileBytes, maxBackups), maxFileBytes, maxBatch)
  {
  }

  lemma {:induction false} RunMarks(texts: seq<string>, maxFileBytes: nat, maxBackups: int) returns (marks: seq<nat>)
    ensures var family := FamilyAfter(texts, maxFileBytes, maxBackups);
      && Marked(family, texts, marks) && |family.backups| <= Limit(maxBackups)
      && (marks[|family.backups|] > 0 ==> |family.backups| == Limit(maxBackups))
  {
    if texts == [] {
      marks := [0];
    } else {
      var init := texts[..|texts| - 1];
      var family := FamilyAfter(init, maxFileBytes, maxBackups);
      var before := RunMarks(init, maxFileBytes, maxBackups);
      marks := WriteMarks(family, init, before, texts[|init|], maxFileBytes, maxBackups);
      assert init + [texts[|init|]] == texts;
    }
  }

  lemma {:induction false} RunKeepsSizes(texts: seq<string>, maxFileBytes: nat, maxBackups: int, maxBatch: nat)
    requires forall i :: 0 <= i < |texts| ==> |texts[i]| <= maxBatch
    ensures SizesBounded(FamilyAfter(texts, maxFileBytes, maxBackups), maxFileBytes, maxBatch)
    ensures |FamilyAfter(texts, maxFileBytes, maxBackups).backups| <= Limit(maxBackups)
  {
    if texts != [] {
      var init := texts[..|texts| - 1];
      RunKeepsSizes(init, maxFileBytes, maxBackups, maxBatch);
      WriteKeepsSizes(FamilyAfter(init, maxFileBytes, maxBackups), texts[|init|], maxFileBytes, maxBackups, maxBatch);
    }
  }

  /** Over any run of batches: at most max(1, max_backups) backups; the family holds the text of
      all batches but the first `lost`, whole batches and in order; a batch is lost only once
      every backup exists, each with at least the size limit; and every size is bounded. */
  lemma RetentionAndBound(texts: seq<string>, maxFileBytes: nat, maxBackups: int, maxBatch: nat)
    returns (lost: nat)
    requires forall i :: 0 <= i < |texts| ==> |texts[i]| <= maxBatch
    ensures lost <= |texts|
    ensures var family := FamilyAfter(texts, maxFileBytes, maxBackups);
      && |family.backups| <= Limit(maxBackups)
      && Text(family) == AllText(texts[lost..])
      && (lost > 0 ==> |family.backups| == Limit(maxBackups))
      && SizesBounded(family, maxFileBytes, maxBatch)
  {
    var family := FamilyAfter(texts, maxFileBytes, maxBackups);
    var marks := RunMarks(texts, maxFileBytes, maxBackups);
    lost := marks[|family.backups|];
    MarkedText(family, texts, marks);
    RunKeepsSizes(texts, maxFileBytes, maxBackups, maxBatch);
  }

  /** A flushed batch comes from one drain, so it has at most 1024 entries of 160 characters. */
  lemma FlushedBatchBound(ring: seq<Slot>, head: nat, count: nat, stamp: int -> string)
    requires ValidRing(ring, head, count) && Stamps(stamp)
    ensures |Lines(Entries(ring, head, count), stamp)| <= CAPACITY * MAX_LINE
  {
    BatchLength(Entries(ring, head, count), stamp);
  }

  /** The files after each of a run of writes, starting from a clean directory, show the
      family, so the retention result is about the files. */
  lemma {:induction false} FilesShowFamily(states: seq<Files>, texts: seq<string>,
                                         maxFileBytes: nat, maxBackups: int, n: nat)
    requires |states| == |texts| + 1 && states[0] == map[] && n <= |texts|
    requires forall i :: 0 <= i < |texts| ==> Written(states[i], states[i + 1], texts[i], maxFileBytes, maxBackups)
    ensures Shows(states[n], FamilyAfter(texts[..n], maxFileBytes, maxBackups))
    ensures |FamilyAfter(texts[..n], maxFileBytes, maxBackups).backups| <= Limit(maxBackups)
  {
    if n > 0 {
      FilesShowFamily(states, texts, maxFileBytes, maxBackups, n - 1);
      assert texts[..n][..n - 1] == texts[..n - 1];
      var family := FamilyAfter(texts[..n - 1], maxFileBytes, maxBackups);
      assert Written(states[n - 1], states[n], texts[n - 1], maxFileBytes, maxBackups);
      WrittenShowsFamily(states[n - 1], states[n], family, texts[n - 1], maxFileBytes, maxBackups);
    }
  }
}
