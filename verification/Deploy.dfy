/**
 Concurrent deploy requests.  Each handler parses, swaps the program in, commits to the
 archive and records the deployment, in separate critical sections, so the steps of several
 handlers interleave, each archive step may fail, and other threads may swap programs in
 without archiving them.
 */
module Deploy {
  import opened Wrappers
  import opened Archive
  import J = Json
  import Parser
  import opened Words

  /** How far a request has come. */
  datatype Stage =
    | Received
    | Parsed
    | Rejected                      // answered 400
    | Swapped
    | CommitFailed                  // answered 500, no row inserted
    | SnapshotFailed(row: string)   // answered 500, a commit row without its snapshot
    | Committed(id: string)
    | RecordFailed(commit: string)  // answered 500
    | Done(deployed: string)        // answered 200

  datatype Request = Request(doc: J.Json, author: string, message: string, stage: Stage)

  datatype System = System(
    requests: seq<Request>,
    running: Option<J.Json>,  // the document of the program the runtime holds
    installed: seq<J.Json>,   // every document swapped in by a request, in order
    tables: Tables)

  datatype Action =
    | Arrive(doc: J.Json, author: string, message: string)
    | Parse(i: nat)
    | Swap(i: nat)
    | CommitPayload(i: nat, id: string, now: string, fault: Fault)
    | Record(i: nat, fault: Fault)
    | Reload(program: Option<J.Json>)  // any other thread: `reload` of a program, or of no program

  /** The server has just been started: any program may run, and the archive file may hold
      the rows of earlier processes. */
  ghost predicate Opening(start: System) {
    start.requests == [] && start.installed == [] && Consistent(start.tables)
  }

  /** The name a commit is filed under. */
  function ArchiveAuthor(author: string): string {
    if author == "" then "anonymous" else author
  }

  predicate Enabled(s: System, a: Action) {
    match a
    case Arrive(_, _, _) => true
    case Parse(i) => i < |s.requests| && s.requests[i].stage == Received
    case Swap(i) => i < |s.requests| && s.requests[i].stage == Parsed
    case CommitPayload(i, _, _, _) => i < |s.requests| && s.requests[i].stage == Swapped
    case Record(i, _) => i < |s.requests| && s.requests[i].stage.Committed?
    case Reload(_) => true
  }

  function Moved(s: System, i: nat, stage: Stage): System
    requires i < |s.requests|
  {
    s.(requests := s.requests[i := s.requests[i].(stage := stage)])
  }

  function Step(s: System, a: Action, period: uint64): System
    requires Enabled(s, a)
  {
    match a
    case Arrive(doc, author, message) => s.(requests := s.requests + [Request(doc, author, message, Received)])
    case Parse(i) => Moved(s, i, if Parser.FromJson(s.requests[i].doc, period).Some? then Parsed else Rejected)
    case Swap(i) =>
      var doc := s.requests[i].doc;
      Moved(s, i, Swapped).(running := Some(doc), installed := s.installed + [doc])
    case CommitPayload(i, id, now, fault) =>
      var r := s.requests[i];
      var (tables, result) := CommitConfig(s.tables, id, ArchiveAuthor(r.author), r.message, now, r.doc, fault);
      var stage := match result
                   case Success(_) => Committed(id)
                   case Failure(e) => if e == SnapshotNotInserted then SnapshotFailed(id) else CommitFailed;
      Moved(s, i, stage).(tables := tables)
    case Record(i, fault) =>
      var id := s.requests[i].stage.id;
      var (tables, result) := RecordDeployment(s.tables, id, fault);
      Moved(s, i, if result.Success? then Done(id) else RecordFailed(id)).(tables := tables)
    case Reload(program) => s.(running := program)
  }

  predicate Executable(start: System, w: seq<Action>, period: uint64)
    decreases |w|, 0
  {
    w == [] ||
    (Executable(start, w[..|w| - 1], period) && Enabled(Exec(start, w[..|w| - 1], period), w[|w| - 1]))
  }

  function Exec(start: System, w: seq<Action>, period: uint64): System
    requires Executable(start, w, period)
    decreases |w|, 1
  {
    if w == [] then start else Step(Exec(start, w[..|w| - 1], period), w[|w| - 1], period)
  }

  // ---------- counting requests by how far they came ----------

  predicate DidSwap(stage: Stage) { !stage.Received? && !stage.Parsed? && !stage.Rejected? }
  predicate DidCommit(stage: Stage) { DidSwap(stage) && !stage.Swapped? && !stage.CommitFailed? }
  predicate DidRecord(stage: Stage) { stage.Done? }

  function Count(requests: seq<Request>, p: Stage -> bool): nat {
    if requests == [] then 0
    else Count(requests[..|requests| - 1], p) + if p(requests[|requests| - 1].stage) then 1 else 0
  }

  lemma {:induction false} CountMoved(requests: seq<Request>, i: nat, r: Request, p: Stage -> bool)
    requires i < |requests|
    ensures Count(requests[i := r], p) + (if p(requests[i].stage) then 1 else 0)
         == Count(requests, p) + (if p(r.stage) then 1 else 0)
  {
    var n := |requests| - 1;
    if i < n {
      assert requests[i := r][..n] == requests[..n][i := r];
      CountMoved(requests[..n], i, r, p);
    } else {
      assert requests[i := r][..n] == requests[..n];
    }
  }

  lemma {:induction false} CountOrdered(requests: seq<Request>, p: Stage -> bool, q: Stage -> bool)
    requires forall stage :: p(stage) ==> q(stage)
    ensures Count(requests, p) <= Count(requests, q)
    ensures (forall i :: 0 <= i < |requests| && q(requests[i].stage) ==> p(requests[i].stage))
        ==> Count(requests, p) == Count(requests, q)
  {
    if requests != [] {
      CountOrdered(requests[..|requests| - 1], p, q);
    }
  }

  // ---------- what every interleaving keeps ----------

  ghost predicate Accepted(doc: J.Json, period: uint64) {
    Parser.FromJson(doc, period).Some?
  }

  /** Rows from before the start stay, in front of the new ones. */
  ghost predicate Extends(start: Tables, now: Tables) {
    && start.commits <= now.commits && start.deployments <= now.deployments
    && forall id :: id in start.snapshots ==> id in now.snapshots && now.snapshots[id] == start.snapshots[id]
  }

  /** What the requests have put into the archive. */
  ghost predicate Archived(start: System, s: System) {
    && Extends(start.tables, s.tables)
    && (forall id :: id in s.tables.snapshots && id !in start.tables.snapshots ==>
          s.tables.snapshots[id] in s.installed)
    && forall k :: |start.tables.deployments| <= k < |s.tables.deployments| ==>
         HasId(s.tables.commits, s.tables.deployments[k])
  }

  ghost predicate Invariant(start: System, s: System, period: uint64) {
    && Consistent(s.tables) && Archived(start, s)
    && (forall i :: 0 <= i < |s.requests| && DidSwap(s.requests[i].stage) ==> s.requests[i].doc in s.installed)
    && (forall i :: 0 <= i < |s.requests| && s.requests[i].stage == Parsed ==> Accepted(s.requests[i].doc, period))
    && (forall i :: 0 <= i < |s.requests| && s.requests[i].stage.Committed? ==>
          HasId(s.tables.commits, s.requests[i].stage.id))
    && (forall doc :: doc in s.installed ==> Accepted(doc, period))
  }

  /** New rows are requests that came that far. */
  ghost predicate Counted(start: System, s: System) {
    && |s.installed| == Count(s.requests, DidSwap)
    && |s.tables.commits| == |start.tables.commits| + Count(s.requests, DidCommit)
    && |s.tables.deployments| == |start.tables.deployments| + Count(s.requests, DidRecord)
  }

  lemma CommitKeepsInvariant(start: System, s: System, a: Action, period: uint64)
    requires a.CommitPayload? && Enabled(s, a) && Invariant(start, s, period)
    ensures Invariant(start, Step(s, a, period), period)
  {
    var t, r := Step(s, a, period), s.requests[a.i];
    CommitKeepsArchived(start, s, a, period);
    CommitKeepsConsistent(s.tables, a.id, ArchiveAuthor(r.author), r.message, a.now, r.doc, a.fault);
    CommitsOnlyGrow(s.tables.commits, t.tables.commits);
  }

  lemma CommitKeepsArchived(start: System, s: System, a: Action, period: uint64)
    requires a.CommitPayload? && Enabled(s, a) && Consistent(s.tables) && Archived(start, s)
    requires s.requests[a.i].doc in s.installed
    ensures Archived(start, Step(s, a, period))
  {
    var t, r := Step(s, a, period), s.requests[a.i];
    CommitKeepsConsistent(s.tables, a.id, ArchiveAuthor(r.author), r.message, a.now, r.doc, a.fault);
    CommitsOnlyGrow(s.tables.commits, t.tables.commits);
    forall id | id in t.tables.snapshots && id !in start.tables.snapshots
      ensures t.tables.snapshots[id] in t.installed
    {
      assert id in s.tables.snapshots || t.tables.snapshots[id] == r.doc;
    }
  }

  lemma CommitsOnlyGrow(commits: seq<Commit>, more: seq<Commit>)
    requires commits <= more
    ensures forall id :: HasId(commits, id) ==> HasId(more, id)
  {
    forall id | HasId(commits, id) ensures HasId(more, id) {
      var i :| 0 <= i < |commits| && commits[i].id == id;
      assert more[i].id == id;
    }
  }

  lemma StepKeepsInvariant(start: System, s: System, a: Action, period: uint64)
    requires Enabled(s, a) && Invariant(start, s, period)
    ensures Invariant(start, Step(s, a, period), period)
  {
    if a.CommitPayload? {
      CommitKeepsInvariant(start, s, a, period);
    } else if a.Record? {
      RecordKeepsInvariant(start, s, a, period);
    }
  }

  lemma RecordKeepsInvariant(start: System, s: System, a: Action, period: uint64)
    requires a.Record? && Enabled(s, a) && Invariant(start, s, period)
    ensures Invariant(start, Step(s, a, period), period)
  {
    RecordKeepsArchived(start, s, a, period);
  }

  lemma RecordKeepsArchived(start: System, s: System, a: Action, period: uint64)
    requires a.Record? && Enabled(s, a) && Archived(start, s)
    requires HasId(s.tables.commits, s.requests[a.i].stage.id)
    ensures Archived(start, Step(s, a, period))
  {
  }

  /** What a move does to a count: the request leaves it or enters it. */
  function Change(p: Stage -> bool, was: Stage, now: Stage): int {
    (if p(now) then 1 else 0) - (if p(was) then 1 else 0)
  }

  lemma CountsAfterMove(s: System, i: nat, stage: Stage)
    requires i < |s.requests|
    ensures var was, now := s.requests[i].stage, Moved(s, i, stage).requests;
      && Count(now, DidSwap) == Count(s.requests, DidSwap) + Change(DidSwap, was, stage)
      && Count(now, DidCommit) == Count(s.requests, DidCommit) + Change(DidCommit, was, stage)
      && Count(now, DidRecord) == Count(s.requests, DidRecord) + Change(DidRecord, was, stage)
  {
    var r := s.requests[i].(stage := stage);
    CountMoved(s.requests, i, r, DidSwap);
    CountMoved(s.requests, i, r, DidCommit);
    CountMoved(s.requests, i, r, DidRecord);
  }

  /** The rows an action adds are counted by the stage its request reaches. */
  lemma MoveKeepsCounted(start: System, s: System, t: System, i: nat, stage: Stage)
    requires Counted(start, s) && i < |s.requests| && t.requests == Moved(s, i, stage).requests
    requires var was := s.requests[i].stage;
      && |t.installed| == |s.installed| + Change(DidSwap, was, stage)
      && |t.tables.commits| == |s.tables.commits| + Change(DidCommit, was, stage)
      && |t.tables.deployments| == |s.tables.deployments| + Change(DidRecord, was, stage)
    ensures Counted(start, t)
  {
    CountsAfterMove(s, i, stage);
  }

  lemma StepKeepsCounted(start: System, s: System, a: Action, period: uint64)
    requires Enabled(s, a) && Counted(start, s)
    ensures Counted(start, Step(s, a, period))
  {
    var t := Step(s, a, period);
    if a.Arrive? {
      assert t.requests[..|s.requests|] == s.requests;
    } else if !a.Reload? {
      assert t.requests == Moved(s, a.i, t.requests[a.i].stage).requests;
      MoveKeepsCounted(start, s, t, a.i, t.requests[a.i].stage);
    }
  }

  lemma {:induction false} RunKeepsInvariant(start: System, w: seq<Action>, period: uint64)
    requires Opening(start) && Executable(start, w, period)
    ensures Invariant(start, Exec(start, w, period), period) && Counted(start, Exec(start, w, period))
  {
    if w != [] {
      var init := w[..|w| - 1];
      RunKeepsInvariant(start, init, period);
      StepKeepsInvariant(start, Exec(start, init, period), w[|w| - 1], period);
      StepKeepsCounted(start, Exec(start, init, period), w[|w| - 1], period);
    }
  }

  /** No request is between its swap and its last archive call, and no archive call failed. */
  predicate Settled(s: System) {
    forall i :: 0 <= i < |s.requests| && DidSwap(s.requests[i].stage) ==> s.requests[i].stage.Done?
  }

  /** In every interleaving, with any failures and on top of any earlier rows: new payloads are
      accepted documents that a request installed, new deployments name existing commits, and
      there are never more new deployments than new commits or more new commits than swaps;
      all three agree once every request is settled. */
  lemma DeployInvariants(start: System, w: seq<Action>, period: uint64)
    requires Opening(start) && Executable(start, w, period)
    ensures var was, s := start.tables, Exec(start, w, period);
      var deployments, commits := |s.tables.deployments| - |was.deployments|, |s.tables.commits| - |was.commits|;
      && Linear(s.tables.commits) && Extends(was, s.tables)
      && (forall id :: id in s.tables.snapshots && id !in was.snapshots ==>
            Accepted(s.tables.snapshots[id], period) && s.tables.snapshots[id] in s.installed)
      && (forall k :: |was.deployments| <= k < |s.tables.deployments| ==>
            HasId(s.tables.commits, s.tables.deployments[k]))
      && 0 <= deployments <= commits <= |s.installed|
      && (Settled(s) ==> deployments == commits == |s.installed|)
  {
    var s := Exec(start, w, period);
    RunKeepsInvariant(start, w, period);
    CountOrdered(s.requests, DidRecord, DidCommit);
    CountOrdered(s.requests, DidCommit, DidSwap);
  }

  /** No request ever waits for another: whatever the others do, it has a next step until it is
      answered, and new requests and direct reloads are always possible. */
  lemma NothingBlocks(s: System, i: nat, a: Action, id: string, now: string, fault: Fault)
    requires i < |s.requests|
    ensures a.Arrive? || a.Reload? ==> Enabled(s, a)
    ensures s.requests[i].stage.Received? ==> Enabled(s, Parse(i))
    ensures s.requests[i].stage.Parsed? ==> Enabled(s, Swap(i))
    ensures s.requests[i].stage.Swapped? ==> Enabled(s, CommitPayload(i, id, now, fault))
    ensures s.requests[i].stage.Committed? ==> Enabled(s, Record(i, fault))
  {
  }

  // ---------- HEAD and the running program ----------

  function HeadPayload(t: Tables): Option<J.Json> {
    match HeadId(t.commits)
    case None => None
    case Some(id) => if id in t.snapshots then Some(t.snapshots[id]) else None
  }

  /** A program is running, and it is the one HEAD holds. */
  predicate HeadRuns(s: System) {
    s.running.Some? && HeadPayload(s.tables) == s.running
  }

  /** Where the running program came from. */
  datatype Origin = AtStart | Direct(program: Option<J.Json>) | ByRequest(i: nat)

  function NextOrigin(origin: Origin, a: Action): Origin {
    match a
    case Swap(i) => ByRequest(i)
    case Reload(program) => Direct(program)
    case _ => origin
  }

  /** The last swap of a run. */
  function LastSwap(w: seq<Action>): Origin {
    if w == [] then AtStart else NextOrigin(LastSwap(w[..|w| - 1]), w[|w| - 1])
  }

  /** The commit row inserted last, by which request, and whether its snapshot went in too. */
  datatype Row = Earlier | RowOf(i: nat, snapshot: bool)

  /** The guards of the two inserts: the primary key, and what the storage refuses. */
  predicate RowInserted(s: System, a: Action)
    requires a.CommitPayload?
  {
    !HasId(s.tables.commits, a.id) && a.fault != RefuseCommit
  }

  function NextRow(s: System, row: Row, a: Action): Row {
    if a.CommitPayload? && RowInserted(s, a) then RowOf(a.i, a.fault != RefuseSnapshot) else row
  }

  /** The last row of a run. */
  function LastRow(start: System, w: seq<Action>, period: uint64): Row
    requires Executable(start, w, period)
  {
    if w == [] then Earlier
    else NextRow(Exec(start, w[..|w| - 1], period), LastRow(start, w[..|w| - 1], period), w[|w| - 1])
  }

  function OriginDoc(start: System, s: System, origin: Origin): Option<J.Json>
    requires origin.ByRequest? ==> origin.i < |s.requests|
  {
    match origin
    case AtStart => start.running
    case Direct(program) => program
    case ByRequest(i) => Some(s.requests[i].doc)
  }

  function RowDoc(start: System, s: System, row: Row): Option<J.Json>
    requires row.RowOf? ==> row.i < |s.requests|
  {
    match row
    case Earlier => HeadPayload(start.tables)
    case RowOf(i, snapshot) => if snapshot then Some(s.requests[i].doc) else None
  }

  lemma CommitMovesHead(s: System, a: Action, period: uint64)
    requires a.CommitPayload? && Enabled(s, a) && Consistent(s.tables)
    ensures HeadPayload(Step(s, a, period).tables)
         == if !RowInserted(s, a) then HeadPayload(s.tables)
            else if a.fault == RefuseSnapshot then None
            else Some(s.requests[a.i].doc)
  {
  }

  lemma DocsStay(s: System, a: Action, period: uint64)
    requires Enabled(s, a)
    ensures var t := Step(s, a, period);
      |t.requests| >= |s.requests| && forall i :: 0 <= i < |s.requests| ==> t.requests[i].doc == s.requests[i].doc
  {
  }

  /** The runtime holds what was swapped in last. */
  ghost predicate RunsOrigin(start: System, s: System, origin: Origin) {
    (origin.ByRequest? ==> origin.i < |s.requests|) && s.running == OriginDoc(start, s, origin)
  }

  /** HEAD holds what the last row archived. */
  ghost predicate HeadIsRow(start: System, s: System, row: Row) {
    (row.RowOf? ==> row.i < |s.requests|) && HeadPayload(s.tables) == RowDoc(start, s, row)
  }

  lemma StepRunsOrigin(start: System, s: System, a: Action, origin: Origin, period: uint64)
    requires Enabled(s, a) && RunsOrigin(start, s, origin)
    ensures RunsOrigin(start, Step(s, a, period), NextOrigin(origin, a))
  {
    DocsStay(s, a, period);
  }

  lemma CommitHeadIsRow(start: System, s: System, a: Action, row: Row, period: uint64)
    requires a.CommitPayload? && Enabled(s, a) && Consistent(s.tables) && HeadIsRow(start, s, row)
    ensures HeadIsRow(start, Step(s, a, period), NextRow(s, row, a))
  {
    DocsStay(s, a, period);
    CommitMovesHead(s, a, period);
  }

  lemma OtherHeadIsRow(start: System, s: System, a: Action, row: Row, period: uint64)
    requires !a.CommitPayload? && Enabled(s, a) && HeadIsRow(start, s, row)
    ensures HeadIsRow(start, Step(s, a, period), NextRow(s, row, a))
  {
    DocsStay(s, a, period);
  }

  lemma {:induction false} LastSwapRunsLastRowIsHead(start: System, w: seq<Action>, period: uint64)
    requires Opening(start) && Executable(start, w, period)
    ensures RunsOrigin(start, Exec(start, w, period), LastSwap(w))
    ensures HeadIsRow(start, Exec(start, w, period), LastRow(start, w, period))
  {
    if w != [] {
      var init, a := w[..|w| - 1], w[|w| - 1];
      var s := Exec(start, init, period);
      LastSwapRunsLastRowIsHead(start, init, period);
      StepRunsOrigin(start, s, a, LastSwap(init), period);
      if a.CommitPayload? {
        RunKeepsInvariant(start, init, period);
        CommitHeadIsRow(start, s, a, LastRow(start, init, period), period);
      } else {
        OtherHeadIsRow(start, s, a, LastRow(start, init, period), period);
      }
    }
  }

  /** In every interleaving, HEAD is the running program if and only if the last row that was
      inserted came with its snapshot and holds the document of the last swap; as long as no
      row was inserted, HEAD is what the archive held at the start. */
  lemma HeadRunsIff(start: System, w: seq<Action>, period: uint64)
    requires Opening(start) && Executable(start, w, period)
    ensures var s, origin, row := Exec(start, w, period), LastSwap(w), LastRow(start, w, period);
      && (origin.ByRequest? ==> origin.i < |s.requests|) && (row.RowOf? ==> row.i < |s.requests|)
      && (HeadRuns(s) <==>
            match row
            case Earlier => HeadPayload(start.tables).Some? && OriginDoc(start, s, origin) == HeadPayload(start.tables)
            case RowOf(i, snapshot) => snapshot && OriginDoc(start, s, origin) == Some(s.requests[i].doc))
  {
    LastSwapRunsLastRowIsHead(start, w, period);
  }

  /** So among deploys of different documents, the one that swapped last must be the one whose
      row was inserted last, with its snapshot: nothing else leaves HEAD right. */
  lemma DistinctHeadRunsIff(start: System, w: seq<Action>, period: uint64)
    requires Opening(start) && Executable(start, w, period) && LastSwap(w).ByRequest?
    requires var s := Exec(start, w, period);
      && (forall i, j :: 0 <= i < j < |s.requests| ==> s.requests[i].doc != s.requests[j].doc)
      && (forall i :: 0 <= i < |s.requests| ==> Some(s.requests[i].doc) != HeadPayload(start.tables))
    ensures HeadRuns(Exec(start, w, period)) <==> LastRow(start, w, period) == RowOf(LastSwap(w).i, true)
  {
    HeadRunsIff(start, w, period);
  }

  // ---------- deploys one after the other ----------

  predicate Between(s: System) {
    exists i :: 0 <= i < |s.requests| && s.requests[i].stage == Swapped
  }

  /** No swap falls between another request's swap and commit, no commit is refused, and
      nobody else swaps programs in. */
  predicate NoOverlap(start: System, w: seq<Action>, period: uint64)
    requires Executable(start, w, period)
  {
    w == []
    || (var init, a := w[..|w| - 1], w[|w| - 1];
        var s := Exec(start, init, period);
        && NoOverlap(start, init, period)
        && !a.Reload?
        && (a.Swap? ==> !Between(s))
        && (a.CommitPayload? ==> RowInserted(s, a) && a.fault != RefuseSnapshot))
  }

  /** The last row keeps up with the last swap. */
  predicate InStep(origin: Origin, row: Row) {
    match origin
    case AtStart => row == Earlier
    case Direct(_) => false
    case ByRequest(i) => row == RowOf(i, true)
  }

  predicate KeepsUp(s: System, origin: Origin, row: Row) {
    && (forall i :: 0 <= i < |s.requests| && s.requests[i].stage == Swapped ==> origin == ByRequest(i))
    && (!Between(s) ==> InStep(origin, row))
  }

  lemma SwapKeepsUp(s: System, a: Action, origin: Origin, row: Row, period: uint64)
    requires a.Swap? && Enabled(s, a) && KeepsUp(s, origin, row) && !Between(s)
    ensures KeepsUp(Step(s, a, period), ByRequest(a.i), row)
  {
    var t := Step(s, a, period);
    assert t.requests[a.i].stage == Swapped;
    assert forall i :: 0 <= i < |t.requests| && i != a.i ==> t.requests[i] == s.requests[i];
  }

  lemma CommitKeepsUp(s: System, a: Action, origin: Origin, row: Row, period: uint64)
    requires a.CommitPayload? && Enabled(s, a) && KeepsUp(s, origin, row)
    requires RowInserted(s, a) && a.fault != RefuseSnapshot
    ensures KeepsUp(Step(s, a, period), origin, RowOf(a.i, true))
  {
    var t := Step(s, a, period);
    assert t.requests[a.i].stage != Swapped;
    assert forall i :: 0 <= i < |t.requests| && i != a.i ==> t.requests[i] == s.requests[i];
  }

  lemma OtherKeepsUp(s: System, a: Action, origin: Origin, row: Row, period: uint64)
    requires !a.CommitPayload? && !a.Swap? && Enabled(s, a) && KeepsUp(s, origin, row)
    ensures KeepsUp(Step(s, a, period), origin, row)
  {
    var t := Step(s, a, period);
    assert forall i :: 0 <= i < |t.requests| && t.requests[i].stage == Swapped ==>
      i < |s.requests| && s.requests[i] == t.requests[i];
    if Between(s) {
      var i :| 0 <= i < |s.requests| && s.requests[i].stage == Swapped;
      assert t.requests[i].stage == Swapped;
    }
  }

  lemma {:induction false} NoOverlapKeepsUp(start: System, w: seq<Action>, period: uint64)
    requires Opening(start) && Executable(start, w, period) && NoOverlap(start, w, period)
    ensures KeepsUp(Exec(start, w, period), LastSwap(w), LastRow(start, w, period))
  {
    if w != [] {
      var init, a := w[..|w| - 1], w[|w| - 1];
      var s, origin, row := Exec(start, init, period), LastSwap(init), LastRow(start, init, period);
      NoOverlapKeepsUp(start, init, period);
      if a.Swap? {
        SwapKeepsUp(s, a, origin, row, period);
      } else if a.CommitPayload? {
        CommitKeepsUp(s, a, origin, row, period);
      } else {
        OtherKeepsUp(s, a, origin, row, period);
      }
    }
  }

  /** Deploys that do not overlap and are archived in full leave HEAD at the running program. */
  lemma HeadIsRunning(start: System, w: seq<Action>, period: uint64)
    requires Opening(start) && Executable(start, w, period) && NoOverlap(start, w, period)
    requires !Between(Exec(start, w, period)) && LastSwap(w) != AtStart
    ensures HeadRuns(Exec(start, w, period))
  {
    NoOverlapKeepsUp(start, w, period);
    HeadRunsIff(start, w, period);
  }

  // ---------- overlapping deploys, both ways ----------

  const INITIAL := System([], None, [], EMPTY)

  function TwoDeploys(ra: Request, rb: Request, tables: Tables): System {
    System([ra, rb], Some(rb.doc), [ra.doc, rb.doc], tables)
  }

  lemma OneMore(v: seq<Action>, a: Action, next: System, period: uint64) returns (w: seq<Action>)
    requires Executable(INITIAL, v, period) && Enabled(Exec(INITIAL, v, period), a)
    requires Step(Exec(INITIAL, v, period), a, period) == next
    ensures Executable(INITIAL, w, period) && Exec(INITIAL, w, period) == next
    ensures NoOverlap(INITIAL, w, period) ==>
      NoOverlap(INITIAL, v, period) && (a.Swap? ==> !Between(Exec(INITIAL, v, period)))
  {
    w := v + [a];
    assert w[..|w| - 1] == v && w[|w| - 1] == a;
    assert Executable(INITIAL, w, period);
  }

  lemma BothParsed(ra: Request, rb: Request, period: uint64) returns (w: seq<Action>)
    requires ra.stage == rb.stage == Received && Accepted(ra.doc, period) && Accepted(rb.doc, period)
    ensures Executable(INITIAL, w, period)
    ensures Exec(INITIAL, w, period) == System([ra.(stage := Parsed), rb.(stage := Parsed)], None, [], EMPTY)
  {
    var pa := ra.(stage := Parsed);
    w := OneMore([], Arrive(ra.doc, ra.author, ra.message), System([ra], None, [], EMPTY), period);
    w := OneMore(w, Arrive(rb.doc, rb.author, rb.message), System([ra, rb], None, [], EMPTY), period);
    w := OneMore(w, Parse(0), System([pa, rb], None, [], EMPTY), period);
    w := OneMore(w, Parse(1), System([pa, rb.(stage := Parsed)], None, [], EMPTY), period);
  }

  lemma BothSwapped(ra: Request, rb: Request, period: uint64) returns (w: seq<Action>)
    requires ra.stage == rb.stage == Received && Accepted(ra.doc, period) && Accepted(rb.doc, period)
    ensures Executable(INITIAL, w, period) && !NoOverlap(INITIAL, w, period)
    ensures Exec(INITIAL, w, period) == TwoDeploys(ra.(stage := Swapped), rb.(stage := Swapped), EMPTY)
  {
    var sa, sb := ra.(stage := Swapped), rb.(stage := Swapped);
    w := BothParsed(ra, rb, period);
    var one := System([sa, rb.(stage := Parsed)], Some(ra.doc), [ra.doc], EMPTY);
    w := OneMore(w, Swap(0), one, period);
    assert one.requests[0].stage == Swapped;
    w := OneMore(w, Swap(1), TwoDeploys(sa, sb, EMPTY), period);
  }

  /** The commit of `r` on top of `t`, both inserts going through. */
  function Pushed(t: Tables, r: Request, id: string): Tables {
    Tables(t.commits + [Commit(id, HeadId(t.commits), ArchiveAuthor(r.author), r.message, "t")],
           t.snapshots[id := r.doc], t.deployments)
  }

  /** Two overlapping deploys commit, in one order or the other... */
  lemma BothCommitted(v: seq<Action>, ra: Request, rb: Request, inOrder: bool, period: uint64)
    returns (w: seq<Action>, t: Tables)
    requires ra.stage == rb.stage == Swapped && Executable(INITIAL, v, period) && !NoOverlap(INITIAL, v, period)
    requires Exec(INITIAL, v, period) == TwoDeploys(ra, rb, EMPTY)
    ensures Executable(INITIAL, w, period) && !NoOverlap(INITIAL, w, period)
    ensures Exec(INITIAL, w, period) == TwoDeploys(ra.(stage := Committed("a")), rb.(stage := Committed("b")), t)
    ensures HeadPayload(t) == Some(if inOrder then rb.doc else ra.doc) && t.deployments == []
  {
    var ca, cb := ra.(stage := Committed("a")), rb.(stage := Committed("b"));
    if inOrder {
      t := Pushed(EMPTY, ra, "a");
      w := OneMore(v, CommitPayload(0, "a", "t", NoFault), TwoDeploys(ca, rb, t), period);
      t := Pushed(t, rb, "b");
      w := OneMore(w, CommitPayload(1, "b", "t", NoFault), TwoDeploys(ca, cb, t), period);
    } else {
      t := Pushed(EMPTY, rb, "b");
      w := OneMore(v, CommitPayload(1, "b", "t", NoFault), TwoDeploys(ra, cb, t), period);
      t := Pushed(t, ra, "a");
      w := OneMore(w, CommitPayload(0, "a", "t", NoFault), TwoDeploys(ca, cb, t), period);
    }
  }

  /** ... and record their deployments. */
  lemma BothRecorded(v: seq<Action>, ra: Request, rb: Request, t: Tables, period: uint64) returns (w: seq<Action>)
    requires ra.stage == Committed("a") && rb.stage == Committed("b") && t.deployments == []
    requires Executable(INITIAL, v, period) && !NoOverlap(INITIAL, v, period)
    requires Exec(INITIAL, v, period) == TwoDeploys(ra, rb, t)
    ensures Executable(INITIAL, w, period) && !NoOverlap(INITIAL, w, period)
    ensures Exec(INITIAL, w, period)
         == TwoDeploys(ra.(stage := Done("a")), rb.(stage := Done("b")), t.(deployments := ["a", "b"]))
  {
    var da, db := ra.(stage := Done("a")), rb.(stage := Done("b"));
    w := OneMore(v, Record(0, NoFault), TwoDeploys(da, rb, t.(deployments := ["a"])), period);
    w := OneMore(w, Record(1, NoFault), TwoDeploys(da, db, t.(deployments := ["a", "b"])), period);
  }

  /** Two deploys that overlap and both answer 200 may leave HEAD at the program that no longer
      runs, and may as well leave it right: not overlapping is enough, but it is not needed. */
  lemma OverlapDecidesNothing(period: uint64, inOrder: bool) returns (w: seq<Action>)
    ensures Executable(INITIAL, w, period) && !NoOverlap(INITIAL, w, period)
    ensures var s := Exec(INITIAL, w, period); Settled(s) && |s.installed| == 2 && (HeadRuns(s) <==> inOrder)
  {
    var a := J.Object(map["rules" := J.Array([])]);
    var b := J.Object(map["rules" := J.Array([]), "version" := J.Int(1)]);
    assert "version" in b.fields && "version" !in a.fields;
    assert Accepted(a, period) && Accepted(b, period);
    var ra, rb := Request(a, "x", "", Received), Request(b, "y", "", Received);
    w := BothSwapped(ra, rb, period);
    var t;
    w, t := BothCommitted(w, ra.(stage := Swapped), rb.(stage := Swapped), inOrder, period);
    w := BothRecorded(w, ra.(stage := Committed("a")), rb.(stage := Committed("b")), t, period);
    assert HeadPayload(Exec(INITIAL, w, period).tables) == HeadPayload(t);
  }
}
