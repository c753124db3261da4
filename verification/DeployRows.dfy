/**
 What the rows of the archive say.  In every interleaving of deploy requests each new commit
 row is the row of one request, with its author and message, the snapshot under it is that
 request's document, and the new deployments are the requests that were answered 200.
 */
module DeployRows {
  import opened Wrappers
  import opened Archive
  import opened Deploy
  import opened Words

  /** The commit row a request has made. */
  function RowId(stage: Stage): Option<string> {
    match stage
    case SnapshotFailed(id) => Some(id)
    case Committed(id) => Some(id)
    case RecordFailed(id) => Some(id)
    case Done(id) => Some(id)
    case _ => None
  }

  /** A row of this request, with its author and its message. */
  predicate TellsOf(c: Commit, r: Request) {
    && RowId(r.stage) == Some(c.id) && c.message == r.message
    && c.author == if r.author == "" then "anonymous" else r.author
  }

  // ---------- requests ----------

  /** What the requests ask for, in the order of their arrival. */
  function Arrivals(w: seq<Action>): seq<Request> {
    if w == [] then []
    else
      var a := w[|w| - 1];
      Arrivals(w[..|w| - 1]) + if a.Arrive? then [Request(a.doc, a.author, a.message, Received)] else []
  }

  /** Requests are kept as they arrived; only their stage moves. */
  lemma {:induction false} RequestsAreArrivals(start: System, w: seq<Action>, period: uint64)
    requires Opening(start) && Executable(start, w, period)
    ensures var requests, arrivals := Exec(start, w, period).requests, Arrivals(w);
      && |requests| == |arrivals|
      && forall i :: 0 <= i < |requests| ==>
           requests[i].doc == arrivals[i].doc && requests[i].author == arrivals[i].author
           && requests[i].message == arrivals[i].message
  {
    if w != [] {
      RequestsAreArrivals(start, w[..|w| - 1], period);
    }
  }

  // ---------- commit rows ----------

  ghost predicate HasRow(commits: seq<Commit>, r: Request) {
    exists k :: 0 <= k < |commits| && TellsOf(commits[k], r)
  }

  ghost predicate HasRequest(c: Commit, requests: seq<Request>) {
    exists i :: 0 <= i < |requests| && TellsOf(c, requests[i])
  }

  /** The requests that made a row have it, and every row has its request. */
  ghost predicate CommitsTell(commits: seq<Commit>, requests: seq<Request>) {
    && (forall i {:trigger HasRow(commits, requests[i])} ::
          0 <= i < |requests| && RowId(requests[i].stage).Some? ==> HasRow(commits, requests[i]))
    && (forall k {:trigger HasRequest(commits[k], requests)} ::
          0 <= k < |commits| ==> HasRequest(commits[k], requests))
  }

  lemma RowStays(commits: seq<Commit>, row: Commit, r: Request)
    ensures HasRow(commits, r) ==> HasRow(commits + [row], r)
    ensures TellsOf(row, r) ==> HasRow(commits + [row], r)
  {
    var more := commits + [row];
    if HasRow(commits, r) {
      var k :| 0 <= k < |commits| && TellsOf(commits[k], r);
      assert TellsOf(more[k], r);
    }
    assert more[|commits|] == row;
  }

  /** A request that keeps its row keeps telling of it. */
  lemma RequestStays(c: Commit, requests: seq<Request>, i: nat, r: Request)
    requires i < |requests| && HasRequest(c, requests)
    requires RowId(requests[i].stage).Some? ==>
      r == requests[i].(stage := r.stage) && RowId(r.stage) == RowId(requests[i].stage)
    ensures HasRequest(c, requests[i := r])
  {
    var j :| 0 <= j < |requests| && TellsOf(c, requests[j]);
    assert TellsOf(c, requests[i := r][j]);
  }

  lemma SameRow(commits: seq<Commit>, r: Request, stage: Stage)
    requires RowId(stage) == RowId(r.stage)
    ensures HasRow(commits, r) ==> HasRow(commits, r.(stage := stage))
  {
    if HasRow(commits, r) {
      var k :| 0 <= k < |commits| && TellsOf(commits[k], r);
      assert TellsOf(commits[k], r.(stage := stage));
    }
  }

  /** A step that makes no row. */
  lemma MoveKeepsCommits(commits: seq<Commit>, requests: seq<Request>, i: nat, stage: Stage)
    requires CommitsTell(commits, requests) && i < |requests| && RowId(stage) == RowId(requests[i].stage)
    ensures CommitsTell(commits, requests[i := requests[i].(stage := stage)])
  {
    var r := requests[i].(stage := stage);
    var now := requests[i := r];
    forall j | 0 <= j < |now| && RowId(now[j].stage).Some? ensures HasRow(commits, now[j]) {
      SameRow(commits, requests[j], now[j].stage);
    }
    forall k | 0 <= k < |commits| ensures HasRequest(commits[k], now) {
      RequestStays(commits[k], requests, i, r);
    }
  }

  /** A step that makes one. */
  lemma RowKeepsCommits(commits: seq<Commit>, requests: seq<Request>, i: nat, stage: Stage, row: Commit)
    requires CommitsTell(commits, requests) && i < |requests| && RowId(requests[i].stage) == None
    requires TellsOf(row, requests[i].(stage := stage))
    ensures CommitsTell(commits + [row], requests[i := requests[i].(stage := stage)])
  {
    var r := requests[i].(stage := stage);
    var now, more := requests[i := r], commits + [row];
    forall j | 0 <= j < |now| && RowId(now[j].stage).Some? ensures HasRow(more, now[j]) {
      RowStays(commits, row, now[j]);
    }
    forall k | 0 <= k < |more| ensures HasRequest(more[k], now) {
      if k < |commits| {
        RequestStays(commits[k], requests, i, r);
      } else {
        assert TellsOf(row, now[i]);
      }
    }
  }

  lemma ArrivalKeepsCommits(commits: seq<Commit>, requests: seq<Request>, r: Request)
    requires CommitsTell(commits, requests) && RowId(r.stage) == None
    ensures CommitsTell(commits, requests + [r])
  {
    var now := requests + [r];
    forall k | 0 <= k < |commits| ensures HasRequest(commits[k], now) {
      assert HasRequest(commits[k], requests);
      var j :| 0 <= j < |requests| && TellsOf(commits[k], requests[j]);
      assert TellsOf(commits[k], now[j]);
    }
  }

  // ---------- snapshots and deployments ----------

  /** The snapshot under a request's row is the request's document. */
  ghost predicate SnapshotsTell(t: Tables, requests: seq<Request>) {
    forall i :: 0 <= i < |requests| && RowId(requests[i].stage).Some? && !requests[i].stage.SnapshotFailed? ==>
      var id := RowId(requests[i].stage).value;
      HasId(t.commits, id) && id in t.snapshots && t.snapshots[id] == requests[i].doc
  }

  ghost predicate HasDone(requests: seq<Request>, id: string) {
    exists i :: 0 <= i < |requests| && requests[i].stage == Done(id)
  }

  /** The deployments name the commits of the requests that were answered 200. */
  ghost predicate DeploymentsTell(deployments: seq<string>, requests: seq<Request>) {
    && (forall i :: 0 <= i < |requests| && requests[i].stage.Done? ==> requests[i].stage.deployed in deployments)
    && (forall k :: 0 <= k < |deployments| ==> HasDone(requests, deployments[k]))
  }

  lemma DoneStays(requests: seq<Request>, i: nat, r: Request, id: string)
    requires i < |requests| && !requests[i].stage.Done? && HasDone(requests, id)
    ensures HasDone(requests[i := r], id)
  {
    var j :| 0 <= j < |requests| && requests[j].stage == Done(id);
    assert requests[i := r][j].stage == Done(id);
  }

  lemma MoveKeepsDeployments(deployments: seq<string>, requests: seq<Request>, i: nat, stage: Stage)
    requires DeploymentsTell(deployments, requests) && i < |requests| && !requests[i].stage.Done?
    ensures !stage.Done? ==> DeploymentsTell(deployments, requests[i := requests[i].(stage := stage)])
    ensures stage.Done? ==> DeploymentsTell(deployments + [stage.deployed], requests[i := requests[i].(stage := stage)])
  {
    var r := requests[i].(stage := stage);
    var now := requests[i := r];
    forall k | 0 <= k < |deployments| ensures HasDone(now, deployments[k]) {
      DoneStays(requests, i, r, deployments[k]);
    }
    if stage.Done? {
      assert now[i].stage == Done(stage.deployed);
    }
  }

  lemma ArrivalKeepsDeployments(deployments: seq<string>, requests: seq<Request>, r: Request)
    requires DeploymentsTell(deployments, requests) && r.stage == Received
    ensures DeploymentsTell(deployments, requests + [r])
  {
    var now := requests + [r];
    forall k | 0 <= k < |deployments| ensures HasDone(now, deployments[k]) {
      var j :| 0 <= j < |requests| && requests[j].stage == Done(deployments[k]);
      assert now[j].stage == Done(deployments[k]);
    }
  }

  // ---------- steps ----------

  /** What a commit does to the requests and to the rows. */
  lemma CommitMoves(s: System, a: Action, period: uint64)
    requires a.CommitPayload? && Enabled(s, a)
    ensures var t := Step(s, a, period);
      var r, stage := s.requests[a.i], t.requests[a.i].stage;
      && t.requests == s.requests[a.i := r.(stage := stage)] && !stage.Done? && !r.stage.Done? && RowId(r.stage) == None
      && t.tables.deployments == s.tables.deployments
      && (if RowInserted(s, a) then
            && RowId(stage) == Some(a.id)
            && t.tables.commits
               == s.tables.commits + [Commit(a.id, HeadId(s.tables.commits), ArchiveAuthor(r.author), r.message, a.now)]
          else stage == CommitFailed && t.tables.commits == s.tables.commits)
  {
  }

  /** What the other steps of a request do. */
  lemma OtherMoves(s: System, a: Action, period: uint64)
    requires !a.CommitPayload? && !a.Arrive? && !a.Reload? && Enabled(s, a)
    ensures var t := Step(s, a, period);
      var r, stage := s.requests[a.i], t.requests[a.i].stage;
      && t.requests == s.requests[a.i := r.(stage := stage)] && !r.stage.Done? && RowId(stage) == RowId(r.stage)
      && t.tables.commits == s.tables.commits && t.tables.snapshots == s.tables.snapshots
      && t.tables.deployments == s.tables.deployments + (if stage.Done? then [stage.deployed] else [])
  {
  }

  lemma TailGrows<T>(all: seq<T>, more: seq<T>, n: nat)
    requires n <= |all|
    ensures (all + more)[n..] == all[n..] + more
  {
  }

  /** Commit rows since the start. */
  ghost predicate CommitsSince(start: System, s: System) {
    |start.tables.commits| <= |s.tables.commits| && CommitsTell(s.tables.commits[|start.tables.commits|..], s.requests)
  }

  lemma StepKeepsCommits(start: System, s: System, a: Action, period: uint64)
    requires Enabled(s, a) && CommitsSince(start, s)
    ensures CommitsSince(start, Step(s, a, period))
  {
    var t, commits := Step(s, a, period), s.tables.commits[|start.tables.commits|..];
    if a.CommitPayload? {
      CommitMoves(s, a, period);
      var r, stage := s.requests[a.i], t.requests[a.i].stage;
      if RowInserted(s, a) {
        var row := Commit(a.id, HeadId(s.tables.commits), ArchiveAuthor(r.author), r.message, a.now);
        RowKeepsCommits(commits, s.requests, a.i, stage, row);
        TailGrows(s.tables.commits, [row], |start.tables.commits|);
      } else {
        MoveKeepsCommits(commits, s.requests, a.i, stage);
      }
    } else if a.Arrive? {
      ArrivalKeepsCommits(commits, s.requests, Request(a.doc, a.author, a.message, Received));
    } else if !a.Reload? {
      OtherMoves(s, a, period);
      MoveKeepsCommits(commits, s.requests, a.i, t.requests[a.i].stage);
    }
  }

  lemma CommitKeepsSnapshots(s: System, a: Action, period: uint64)
    requires a.CommitPayload? && Enabled(s, a) && SnapshotsTell(s.tables, s.requests) && Consistent(s.tables)
    ensures SnapshotsTell(Step(s, a, period).tables, Step(s, a, period).requests)
  {
    var t, r := Step(s, a, period), s.requests[a.i];
    CommitKeepsConsistent(s.tables, a.id, ArchiveAuthor(r.author), r.message, a.now, r.doc, a.fault);
    CommitsOnlyGrow(s.tables.commits, t.tables.commits);
    if t.requests[a.i].stage == Committed(a.id) {
      assert t.tables.commits[|s.tables.commits|].id == a.id;
    }
  }

  lemma StepKeepsSnapshots(s: System, a: Action, period: uint64)
    requires Enabled(s, a) && SnapshotsTell(s.tables, s.requests) && Consistent(s.tables)
    ensures SnapshotsTell(Step(s, a, period).tables, Step(s, a, period).requests)
  {
    if a.CommitPayload? {
      CommitKeepsSnapshots(s, a, period);
    } else if !a.Arrive? && !a.Reload? {
      OtherMoves(s, a, period);
    }
  }

  /** Deployment rows since the start. */
  ghost predicate DeploymentsSince(start: System, s: System) {
    && |start.tables.deployments| <= |s.tables.deployments|
    && DeploymentsTell(s.tables.deployments[|start.tables.deployments|..], s.requests)
  }

  lemma StepKeepsDeployments(start: System, s: System, a: Action, period: uint64)
    requires Enabled(s, a) && DeploymentsSince(start, s)
    ensures DeploymentsSince(start, Step(s, a, period))
  {
    var t, deployments := Step(s, a, period), s.tables.deployments[|start.tables.deployments|..];
    if a.CommitPayload? {
      CommitMoves(s, a, period);
      MoveKeepsDeployments(deployments, s.requests, a.i, t.requests[a.i].stage);
    } else if a.Arrive? {
      ArrivalKeepsDeployments(deployments, s.requests, Request(a.doc, a.author, a.message, Received));
    } else if !a.Reload? {
      OtherMoves(s, a, period);
      var stage := t.requests[a.i].stage;
      MoveKeepsDeployments(deployments, s.requests, a.i, stage);
      TailGrows(s.tables.deployments, if stage.Done? then [stage.deployed] else [], |start.tables.deployments|);
    }
  }

  // ---------- runs ----------

  /** In every interleaving, with any failures, the archive tells of the requests as they came. */
  lemma {:induction false} RowsTellOfRequests(start: System, w: seq<Action>, period: uint64)
    requires Opening(start) && Executable(start, w, period)
    ensures var s := Exec(start, w, period);
      CommitsSince(start, s) && SnapshotsTell(s.tables, s.requests) && DeploymentsSince(start, s)
  {
    if w != [] {
      var init, a := w[..|w| - 1], w[|w| - 1];
      var s := Exec(start, init, period);
      RowsTellOfRequests(start, init, period);
      RunKeepsInvariant(start, init, period);
      StepKeepsCommits(start, s, a, period);
      StepKeepsSnapshots(s, a, period);
      StepKeepsDeployments(start, s, a, period);
    }
  }
}
