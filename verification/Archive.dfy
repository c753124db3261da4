/**
 The archive of deployed configurations.  The tables are append-only sequences; the
 timestamps and the failures of the storage come from outside, and commit ids are an
 arbitrary function of what is hashed.
 */
module Archive {
  import opened Wrappers
  import J = Json

  datatype Commit = Commit(id: string, parent: Option<string>, author: string, message: string, createdAt: string)

  datatype ArchiveError = CommitNotInserted | SnapshotNotInserted | DeploymentNotInserted

  /** Which statement the storage refuses, if any. */
  datatype Fault = NoFault | RefuseCommit | RefuseSnapshot | RefuseDeployment

  datatype Tables = Tables(commits: seq<Commit>, snapshots: map<string, J.Json>, deployments: seq<string>)

  const EMPTY := Tables([], map[], [])

  /** The text that is hashed; `dump` renders the payload. */
  function Salted(dump: J.Json -> string, payload: J.Json, author: string, message: string, now: string): string {
    dump(payload) + "\n" + author + "\n" + message + "\n" + now
  }

  // ---------- commits that share their text, and so their id ----------

  lemma FirstNewline(a: string, x: string, b: string, y: string)
    requires '\n' !in a && '\n' !in b && a + "\n" + x == b + "\n" + y
    ensures a == b && x == y
  {
    var s, t := a + "\n" + x, b + "\n" + y;
    assert s[|a|] == '\n' && t[|b|] == '\n';
    forall i | 0 <= i < |a| ensures s[i] != '\n' {
      assert s[i] == a[i];
    }
    forall i | 0 <= i < |b| ensures t[i] != '\n' {
      assert t[i] == b[i];
    }
    assert s[..|a|] == a && t[..|b|] == b && s[|a| + 1..] == x && t[|b| + 1..] == y;
  }

  lemma LastPart(x: string, a: string, y: string, b: string)
    requires |a| == |b| && x + "\n" + a == y + "\n" + b
    ensures x == y && a == b
  {
    var s, t := x + "\n" + a, y + "\n" + b;
    assert s[..|x|] == x && t[..|y|] == y && s[|x| + 1..] == a && t[|y| + 1..] == b;
  }

  /** Part of the longer author's name, up to a line break, is the head of the other message. */
  ghost predicate SpillsOver(author: string, message: string, longer: string, rest: string) {
    exists spilled: string :: longer == author + "\n" + spilled && message == spilled + "\n" + rest
  }

  ghost predicate SameLines(author: string, message: string, other: string, text: string) {
    || (author == other && message == text)
    || SpillsOver(author, message, other, text) || SpillsOver(other, text, author, message)
  }

  lemma AuthorAndMessageIff(author: string, message: string, other: string, text: string)
    ensures author + "\n" + message == other + "\n" + text
       <==> SameLines(author, message, other, text)
  {
    if SpillsOver(author, message, other, text) {
      var spilled: string :| other == author + "\n" + spilled && message == spilled + "\n" + text;
      assert author + "\n" + message == other + "\n" + text;
    }
    if SpillsOver(other, text, author, message) {
      var spilled: string :| author == other + "\n" + spilled && text == spilled + "\n" + message;
      assert author + "\n" + message == other + "\n" + text;
    }
    if author + "\n" + message == other + "\n" + text {
      if |author| < |other| {
        Spills(author, message, other, text);
      } else if |other| < |author| {
        Spills(other, text, author, message);
      } else {
        SameAuthor(author, message, other, text);
      }
    }
  }

  lemma SameAuthor(author: string, message: string, other: string, text: string)
    requires author + "\n" + message == other + "\n" + text && |author| == |other|
    ensures author == other && message == text
  {
    var s, t := author + "\n" + message, other + "\n" + text;
    assert s[..|author|] == author && t[..|author|] == other;
    assert s[|author| + 1..] == message && t[|author| + 1..] == text;
  }

  lemma Spills(author: string, message: string, longer: string, rest: string)
    requires author + "\n" + message == longer + "\n" + rest && |author| < |longer|
    ensures SpillsOver(author, message, longer, rest)
  {
    var s, t := author + "\n" + message, longer + "\n" + rest;
    var spilled := longer[|author| + 1..];
    assert s[|author| + 1..] == message && t[..|longer|] == longer;
    assert longer == author + "\n" + spilled by {
      assert s[..|longer|] == longer && s[|author|] == '\n' && s[..|author|] == author;
    }
    assert message == spilled + "\n" + rest by {
      assert t[|author| + 1..] == spilled + "\n" + rest;
    }
  }

  /** The text is not salted enough to be unique: two commits share it exactly when payload and
      time are the same and author and message are, or one author's name runs on over a line
      break into the other's message. */
  lemma SharedTextIff(dump: J.Json -> string, p: J.Json, author: string, message: string, now: string,
                      q: J.Json, other: string, text: string, later: string)
    requires '\n' !in dump(p) && '\n' !in dump(q) && |now| == |later|
    ensures Salted(dump, p, author, message, now) == Salted(dump, q, other, text, later)
       <==> dump(p) == dump(q) && now == later
            && SameLines(author, message, other, text)
  {
    var a, b := author + "\n" + message, other + "\n" + text;
    assert Salted(dump, p, author, message, now) == dump(p) + "\n" + (a + "\n" + now);
    assert Salted(dump, q, other, text, later) == dump(q) + "\n" + (b + "\n" + later);
    AuthorAndMessageIff(author, message, other, text);
    if Salted(dump, p, author, message, now) == Salted(dump, q, other, text, later) {
      FirstNewline(dump(p), a + "\n" + now, dump(q), b + "\n" + later);
      LastPart(a, now, b, later);
    }
  }

  // ---------- the tables ----------

  function HeadId(commits: seq<Commit>): Option<string> {
    if commits == [] then None else Some(commits[|commits| - 1].id)
  }

  predicate HasId(commits: seq<Commit>, id: string) {
    exists i :: 0 <= i < |commits| && commits[i].id == id
  }

  /** `commit_config`: two inserts that are not one transaction, and a primary key that
      rejects an id already present. */
  function CommitConfig(t: Tables, id: string, author: string, message: string, now: string,
                        payload: J.Json, fault: Fault)
    : (Tables, Result<Commit, ArchiveError>)
  {
    var commit := Commit(id, HeadId(t.commits), author, message, now);
    if HasId(t.commits, id) || fault == RefuseCommit then (t, Failure(CommitNotInserted))
    else
      var inserted := t.(commits := t.commits + [commit]);
      if id in t.snapshots || fault == RefuseSnapshot then (inserted, Failure(SnapshotNotInserted))
      else (inserted.(snapshots := t.snapshots[id := payload]), Success(commit))
  }

  /** `record_deployment`: the foreign key is not enforced. */
  function RecordDeployment(t: Tables, id: string, fault: Fault): (Tables, Result<(), ArchiveError>) {
    if fault == RefuseDeployment then (t, Failure(DeploymentNotInserted))
    else (t.(deployments := t.deployments + [id]), Success(()))
  }

  // ---------- linear history ----------

  /** Distinct ids, and each commit's parent is the commit inserted just before it. */
  ghost predicate Linear(commits: seq<Commit>) {
    && (forall i, j :: 0 <= i < j < |commits| ==> commits[i].id != commits[j].id)
    && (forall i :: 0 <= i < |commits| ==> commits[i].parent == HeadId(commits[..i]))
  }

  /** Snapshots belong to commits. */
  ghost predicate Consistent(t: Tables) {
    Linear(t.commits) && forall id :: id in t.snapshots ==> HasId(t.commits, id)
  }

  /** Every attempt to commit, whatever fails, keeps the history linear and every older row. */
  lemma CommitKeepsConsistent(t: Tables, id: string, author: string, message: string, now: string,
                              payload: J.Json, fault: Fault)
    requires Consistent(t)
    ensures var (after, result) := CommitConfig(t, id, author, message, now, payload, fault);
      && Consistent(after) && t.commits <= after.commits && after.deployments == t.deployments
      && (forall key :: key in t.snapshots ==> key in after.snapshots && after.snapshots[key] == t.snapshots[key])
      && (result.Success? ==>
            HeadId(after.commits) == Some(id) && id in after.snapshots && after.snapshots[id] == payload)
      && (result.Success? <==> !HasId(t.commits, id) && fault != RefuseCommit && fault != RefuseSnapshot)
  {
    var commit := Commit(id, HeadId(t.commits), author, message, now);
    if !HasId(t.commits, id) && fault != RefuseCommit {
      RowKeepsConsistent(t, commit, payload);
    }
  }

  lemma RowKeepsConsistent(t: Tables, commit: Commit, payload: J.Json)
    requires Consistent(t) && !HasId(t.commits, commit.id) && commit.parent == HeadId(t.commits)
    ensures var inserted := t.(commits := t.commits + [commit]);
      && commit.id !in t.snapshots && Consistent(inserted)
      && Consistent(inserted.(snapshots := t.snapshots[commit.id := payload]))
  {
    LinearAppend(t.commits, commit);
  }

  lemma LinearAppend(commits: seq<Commit>, commit: Commit)
    requires Linear(commits) && !HasId(commits, commit.id) && commit.parent == HeadId(commits)
    ensures Linear(commits + [commit])
    ensures forall key :: HasId(commits + [commit], key) <==> HasId(commits, key) || key == commit.id
  {
    var more, n := commits + [commit], |commits|;
    forall i | 0 <= i <= n ensures more[i].parent == HeadId(more[..i]) {
      assert more[..i] == commits[..i];
    }
    forall key ensures HasId(more, key) <==> HasId(commits, key) || key == commit.id {
      if HasId(commits, key) {
        var i :| 0 <= i < n && commits[i].id == key;
        assert more[i].id == key;
      }
      assert more[n].id == commit.id;
    }
  }

  // ---------- history queries ----------

  /** The commit with an id, found by the primary key. */
  function Find(commits: seq<Commit>, id: string): Option<Commit> {
    if commits == [] then None
    else if commits[0].id == id then Some(commits[0])
    else Find(commits[1..], id)
  }

  /** Up to `steps` commits reached from `from` by following parents. */
  function ParentWalk(commits: seq<Commit>, from: Option<string>, steps: nat): seq<Commit>
    decreases steps
  {
    if steps == 0 || from == None then []
    else
      match Find(commits, from.value)
      case None => []
      case Some(commit) => [commit] + ParentWalk(commits, commit.parent, steps - 1)
  }

  lemma {:induction false} FindById(commits: seq<Commit>, i: nat)
    requires i < |commits| && forall j, k :: 0 <= j < k < |commits| ==> commits[j].id != commits[k].id
    ensures Find(commits, commits[i].id) == Some(commits[i])
  {
    if i > 0 {
      assert commits[0].id != commits[i].id;
      FindById(commits[1..], i - 1);
    }
  }

  /** The newest `limit` rows, newest first; a negative limit means all of them. */
  function Newest(commits: seq<Commit>, limit: int): (rows: seq<Commit>)
    ensures |rows| == if limit < 0 || limit > |commits| then |commits| else limit
  {
    var n := if limit < 0 || limit > |commits| then |commits| else limit;
    seq(n, i requires 0 <= i < n => commits[|commits| - 1 - i])
  }

  /** Rows by descending row id are the parent walk from HEAD. */
  lemma {:induction false} NewestIsParentWalk(commits: seq<Commit>, n: nat, limit: nat)
    requires Linear(commits) && n <= |commits|
    ensures ParentWalk(commits, HeadId(commits[..n]), limit) == Newest(commits[..n], limit)
    decreases limit
  {
    if limit > 0 && n > 0 {
      FindById(commits, n - 1);
      NewestIsParentWalk(commits, n - 1, limit - 1);
      NewestStep(commits, n, limit);
      assert commits[..n][n - 1] == commits[n - 1];
    }
  }

  lemma NewestStep(commits: seq<Commit>, n: nat, limit: nat)
    requires 0 < n <= |commits| && limit > 0
    ensures Newest(commits[..n], limit) == [commits[n - 1]] + Newest(commits[..n - 1], limit - 1)
  {
    var rows, rest := Newest(commits[..n], limit), Newest(commits[..n - 1], limit - 1);
    assert forall i :: 0 <= i < |rest| ==> rows[i + 1] == rest[i];
  }

  lemma NewestAppend(commits: seq<Commit>, n: nat)
    requires n < |commits|
    ensures Newest(commits, n + 1) == Newest(commits, n) + [commits[|commits| - 1 - n]]
  {
  }

  /** `get_commit_history` walks the parents from HEAD, as far as the limit allows. */
  lemma HistoryIsParentWalk(t: Tables, limit: int)
    requires Consistent(t)
    ensures limit >= 0 ==> Newest(t.commits, limit) == ParentWalk(t.commits, HeadId(t.commits), limit)
    ensures limit < 0 ==> Newest(t.commits, limit) == ParentWalk(t.commits, HeadId(t.commits), |t.commits|)
  {
    assert t.commits[..|t.commits|] == t.commits;
    NewestIsParentWalk(t.commits, |t.commits|, if limit < 0 then |t.commits| else limit);
    if limit < 0 {
      assert Newest(t.commits, limit) == Newest(t.commits, |t.commits|);
    }
  }

  // ---------- the object ----------

  class ConfigArchive {
    var commits: seq<Commit>
    var snapshots: map<string, J.Json>
    var deployments: seq<string>

    ghost function Contents(): Tables
      reads this
    {
      Tables(commits, snapshots, deployments)
    }

    constructor ()
      ensures Contents() == EMPTY
    {
      commits, snapshots, deployments := [], map[], [];
    }

    method CommitPayload(author: string, message: string, payload: J.Json, now: string, dump: J.Json -> string,
                         hash: string -> string, fault: Fault) returns (result: Result<Commit, ArchiveError>)
      modifies this
      ensures (Contents(), result) == CommitConfig(old(Contents()), hash(Salted(dump, payload, author, message, now)),
                                                   author, message, now, payload, fault)
      ensures deployments == old(deployments)
      ensures result.Success? ==>
        var id := hash(Salted(dump, payload, author, message, now));
        && result.value == Commit(id, HeadId(old(commits)), author, message, now)
        && commits == old(commits) + [result.value] && snapshots == old(snapshots)[id := payload]
      ensures result == Failure(CommitNotInserted) ==> Contents() == old(Contents())
      ensures result == Failure(SnapshotNotInserted) ==>
        var id := hash(Salted(dump, payload, author, message, now));
        && commits == old(commits) + [Commit(id, HeadId(old(commits)), author, message, now)]
        && snapshots == old(snapshots)
      ensures old(Consistent(Contents())) ==>
        var id := hash(Salted(dump, payload, author, message, now));
        && Consistent(Contents())
        && (result.Success? <==> !HasId(old(commits), id) && fault != RefuseCommit && fault != RefuseSnapshot)
    {
      var parent := HeadId(commits);
      var id := hash(Salted(dump, payload, author, message, now));
      if Consistent(Contents()) {
        CommitKeepsConsistent(Contents(), id, author, message, now, payload, fault);
      }
      if HasId(commits, id) || fault == RefuseCommit {
        return Failure(CommitNotInserted);
      }
      commits := commits + [Commit(id, parent, author, message, now)];
      if id in snapshots || fault == RefuseSnapshot {
        return Failure(SnapshotNotInserted);
      }
      snapshots := snapshots[id := payload];
      result := Success(commits[|commits| - 1]);
    }

    method Record(id: string, fault: Fault) returns (result: Result<(), ArchiveError>)
      modifies this
      ensures (Contents(), result) == RecordDeployment(old(Contents()), id, fault)
      ensures commits == old(commits) && snapshots == old(snapshots)
      ensures result.Success? <==> fault != RefuseDeployment
      ensures deployments == if result.Success? then old(deployments) + [id] else old(deployments)
      ensures old(Consistent(Contents())) ==> Consistent(Contents())
    {
      if fault == RefuseDeployment {
        return Failure(DeploymentNotInserted);
      }
      deployments := deployments + [id];
      result := Success(());
    }

    method GetCommitHistory(limit: int) returns (rows: seq<Commit>)
      requires Consistent(Contents())
      ensures rows == ParentWalk(commits, HeadId(commits), if limit < 0 then |commits| else limit)
    {
      HistoryIsParentWalk(Contents(), limit);
      rows := [];
      while |rows| < |commits| && (limit < 0 || |rows| < limit)
        invariant |rows| <= |commits| && (limit >= 0 ==> |rows| <= limit)
        invariant rows == Newest(commits, |rows|)
        decreases |commits| - |rows|
      {
        NewestAppend(commits, |rows|);
        rows := rows + [commits[|commits| - 1 - |rows|]];
      }
      assert Newest(commits, limit) == Newest(commits, |rows|);
    }
  }
}
