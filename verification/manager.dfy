/** The version-control manager: commits, branches, restore, conflict
    detection and merge, over the persisted records and the live scene.

    The live scene is the canvas contents the editor shows; committing takes
    a snapshot of it and restoring replaces it. Every operation reads the
    records afresh, changes them, and writes back what it changed. The clock
    reading, the generated id and the thumbnail are parameters.
 */
module Manager {
  import opened Wrappers
  import opened Strings
  import opened Sorting
  import opened Scene
  import opened VersionControl
  import opened Diff

  /** The persisted records together with the live scene. */
  datatype Workspace = Workspace(store: Store, scene: Snapshot)

  datatype CommitOutcome = CommitOutcome(store: Store, commit: Commit)

  datatype BranchOutcome = BranchOutcome(store: Store, branch: Branch)

  datatype MergeOutcome = MergeOutcome(workspace: Workspace, commit: Commit)

  datatype MergeError = BranchNotFound | CommitNotFound

  /** The fixed author every commit and branch is attributed to. */
  const Designer: Author := Author("Designer", None, "D")

  /** `branches.find(b => b.id === id)`, as the index of the first match. */
  function FindBranch(bs: seq<Branch>, id: string): (r: Option<nat>)
    ensures r.Some? ==> r.value < |bs| && bs[r.value].id == id
    ensures r.Some? ==> forall j :: 0 <= j < r.value ==> bs[j].id != id
    ensures r.None? ==> forall j :: 0 <= j < |bs| ==> bs[j].id != id
  {
    if |bs| == 0 then None
    else if bs[0].id == id then Some(0)
    else match FindBranch(bs[1..], id)
      case Some(i) => Some(i + 1)
      case None => None
  }

  /** `commits.find(c => c.id === id)`, as the index of the first match. */
  function FindCommit(cs: seq<Commit>, id: string): (r: Option<nat>)
    ensures r.Some? ==> r.value < |cs| && cs[r.value].id == id
    ensures r.Some? ==> forall j :: 0 <= j < r.value ==> cs[j].id != id
    ensures r.None? ==> forall j :: 0 <= j < |cs| ==> cs[j].id != id
  {
    if |cs| == 0 then None
    else if cs[0].id == id then Some(0)
    else match FindCommit(cs[1..], id)
      case Some(i) => Some(i + 1)
      case None => None
  }

  /** The head commit id of the active branch, or `""` when the active
      branch is missing from the list or has no commit yet. */
  function ActiveHead(s: Store, now: int): string {
    var bs := GetBranches(s, now);
    match FindBranch(bs, GetCurrentBranch(s))
    case Some(i) => bs[i].headCommitId
    case None => ""
  }

  /** The change summary: every object on the canvas counts as added. */
  function CalculateChanges(scene: Snapshot): (r: ChangesSummary)
    ensures r.added == |scene| && r.modified == 0 && r.deleted == 0
    ensures |r.details| == 1
  {
    ChangesSummary(|scene|, 0, 0, [IntToString(|scene|) + " objects on canvas"])
  }

  /** The detail line states the object count in decimal. */
  lemma CalculateChangesDetail(scene: Snapshot)
    ensures var d := CalculateChanges(scene).details[0];
      var n := |d| - |" objects on canvas"|;
      && 0 < n && AllDigits(d[..n]) && d[n..] == " objects on canvas"
      && ParseNat(d[..n]) == |scene|
  {
    var digits := NatToString(|scene|);
    var d := CalculateChanges(scene).details[0];
    assert d == digits + " objects on canvas";
    assert d[..|digits|] == digits;
    ParseNatToString(|scene|);
  }

  /** Records a snapshot of the live scene as a commit on the active branch.
      The commit's parent is the active branch's head, if it has one; the
      commit is appended; the active branch's head moves to it. When the
      active branch is not in the list, only the commit list is written. */
  function CreateCommit(s: Store, scene: Snapshot, message: string, tags: seq<string>,
                        thumbnail: string, id: string, now: int): (r: CommitOutcome)
    ensures GetCommits(r.store) == GetCommits(s) + [r.commit]
    ensures r.commit.id == id && r.commit.timestamp == now && r.commit.author == Designer
    ensures r.commit.message == message && r.commit.tags == tags && r.commit.thumbnail == thumbnail
    ensures r.commit.snapshot == scene && r.commit.changes == CalculateChanges(scene)
    ensures r.commit.conflictResolutions.None?
    ensures ActiveHead(s, now) == "" ==> r.commit.parentIds == []
    ensures ActiveHead(s, now) != "" ==> r.commit.parentIds == [ActiveHead(s, now)]
    ensures r.store.currentBranch == s.currentBranch
    ensures FindBranch(GetBranches(s, now), GetCurrentBranch(s)).None? ==> r.store.branches == s.branches
    ensures FindBranch(GetBranches(s, now), GetCurrentBranch(s)).Some? ==>
      var bs, bs' := GetBranches(s, now), GetBranches(r.store, now);
      var i := FindBranch(bs, GetCurrentBranch(s)).value;
      && |bs'| == |bs|
      && bs'[i] == bs[i].(headCommitId := id)
      && (forall j :: 0 <= j < |bs| && j != i ==> bs'[j] == bs[j])
      && ActiveHead(r.store, now) == id
  {
    var commits := GetCommits(s);
    var bs := GetBranches(s, now);
    var current := GetCurrentBranch(s);
    var found := FindBranch(bs, current);
    var head := match found case Some(i) => bs[i].headCommitId case None => "";
    var parentIds := if head != "" then [head] else [];
    var commit := Commit(id, parentIds, now, Designer, message, tags, scene, thumbnail,
                         CalculateChanges(scene), None);
    var s1 := SaveCommits(s, commits + [commit]);
    match found
    case Some(i) =>
      var bs' := bs[i := bs[i].(headCommitId := id)];
      var s2 := SaveBranches(s1, bs');
      assert FindBranch(bs', current) == Some(i) by {
        assert forall j :: 0 <= j < |bs'| ==> bs'[j].id == bs[j].id;
      }
      CommitOutcome(s2, commit)
    case None => CommitOutcome(s1, commit)
  }

  /** Adds a branch. Its head is `fromCommitId` when given (`""` stands for
      not given), otherwise the active branch's head. The active branch and
      the commits are untouched. */
  function CreateBranch(s: Store, name: string, fromCommitId: string, id: string, now: int): (r: BranchOutcome)
    ensures GetBranches(r.store, now) == GetBranches(s, now) + [r.branch]
    ensures r.branch.id == id && r.branch.name == name
    ensures r.branch.createdAt == now && r.branch.createdBy == Designer.name
    ensures fromCommitId != "" ==> r.branch.headCommitId == fromCommitId
    ensures fromCommitId == "" ==> r.branch.headCommitId == ActiveHead(s, now)
    ensures r.store.commits == s.commits && r.store.currentBranch == s.currentBranch
  {
    var bs := GetBranches(s, now);
    var head := if fromCommitId != "" then fromCommitId else ActiveHead(s, now);
    var branch := Branch(id, name, head, now, Designer.name);
    BranchOutcome(SaveBranches(s, bs + [branch]), branch)
  }

  /** Shows a commit's snapshot in the live scene; branch heads and the
      records are untouched. An unknown id changes nothing. */
  function RevertToCommit(w: Workspace, commitId: string): (r: Workspace)
    ensures r.store == w.store
    ensures FindCommit(GetCommits(w.store), commitId).None? ==> r == w
    ensures FindCommit(GetCommits(w.store), commitId).Some? ==>
      r.scene == GetCommits(w.store)[FindCommit(GetCommits(w.store), commitId).value].snapshot
  {
    var cs := GetCommits(w.store);
    match FindCommit(cs, commitId)
    case Some(i) => w.(scene := cs[i].snapshot)
    case None => w
  }

  /** Makes a branch the active one and shows its head commit. An unknown
      branch id changes nothing; a branch without commits keeps the scene. */
  function SwitchToBranch(w: Workspace, branchId: string, now: int): (r: Workspace)
    ensures FindBranch(GetBranches(w.store, now), branchId).None? ==> r == w
    ensures FindBranch(GetBranches(w.store, now), branchId).Some? ==>
      var b := GetBranches(w.store, now)[FindBranch(GetBranches(w.store, now), branchId).value];
      && r.store.currentBranch == Some(branchId)
      && r.store.commits == w.store.commits && r.store.branches == w.store.branches
      && (b.headCommitId == "" ==> r.scene == w.scene)
      && (b.headCommitId != "" ==> r.scene == RevertToCommit(w, b.headCommitId).scene)
  {
    var bs := GetBranches(w.store, now);
    match FindBranch(bs, branchId)
    case Some(i) =>
      var w1 := w.(store := SetCurrentBranch(w.store, branchId));
      if bs[i].headCommitId != "" then RevertToCommit(w1, bs[i].headCommitId) else w1
    case None => w
  }

  /** The commit a branch's head names: `None` when the branch is missing,
      has no head yet, or its head is not among the commits. */
  function HeadCommit(s: Store, branchId: string, now: int): (r: Option<Commit>)
    ensures r.Some? ==> r.value in GetCommits(s) && r.value.id != ""
    ensures r.Some? ==> exists b :: b in GetBranches(s, now) && b.id == branchId && b.headCommitId == r.value.id
    ensures var bs, cs := GetBranches(s, now), GetCommits(s);
      r.Some? <==>
        && FindBranch(bs, branchId).Some?
        && bs[FindBranch(bs, branchId).value].headCommitId != ""
        && FindCommit(cs, bs[FindBranch(bs, branchId).value].headCommitId).Some?
    ensures var bs, cs := GetBranches(s, now), GetCommits(s);
      r.Some? ==> r.value == cs[FindCommit(cs, bs[FindBranch(bs, branchId).value].headCommitId).value]
  {
    var bs := GetBranches(s, now);
    match FindBranch(bs, branchId)
    case Some(i) =>
      if bs[i].headCommitId == "" then None
      else
        var cs := GetCommits(s);
        (match FindCommit(cs, bs[i].headCommitId)
         case Some(j) => assert bs[i] in bs; Some(cs[j])
         case None => None)
    case None => None
  }

  /** The conflicts between the head snapshots of two branches; none when
      either head cannot be resolved to a commit. */
  function DetectMergeConflicts(s: Store, branchAId: string, branchBId: string, now: int): (r: seq<MergeConflict>)
    ensures HeadCommit(s, branchAId, now).None? || HeadCommit(s, branchBId, now).None? ==> r == []
    ensures HeadCommit(s, branchAId, now).Some? && HeadCommit(s, branchBId, now).Some? ==>
      var a, b := HeadCommit(s, branchAId, now).value, HeadCommit(s, branchBId, now).value;
      && (forall c :: c in r <==> IsConflictOf(a.snapshot, b.snapshot, a.id, b.id, c))
      && (forall i, j :: 0 <= i < j < |r| ==> NotAfter(a.snapshot, r[i].objectId, r[j].objectId))
      && (forall i, j :: 0 <= i < j < |r| ==> r[i] != r[j])
      && (forall i, j :: 0 <= i < j < |r| && r[i].objectId == r[j].objectId ==>
            Rank(r[i].conflictType) < Rank(r[j].conflictType))
  {
    match (HeadCommit(s, branchAId, now), HeadCommit(s, branchBId, now))
    case (Some(a), Some(b)) => CompareCanvasStates(a.snapshot, b.snapshot, a.id, b.id)
    case _ => []
  }

  /** Two branches with the same head snapshot never conflict; in
      particular a branch never conflicts with itself. */
  lemma {:induction false} NoConflictsWithSameSnapshot(s: Store, branchAId: string, branchBId: string, now: int)
    requires HeadCommit(s, branchAId, now).Some? && HeadCommit(s, branchBId, now).Some?
    requires HeadCommit(s, branchAId, now).value.snapshot == HeadCommit(s, branchBId, now).value.snapshot
    ensures DetectMergeConflicts(s, branchAId, branchBId, now) == []
  {
    var a, b := HeadCommit(s, branchAId, now).value, HeadCommit(s, branchBId, now).value;
    SelfComparisonEmpty(a.snapshot, a.id, b.id);
  }

  /** Combines the snapshots of two commits: A's objects, with B's object
      for each `KeepB` resolution as `MergedObject` describes. */
  function ApplyMergeResolutions(s: Store, commitAId: string, commitBId: string,
                                 resolutions: seq<ConflictResolution>): (r: Result<Snapshot, MergeError>)
    ensures r.Failure? <==>
      FindCommit(GetCommits(s), commitAId).None? || FindCommit(GetCommits(s), commitBId).None?
    ensures r.Failure? ==> r.error == CommitNotFound
    ensures r.Success? ==>
      var cs := GetCommits(s);
      var stateA := cs[FindCommit(cs, commitAId).value].snapshot;
      var stateB := cs[FindCommit(cs, commitBId).value].snapshot;
      && |r.value| == |stateA|
      && forall i :: 0 <= i < |stateA| ==> r.value[i] == MergedObject(stateA, BuildMap(stateB), resolutions, i)
  {
    var cs := GetCommits(s);
    match (FindCommit(cs, commitAId), FindCommit(cs, commitBId))
    case (Some(a), Some(b)) => Success(MergeSnapshots(cs[a].snapshot, cs[b].snapshot, resolutions))
    case _ => Failure(CommitNotFound)
  }

  function MergeMessage(nameB: string, nameA: string): string {
    "Merge " + nameB + " into " + nameA
  }

  /** The commit step of a merge: a commit of the merged scene made as
      usual, whose stored record (the first with its id) is then replaced by
      one listing `parentIds` and carrying the resolutions. */
  function RecordMergeCommit(s: Store, merged: Snapshot, message: string, parentIds: seq<string>,
                             resolutions: seq<ConflictResolution>, thumbnail: string, id: string, now: int)
    : (r: MergeOutcome)
    ensures r.workspace.scene == merged
    ensures r.commit.snapshot == merged && r.commit.parentIds == parentIds
    ensures r.commit.message == message && r.commit.tags == ["merge"]
    ensures r.commit.id == id && r.commit.timestamp == now && r.commit.author == Designer
    ensures r.commit.conflictResolutions == Some(resolutions)
    ensures r.commit.changes == CalculateChanges(merged) && r.commit.thumbnail == thumbnail
    ensures |GetCommits(r.workspace.store)| == |GetCommits(s)| + 1
    ensures r.commit in GetCommits(r.workspace.store)
    ensures (forall c :: c in GetCommits(s) ==> c.id != id) ==>
      GetCommits(r.workspace.store) == GetCommits(s) + [r.commit]
    ensures var made := CreateCommit(s, merged, message, ["merge"], thumbnail, id, now);
      && r.workspace.store.branches == made.store.branches
      && r.workspace.store.currentBranch == made.store.currentBranch
  {
    var made := CreateCommit(s, merged, message, ["merge"], thumbnail, id, now);
    var patched := made.commit.(parentIds := parentIds, conflictResolutions := Some(resolutions));
    var cs := GetCommits(made.store);
    assert cs[|cs| - 1].id == id;
    var k := FindCommit(cs, id).value;
    var store := SaveCommits(made.store, cs[k := patched]);
    assert cs[k := patched][k] == patched;
    PatchFreshCommit(GetCommits(s), made.commit, patched);
    MergeOutcome(Workspace(store, merged), patched)
  }

  /** With an id no earlier commit has, the lookup by id finds the commit
      just appended, so patching it leaves the earlier ones alone. */
  lemma PatchFreshCommit(before: seq<Commit>, made: Commit, patched: Commit)
    ensures (forall c :: c in before ==> c.id != made.id) ==>
      var cs := before + [made];
      && FindCommit(cs, made.id) == Some(|before|)
      && cs[|before| := patched] == before + [patched]
  {
    var cs := before + [made];
    if forall c :: c in before ==> c.id != made.id {
      assert forall j :: 0 <= j < |before| ==> cs[j] == before[j] && before[j] in before;
      assert cs[|cs| - 1].id == made.id;
    }
  }

  /** Merges branch B into branch A: the live scene becomes the merged
      snapshot, a commit of it is made as usual on the active branch, and
      the stored record of that commit is then patched to list both heads as
      parents and to carry the resolutions. */
  function MergeBranches(w: Workspace, branchAId: string, branchBId: string, resolutions: seq<ConflictResolution>,
                         thumbnail: string, id: string, now: int): (r: Result<MergeOutcome, MergeError>)
    ensures var bs := GetBranches(w.store, now);
      r == Failure(BranchNotFound) <==> FindBranch(bs, branchAId).None? || FindBranch(bs, branchBId).None?
    ensures r.Success? ==>
      var bs := GetBranches(w.store, now);
      var a, b := bs[FindBranch(bs, branchAId).value], bs[FindBranch(bs, branchBId).value];
      var merged := ApplyMergeResolutions(w.store, a.headCommitId, b.headCommitId, resolutions);
      && merged.Success?
      && r.value == RecordMergeCommit(w.store, merged.value, MergeMessage(b.name, a.name),
                                      [a.headCommitId, b.headCommitId], resolutions, thumbnail, id, now)
    ensures r.Failure? && r.error == CommitNotFound ==>
      var bs := GetBranches(w.store, now);
      var a, b := bs[FindBranch(bs, branchAId).value], bs[FindBranch(bs, branchBId).value];
      ApplyMergeResolutions(w.store, a.headCommitId, b.headCommitId, resolutions).Failure?
  {
    var bs := GetBranches(w.store, now);
    match (FindBranch(bs, branchAId), FindBranch(bs, branchBId))
    case (Some(ia), Some(ib)) =>
      var a, b := bs[ia], bs[ib];
      var merged :- ApplyMergeResolutions(w.store, a.headCommitId, b.headCommitId, resolutions);
      Success(RecordMergeCommit(w.store, merged, MergeMessage(b.name, a.name),
                                [a.headCommitId, b.headCommitId], resolutions, thumbnail, id, now))
    case _ => Failure(BranchNotFound)
  }

  /** A merge writes the merged snapshot into the workspace: objects no
      `KeepB` resolution names keep branch A's head version. */
  lemma MergeKeepsBaseForUnmentioned(w: Workspace, branchAId: string, branchBId: string,
                                     resolutions: seq<ConflictResolution>, thumbnail: string, id: string, now: int,
                                     i: nat)
    requires MergeBranches(w, branchAId, branchBId, resolutions, thumbnail, id, now).Success?
    requires HeadCommit(w.store, branchAId, now).Some?
    requires i < |HeadCommit(w.store, branchAId, now).value.snapshot|
    requires var base := HeadCommit(w.store, branchAId, now).value.snapshot;
      forall res :: res in resolutions && res.resolution == KeepB ==> Some(res.objectId) != KeyOf(base[i])
    ensures var o := MergeBranches(w, branchAId, branchBId, resolutions, thumbnail, id, now).value;
      o.workspace.scene[i] == HeadCommit(w.store, branchAId, now).value.snapshot[i]
  {
  }

  /** The commit history, newest first. Commits with equal timestamps keep
      their stored order. */
  function HistoryKey(c: Commit): int {
    -c.timestamp
  }

  function GetCommitHistory(s: Store): (r: seq<Commit>)
    ensures multiset(r) == multiset(GetCommits(s))
    ensures forall i, j :: 0 <= i < j < |r| ==> r[i].timestamp >= r[j].timestamp
  {
    var r := SortBy(GetCommits(s), HistoryKey);
    assert forall i, j :: 0 <= i < j < |r| ==> HistoryKey(r[i]) <= HistoryKey(r[j]);
    r
  }

  /** Commits made at the same instant appear in stored order. */
  lemma GetCommitHistoryStable(s: Store, t: int)
    ensures WithKey(GetCommitHistory(s), HistoryKey, -t) == WithKey(GetCommits(s), HistoryKey, -t)
  {
    SortByStable(GetCommits(s), HistoryKey, -t);
  }

  /** The active branch's record, if the active id names a listed branch. */
  function GetCurrentBranchRecord(s: Store, now: int): (r: Option<Branch>)
    ensures r.Some? ==> r.value in GetBranches(s, now) && r.value.id == GetCurrentBranch(s)
    ensures r.None? ==> forall b :: b in GetBranches(s, now) ==> b.id != GetCurrentBranch(s)
    ensures r.Some? ==>
      exists k :: && 0 <= k < |GetBranches(s, now)| && r.value == GetBranches(s, now)[k]
                  && forall j :: 0 <= j < k ==> GetBranches(s, now)[j].id != GetCurrentBranch(s)
  {
    var bs := GetBranches(s, now);
    match FindBranch(bs, GetCurrentBranch(s))
    case Some(i) => Some(bs[i])
    case None => None
  }

  /** Committing a scene under a fresh id and then reverting to that id,
      whatever is on screen by then, brings the committed scene back. */
  lemma RevertAfterCommit(s: Store, scene: Snapshot, message: string, tags: seq<string>,
                          thumbnail: string, id: string, now: int, shown: Snapshot)
    requires forall c :: c in GetCommits(s) ==> c.id != id
    ensures RevertToCommit(Workspace(CreateCommit(s, scene, message, tags, thumbnail, id, now).store, shown), id).scene == scene
  {
    var made := CreateCommit(s, scene, message, tags, thumbnail, id, now);
    PatchFreshCommit(GetCommits(s), made.commit, made.commit);
  }

  /** After switching to a listed branch, the active branch record is the
      first listed branch with that id; switching to the empty id leaves
      `main` active, as the store's fallback reads it. */
  lemma SwitchThenCurrentBranch(w: Workspace, branchId: string, now: int)
    requires FindBranch(GetBranches(w.store, now), branchId).Some?
    ensures var bs := GetBranches(w.store, now);
      branchId != "" ==>
        GetCurrentBranchRecord(SwitchToBranch(w, branchId, now).store, now) == Some(bs[FindBranch(bs, branchId).value])
    ensures branchId == "" ==> GetCurrentBranch(SwitchToBranch(w, branchId, now).store) == MainBranchId
  {
    var r := SwitchToBranch(w, branchId, now);
    assert GetBranches(r.store, now) == GetBranches(w.store, now);
  }
}
