/** The repository invariant the manager's operations maintain.

    Commit ids are non-empty and distinct; every parent of a commit is an
    earlier commit, so the parent links form a directed acyclic graph whose
    edges point back in storage order; every stored branch head is either
    empty (no commit yet) or the id of a stored commit.
 */
module Repository {
  import opened Wrappers
  import opened Scene
  import opened VersionControl
  import opened Diff
  import opened Manager

  predicate HasCommit(cs: seq<Commit>, id: string) {
    exists c :: c in cs && c.id == id
  }

  ghost predicate CommitsWellFormed(cs: seq<Commit>) {
    && (forall i :: 0 <= i < |cs| ==> cs[i].id != "")
    && (forall i, j :: 0 <= i < j < |cs| ==> cs[i].id != cs[j].id)
    && (forall i, p :: 0 <= i < |cs| && p in cs[i].parentIds ==> HasCommit(cs[..i], p))
  }

  predicate HeadResolves(cs: seq<Commit>, b: Branch) {
    b.headCommitId == "" || HasCommit(cs, b.headCommitId)
  }

  ghost predicate Valid(s: Store) {
    && CommitsWellFormed(GetCommits(s))
    && (s.branches.Some? ==> forall b :: b in s.branches.value ==> HeadResolves(GetCommits(s), b))
  }

  /** Whatever the clock says, every branch read back has a resolvable head. */
  lemma BranchHeadsResolve(s: Store, now: int)
    requires Valid(s)
    ensures forall b :: b in GetBranches(s, now) ==> HeadResolves(GetCommits(s), b)
  {
  }

  lemma ActiveHeadResolves(s: Store, now: int)
    requires Valid(s)
    ensures ActiveHead(s, now) == "" || HasCommit(GetCommits(s), ActiveHead(s, now))
  {
    var bs := GetBranches(s, now);
    BranchHeadsResolve(s, now);
    match FindBranch(bs, GetCurrentBranch(s))
    case Some(i) => assert bs[i] in bs;
    case None =>
  }

  lemma EmptyStoreValid()
    ensures Valid(EmptyStore)
  {
  }

  /** Appending a commit with a fresh non-empty id whose parents are already
      stored keeps the commit list well formed. */
  lemma AppendWellFormed(cs: seq<Commit>, c: Commit)
    requires CommitsWellFormed(cs)
    requires c.id != "" && !HasCommit(cs, c.id)
    requires forall p :: p in c.parentIds ==> HasCommit(cs, p)
    ensures CommitsWellFormed(cs + [c])
  {
    var cs' := cs + [c];
    assert cs'[..|cs|] == cs;
    forall i, j | 0 <= i < j < |cs'| ensures cs'[i].id != cs'[j].id {
      if j == |cs| {
        assert cs[i] in cs;
      }
    }
    forall i, p | 0 <= i < |cs'| && p in cs'[i].parentIds ensures HasCommit(cs'[..i], p) {
      if i < |cs| {
        assert cs'[..i] == cs[..i];
      }
    }
  }

  lemma HasCommitAppend(cs: seq<Commit>, c: Commit, id: string)
    requires HasCommit(cs, id)
    ensures HasCommit(cs + [c], id)
  {
    var w :| w in cs && w.id == id;
    assert w in cs + [c];
  }

  lemma CreateCommitPreservesValid(s: Store, scene: Snapshot, message: string, tags: seq<string>,
                                   thumbnail: string, id: string, now: int)
    requires Valid(s)
    requires id != "" && !HasCommit(GetCommits(s), id)
    ensures Valid(CreateCommit(s, scene, message, tags, thumbnail, id, now).store)
  {
    var r := CreateCommit(s, scene, message, tags, thumbnail, id, now);
    var cs := GetCommits(s);
    ActiveHeadResolves(s, now);
    AppendWellFormed(cs, r.commit);
    var cs' := GetCommits(r.store);
    assert HasCommit(cs', id) by { assert r.commit in cs'; }
    if r.store.branches.Some? {
      var bs := GetBranches(s, now);
      BranchHeadsResolve(s, now);
      var bs' := GetBranches(r.store, now);
      forall j | 0 <= j < |bs'| ensures HeadResolves(cs', bs'[j]) {
        if bs'[j].headCommitId != id && bs'[j].headCommitId != "" {
          assert bs[j] in bs;
          HasCommitAppend(cs, r.commit, bs'[j].headCommitId);
        }
      }
    }
  }

  lemma CreateBranchPreservesValid(s: Store, name: string, fromCommitId: string, id: string, now: int)
    requires Valid(s)
    requires fromCommitId == "" || HasCommit(GetCommits(s), fromCommitId)
    ensures Valid(CreateBranch(s, name, fromCommitId, id, now).store)
  {
    var r := CreateBranch(s, name, fromCommitId, id, now);
    ActiveHeadResolves(s, now);
    BranchHeadsResolve(s, now);
    assert GetBranches(r.store, now) == r.store.branches.value;
  }

  lemma SwitchToBranchPreservesValid(w: Workspace, branchId: string, now: int)
    requires Valid(w.store)
    ensures Valid(SwitchToBranch(w, branchId, now).store)
  {
  }

  /** Recording a merge commit with a fresh id whose parents are stored
      keeps the repository valid. */
  lemma RecordMergeCommitPreservesValid(s: Store, merged: Snapshot, message: string, parentIds: seq<string>,
                                        resolutions: seq<ConflictResolution>, thumbnail: string, id: string, now: int)
    requires Valid(s)
    requires id != "" && !HasCommit(GetCommits(s), id)
    requires forall p :: p in parentIds ==> HasCommit(GetCommits(s), p)
    ensures Valid(RecordMergeCommit(s, merged, message, parentIds, resolutions, thumbnail, id, now).workspace.store)
  {
    var cs := GetCommits(s);
    var o := RecordMergeCommit(s, merged, message, parentIds, resolutions, thumbnail, id, now);
    var made := CreateCommit(s, merged, message, ["merge"], thumbnail, id, now);
    assert forall c :: c in cs ==> c.id != id;
    AppendWellFormed(cs, o.commit);
    CreateCommitPreservesValid(s, merged, message, ["merge"], thumbnail, id, now);
    assert GetCommits(made.store) == cs + [made.commit];
    forall br | o.workspace.store.branches.Some? && br in o.workspace.store.branches.value
      ensures HeadResolves(GetCommits(o.workspace.store), br)
    {
      if br.headCommitId != "" {
        var c :| c in GetCommits(made.store) && c.id == br.headCommitId;
        if c == made.commit {
          assert o.commit in cs + [o.commit];
        } else {
          assert c in cs;
          HasCommitAppend(cs, o.commit, br.headCommitId);
        }
      }
    }
  }

  /** When both branch heads resolve to stored commits, the merge succeeds
      and, with a fresh id, keeps the repository valid. */
  lemma MergeBranchesPreservesValid(w: Workspace, branchAId: string, branchBId: string,
                                    resolutions: seq<ConflictResolution>, thumbnail: string, id: string, now: int)
    requires Valid(w.store)
    requires id != "" && !HasCommit(GetCommits(w.store), id)
    requires HeadCommit(w.store, branchAId, now).Some? && HeadCommit(w.store, branchBId, now).Some?
    ensures MergeBranches(w, branchAId, branchBId, resolutions, thumbnail, id, now).Success?
    ensures Valid(MergeBranches(w, branchAId, branchBId, resolutions, thumbnail, id, now).value.workspace.store)
  {
    var bs := GetBranches(w.store, now);
    var a, b := bs[FindBranch(bs, branchAId).value], bs[FindBranch(bs, branchBId).value];
    assert ApplyMergeResolutions(w.store, a.headCommitId, b.headCommitId, resolutions).Success?;
    MergeOfHeadsPreservesValid(w.store, a, b, resolutions, thumbnail, id, now);
  }

  /** In a valid store a merge succeeds exactly when both branch heads
      resolve to stored commits. */
  lemma MergeSucceedsIffHeadsResolve(w: Workspace, branchAId: string, branchBId: string,
                                     resolutions: seq<ConflictResolution>, thumbnail: string, id: string, now: int)
    requires Valid(w.store)
    ensures MergeBranches(w, branchAId, branchBId, resolutions, thumbnail, id, now).Success? <==>
            HeadCommit(w.store, branchAId, now).Some? && HeadCommit(w.store, branchBId, now).Some?
  {
    var bs := GetBranches(w.store, now);
    var cs := GetCommits(w.store);
    if FindBranch(bs, branchAId).Some? && FindBranch(bs, branchBId).Some? {
      var a, b := bs[FindBranch(bs, branchAId).value], bs[FindBranch(bs, branchBId).value];
      if FindCommit(cs, a.headCommitId).Some? {
        assert cs[FindCommit(cs, a.headCommitId).value].id != "";
      }
      if FindCommit(cs, b.headCommitId).Some? {
        assert cs[FindCommit(cs, b.headCommitId).value].id != "";
      }
    }
  }

  /** The merge of two branch heads whose commits are both stored. */
  lemma MergeOfHeadsPreservesValid(s: Store, a: Branch, b: Branch,
                                   resolutions: seq<ConflictResolution>, thumbnail: string, id: string, now: int)
    requires Valid(s)
    requires id != "" && !HasCommit(GetCommits(s), id)
    requires ApplyMergeResolutions(s, a.headCommitId, b.headCommitId, resolutions).Success?
    ensures Valid(RecordMergeCommit(s, ApplyMergeResolutions(s, a.headCommitId, b.headCommitId, resolutions).value,
                                    MergeMessage(b.name, a.name), [a.headCommitId, b.headCommitId],
                                    resolutions, thumbnail, id, now).workspace.store)
  {
    var cs := GetCommits(s);
    var merged := ApplyMergeResolutions(s, a.headCommitId, b.headCommitId, resolutions).value;
    assert HasCommit(cs, a.headCommitId) by { assert cs[FindCommit(cs, a.headCommitId).value] in cs; }
    assert HasCommit(cs, b.headCommitId) by { assert cs[FindCommit(cs, b.headCommitId).value] in cs; }
    RecordMergeCommitPreservesValid(s, merged, MergeMessage(b.name, a.name),
                                    [a.headCommitId, b.headCommitId], resolutions, thumbnail, id, now);
  }

  /** Every commit's parents come strictly before it, so following parent
      links always ends at a root. */
  lemma ParentsPrecede(cs: seq<Commit>, i: nat, p: string)
    requires CommitsWellFormed(cs)
    requires i < |cs| && p in cs[i].parentIds
    ensures exists j :: 0 <= j < i && cs[j].id == p
  {
    var c :| c in cs[..i] && c.id == p;
    var j :| 0 <= j < i && cs[..i][j] == c;
  }
}
