/** The records of the version-control layer and the port it persists them through.

    The persistence port keeps three independent records: the commit list,
    the branch list and the id of the active branch. Each one is either
    absent (never written) or holds the last value saved. Reads fall back to
    defaults: no commits, a single `main` branch, and `"main"` as the active
    branch id.
 */
module VersionControl {
  import opened Wrappers
  import opened Strings
  import opened Scene

  datatype Author = Author(name: string, avatar: Option<string>, initials: string)

  datatype ChangesSummary = ChangesSummary(added: nat, modified: nat, deleted: nat, details: seq<string>)

  datatype ConflictType = Position | Style | Content | Deleted

  datatype Resolution = KeepA | KeepB | Manual

  datatype ConflictResolution = ConflictResolution(
    objectId: string,
    conflictType: ConflictType,
    resolution: Resolution,
    resolvedBy: string)

  /** The competing values a conflict reports, one shape per conflict type. */
  datatype ConflictValue =
    | PositionValue(left: int, top: int)
    | StyleValue(fill: Option<string>, stroke: Option<string>)
    | ContentValue(text: Option<string>)

  datatype ConflictSide = ConflictSide(value: ConflictValue, commitId: string)

  datatype MergeConflict = MergeConflict(
    objectId: Key,
    objectType: string,
    conflictType: ConflictType,
    branchA: ConflictSide,
    branchB: ConflictSide)

  datatype Commit = Commit(
    id: string,
    parentIds: seq<string>,
    timestamp: int,
    author: Author,
    message: string,
    tags: seq<string>,
    snapshot: Snapshot,
    thumbnail: string,
    changes: ChangesSummary,
    conflictResolutions: Option<seq<ConflictResolution>>)

  datatype Branch = Branch(
    id: string,
    name: string,
    headCommitId: string,
    createdAt: int,
    createdBy: string)

  /** The three persisted records; `None` is a record never written. */
  datatype Store = Store(
    commits: Option<seq<Commit>>,
    branches: Option<seq<Branch>>,
    currentBranch: Option<string>)

  const EmptyStore: Store := Store(None, None, None)

  const MainBranchId: string := "main"

  function GetCommits(s: Store): (r: seq<Commit>)
    ensures s.commits.None? ==> r == []
  {
    s.commits.GetOr([])
  }

  function SaveCommits(s: Store, commits: seq<Commit>): (r: Store)
    ensures GetCommits(r) == commits
    ensures r.branches == s.branches && r.currentBranch == s.currentBranch
  {
    s.(commits := Some(commits))
  }

  /** The branch every repository starts with; `now` is the clock reading
      taken when it is produced. */
  function DefaultBranch(now: int): Branch {
    Branch(MainBranchId, "main", "", now, "system")
  }

  /** The stored branch list, or a fresh default `main` branch when none was
      ever saved. A saved list, even an empty one, suppresses the default. */
  function GetBranches(s: Store, now: int): (r: seq<Branch>)
    ensures s.branches.None? ==>
      && |r| == 1
      && r[0].id == MainBranchId && r[0].name == "main"
      && r[0].headCommitId == "" && r[0].createdBy == "system" && r[0].createdAt == now
    ensures s.branches.Some? ==> r == s.branches.value
  {
    match s.branches
    case Some(bs) => bs
    case None => [DefaultBranch(now)]
  }

  function SaveBranches(s: Store, branches: seq<Branch>): (r: Store)
    ensures forall now :: GetBranches(r, now) == branches
    ensures r.commits == s.commits && r.currentBranch == s.currentBranch
  {
    s.(branches := Some(branches))
  }

  /** `getItem(key) || "main"`: an absent or empty record reads as `"main"`. */
  function GetCurrentBranch(s: Store): (r: string)
    ensures r != ""
    ensures s.currentBranch.None? || s.currentBranch == Some("") ==> r == MainBranchId
  {
    match s.currentBranch
    case Some(id) => if id != "" then id else MainBranchId
    case None => MainBranchId
  }

  function SetCurrentBranch(s: Store, branchId: string): (r: Store)
    ensures branchId != "" ==> GetCurrentBranch(r) == branchId
    ensures branchId == "" ==> GetCurrentBranch(r) == MainBranchId
    ensures r.commits == s.commits && r.branches == s.branches
  {
    s.(currentBranch := Some(branchId))
  }

  predicate StartsWith(s: string, prefix: string) {
    |prefix| <= |s| && s[..|prefix|] == prefix
  }

  /** `commit_${Date.now()}_${random}`, with the clock reading and the random
      base-36 suffix passed in. */
  function GenerateCommitId(clock: nat, suffix: string): (r: string)
    ensures StartsWith(r, "commit_")
  {
    "commit_" + NatToString(clock) + "_" + suffix
  }

  /** `branch_${Date.now()}_${random}`. */
  function GenerateBranchId(clock: nat, suffix: string): (r: string)
    ensures StartsWith(r, "branch_")
  {
    "branch_" + NatToString(clock) + "_" + suffix
  }

  /** The digits of the clock end at the first `_`, so an id determines the
      clock reading and the suffix it was made from. */
  lemma SplitAtUnderscore(d1: string, s1: string, d2: string, s2: string)
    requires AllDigits(d1) && AllDigits(d2)
    requires d1 + "_" + s1 == d2 + "_" + s2
    ensures d1 == d2 && s1 == s2
  {
    var x := d1 + "_" + s1;
    assert x[|d1|] == '_';
    assert x[|d2|] == '_';
    assert |d1| == |d2|;
    assert d1 == x[..|d1|] == d2;
    assert s1 == x[|d1| + 1..] == s2;
  }

  lemma GenerateCommitIdInjective(c1: nat, s1: string, c2: nat, s2: string)
    requires GenerateCommitId(c1, s1) == GenerateCommitId(c2, s2)
    ensures c1 == c2 && s1 == s2
  {
    var p := "commit_";
    var x := GenerateCommitId(c1, s1);
    assert x == p + (NatToString(c1) + "_" + s1);
    assert x == p + (NatToString(c2) + "_" + s2);
    assert NatToString(c1) + "_" + s1 == x[|p|..] == NatToString(c2) + "_" + s2;
    SplitAtUnderscore(NatToString(c1), s1, NatToString(c2), s2);
    NatToStringInjective(c1, c2);
  }

  lemma GenerateBranchIdInjective(c1: nat, s1: string, c2: nat, s2: string)
    requires GenerateBranchId(c1, s1) == GenerateBranchId(c2, s2)
    ensures c1 == c2 && s1 == s2
  {
    var p := "branch_";
    var x := GenerateBranchId(c1, s1);
    assert x == p + (NatToString(c1) + "_" + s1);
    assert x == p + (NatToString(c2) + "_" + s2);
    assert NatToString(c1) + "_" + s1 == x[|p|..] == NatToString(c2) + "_" + s2;
    SplitAtUnderscore(NatToString(c1), s1, NatToString(c2), s2);
    NatToStringInjective(c1, c2);
  }

  /** A commit id and a branch id never coincide. */
  lemma CommitAndBranchIdsDiffer(c1: nat, s1: string, c2: nat, s2: string)
    ensures GenerateCommitId(c1, s1) != GenerateBranchId(c2, s2)
  {
    assert GenerateCommitId(c1, s1)[0] == 'c';
    assert GenerateBranchId(c2, s2)[0] == 'b';
  }
}
