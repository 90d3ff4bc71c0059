/** The branch panel's rules: which actions it offers for each branch, and
    what its create and merge dialogs hand to the manager.

    The panel's state is the two dialog flags and the three text fields.
    A handler either does nothing or emits one request and resets the
    fields it consumed; the request itself is carried out by the caller.
 */
module BranchManager {
  import opened Strings
  import opened VersionControl

  datatype PanelState = PanelState(
    showCreateDialog: bool,
    showMergeDialog: bool,
    newBranchName: string,
    sourceBranch: string,
    targetBranch: string)

  /** What a handler asks of the manager. */
  datatype Request =
    | NoRequest
    | CreateBranchRequest(name: string)
    | MergeRequest(sourceId: string, targetId: string)

  datatype Step = Step(state: PanelState, request: Request)

  /** A branch may be deleted unless it is the default branch or the one checked out. */
  predicate CanDeleteBranch(branch: Branch, current: Branch) {
    branch.id != MainBranchId && branch.id != current.id
  }

  /** The switch button is shown for every branch but the current one. */
  predicate SwitchOffered(branch: Branch, current: Branch) {
    branch.id != current.id
  }

  predicate CreateDisabled(p: PanelState) {
    Trim(p.newBranchName) == ""
  }

  predicate MergeDisabled(p: PanelState) {
    p.sourceBranch == "" || p.targetBranch == "" || p.sourceBranch == p.targetBranch
  }

  /** The create dialog's confirm handler. */
  function HandleCreateBranch(p: PanelState): (r: Step)
    ensures r.request.CreateBranchRequest? <==> !AllWhitespace(p.newBranchName)
    ensures r.request.MergeRequest? == false
    ensures r.request.CreateBranchRequest? ==>
              && r.request.name != ""
              && IsTrimmed(r.request.name)
              && r.request.name == Trim(p.newBranchName)
              && r.state == p.(newBranchName := "", showCreateDialog := false)
    ensures r.request.NoRequest? ==> r.state == p
  {
    var name := Trim(p.newBranchName);
    if name != "" then
      Step(p.(newBranchName := "", showCreateDialog := false), CreateBranchRequest(name))
    else
      Step(p, NoRequest)
  }

  /** The merge dialog's confirm handler. It needs both selections but,
      unlike the button that calls it, does not compare them. */
  function HandleMerge(p: PanelState): (r: Step)
    ensures r.request.MergeRequest? <==> p.sourceBranch != "" && p.targetBranch != ""
    ensures r.request.CreateBranchRequest? == false
    ensures r.request.MergeRequest? ==>
              && r.request.sourceId == p.sourceBranch
              && r.request.targetId == p.targetBranch
              && r.state == p.(sourceBranch := "", targetBranch := "", showMergeDialog := false)
    ensures r.request.NoRequest? ==> r.state == p
  {
    if p.sourceBranch != "" && p.targetBranch != "" then
      Step(p.(sourceBranch := "", targetBranch := "", showMergeDialog := false),
           MergeRequest(p.sourceBranch, p.targetBranch))
    else
      Step(p, NoRequest)
  }

  /** The branches the target selector lists: all but the chosen source, in order. */
  function TargetOptions(branches: seq<Branch>, sourceId: string): (r: seq<Branch>)
    ensures forall b :: b in r <==> b in branches && b.id != sourceId
    ensures |r| <= |branches|
  {
    if branches == [] then []
    else
      (if branches[0].id != sourceId then [branches[0]] else [])
        + TargetOptions(branches[1..], sourceId)
  }

  /** The create button is enabled exactly when its handler emits a request. */
  lemma CreateButtonMatchesHandler(p: PanelState)
    ensures !CreateDisabled(p) <==> HandleCreateBranch(p).request.CreateBranchRequest?
  {
  }

  /** Confirming a second time does nothing: the consumed name is gone. */
  lemma CreateFiresOnce(p: PanelState)
    ensures HandleCreateBranch(HandleCreateBranch(p).state) == HandleCreateBranch(p).(request := NoRequest)
  {
  }

  /** Whenever the merge button is enabled, the handler fires with two
      different branches; the handler alone would accept equal ones. */
  lemma EnabledMergeFires(p: PanelState)
    requires !MergeDisabled(p)
    ensures HandleMerge(p).request == MergeRequest(p.sourceBranch, p.targetBranch)
    ensures HandleMerge(p).request.sourceId != HandleMerge(p).request.targetId
  {
  }

  lemma MergeHandlerAcceptsSameBranch(p: PanelState)
    requires p.sourceBranch != "" && p.sourceBranch == p.targetBranch
    ensures MergeDisabled(p)
    ensures HandleMerge(p).request == MergeRequest(p.sourceBranch, p.sourceBranch)
  {
  }

  lemma MergeFiresOnce(p: PanelState)
    ensures HandleMerge(HandleMerge(p).state) == HandleMerge(p).(request := NoRequest)
  {
  }

  /** The current branch offers neither switching nor deletion, and the
      default branch is never deletable. */
  lemma CurrentBranchHasNoActions(branches: seq<Branch>, current: Branch)
    ensures forall b :: b in branches && b.id == current.id ==>
              !SwitchOffered(b, current) && !CanDeleteBranch(b, current)
    ensures forall b :: b in branches && b.id == MainBranchId ==> !CanDeleteBranch(b, current)
    ensures forall b :: b in branches && CanDeleteBranch(b, current) ==> SwitchOffered(b, current)
  {
  }

  /** The options keep the branch list's order: filtering commutes with concatenation. */
  lemma {:induction false} TargetOptionsAppend(xs: seq<Branch>, ys: seq<Branch>, sourceId: string)
    ensures TargetOptions(xs + ys, sourceId) == TargetOptions(xs, sourceId) + TargetOptions(ys, sourceId)
    decreases |xs|
  {
    if xs == [] {
      assert xs + ys == ys;
    } else {
      assert (xs + ys)[1..] == xs[1..] + ys;
      TargetOptionsAppend(xs[1..], ys, sourceId);
    }
  }

  /** With no source chosen, or one that names no listed branch, every branch is offered. */
  lemma {:induction false} TargetOptionsUnfiltered(branches: seq<Branch>, sourceId: string)
    requires forall b :: b in branches ==> b.id != sourceId
    ensures TargetOptions(branches, sourceId) == branches
    decreases |branches|
  {
    if branches != [] {
      assert branches[0] in branches;
      assert forall b :: b in branches[1..] ==> b in branches;
      TargetOptionsUnfiltered(branches[1..], sourceId);
    }
  }
}
