/** The layout of the commit graph: one node per commit, one edge per
    parent link.

    Nodes are placed left to right in ascending timestamp order (ties keep
    the stored order), 400 units apart. Each branch whose head is met while
    walking that order is given the next free lane, 300 units below the
    previous one; a head commit sits in its branch's lane. Any other commit
    sits in the lane of its parent's branch when the parent is a branch head
    whose lane is already assigned, and in the top lane otherwise.
 */
module CommitGraph {
  import opened Wrappers
  import opened Sorting
  import opened VersionControl

  const LaneSpacing: int := 300
  const ColumnSpacing: int := 400
  const LeftMargin: int := 50
  const TopMargin: int := 100

  const ConflictColor: string := "#ef4444"
  const MergeColor: string := "#22c55e"
  const PlainColor: string := "#6b7280"

  datatype FlowNode = FlowNode(
    id: string,
    x: int,
    y: int,
    isLatest: bool,
    hasConflicts: bool,
    isMerged: bool,
    canDelete: bool,
    isSelected: bool)

  datatype FlowEdge = FlowEdge(
    id: string,
    source: string,
    target: string,
    hasConflicts: bool,
    isMerged: bool,
    color: string,
    strokeWidth: int)

  function Timestamp(c: Commit): int {
    c.timestamp
  }

  /** The commit records at least one conflict resolution. */
  predicate HasConflicts(c: Commit) {
    c.conflictResolutions.Some? && |c.conflictResolutions.value| > 0
  }

  predicate IsMerged(c: Commit) {
    |c.parentIds| > 1
  }

  /** No commit names `c` as a parent, and `c` is not the active head. */
  predicate CanDelete(commits: seq<Commit>, c: Commit, current: Branch) {
    !(exists d :: d in commits && c.id in d.parentIds) && current.headCommitId != c.id
  }

  /** `branches.find(b => b.headCommitId === commitId)`, as an index. */
  function HeadBranch(bs: seq<Branch>, commitId: string): (r: Option<nat>)
    ensures r.Some? ==> r.value < |bs| && bs[r.value].headCommitId == commitId
    ensures r.Some? ==> forall j :: 0 <= j < r.value ==> bs[j].headCommitId != commitId
    ensures r.None? ==> forall j :: 0 <= j < |bs| ==> bs[j].headCommitId != commitId
  {
    if |bs| == 0 then None
    else if bs[0].headCommitId == commitId then Some(0)
    else match HeadBranch(bs[1..], commitId)
      case Some(i) => Some(i + 1)
      case None => None
  }

  /** `sorted.find(p => c.parentIds.includes(p.id))`, as an index. */
  function FirstParent(sorted: seq<Commit>, c: Commit): (r: Option<nat>)
    ensures r.Some? ==> r.value < |sorted| && sorted[r.value].id in c.parentIds
    ensures r.Some? ==> forall j :: 0 <= j < r.value ==> sorted[j].id !in c.parentIds
    ensures r.None? ==> forall j :: 0 <= j < |sorted| ==> sorted[j].id !in c.parentIds
  {
    if |sorted| == 0 then None
    else if sorted[0].id in c.parentIds then Some(0)
    else match FirstParent(sorted[1..], c)
      case Some(i) => Some(i + 1)
      case None => None
  }

  predicate Distinct(s: seq<string>) {
    forall a, b :: 0 <= a < b < |s| ==> s[a] != s[b]
  }

  /** The branches given lanes while walking `cs`, in the order their first
      head commit is met. */
  function LaneOrder(bs: seq<Branch>, cs: seq<Commit>): (r: seq<string>)
    ensures Distinct(r)
  {
    if |cs| == 0 then []
    else
      var prev := LaneOrder(bs, cs[..|cs| - 1]);
      match HeadBranch(bs, cs[|cs| - 1].id)
      case Some(h) => if bs[h].id in prev then prev else prev + [bs[h].id]
      case None => prev
  }

  /** The position of `id` in a sequence without repetitions. */
  function IndexIn(s: seq<string>, id: string): (r: nat)
    requires id in s
    ensures r < |s| && s[r] == id
    ensures forall j :: 0 <= j < r ==> s[j] != id
  {
    if s[0] == id then 0 else 1 + IndexIn(s[1..], id)
  }

  /** The lane of commit `i` of the timestamp order, counted from the top. */
  function Lane(bs: seq<Branch>, sorted: seq<Commit>, i: nat): nat
    requires i < |sorted|
  {
    var c := sorted[i];
    match HeadBranch(bs, c.id)
    case Some(h) =>
      var order := LaneOrder(bs, sorted[..i + 1]);
      assert sorted[..i + 1][..i] == sorted[..i];
      IndexIn(order, bs[h].id)
    case None =>
      var order := LaneOrder(bs, sorted[..i]);
      match FirstParent(sorted, c)
      case Some(p) =>
        (match HeadBranch(bs, sorted[p].id)
         case Some(pb) => if bs[pb].id in order then IndexIn(order, bs[pb].id) else 0
         case None => 0)
      case None => 0
  }

  /** The lane offset of commit `i` of the timestamp order. */
  function BranchY(bs: seq<Branch>, sorted: seq<Commit>, i: nat): int
    requires i < |sorted|
  {
    LaneSpacing * Lane(bs, sorted, i)
  }

  /** The node drawn for commit `i` of the timestamp order. */
  function NodeAt(commits: seq<Commit>, bs: seq<Branch>, current: Branch, selected: Option<string>, i: nat): FlowNode
    requires i < |commits|
  {
    var sorted := SortBy(commits, Timestamp);
    var c := sorted[i];
    FlowNode(c.id, ColumnSpacing * i + LeftMargin, BranchY(bs, sorted, i) + TopMargin,
             current.headCommitId == c.id, HasConflicts(c), IsMerged(c), CanDelete(commits, c, current),
             selected == Some(c.id))
  }

  // ---------------------------------------------------------------------
  // The lane map

  datatype LaneEntry = LaneEntry(branchId: string, y: int)

  /** `branchPositions.get(id)`. */
  function LaneLookup(lanes: seq<LaneEntry>, id: string): (r: Option<int>)
    ensures r.None? <==> forall k :: 0 <= k < |lanes| ==> lanes[k].branchId != id
  {
    if |lanes| == 0 then None
    else if lanes[0].branchId == id then Some(lanes[0].y)
    else LaneLookup(lanes[1..], id)
  }

  /** The lane map holds exactly the lanes of `order`, 300 units apart. */
  predicate LanesMatch(lanes: seq<LaneEntry>, order: seq<string>) {
    && |lanes| == |order|
    && forall k :: 0 <= k < |lanes| ==> lanes[k] == LaneEntry(order[k], LaneSpacing * k)
  }

  lemma {:induction false} LaneLookupMatch(lanes: seq<LaneEntry>, order: seq<string>, id: string, offset: nat)
    requires |lanes| == |order| && Distinct(order)
    requires forall k :: 0 <= k < |lanes| ==> lanes[k] == LaneEntry(order[k], LaneSpacing * (k + offset))
    ensures id in order ==> LaneLookup(lanes, id) == Some(LaneSpacing * (IndexIn(order, id) + offset))
    ensures id !in order ==> LaneLookup(lanes, id).None?
    decreases |lanes|
  {
    if |lanes| != 0 && lanes[0].branchId != id {
      assert forall k :: 0 <= k < |lanes| - 1 ==> lanes[1..][k] == LaneEntry(order[1..][k], LaneSpacing * (k + (offset + 1)));
      LaneLookupMatch(lanes[1..], order[1..], id, offset + 1);
      if id in order {
        assert id in order[1..];
      }
    }
  }

  lemma LaneLookupOrder(lanes: seq<LaneEntry>, order: seq<string>, id: string)
    requires LanesMatch(lanes, order) && Distinct(order)
    ensures id in order ==> LaneLookup(lanes, id) == Some(LaneSpacing * IndexIn(order, id))
    ensures id !in order ==> LaneLookup(lanes, id).None?
  {
    LaneLookupMatch(lanes, order, id, 0);
  }

  /** One step of the walk: the lane of commit `i`, giving its branch the
      next free lane first when it is a head whose branch has none yet. */
  method PlaceCommit(bs: seq<Branch>, sorted: seq<Commit>, i: nat, lanes: seq<LaneEntry>, nextY: int)
    returns (lanes': seq<LaneEntry>, nextY': int, branchY: int)
    requires i < |sorted|
    requires LanesMatch(lanes, LaneOrder(bs, sorted[..i]))
    requires nextY == LaneSpacing * |lanes|
    ensures LanesMatch(lanes', LaneOrder(bs, sorted[..i + 1]))
    ensures nextY' == LaneSpacing * |lanes'|
    ensures branchY == BranchY(bs, sorted, i)
  {
    var c := sorted[i];
    var order := LaneOrder(bs, sorted[..i]);
    assert sorted[..i + 1][..i] == sorted[..i];
    lanes', nextY', branchY := lanes, nextY, 0;
    match HeadBranch(bs, c.id) {
      case Some(h) =>
        var bid := bs[h].id;
        LaneLookupOrder(lanes, order, bid);
        if LaneLookup(lanes, bid).None? {
          lanes' := lanes + [LaneEntry(bid, nextY)];
          nextY' := nextY + LaneSpacing;
        }
        var order' := LaneOrder(bs, sorted[..i + 1]);
        LaneLookupOrder(lanes', order', bid);
        branchY := LaneLookup(lanes', bid).value;
      case None =>
        match FirstParent(sorted, c) {
          case Some(p) =>
            match HeadBranch(bs, sorted[p].id) {
              case Some(pb) =>
                LaneLookupOrder(lanes, order, bs[pb].id);
                if LaneLookup(lanes, bs[pb].id).Some? {
                  branchY := LaneLookup(lanes, bs[pb].id).value;
                }
              case None =>
            }
          case None =>
        }
    }
  }

  /** The node list: the source's `sortedCommits.map(...)`, keeping the lane
      map and the next free lane as it goes. */
  method BuildNodes(commits: seq<Commit>, bs: seq<Branch>, current: Branch, selected: Option<string>)
    returns (nodes: seq<FlowNode>)
    ensures |nodes| == |commits|
    ensures forall i :: 0 <= i < |nodes| ==> nodes[i] == NodeAt(commits, bs, current, selected, i)
  {
    var sorted := SortBy(commits, Timestamp);
    assert |sorted| == |commits|;
    var lanes: seq<LaneEntry> := [];
    var nextY := 0;
    nodes := [];
    for i := 0 to |sorted|
      invariant |nodes| == i
      invariant forall k :: 0 <= k < i ==> nodes[k] == NodeAt(commits, bs, current, selected, k)
      invariant LanesMatch(lanes, LaneOrder(bs, sorted[..i]))
      invariant sorted == SortBy(commits, Timestamp)
      invariant nextY == LaneSpacing * |lanes|
    {
      var node;
      node, lanes, nextY := PlaceNode(commits, bs, current, selected, sorted, i, lanes, nextY);
      NodesAppend(commits, bs, current, selected, nodes, node);
      nodes := nodes + [node];
    }
  }

  lemma NodesAppend(commits: seq<Commit>, bs: seq<Branch>, current: Branch, selected: Option<string>,
                    nodes: seq<FlowNode>, node: FlowNode)
    requires |nodes| < |commits|
    requires forall k :: 0 <= k < |nodes| ==> nodes[k] == NodeAt(commits, bs, current, selected, k)
    requires node == NodeAt(commits, bs, current, selected, |nodes|)
    ensures forall k :: 0 <= k < |nodes| + 1 ==> (nodes + [node])[k] == NodeAt(commits, bs, current, selected, k)
  {
  }

  /** The loop body of `BuildNodes`: the node of commit `i` of the timestamp order. */
  method PlaceNode(commits: seq<Commit>, bs: seq<Branch>, current: Branch, selected: Option<string>,
                   sorted: seq<Commit>, i: nat, lanes: seq<LaneEntry>, nextY: int)
    returns (node: FlowNode, lanes': seq<LaneEntry>, nextY': int)
    requires sorted == SortBy(commits, Timestamp) && i < |sorted|
    requires LanesMatch(lanes, LaneOrder(bs, sorted[..i]))
    requires nextY == LaneSpacing * |lanes|
    ensures node == NodeAt(commits, bs, current, selected, i)
    ensures LanesMatch(lanes', LaneOrder(bs, sorted[..i + 1]))
    ensures nextY' == LaneSpacing * |lanes'|
  {
    var c := sorted[i];
    var branchY;
    lanes', nextY', branchY := PlaceCommit(bs, sorted, i, lanes, nextY);
    node := FlowNode(c.id, ColumnSpacing * i + LeftMargin, branchY + TopMargin,
                     current.headCommitId == c.id, HasConflicts(c), IsMerged(c),
                     CanDelete(commits, c, current), selected == Some(c.id));
  }

  // ---------------------------------------------------------------------
  // Properties of the layout

  /** Lanes, once given, keep their position as the walk goes on. */
  lemma {:induction false} LaneOrderPrefix(bs: seq<Branch>, cs: seq<Commit>, m: nat)
    requires m <= |cs|
    ensures var small, big := LaneOrder(bs, cs[..m]), LaneOrder(bs, cs);
      |small| <= |big| && big[..|small|] == small
    decreases |cs|
  {
    if m < |cs| {
      var p := cs[..|cs| - 1];
      assert p[..m] == cs[..m];
      LaneOrderPrefix(bs, p, m);
    } else {
      assert cs[..m] == cs;
    }
  }

  lemma IndexInPrefix(small: seq<string>, big: seq<string>, id: string)
    requires |small| <= |big| && big[..|small|] == small && id in small
    ensures id in big && IndexIn(big, id) == IndexIn(small, id)
  {
    var k := IndexIn(small, id);
    assert big[k] == id;
    if IndexIn(big, id) < k {
      assert small[IndexIn(big, id)] == big[IndexIn(big, id)];
    }
  }

  /** A head commit's lane is its branch's position in the full lane order. */
  lemma HeadLane(bs: seq<Branch>, sorted: seq<Commit>, i: nat)
    requires i < |sorted| && HeadBranch(bs, sorted[i].id).Some?
    ensures var id := bs[HeadBranch(bs, sorted[i].id).value].id;
      id in LaneOrder(bs, sorted) && Lane(bs, sorted, i) == IndexIn(LaneOrder(bs, sorted), id)
  {
    var id := bs[HeadBranch(bs, sorted[i].id).value].id;
    var small := LaneOrder(bs, sorted[..i + 1]);
    assert sorted[..i + 1][..i] == sorted[..i];
    assert id in small;
    LaneOrderPrefix(bs, sorted, i + 1);
    IndexInPrefix(small, LaneOrder(bs, sorted), id);
  }

  /** Head commits of the same branch share a row; head commits of different
      branches never do. */
  lemma HeadLanesSeparate(bs: seq<Branch>, sorted: seq<Commit>, i: nat, j: nat)
    requires i < |sorted| && j < |sorted|
    requires HeadBranch(bs, sorted[i].id).Some? && HeadBranch(bs, sorted[j].id).Some?
    ensures var bi, bj := bs[HeadBranch(bs, sorted[i].id).value], bs[HeadBranch(bs, sorted[j].id).value];
      BranchY(bs, sorted, i) == BranchY(bs, sorted, j) <==> bi.id == bj.id
  {
    HeadLaneIndices(bs, sorted, i, j);
    assert BranchY(bs, sorted, i) == LaneSpacing * Lane(bs, sorted, i);
    assert BranchY(bs, sorted, j) == LaneSpacing * Lane(bs, sorted, j);
  }

  lemma HeadLaneIndices(bs: seq<Branch>, sorted: seq<Commit>, i: nat, j: nat)
    requires i < |sorted| && j < |sorted|
    requires HeadBranch(bs, sorted[i].id).Some? && HeadBranch(bs, sorted[j].id).Some?
    ensures var bi, bj := bs[HeadBranch(bs, sorted[i].id).value], bs[HeadBranch(bs, sorted[j].id).value];
      Lane(bs, sorted, i) == Lane(bs, sorted, j) <==> bi.id == bj.id
  {
    HeadLane(bs, sorted, i);
    HeadLane(bs, sorted, j);
  }

  /** Every node sits in some lane: a non-negative multiple of 300 below the
      top margin. */
  lemma NodeInLane(commits: seq<Commit>, bs: seq<Branch>, current: Branch, selected: Option<string>, i: nat)
    requires i < |commits|
    ensures exists k: nat :: NodeAt(commits, bs, current, selected, i).y == TopMargin + LaneSpacing * k
  {
    var k := Lane(bs, SortBy(commits, Timestamp), i);
    assert NodeAt(commits, bs, current, selected, i).y == TopMargin + LaneSpacing * k;
  }

  /** Nodes run left to right in timestamp order. */
  lemma NodesInTimeOrder(commits: seq<Commit>, bs: seq<Branch>, current: Branch, selected: Option<string>,
                         i: nat, j: nat)
    requires i < j < |commits|
    ensures NodeAt(commits, bs, current, selected, i).x < NodeAt(commits, bs, current, selected, j).x
    ensures SortBy(commits, Timestamp)[i].timestamp <= SortBy(commits, Timestamp)[j].timestamp
  {
  }

  /** Every commit gets a node. */
  lemma EveryCommitHasNode(commits: seq<Commit>, bs: seq<Branch>, current: Branch, selected: Option<string>, c: Commit)
    requires c in commits
    ensures exists i :: 0 <= i < |commits| && NodeAt(commits, bs, current, selected, i).id == c.id
  {
    var sorted := SortBy(commits, Timestamp);
    assert c in multiset(sorted);
    var i :| 0 <= i < |sorted| && sorted[i] == c;
    assert NodeAt(commits, bs, current, selected, i).id == c.id;
  }

  // ---------------------------------------------------------------------
  // Edges

  /** Red for a commit with resolved conflicts, green for a merge, grey
      otherwise; highlighted edges are drawn thicker. */
  function EdgeFor(c: Commit, parentId: string): (e: FlowEdge)
    ensures e.source == parentId && e.target == c.id
    ensures e.id == parentId + "-" + c.id
    ensures e.hasConflicts == HasConflicts(c) && e.isMerged == IsMerged(c)
    ensures e.color == ConflictColor <==> HasConflicts(c)
    ensures e.color == MergeColor <==> !HasConflicts(c) && IsMerged(c)
    ensures e.color == PlainColor <==> !HasConflicts(c) && !IsMerged(c)
    ensures e.strokeWidth == (if HasConflicts(c) || IsMerged(c) then 3 else 2)
  {
    var color := if HasConflicts(c) then ConflictColor else if IsMerged(c) then MergeColor else PlainColor;
    FlowEdge(parentId + "-" + c.id, parentId, c.id, HasConflicts(c), IsMerged(c), color,
             if HasConflicts(c) || IsMerged(c) then 3 else 2)
  }

  function EdgesOf(c: Commit, parents: seq<string>): (r: seq<FlowEdge>)
    ensures |r| == |parents|
    ensures forall k :: 0 <= k < |r| ==> r[k] == EdgeFor(c, parents[k])
  {
    if |parents| == 0 then [] else [EdgeFor(c, parents[0])] + EdgesOf(c, parents[1..])
  }

  function ParentCount(commits: seq<Commit>): nat {
    if |commits| == 0 then 0 else |commits[0].parentIds| + ParentCount(commits[1..])
  }

  /** One edge per parent link, in commit order: exactly the links. */
  function FlowEdges(commits: seq<Commit>): (r: seq<FlowEdge>)
    ensures |r| == ParentCount(commits)
    ensures forall e :: e in r ==> exists c :: c in commits && e.source in c.parentIds && e == EdgeFor(c, e.source)
    ensures forall c, p :: c in commits && p in c.parentIds ==> EdgeFor(c, p) in r
  {
    if |commits| == 0 then []
    else
      var c := commits[0];
      var head := EdgesOf(c, c.parentIds);
      var tail := FlowEdges(commits[1..]);
      forall e | e in head
        ensures exists d :: d in commits && e.source in d.parentIds && e == EdgeFor(d, e.source)
      {
        var k :| 0 <= k < |head| && head[k] == e;
        assert c in commits;
      }
      forall d, p | d in commits && p in d.parentIds ensures EdgeFor(d, p) in head + tail {
        if d == c {
          var k :| 0 <= k < |c.parentIds| && c.parentIds[k] == p;
          assert head[k] == EdgeFor(c, p);
        } else {
          assert d in commits[1..];
        }
      }
      head + tail
  }

  /** A node offered for deletion is nobody's parent: no edge leaves it. */
  lemma DeletableHasNoOutgoingEdge(commits: seq<Commit>, bs: seq<Branch>, current: Branch,
                                   selected: Option<string>, i: nat)
    requires i < |commits|
    requires NodeAt(commits, bs, current, selected, i).canDelete
    ensures forall e :: e in FlowEdges(commits) ==> e.source != NodeAt(commits, bs, current, selected, i).id
  {
  }

  /** The whole graph; no commits, no graph. */
  method BuildGraph(commits: seq<Commit>, bs: seq<Branch>, current: Branch, selected: Option<string>)
    returns (nodes: seq<FlowNode>, edges: seq<FlowEdge>)
    ensures |commits| == 0 ==> nodes == [] && edges == []
    ensures |nodes| == |commits|
    ensures forall i :: 0 <= i < |nodes| ==> nodes[i] == NodeAt(commits, bs, current, selected, i)
    ensures edges == FlowEdges(commits)
  {
    if |commits| == 0 {
      return [], [];
    }
    nodes := BuildNodes(commits, bs, current, selected);
    edges := FlowEdges(commits);
  }
}
