/** Structural comparison of two scene snapshots, and the application of
    conflict resolutions to them.

    Detection keys both snapshots by `id || uuid` and, walking the first
    snapshot's map in insertion order, compares every object whose key the
    second snapshot also has. Per object it reports, in this order, a
    position conflict, a style conflict and (for text objects) a content
    conflict. Objects present on one side only are not reported, so the
    `Deleted` conflict type is never produced.

    Resolution keeps the first snapshot as the base and, for every `KeepB`
    resolution whose object the second snapshot has, replaces the first
    object of the base carrying that key with the second snapshot's object.
 */
module Diff {
  import opened Wrappers
  import opened Scene
  import opened VersionControl

  /** The fixed order conflicts of one object are reported in. */
  function Rank(t: ConflictType): nat {
    match t
    case Position => 0
    case Style => 1
    case Content => 2
    case Deleted => 3
  }

  predicate HasConflictType(r: seq<MergeConflict>, t: ConflictType) {
    exists c :: c in r && c.conflictType == t
  }

  predicate PositionDiffers(a: SceneObject, b: SceneObject) {
    a.left != b.left || a.top != b.top
  }

  predicate StyleDiffers(a: SceneObject, b: SceneObject) {
    a.fill != b.fill || a.stroke != b.stroke
  }

  predicate ContentDiffers(a: SceneObject, b: SceneObject) {
    a.objectType == "text" && a.text != b.text
  }

  function Conflict(a: SceneObject, t: ConflictType, va: ConflictValue, vb: ConflictValue,
                    commitAId: string, commitBId: string): MergeConflict {
    MergeConflict(KeyOf(a), a.objectType, t, ConflictSide(va, commitAId), ConflictSide(vb, commitBId))
  }

  /** The conflict of type `t` between `a` and `b` when `differs`, else none. */
  function ConflictIf(differs: bool, a: SceneObject, t: ConflictType, va: ConflictValue, vb: ConflictValue,
                      commitAId: string, commitBId: string): (r: seq<MergeConflict>)
    ensures |r| <= 1
    ensures differs <==> |r| == 1
    ensures forall c :: c in r ==> c == Conflict(a, t, va, vb, commitAId, commitBId)
  {
    if differs then [Conflict(a, t, va, vb, commitAId, commitBId)] else []
  }

  /** The conflicts between two versions `a` and `b` of one object. */
  function DetectObjectConflicts(a: SceneObject, b: SceneObject, commitAId: string, commitBId: string)
    : (r: seq<MergeConflict>)
    ensures |r| <= 3
    ensures forall c :: c in r ==>
      && c.objectId == KeyOf(a) && c.objectType == a.objectType
      && c.branchA.commitId == commitAId && c.branchB.commitId == commitBId
    ensures HasConflictType(r, Position) <==> PositionDiffers(a, b)
    ensures HasConflictType(r, Style) <==> StyleDiffers(a, b)
    ensures HasConflictType(r, Content) <==> ContentDiffers(a, b)
    ensures !HasConflictType(r, Deleted)
    ensures forall i, j :: 0 <= i < j < |r| ==> Rank(r[i].conflictType) < Rank(r[j].conflictType)
    ensures forall c :: c in r && c.conflictType == Position ==>
      c.branchA.value == PositionValue(a.left, a.top) && c.branchB.value == PositionValue(b.left, b.top)
    ensures forall c :: c in r && c.conflictType == Style ==>
      c.branchA.value == StyleValue(a.fill, a.stroke) && c.branchB.value == StyleValue(b.fill, b.stroke)
    ensures forall c :: c in r && c.conflictType == Content ==>
      c.branchA.value == ContentValue(a.text) && c.branchB.value == ContentValue(b.text)
  {
    var position := ConflictIf(PositionDiffers(a, b), a, Position,
                               PositionValue(a.left, a.top), PositionValue(b.left, b.top), commitAId, commitBId);
    var style := ConflictIf(StyleDiffers(a, b), a, Style,
                            StyleValue(a.fill, a.stroke), StyleValue(b.fill, b.stroke), commitAId, commitBId);
    var content := ConflictIf(ContentDiffers(a, b), a, Content,
                              ContentValue(a.text), ContentValue(b.text), commitAId, commitBId);
    DetectFacts(position, style, content);
    DetectValues(a, b, commitAId, commitBId, position, style, content);
    position + style + content
  }

  /** What each reported conflict carries. */
  lemma DetectValues(a: SceneObject, b: SceneObject, commitAId: string, commitBId: string,
                     position: seq<MergeConflict>, style: seq<MergeConflict>, content: seq<MergeConflict>)
    requires position == ConflictIf(PositionDiffers(a, b), a, Position,
                                    PositionValue(a.left, a.top), PositionValue(b.left, b.top), commitAId, commitBId)
    requires style == ConflictIf(StyleDiffers(a, b), a, Style,
                                 StyleValue(a.fill, a.stroke), StyleValue(b.fill, b.stroke), commitAId, commitBId)
    requires content == ConflictIf(ContentDiffers(a, b), a, Content,
                                   ContentValue(a.text), ContentValue(b.text), commitAId, commitBId)
    ensures var r := position + style + content;
      && (forall c :: c in r ==>
            && c.objectId == KeyOf(a) && c.objectType == a.objectType
            && c.branchA.commitId == commitAId && c.branchB.commitId == commitBId)
      && (forall c :: c in r && c.conflictType == Position ==>
            c.branchA.value == PositionValue(a.left, a.top) && c.branchB.value == PositionValue(b.left, b.top))
      && (forall c :: c in r && c.conflictType == Style ==>
            c.branchA.value == StyleValue(a.fill, a.stroke) && c.branchB.value == StyleValue(b.fill, b.stroke))
      && (forall c :: c in r && c.conflictType == Content ==>
            c.branchA.value == ContentValue(a.text) && c.branchB.value == ContentValue(b.text))
  {
  }

  /** What concatenating the three per-type parts preserves. */
  lemma DetectFacts(position: seq<MergeConflict>, style: seq<MergeConflict>, content: seq<MergeConflict>)
    requires |position| <= 1 && |style| <= 1 && |content| <= 1
    requires forall c :: c in position ==> c.conflictType == Position
    requires forall c :: c in style ==> c.conflictType == Style
    requires forall c :: c in content ==> c.conflictType == Content
    ensures var r := position + style + content;
      && (HasConflictType(r, Position) <==> |position| == 1)
      && (HasConflictType(r, Style) <==> |style| == 1)
      && (HasConflictType(r, Content) <==> |content| == 1)
      && !HasConflictType(r, Deleted)
      && forall i, j :: 0 <= i < j < |r| ==> Rank(r[i].conflictType) < Rank(r[j].conflictType)
  {
    var r := position + style + content;
    if |position| == 1 { assert position[0] in r; }
    if |style| == 1 { assert style[0] in r; }
    if |content| == 1 { assert content[0] in r; }
    forall i | 0 <= i < |r|
      ensures Rank(r[i].conflictType) ==
        if i < |position| then 0 else if i < |position| + |style| then 1 else 2
    {
      if i < |position| {
        assert r[i] in position;
      } else if i < |position| + |style| {
        assert r[i] == style[i - |position|];
        assert r[i] in style;
      } else {
        assert r[i] == content[i - |position| - |style|];
        assert r[i] in content;
      }
    }
  }

  /** An object never conflicts with itself. */
  lemma NoSelfConflicts(a: SceneObject, commitAId: string, commitBId: string)
    ensures DetectObjectConflicts(a, a, commitAId, commitBId) == []
  {
  }

  /** `c` is one of the conflicts of entry `e` against the map `objectsB`. */
  predicate EntryConflict(e: Entry, objectsB: ObjectMap, commitAId: string, commitBId: string, c: MergeConflict) {
    match Lookup(objectsB, e.key)
    case Some(objB) => c in DetectObjectConflicts(e.obj, objB, commitAId, commitBId)
    case None => false
  }

  predicate WellKeyed(m: ObjectMap) {
    && DistinctKeys(m)
    && forall i :: 0 <= i < |m| ==> KeyOf(m[i].obj) == m[i].key
  }

  /** Every conflict in `r` belongs to the entry of `entries` its object id keys. */
  ghost predicate SoundFor(entries: ObjectMap, objectsB: ObjectMap, commitAId: string, commitBId: string, r: seq<MergeConflict>) {
    forall c :: c in r ==>
      && IndexOfKey(entries, c.objectId).Some?
      && EntryConflict(entries[IndexOfKey(entries, c.objectId).value], objectsB, commitAId, commitBId, c)
  }

  /** Every conflict of every entry of `entries` is in `r`. */
  ghost predicate CompleteFor(entries: ObjectMap, objectsB: ObjectMap, commitAId: string, commitBId: string, r: seq<MergeConflict>) {
    forall i, c :: 0 <= i < |entries| && EntryConflict(entries[i], objectsB, commitAId, commitBId, c) ==> c in r
  }

  /** `r` lists conflicts in the order of their objects' entries, and one
      object's conflicts in the fixed type order. */
  ghost predicate InEntryOrder(entries: ObjectMap, r: seq<MergeConflict>) {
    forall i, j :: 0 <= i < j < |r| ==> ReportedBefore(entries, r[i], r[j])
  }

  /** Both conflicts' objects are in `entries`, and `a` comes strictly first:
      its object's entry is earlier, or it is the same object and `a`'s type
      ranks lower. */
  predicate ReportedBefore(entries: ObjectMap, a: MergeConflict, b: MergeConflict) {
    && IndexOfKey(entries, a.objectId).Some? && IndexOfKey(entries, b.objectId).Some?
    && (|| IndexOfKey(entries, a.objectId).value < IndexOfKey(entries, b.objectId).value
        || (a.objectId == b.objectId && Rank(a.conflictType) < Rank(b.conflictType)))
  }

  /** The loop `for (const [id, objA] of objectsA) { ... }`. */
  function CompareEntries(entries: ObjectMap, objectsB: ObjectMap, commitAId: string, commitBId: string)
    : (r: seq<MergeConflict>)
    requires WellKeyed(entries)
    ensures SoundFor(entries, objectsB, commitAId, commitBId, r)
    ensures CompleteFor(entries, objectsB, commitAId, commitBId, r)
    ensures InEntryOrder(entries, r)
  {
    if |entries| == 0 then []
    else
      var e := entries[0];
      var rest := entries[1..];
      assert WellKeyed(rest);
      var tail := CompareEntries(rest, objectsB, commitAId, commitBId);
      var head := match Lookup(objectsB, e.key)
        case Some(objB) => DetectObjectConflicts(e.obj, objB, commitAId, commitBId)
        case None => [];
      assert forall c :: c in head ==> c.objectId == e.key;
      assert forall i, j :: 0 <= i < j < |head| ==> Rank(head[i].conflictType) < Rank(head[j].conflictType);
      StepSound(entries, objectsB, commitAId, commitBId, head, tail);
      StepComplete(entries, objectsB, commitAId, commitBId, head, tail);
      StepOrdered(entries, head, tail);
      head + tail
  }

  /** Keys after the first entry sit one place further along than in the rest. */
  lemma IndexOfKeyTail(entries: ObjectMap, k: Key)
    requires DistinctKeys(entries) && 0 < |entries|
    requires IndexOfKey(entries[1..], k).Some?
    ensures IndexOfKey(entries, k) == Some(IndexOfKey(entries[1..], k).value + 1)
  {
    var v := IndexOfKey(entries[1..], k).value;
    assert entries[1..][v] == entries[v + 1];
  }

  lemma StepSound(entries: ObjectMap, objectsB: ObjectMap, commitAId: string, commitBId: string,
                  head: seq<MergeConflict>, tail: seq<MergeConflict>)
    requires DistinctKeys(entries) && 0 < |entries|
    requires forall c :: c in head ==>
      c.objectId == entries[0].key && EntryConflict(entries[0], objectsB, commitAId, commitBId, c)
    requires SoundFor(entries[1..], objectsB, commitAId, commitBId, tail)
    ensures SoundFor(entries, objectsB, commitAId, commitBId, head + tail)
  {
    forall c | c in head + tail
      ensures && IndexOfKey(entries, c.objectId).Some?
              && EntryConflict(entries[IndexOfKey(entries, c.objectId).value], objectsB, commitAId, commitBId, c)
    {
      if c !in head {
        IndexOfKeyTail(entries, c.objectId);
        var v := IndexOfKey(entries[1..], c.objectId).value;
        assert entries[1..][v] == entries[v + 1];
      }
    }
  }

  lemma StepComplete(entries: ObjectMap, objectsB: ObjectMap, commitAId: string, commitBId: string,
                     head: seq<MergeConflict>, tail: seq<MergeConflict>)
    requires 0 < |entries|
    requires forall c :: EntryConflict(entries[0], objectsB, commitAId, commitBId, c) ==> c in head
    requires CompleteFor(entries[1..], objectsB, commitAId, commitBId, tail)
    ensures CompleteFor(entries, objectsB, commitAId, commitBId, head + tail)
  {
    forall i, c | 0 <= i < |entries| && EntryConflict(entries[i], objectsB, commitAId, commitBId, c)
      ensures c in head + tail
    {
      if 0 < i {
        assert entries[i] == entries[1..][i - 1];
      }
    }
  }

  lemma StepOrdered(entries: ObjectMap, head: seq<MergeConflict>, tail: seq<MergeConflict>)
    requires DistinctKeys(entries) && 0 < |entries|
    requires forall c :: c in head ==> c.objectId == entries[0].key
    requires forall i, j :: 0 <= i < j < |head| ==> Rank(head[i].conflictType) < Rank(head[j].conflictType)
    requires forall c :: c in tail ==> IndexOfKey(entries[1..], c.objectId).Some?
    requires InEntryOrder(entries[1..], tail)
    ensures InEntryOrder(entries, head + tail)
  {
    forall i, j | 0 <= i < j < |head + tail|
      ensures ReportedBefore(entries, (head + tail)[i], (head + tail)[j])
    {
      StepOrderedPair(entries, head, tail, i, j);
    }
  }

  lemma StepOrderedPair(entries: ObjectMap, head: seq<MergeConflict>, tail: seq<MergeConflict>, i: int, j: int)
    requires DistinctKeys(entries) && 0 < |entries|
    requires forall c :: c in head ==> c.objectId == entries[0].key
    requires forall i, j :: 0 <= i < j < |head| ==> Rank(head[i].conflictType) < Rank(head[j].conflictType)
    requires forall c :: c in tail ==> IndexOfKey(entries[1..], c.objectId).Some?
    requires InEntryOrder(entries[1..], tail)
    requires 0 <= i < j < |head + tail|
    ensures ReportedBefore(entries, (head + tail)[i], (head + tail)[j])
  {
    var r := head + tail;
    var rest := entries[1..];
    assert IndexOfKey(entries, entries[0].key) == Some(0);
    if j < |head| {
      assert r[i] == head[i] && r[j] == head[j];
      assert r[i] in head && r[j] in head;
    } else {
      assert r[j] == tail[j - |head|];
      assert r[j] in tail;
      IndexOfKeyTail(entries, r[j].objectId);
      if i < |head| {
        assert r[i] in head;
      } else {
        assert r[i] == tail[i - |head|];
        assert r[i] in tail;
        IndexOfKeyTail(entries, r[i].objectId);
        assert ReportedBefore(rest, tail[i - |head|], tail[j - |head|]);
      }
    }
  }

  /** `c` is one of the conflicts between the two snapshots' objects keyed
      `c.objectId`, each side's object being the last one with that key. */
  predicate IsConflictOf(stateA: Snapshot, stateB: Snapshot, commitAId: string, commitBId: string, c: MergeConflict) {
    match (ObjectFor(stateA, c.objectId), ObjectFor(stateB, c.objectId))
    case (Some(objA), Some(objB)) => c in DetectObjectConflicts(objA, objB, commitAId, commitBId)
    case _ => false
  }

  /** `k1`'s first occurrence in `objs` is not after `k2`'s. */
  predicate NotAfter(objs: Snapshot, k1: Key, k2: Key) {
    match (FirstIndexByKey(objs, k1), FirstIndexByKey(objs, k2))
    case (Some(a), Some(b)) => a <= b
    case _ => false
  }

  /** The conflicts between two snapshots: exactly the per-object conflicts
      of the keys both snapshots carry, never a deletion, ordered by where
      each key first occurs in the first snapshot. */
  function CompareCanvasStates(stateA: Snapshot, stateB: Snapshot, commitAId: string, commitBId: string)
    : (r: seq<MergeConflict>)
    ensures forall c :: c in r <==> IsConflictOf(stateA, stateB, commitAId, commitBId, c)
    ensures forall c :: c in r ==>
      c.conflictType != Deleted && c.branchA.commitId == commitAId && c.branchB.commitId == commitBId
    ensures forall i, j :: 0 <= i < j < |r| ==> NotAfter(stateA, r[i].objectId, r[j].objectId)
    ensures forall i, j :: 0 <= i < j < |r| ==> r[i] != r[j]
    ensures forall i, j :: 0 <= i < j < |r| && r[i].objectId == r[j].objectId ==>
      Rank(r[i].conflictType) < Rank(r[j].conflictType)
  {
    var entries := BuildMap(stateA);
    var objectsB := BuildMap(stateB);
    var r := CompareEntries(entries, objectsB, commitAId, commitBId);
    CompareCanvasStatesSpec(stateA, stateB, commitAId, commitBId, entries, objectsB, r);
    r
  }

  lemma CompareCanvasStatesSpec(stateA: Snapshot, stateB: Snapshot, commitAId: string, commitBId: string,
                                entries: ObjectMap, objectsB: ObjectMap, r: seq<MergeConflict>)
    requires entries == BuildMap(stateA) && objectsB == BuildMap(stateB)
    requires r == CompareEntries(entries, objectsB, commitAId, commitBId)
    ensures forall c :: c in r <==> IsConflictOf(stateA, stateB, commitAId, commitBId, c)
    ensures forall c :: c in r ==>
      c.conflictType != Deleted && c.branchA.commitId == commitAId && c.branchB.commitId == commitBId
    ensures forall i, j :: 0 <= i < j < |r| ==> NotAfter(stateA, r[i].objectId, r[j].objectId)
    ensures forall i, j :: 0 <= i < j < |r| ==> r[i] != r[j]
    ensures forall i, j :: 0 <= i < j < |r| && r[i].objectId == r[j].objectId ==>
      Rank(r[i].conflictType) < Rank(r[j].conflictType)
  {
    forall c ensures c in r <==> IsConflictOf(stateA, stateB, commitAId, commitBId, c) {
      assert Lookup(entries, c.objectId) == ObjectFor(stateA, c.objectId);
      assert Lookup(objectsB, c.objectId) == ObjectFor(stateB, c.objectId);
      if IsConflictOf(stateA, stateB, commitAId, commitBId, c) {
        var v := IndexOfKey(entries, c.objectId).value;
        assert EntryConflict(entries[v], objectsB, commitAId, commitBId, c);
      }
    }
    forall c | c in r
      ensures c.conflictType != Deleted && c.branchA.commitId == commitAId && c.branchB.commitId == commitBId
    {
      var v := IndexOfKey(entries, c.objectId).value;
      var objB := Lookup(objectsB, entries[v].key).value;
      assert c in DetectObjectConflicts(entries[v].obj, objB, commitAId, commitBId);
      assert !HasConflictType(DetectObjectConflicts(entries[v].obj, objB, commitAId, commitBId), Deleted);
    }
    forall i, j | 0 <= i < j < |r| ensures NotAfter(stateA, r[i].objectId, r[j].objectId) {
      assert ReportedBefore(entries, r[i], r[j]);
      var a := IndexOfKey(entries, r[i].objectId).value;
      var b := IndexOfKey(entries, r[j].objectId).value;
      assert ObjectFor(stateA, entries[a].key).Some?;
      assert LastIndexByKey(stateA, entries[a].key).Some?;
      if a == b {
        assert r[i].objectId == r[j].objectId;
      } else {
        assert Precedes(stateA, entries[a].key, entries[b].key);
      }
    }
    forall i, j | 0 <= i < j < |r|
      ensures r[i] != r[j]
      ensures r[i].objectId == r[j].objectId ==> Rank(r[i].conflictType) < Rank(r[j].conflictType)
    {
      assert ReportedBefore(entries, r[i], r[j]);
    }
  }

  lemma NotSelfConflict(state: Snapshot, commitAId: string, commitBId: string, c: MergeConflict)
    ensures !IsConflictOf(state, state, commitAId, commitBId, c)
  {
    match ObjectFor(state, c.objectId)
    case Some(o) => NoSelfConflicts(o, commitAId, commitBId);
    case None =>
  }

  /** A snapshot compared with itself has no conflicts. */
  lemma SelfComparisonEmpty(state: Snapshot, commitAId: string, commitBId: string)
    ensures CompareCanvasStates(state, state, commitAId, commitBId) == []
  {
    var r := CompareCanvasStates(state, state, commitAId, commitBId);
    forall c ensures c !in r {
      NotSelfConflict(state, commitAId, commitBId, c);
    }
    NoMembersEmpty(r);
  }

  lemma NoMembersEmpty(r: seq<MergeConflict>)
    requires forall c :: c !in r
    ensures r == []
  {
    forall c ensures multiset(r)[c] == 0 {
      assert c !in r;
    }
    assert multiset(r) == multiset{};
    assert |r| == |multiset(r)|;
  }

  /** Exhaustiveness: for every key both snapshots carry, each kind of
      difference between its two objects is reported. */
  lemma CompareCanvasStatesExhaustive(stateA: Snapshot, stateB: Snapshot, commitAId: string, commitBId: string, k: Key)
    requires ObjectFor(stateA, k).Some? && ObjectFor(stateB, k).Some?
    ensures var objA, objB, r := ObjectFor(stateA, k).value, ObjectFor(stateB, k).value,
                                 CompareCanvasStates(stateA, stateB, commitAId, commitBId);
      && (PositionDiffers(objA, objB) <==> exists c :: c in r && c.objectId == k && c.conflictType == Position)
      && (StyleDiffers(objA, objB) <==> exists c :: c in r && c.objectId == k && c.conflictType == Style)
      && (ContentDiffers(objA, objB) <==> exists c :: c in r && c.objectId == k && c.conflictType == Content)
  {
    var objA, objB := ObjectFor(stateA, k).value, ObjectFor(stateB, k).value;
    var r := CompareCanvasStates(stateA, stateB, commitAId, commitBId);
    var d := DetectObjectConflicts(objA, objB, commitAId, commitBId);
    assert KeyOf(objA) == k;
    forall c | c in d ensures c in r {
      assert IsConflictOf(stateA, stateB, commitAId, commitBId, c);
    }
    forall c | c in r && c.objectId == k ensures c in d {
      assert IsConflictOf(stateA, stateB, commitAId, commitBId, c);
    }
  }

  /** An object keyed in only one of the snapshots produces no conflict. */
  lemma OneSidedObjectsIgnored(stateA: Snapshot, stateB: Snapshot, commitAId: string, commitBId: string, k: Key)
    requires ObjectFor(stateA, k).None? || ObjectFor(stateB, k).None?
    ensures forall c :: c in CompareCanvasStates(stateA, stateB, commitAId, commitBId) ==> c.objectId != k
  {
  }

  // ---------------------------------------------------------------------
  // Applying resolutions

  /** Some `KeepB` resolution names `id`. */
  predicate KeepsB(resolutions: seq<ConflictResolution>, id: string) {
    exists res :: res in resolutions && res.objectId == id && res.resolution == KeepB
  }

  /** The object the merge puts at position `i` of the base `stateA`: the
      second snapshot's object when position `i` is the first one keyed by an
      id some `KeepB` names and the second snapshot has that id; otherwise
      the base object. */
  function MergedObject(stateA: Snapshot, objectsB: ObjectMap, resolutions: seq<ConflictResolution>, i: nat): SceneObject
    requires i < |stateA|
  {
    var k := KeyOf(stateA[i]);
    if k.Some? && FirstIndexByKey(stateA, k) == Some(i) && KeepsB(resolutions, k.value) && Lookup(objectsB, k).Some?
    then Lookup(objectsB, k).value
    else stateA[i]
  }

  /** One pass of the resolution loop: a `KeepB` whose object the second
      snapshot has overwrites the first working object carrying that id. */
  function ApplyOne(merged: Snapshot, objectsB: ObjectMap, res: ConflictResolution): Snapshot {
    match Lookup(objectsB, Some(res.objectId))
    case Some(objB) =>
      if res.resolution == KeepB then
        match FirstIndexByKey(merged, Some(res.objectId))
        case Some(index) => merged[index := objB]
        case None => merged
      else merged
    case None => merged
  }

  /** The loop `for (const resolution of resolutions) { ... }` over the
      working copy `merged` of the base objects. */
  function ApplyResolutions(merged: Snapshot, objectsB: ObjectMap, resolutions: seq<ConflictResolution>): Snapshot
    decreases |resolutions|
  {
    if |resolutions| == 0 then merged
    else ApplyResolutions(ApplyOne(merged, objectsB, resolutions[0]), objectsB, resolutions[1..])
  }

  /** The merged snapshot: the base `stateA`, same length and order, with
      each object replaced exactly as `MergedObject` says. */
  function MergeSnapshots(stateA: Snapshot, stateB: Snapshot, resolutions: seq<ConflictResolution>): (r: Snapshot)
    ensures |r| == |stateA|
    ensures forall i :: 0 <= i < |stateA| ==> r[i] == MergedObject(stateA, BuildMap(stateB), resolutions, i)
    ensures forall i :: 0 <= i < |stateA| ==> KeyOf(r[i]) == KeyOf(stateA[i])
  {
    var objectsB := BuildMap(stateB);
    ApplyResolutionsSpec(stateA, stateA, objectsB, [], resolutions);
    assert [] + resolutions == resolutions;
    ApplyResolutions(stateA, objectsB, resolutions)
  }

  /** Invariant of the resolution loop: after the resolutions `done`, the
      working copy is what `MergedObject` prescribes for `done`. */
  lemma {:induction false} ApplyResolutionsSpec(stateA: Snapshot, merged: Snapshot, objectsB: ObjectMap,
                                                done: seq<ConflictResolution>, todo: seq<ConflictResolution>)
    requires WellKeyed(objectsB)
    requires |merged| == |stateA|
    requires forall i :: 0 <= i < |stateA| ==> merged[i] == MergedObject(stateA, objectsB, done, i)
    ensures var r := ApplyResolutions(merged, objectsB, todo);
      && |r| == |stateA|
      && (forall i :: 0 <= i < |stateA| ==> r[i] == MergedObject(stateA, objectsB, done + todo, i))
      && (forall i :: 0 <= i < |stateA| ==> KeyOf(r[i]) == KeyOf(stateA[i]))
    decreases |todo|
  {
    MergedKeepsKeys(stateA, objectsB, done);
    if |todo| == 0 {
      assert done + todo == done;
    } else {
      var res := todo[0];
      var next := ApplyOne(merged, objectsB, res);
      var done' := done + [res];
      ApplyOneSpec(stateA, merged, objectsB, done, res);
      ApplyResolutionsSpec(stateA, next, objectsB, done', todo[1..]);
      assert done' + todo[1..] == done + todo;
    }
  }

  lemma ApplyOneSpec(stateA: Snapshot, merged: Snapshot, objectsB: ObjectMap,
                      done: seq<ConflictResolution>, res: ConflictResolution)
    requires WellKeyed(objectsB)
    requires |merged| == |stateA|
    requires forall i :: 0 <= i < |stateA| ==> merged[i] == MergedObject(stateA, objectsB, done, i)
    ensures var next := ApplyOne(merged, objectsB, res);
      && |next| == |stateA|
      && forall i :: 0 <= i < |stateA| ==> next[i] == MergedObject(stateA, objectsB, done + [res], i)
  {
    MergedKeepsKeys(stateA, objectsB, done);
    SameKeysSameFirstIndex(stateA, merged, Some(res.objectId));
    forall i | 0 <= i < |stateA|
      ensures ApplyOne(merged, objectsB, res)[i] == MergedObject(stateA, objectsB, done + [res], i)
    {
      StepObject(stateA, merged, objectsB, done, res, i);
    }
  }

  lemma MergedKeepsKeys(stateA: Snapshot, objectsB: ObjectMap, rs: seq<ConflictResolution>)
    requires WellKeyed(objectsB)
    ensures forall i :: 0 <= i < |stateA| ==> KeyOf(MergedObject(stateA, objectsB, rs, i)) == KeyOf(stateA[i])
  {
    forall i | 0 <= i < |stateA|
      ensures KeyOf(MergedObject(stateA, objectsB, rs, i)) == KeyOf(stateA[i])
    {
      var k := KeyOf(stateA[i]);
      match IndexOfKey(objectsB, k)
      case Some(v) =>
      case None =>
    }
  }

  lemma SameKeysSameFirstIndex(a: Snapshot, b: Snapshot, k: Key)
    requires |a| == |b|
    requires forall i :: 0 <= i < |a| ==> KeyOf(b[i]) == KeyOf(a[i])
    ensures FirstIndexByKey(a, k) == FirstIndexByKey(b, k)
  {
    match FirstIndexByKey(a, k)
    case Some(x) =>
      var y := FirstIndexByKey(b, k);
      assert y.Some? by { assert KeyOf(b[x]) == k; }
      assert !(y.value < x) by { assert KeyOf(a[y.value]) == KeyOf(b[y.value]); }
    case None =>
  }

  lemma StepObject(stateA: Snapshot, merged: Snapshot, objectsB: ObjectMap,
                   done: seq<ConflictResolution>, res: ConflictResolution, i: nat)
    requires WellKeyed(objectsB)
    requires |merged| == |stateA| && i < |stateA|
    requires forall j :: 0 <= j < |stateA| ==> merged[j] == MergedObject(stateA, objectsB, done, j)
    requires forall j :: 0 <= j < |stateA| ==> KeyOf(merged[j]) == KeyOf(stateA[j])
    requires FirstIndexByKey(stateA, Some(res.objectId)) == FirstIndexByKey(merged, Some(res.objectId))
    ensures var next := ApplyOne(merged, objectsB, res);
      |next| == |stateA| && next[i] == MergedObject(stateA, objectsB, done + [res], i)
  {
    var k := KeyOf(stateA[i]);
    var done' := done + [res];
    if k.Some? && KeepsB(done', k.value) && !KeepsB(done, k.value) {
      assert res.objectId == k.value && res.resolution == KeepB;
    }
    if k.Some? && KeepsB(done, k.value) {
      var w :| w in done && w.objectId == k.value && w.resolution == KeepB;
      assert w in done';
    }
  }

  /** Resolutions other than `KeepB`, and `KeepB` for ids the second
      snapshot lacks, change nothing: the merge is the base. */
  lemma MergeWithoutKeepBIsBase(stateA: Snapshot, stateB: Snapshot, resolutions: seq<ConflictResolution>)
    requires forall res :: res in resolutions && res.resolution == KeepB ==>
      ObjectFor(stateB, Some(res.objectId)).None?
    ensures MergeSnapshots(stateA, stateB, resolutions) == stateA
  {
    var r := MergeSnapshots(stateA, stateB, resolutions);
    forall i | 0 <= i < |stateA| ensures r[i] == stateA[i] {
      var k := KeyOf(stateA[i]);
      assert Lookup(BuildMap(stateB), k) == ObjectFor(stateB, k);
    }
  }

  /** Objects no `KeepB` resolution names keep the base's value. */
  lemma MergeLeavesUnmentionedObjects(stateA: Snapshot, stateB: Snapshot, resolutions: seq<ConflictResolution>, i: nat)
    requires i < |stateA|
    requires forall res :: res in resolutions && res.resolution == KeepB ==> Some(res.objectId) != KeyOf(stateA[i])
    ensures MergeSnapshots(stateA, stateB, resolutions)[i] == stateA[i]
  {
  }

  /** A `KeepB` for an id both snapshots carry puts the second snapshot's
      object (the last one with that id) where the base first has the id. */
  lemma MergeTakesB(stateA: Snapshot, stateB: Snapshot, resolutions: seq<ConflictResolution>, res: ConflictResolution)
    requires res in resolutions && res.resolution == KeepB
    requires FirstIndexByKey(stateA, Some(res.objectId)).Some?
    requires ObjectFor(stateB, Some(res.objectId)).Some?
    ensures MergeSnapshots(stateA, stateB, resolutions)[FirstIndexByKey(stateA, Some(res.objectId)).value]
            == ObjectFor(stateB, Some(res.objectId)).value
  {
    assert KeepsB(resolutions, res.objectId);
    assert Lookup(BuildMap(stateB), Some(res.objectId)) == ObjectFor(stateB, Some(res.objectId));
  }
}
