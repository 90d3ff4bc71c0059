/** The scene snapshot as the version-control engine reads it.

    A commit stores the scene serialised by the canvas library; the engine
    only looks at each object's identity (`id || uuid`), its `type`, its
    position, its fill and stroke, and its text. A snapshot is the sequence of
    those objects in z-order.

    The engine indexes a snapshot with `new Map(objects.map(o => [o.id || o.uuid, o]))`.
    `ObjectMap` models that JavaScript `Map`: an association list in
    insertion order, where setting a key that is already present replaces its
    value in place. So with a repeated key the LAST object wins while the
    key keeps the position of its FIRST occurrence.
 */
module Scene {
  import opened Wrappers

  /** What an object is keyed under; `None` is JavaScript's `undefined`. */
  type Key = Option<string>

  datatype SceneObject = SceneObject(
    id: Option<string>,
    uuid: Option<string>,
    objectType: string,
    left: int,
    top: int,
    fill: Option<string>,
    stroke: Option<string>,
    text: Option<string>)

  type Snapshot = seq<SceneObject>

  /** `obj.id || obj.uuid`: an empty or missing `id` falls through to `uuid`. */
  function KeyOf(o: SceneObject): Key {
    if o.id.Some? && o.id.value != "" then o.id else o.uuid
  }

  /** `objs.findIndex(o => (o.id || o.uuid) === k)`, with `None` for -1. */
  function FirstIndexByKey(objs: Snapshot, k: Key): (r: Option<nat>)
    ensures r.Some? ==> r.value < |objs| && KeyOf(objs[r.value]) == k
    ensures r.Some? ==> forall j :: 0 <= j < r.value ==> KeyOf(objs[j]) != k
    ensures r.None? ==> forall j :: 0 <= j < |objs| ==> KeyOf(objs[j]) != k
  {
    if |objs| == 0 then None
    else if KeyOf(objs[0]) == k then Some(0)
    else match FirstIndexByKey(objs[1..], k)
      case Some(i) => Some(i + 1)
      case None => None
  }

  /** The position of the last object keyed `k`. */
  function LastIndexByKey(objs: Snapshot, k: Key): (r: Option<nat>)
    ensures r.Some? ==> r.value < |objs| && KeyOf(objs[r.value]) == k
    ensures r.Some? ==> forall j :: r.value < j < |objs| ==> KeyOf(objs[j]) != k
    ensures r.None? ==> forall j :: 0 <= j < |objs| ==> KeyOf(objs[j]) != k
  {
    if |objs| == 0 then None
    else if KeyOf(objs[|objs| - 1]) == k then Some(|objs| - 1)
    else LastIndexByKey(objs[..|objs| - 1], k)
  }

  /** What the map built from `objs` holds for `k`, read straight off the
      snapshot: the last object carrying that key. */
  function ObjectFor(objs: Snapshot, k: Key): Option<SceneObject> {
    match LastIndexByKey(objs, k)
    case Some(i) => Some(objs[i])
    case None => None
  }

  /** `k1`'s first occurrence in `objs` comes before `k2`'s. */
  predicate Precedes(objs: Snapshot, k1: Key, k2: Key) {
    match (FirstIndexByKey(objs, k1), FirstIndexByKey(objs, k2))
    case (Some(a), Some(b)) => a < b
    case _ => false
  }

  datatype Entry = Entry(key: Key, obj: SceneObject)

  /** A JavaScript `Map` from keys to scene objects, in insertion order. */
  type ObjectMap = seq<Entry>

  predicate DistinctKeys(m: ObjectMap) {
    forall i, j :: 0 <= i < j < |m| ==> m[i].key != m[j].key
  }

  function IndexOfKey(m: ObjectMap, k: Key): (r: Option<nat>)
    ensures r.Some? ==> r.value < |m| && m[r.value].key == k
    ensures r.Some? ==> forall j :: 0 <= j < r.value ==> m[j].key != k
    ensures r.None? ==> forall j :: 0 <= j < |m| ==> m[j].key != k
  {
    if |m| == 0 then None
    else if m[0].key == k then Some(0)
    else match IndexOfKey(m[1..], k)
      case Some(i) => Some(i + 1)
      case None => None
  }

  /** `map.get(k)`. */
  function Lookup(m: ObjectMap, k: Key): Option<SceneObject> {
    match IndexOfKey(m, k)
    case Some(i) => Some(m[i].obj)
    case None => None
  }

  /** `map.set(k, o)`: replace in place when `k` is present, append otherwise. */
  function Put(m: ObjectMap, k: Key, o: SceneObject): ObjectMap {
    match IndexOfKey(m, k)
    case Some(i) => m[i := Entry(k, o)]
    case None => m + [Entry(k, o)]
  }

  /** `new Map(objs.map(o => [o.id || o.uuid, o]))`. Its keys are distinct and
      ordered by first occurrence in `objs`, and each key maps to the last
      object that carries it. */
  function BuildMap(objs: Snapshot): (m: ObjectMap)
    ensures DistinctKeys(m)
    ensures forall i :: 0 <= i < |m| ==> KeyOf(m[i].obj) == m[i].key
    ensures forall i :: 0 <= i < |m| ==> ObjectFor(objs, m[i].key) == Some(m[i].obj)
    ensures forall k :: Lookup(m, k) == ObjectFor(objs, k)
    ensures forall i, j :: 0 <= i < j < |m| ==> Precedes(objs, m[i].key, m[j].key)
  {
    BuildMapSpec(objs);
    Insertions(objs)
  }

  /** The entries in the order `Map` receives them: one `set` per object. */
  function Insertions(objs: Snapshot): ObjectMap {
    if |objs| == 0 then []
    else Put(Insertions(objs[..|objs| - 1]), KeyOf(objs[|objs| - 1]), objs[|objs| - 1])
  }

  lemma {:induction false} BuildMapSpec(objs: Snapshot)
    ensures var m := Insertions(objs);
      && DistinctKeys(m)
      && (forall i :: 0 <= i < |m| ==> KeyOf(m[i].obj) == m[i].key)
      && (forall i :: 0 <= i < |m| ==> ObjectFor(objs, m[i].key) == Some(m[i].obj))
      && (forall k :: Lookup(m, k) == ObjectFor(objs, k))
      && (forall i, j :: 0 <= i < j < |m| ==> Precedes(objs, m[i].key, m[j].key))
    decreases |objs|
  {
    if |objs| != 0 {
      var p := objs[..|objs| - 1];
      var o := objs[|objs| - 1];
      assert objs == p + [o];
      BuildMapSpec(p);
      BuildMapStep(p, o, Insertions(p));
    }
  }

  lemma {:induction false} FirstIndexAppend(p: Snapshot, o: SceneObject, k: Key)
    ensures FirstIndexByKey(p + [o], k) ==
      if FirstIndexByKey(p, k).Some? then FirstIndexByKey(p, k)
      else if KeyOf(o) == k then Some(|p|) else None
    decreases |p|
  {
    if |p| != 0 {
      assert (p + [o])[1..] == p[1..] + [o];
      if KeyOf(p[0]) != k {
        FirstIndexAppend(p[1..], o, k);
      }
    }
  }

  lemma ObjectForAppend(p: Snapshot, o: SceneObject, k: Key)
    ensures ObjectFor(p + [o], k) == if KeyOf(o) == k then Some(o) else ObjectFor(p, k)
  {
    var q := p + [o];
    assert q[..|q| - 1] == p;
  }

  lemma IndexOfDistinct(m: ObjectMap, i: nat)
    requires DistinctKeys(m) && i < |m|
    ensures IndexOfKey(m, m[i].key) == Some(i)
  {
  }

  /** `Put` leaves every other key's entry where it was, and puts `k`'s
      entry in place or at the end. */
  lemma PutShape(m0: ObjectMap, k: Key, o: SceneObject)
    requires DistinctKeys(m0)
    ensures var m := Put(m0, k, o);
      && DistinctKeys(m)
      && |m| == (if IndexOfKey(m0, k).Some? then |m0| else |m0| + 1)
      && (forall i :: 0 <= i < |m0| ==> m[i] == if m0[i].key == k then Entry(k, o) else m0[i])
      && (IndexOfKey(m0, k).None? ==> m[|m0|] == Entry(k, o))
  {
  }

  lemma LookupPut(m0: ObjectMap, k: Key, o: SceneObject, k': Key)
    requires DistinctKeys(m0)
    ensures Lookup(Put(m0, k, o), k') == if k' == k then Some(o) else Lookup(m0, k')
  {
    var m := Put(m0, k, o);
    PutShape(m0, k, o);
    if k' == k {
      match IndexOfKey(m0, k)
      case Some(x) => IndexOfDistinct(m, x);
      case None => IndexOfDistinct(m, |m0|);
    } else {
      match IndexOfKey(m0, k')
      case Some(y) => IndexOfDistinct(m, y);
      case None =>
    }
  }

  lemma BuildMapStep(p: Snapshot, o: SceneObject, m0: ObjectMap)
    requires DistinctKeys(m0)
    requires forall i :: 0 <= i < |m0| ==> ObjectFor(p, m0[i].key) == Some(m0[i].obj)
    requires forall k :: Lookup(m0, k) == ObjectFor(p, k)
    requires forall i, j :: 0 <= i < j < |m0| ==> Precedes(p, m0[i].key, m0[j].key)
    ensures var m := Put(m0, KeyOf(o), o);
      && DistinctKeys(m)
      && (forall i :: 0 <= i < |m| ==> ObjectFor(p + [o], m[i].key) == Some(m[i].obj))
      && (forall k :: Lookup(m, k) == ObjectFor(p + [o], k))
      && (forall i, j :: 0 <= i < j < |m| ==> Precedes(p + [o], m[i].key, m[j].key))
  {
    var k := KeyOf(o);
    var q := p + [o];
    var m := Put(m0, k, o);
    PutShape(m0, k, o);
    forall k' ensures Lookup(m, k') == ObjectFor(q, k') {
      LookupPut(m0, k, o, k');
      ObjectForAppend(p, o, k');
    }
    forall i | 0 <= i < |m| ensures ObjectFor(q, m[i].key) == Some(m[i].obj) {
      ObjectForAppend(p, o, m[i].key);
    }
    PutKeepsOrder(p, o, m0);
  }

  lemma PutKeepsOrder(p: Snapshot, o: SceneObject, m0: ObjectMap)
    requires DistinctKeys(m0)
    requires forall i :: 0 <= i < |m0| ==> ObjectFor(p, m0[i].key) == Some(m0[i].obj)
    requires forall k :: Lookup(m0, k) == ObjectFor(p, k)
    requires forall i, j :: 0 <= i < j < |m0| ==> Precedes(p, m0[i].key, m0[j].key)
    ensures var m := Put(m0, KeyOf(o), o);
      forall i, j :: 0 <= i < j < |m| ==> Precedes(p + [o], m[i].key, m[j].key)
  {
    var k := KeyOf(o);
    var q := p + [o];
    var m := Put(m0, k, o);
    PutShape(m0, k, o);
    forall i, j | 0 <= i < j < |m| ensures Precedes(q, m[i].key, m[j].key) {
      FirstIndexAppend(p, o, m[i].key);
      FirstIndexAppend(p, o, m[j].key);
      assert LastIndexByKey(p, m0[i].key).Some?;
      if j < |m0| {
        assert LastIndexByKey(p, m0[j].key).Some?;
      } else {
        assert Lookup(m0, k).None?;
        assert LastIndexByKey(p, k).None?;
      }
    }
  }

  predicate UniqueKeys(objs: Snapshot) {
    forall i, j :: 0 <= i < j < |objs| ==> KeyOf(objs[i]) != KeyOf(objs[j])
  }

  lemma LastKeyIsNew(objs: Snapshot)
    requires UniqueKeys(objs) && 0 < |objs|
    ensures UniqueKeys(objs[..|objs| - 1])
    ensures LastIndexByKey(objs[..|objs| - 1], KeyOf(objs[|objs| - 1])).None?
  {
    var p := objs[..|objs| - 1];
    assert forall j :: 0 <= j < |p| ==> p[j] == objs[j];
  }

  /** Putting an object under a key not yet present appends its entry. */
  lemma UniqueStep(p: Snapshot, o: SceneObject, m0: ObjectMap)
    requires |m0| == |p|
    requires forall i :: 0 <= i < |p| ==> m0[i] == Entry(KeyOf(p[i]), p[i])
    requires LastIndexByKey(p, KeyOf(o)).None?
    ensures var q, m := p + [o], Put(m0, KeyOf(o), o);
      |m| == |q| && forall i :: 0 <= i < |q| ==> m[i] == Entry(KeyOf(q[i]), q[i])
  {
    forall j | 0 <= j < |m0| ensures m0[j].key != KeyOf(o) {
      assert m0[j].key == KeyOf(p[j]);
    }
    assert IndexOfKey(m0, KeyOf(o)).None?;
  }

  /** When every key occurs once, the map is the snapshot itself, keyed. */
  lemma BuildMapUniqueKeys(objs: Snapshot)
    requires UniqueKeys(objs)
    ensures |BuildMap(objs)| == |objs|
    ensures forall i :: 0 <= i < |objs| ==> BuildMap(objs)[i] == Entry(KeyOf(objs[i]), objs[i])
  {
    InsertionsUniqueKeys(objs);
  }

  lemma {:induction false} InsertionsUniqueKeys(objs: Snapshot)
    requires UniqueKeys(objs)
    ensures |Insertions(objs)| == |objs|
    ensures forall i :: 0 <= i < |objs| ==> Insertions(objs)[i] == Entry(KeyOf(objs[i]), objs[i])
    decreases |objs|
  {
    if |objs| != 0 {
      var p := objs[..|objs| - 1];
      var o := objs[|objs| - 1];
      LastKeyIsNew(objs);
      InsertionsUniqueKeys(p);
      UniqueStep(p, o, Insertions(p));
      assert objs == p + [o];
    }
  }
}
