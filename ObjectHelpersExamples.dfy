/**
  The cases of the helpers' unit tests, and a few cases of `merge`, with the exact
  results the model gives for them.
 */
module ObjectHelpersExamples {
  import opened KeySets
  import opened JsValues
  import opened ObjectHelpers
  import ObjectHelpersProperties

  // ---------------------------------------------------------------------------
  // indexAttributes

  lemma AllKeysOfThree(a: Record, b: Record, c: Record)
    ensures AllKeys([a, b, c]) == Keys(a) + Keys(b) + Keys(c)
  {
    assert [a, b, c][..2] == [a, b];
    assert [a, b][..1] == [a];
    assert [a][..0] == [];
    assert AllKeys([a]) == Keys(a);
    assert AllKeys([a, b]) == Keys(a) + Keys(b);
  }

  method IndexAttributesOfEmptyObject() returns (keys: seq<string>)
    ensures keys == []
  {
    var objects: seq<Record> := [[]];
    keys := IndexAttributes(objects);
    assert objects[..0] == [];
  }

  method IndexAttributesOfOneObject() returns (keys: seq<string>)
    ensures keys == ["test"]
  {
    var objects: seq<Record> := [[("test", Str("value"))]];
    keys := IndexAttributes(objects);
    assert objects[..0] == [];
    assert AllKeys(objects) == ["test"];
    assert ["test"][..0] == [];
  }

  method IndexAttributesOfDuplicateKeys() returns (keys: seq<string>)
    ensures keys == ["test"]
  {
    var obj1: Record := [("test", Str("value1"))];
    var obj2: Record := [("test", Str("value2"))];
    var obj3: Record := [("test", Str("value3"))];
    keys := IndexAttributes([obj1, obj2, obj3]);
    ObjectHelpersProperties.SharedKeyListedOnce([obj1, obj2, obj3], "test");
  }

  /** Three records with one key each, three different keys. */
  function UniqueKeyRecords(): seq<Record> {
    [[("test1", Str("value1"))], [("test2", Str("value2"))], [("test3", Str("value3"))]]
  }

  /** Three records whose keys overlap. */
  function OverlappingKeyRecords(): seq<Record> {
    [ [("test1", Str("value1"))],
      [("test1", Str("value1")), ("test2", Str("value2"))],
      [("test2", Str("value2")), ("test3", Str("value3"))] ]
  }

  lemma UniqueKeysIndexed()
    ensures AddAll([], AllKeys(UniqueKeyRecords())) == ["test1", "test2", "test3"]
  {
    var r := UniqueKeyRecords();
    AllKeysOfThree(r[0], r[1], r[2]);
    assert Keys(r[0]) + Keys(r[1]) + Keys(r[2]) == ["test1", "test2", "test3"];
    AddAllOfNoDup(["test1", "test2", "test3"]);
  }

  lemma OverlappingKeysListed()
    ensures AllKeys(OverlappingKeyRecords()) == ["test1", "test1", "test2", "test2", "test3"]
  {
    var r := OverlappingKeyRecords();
    AllKeysOfThree(r[0], r[1], r[2]);
    assert Keys(r[0]) == ["test1"];
    assert Keys(r[1]) == ["test1", "test2"];
    assert Keys(r[2]) == ["test2", "test3"];
  }

  /** Keys first seen in the order `a a b b c` are, once each, `a b c`. */
  lemma OverlappingOrder(a: string, b: string, c: string)
    requires a != b && b != c && a != c
    ensures NoDup([a, b, c])
    ensures forall k :: k in [a, a, b, b, c] <==> k in [a, b, c]
    ensures FirstSeenOrder([a, a, b, b, c], [a, b, c])
  {
    var s := [a, a, b, b, c];
    FirstIndexUnique(s, a, 0);
    FirstIndexUnique(s, b, 2);
    FirstIndexUnique(s, c, 4);
  }

  method IndexAttributesOfUniqueKeys() returns (keys: seq<string>)
    ensures keys == ["test1", "test2", "test3"]
  {
    keys := IndexAttributes(UniqueKeyRecords());
    UniqueKeysIndexed();
  }

  method IndexAttributesOfOverlappingKeys() returns (keys: seq<string>)
    ensures keys == ["test1", "test2", "test3"]
  {
    var objects := OverlappingKeyRecords();
    keys := IndexAttributes(objects);
    OverlappingKeysListed();
    OverlappingOrder("test1", "test2", "test3");
    ObjectHelpersProperties.FirstSeenOrderDetermines(AllKeys(objects), keys, ["test1", "test2", "test3"]);
  }

  // ---------------------------------------------------------------------------
  // delta

  /** Adding a key the set built from `s` does not hold yet appends it. */
  lemma AddNew(s: seq<string>, x: string, before: seq<string>)
    requires AddAll([], s) == before && x !in before
    ensures AddAll([], s + [x]) == before + [x]
  {
    AddAllSnoc([], s, x);
  }

  /** Adding a key the set built from `s` holds changes nothing. */
  lemma AddSeen(s: seq<string>, x: string, before: seq<string>)
    requires AddAll([], s) == before && x in before
    ensures AddAll([], s + [x]) == before
  {
    AddAllSnoc([], s, x);
  }

  /** The keys `delta` visits for two one-property records. */
  lemma PairKeys(k1: string, v1: Value, k2: string, v2: Value)
    ensures AddAll([], Keys([(k1, v1)]) + Keys([(k2, v2)])) == if k1 == k2 then [k1] else [k1, k2]
  {
    assert Keys([(k1, v1)]) == [k1];
    assert Keys([(k2, v2)]) == [k2];
    assert [] + [k1] == [k1];
    AddNew([], k1, []);
    assert [k1] + [k2] == [k1, k2];
    if k1 == k2 {
      AddSeen([k1], k2, [k1]);
    } else {
      AddNew([k1], k2, [k1]);
    }
  }

  /**
    What `delta` of two one-property records is: one verb when they share their key,
    else a verb for the old key and then one for the new key.
   */
  lemma DeltaOfPair(k1: string, v1: Value, k2: string, v2: Value, delta: Record)
    requires Keys(delta) == AddAll([], Keys([(k1, v1)]) + Keys([(k2, v2)]))
    requires forall i :: 0 <= i < |delta| ==>
      delta[i].1 == Str(Verb(Get([(k1, v1)], delta[i].0), Get([(k2, v2)], delta[i].0)))
    ensures k1 == k2 ==> delta == [(k1, Str(Verb(v1, v2)))]
    ensures k1 != k2 ==> delta == [(k1, Str(Verb(v1, Undefined))), (k2, Str(Verb(Undefined, v2)))]
  {
    PairKeys(k1, v1, k2, v2);
    assert delta[0].0 == k1;
    assert Get([(k1, v1)], k1) == v1;
    if k1 != k2 {
      assert delta[1].0 == k2;
      assert Get([(k1, v1)], k2) == Undefined;
      assert Get([(k2, v2)], k1) == Undefined;
    }
  }

  method DeltaOfUnchangedValue() returns (delta: Record)
    ensures delta == [("test", Str("un-modified"))]
  {
    delta := Delta([("test", Str("value"))], [("test", Str("value"))]);
    DeltaOfPair("test", Str("value"), "test", Str("value"), delta);
    assert Verb(Str("value"), Str("value")) == Unmodified;
  }

  method DeltaOfChangedValue() returns (delta: Record)
    ensures delta == [("test", Str("updated"))]
  {
    delta := Delta([("test", Str("value"))], [("test", Str("new"))]);
    DeltaOfPair("test", Str("value"), "test", Str("new"), delta);
    assert Verb(Str("value"), Str("new")) == Updated;
  }

  method DeltaOfRemovedValue() returns (delta: Record)
    ensures delta == [("test", Str("deleted")), ("notEvaluated", Str("created"))]
  {
    delta := Delta([("test", Str("value"))], [("notEvaluated", Str("new"))]);
    DeltaOfPair("test", Str("value"), "notEvaluated", Str("new"), delta);
    assert Verb(Str("value"), Undefined) == Deleted;
    assert Verb(Undefined, Str("new")) == Created;
  }

  method DeltaOfCreatedValue() returns (delta: Record)
    ensures delta == [("notEvaluated", Str("deleted")), ("test", Str("created"))]
  {
    delta := Delta([("notEvaluated", Str("value"))], [("test", Str("new"))]);
    DeltaOfPair("notEvaluated", Str("value"), "test", Str("new"), delta);
    assert Verb(Str("value"), Undefined) == Deleted;
    assert Verb(Undefined, Str("new")) == Created;
  }

  method DeltaOfNestedObjects() returns (delta: Record)
    ensures delta == [("test", Str("object value evaluation not supported"))]
  {
    var o := Obj([("test", Str("value"))]);
    var n := Obj([("test", Str("new"))]);
    delta := Delta([("test", o)], [("test", n)]);
    DeltaOfPair("test", o, "test", n, delta);
    assert Verb(o, n) == NotSupported;
  }

  // ---------------------------------------------------------------------------
  // flatten

  /** An object with one property has the leaves of that property, one level down. */
  lemma LeavesOfOneEntry(k: string, child: Value)
    ensures Leaves(Obj([(k, child)])) == Under(k, Leaves(child))
  {
    assert EntryLeaves(Obj([(k, child)]), 0) == [];
  }

  /** One leaf, one level down. */
  lemma UnderOne(k: string, path: seq<string>, x: Value)
    ensures Under(k, [(path, x)]) == [([k] + path, x)]
  {
  }

  /** A single leaf becomes a single property. */
  lemma FlatOne(v: Value, path: seq<string>, x: Value)
    requires Leaves(v) == [(path, x)]
    ensures PutAll([], FlatEntries(v, None, None)) == [(FlatKey(None, None, path), x)]
  {
    var es := FlatEntries(v, None, None);
    assert es == [(FlatKey(None, None, path), x)];
    assert es[..0] == [];
  }

  method FlattenOfSingleDepthObject() returns (out: Record)
    ensures out == [("test", Str("value"))]
  {
    out := Flatten(Obj([("test", Str("value"))]), None, None);
    ObjectHelpersProperties.FlattenSingleDepth([("test", Str("value"))]);
  }

  /** The one leaf of an object with one property holding a string. */
  lemma LeavesOfNestedString(path: seq<string>, x: string)
    requires path != []
    ensures Leaves(Nest(path, Str(x))) == [(path, Str(x))]
    decreases |path|
  {
    if |path| == 1 {
      LeavesOfOneEntry(path[0], Str(x));
      assert Leaves(Str(x)) == [([], Str(x))];
      UnderOne(path[0], [], Str(x));
      assert [path[0]] + [] == path;
    } else {
      LeavesOfNestedString(path[1..], x);
      LeavesOfOneEntry(path[0], Nest(path[1..], Str(x)));
      UnderOne(path[0], path[1..], Str(x));
      assert [path[0]] + path[1..] == path;
    }
  }

  /** `{p0: {p1: ... {pn: leaf}}}`. */
  function Nest(path: seq<string>, leaf: Value): Value
    requires path != []
    decreases |path|
  {
    if |path| == 1 then Obj([(path[0], leaf)]) else Obj([(path[0], Nest(path[1..], leaf))])
  }

  lemma FlattenNested(path: seq<string>, x: string)
    requires path != [] && path[0] != ""
    ensures PutAll([], FlatEntries(Nest(path, Str(x)), None, None)) == [(ObjectHelpersProperties.JoinPath(path), Str(x))]
  {
    LeavesOfNestedString(path, x);
    FlatOne(Nest(path, Str(x)), path, Str(x));
    ObjectHelpersProperties.FlatKeyIsJoinedPath(path);
  }

  method FlattenOfNestedObject() returns (out: Record)
    ensures out == [("nested_test", Str("value"))]
  {
    var path := ["nested", "test"];
    out := Flatten(Nest(path, Str("value")), None, None);
    FlattenNested(path, "value");
    JoinStep("nested", ["test"], "test");
    assert ObjectHelpersProperties.JoinPath(path) == "nested" + "_" + "test";
    assert "nested" + "_" + "test" == "nested_test";
  }

  method FlattenOfDeeplyNestedObject() returns (out: Record)
    ensures out == [("nested_really_really_deep_test", Str("value"))]
  {
    var path := ["nested", "really", "really", "deep", "test"];
    out := Flatten(Nest(path, Str("value")), None, None);
    FlattenNested(path, "value");
    DeepPathJoined();
  }

  /** A leading empty property name is dropped together with its `_`. */
  lemma EmptyFirstNameDropped()
    ensures FlatKey(None, None, ["", "test"]) == "test"
    ensures FlatKey(None, None, ["", "", "test"]) == "test"
  {
  }

  method FlattenOfEmptyFirstName() returns (out: Record)
    ensures out == [("test", Str("value"))]
  {
    var path := ["", "test"];
    out := Flatten(Nest(path, Str("value")), None, None);
    LeavesOfNestedString(path, "value");
    FlatOne(Nest(path, Str("value")), path, Str("value"));
    EmptyFirstNameDropped();
  }

  lemma DeepPathJoined()
    ensures ObjectHelpersProperties.JoinPath(["nested", "really", "really", "deep", "test"])
         == "nested_really_really_deep_test"
  {
    ReallyReallyDeepJoined();
    JoinStep("nested", ["really", "really", "deep", "test"], "really_really_deep_test");
    assert "nested" + "_" + "really_really_deep_test" == "nested_really_really_deep_test";
  }

  lemma ReallyReallyDeepJoined()
    ensures ObjectHelpersProperties.JoinPath(["really", "really", "deep", "test"]) == "really_really_deep_test"
  {
    ReallyDeepJoined();
    JoinStep("really", ["really", "deep", "test"], "really_deep_test");
    assert "really" + "_" + "really_deep_test" == "really_really_deep_test";
  }

  lemma ReallyDeepJoined()
    ensures ObjectHelpersProperties.JoinPath(["really", "deep", "test"]) == "really_deep_test"
  {
    JoinStep("deep", ["test"], "test");
    assert "deep" + "_" + "test" == "deep_test";
    JoinStep("really", ["deep", "test"], "deep_test");
    assert "really" + "_" + "deep_test" == "really_deep_test";
  }

  /** Joining one more segment in front of a joined path. */
  lemma JoinStep(first: string, rest: seq<string>, joined: string)
    requires rest != [] && ObjectHelpersProperties.JoinPath(rest) == joined
    ensures ObjectHelpersProperties.JoinPath([first] + rest) == first + "_" + joined
  {
    assert ([first] + rest)[1..] == rest;
  }

  /** `{a_b: 1, c: 3, a: {b: 2}}`: two leaves get the key `a_b`. */
  function Colliding(): Value {
    Obj([("a_b", Num(1)), ("c", Num(3)), ("a", Obj([("b", Num(2))]))])
  }

  /** The leaves of one more property. */
  lemma EntryLeavesStep(v: Value, n: nat)
    requires TypeofObject(v) && 0 < n <= |OwnEntries(v)|
    ensures EntryLeaves(v, n) == EntryLeaves(v, n - 1) + Under(OwnEntries(v)[n - 1].0, Leaves(OwnEntries(v)[n - 1].1))
  {
  }

  /** The leaves of an object with two properties of non-object type and a third one. */
  lemma LeavesOfThree(k1: string, x1: Value, k2: string, x2: Value, k3: string, child: Value)
    requires !TypeofObject(x1) && !TypeofObject(x2)
    ensures Leaves(Obj([(k1, x1), (k2, x2), (k3, child)])) == [([k1], x1), ([k2], x2)] + Under(k3, Leaves(child))
  {
    var obj := Obj([(k1, x1), (k2, x2), (k3, child)]);
    assert Leaves(x1) == [([], x1)];
    UnderOne(k1, [], x1);
    assert [k1] + [] == [k1];
    assert Leaves(x2) == [([], x2)];
    UnderOne(k2, [], x2);
    assert [k2] + [] == [k2];
    assert OwnEntries(obj) == [(k1, x1), (k2, x2), (k3, child)];
    assert EntryLeaves(obj, 0) == [];
    EntryLeavesStep(obj, 1);
    assert OwnEntries(obj)[0] == (k1, x1);
    assert EntryLeaves(obj, 1) == [([k1], x1)];
    EntryLeavesStep(obj, 2);
    assert EntryLeaves(obj, 2) == [([k1], x1), ([k2], x2)];
    EntryLeavesStep(obj, 3);
  }

  /** An object with one property of non-object type has one leaf. */
  lemma LeavesOfOneScalar(k: string, x: Value)
    requires !TypeofObject(x)
    ensures Leaves(Obj([(k, x)])) == [([k], x)]
  {
    LeavesOfOneEntry(k, x);
    assert Leaves(x) == [([], x)];
    UnderOne(k, [], x);
    assert [k] + [] == [k];
  }

  lemma CollidingLeaves()
    ensures FlatEntries(Colliding(), None, None) == [("a_b", Num(1)), ("c", Num(3)), ("a_b", Num(2))]
  {
    LeavesOfThree("a_b", Num(1), "c", Num(3), "a", Obj([("b", Num(2))]));
    LeavesOfOneScalar("b", Num(2));
    UnderOne("a", ["b"], Num(2));
    var l1, l2, l3 := (["a_b"], Num(1)), (["c"], Num(3)), (["a", "b"], Num(2));
    assert ["a"] + ["b"] == ["a", "b"];
    assert Leaves(Colliding()) == [l1, l2, l3];
    JoinStep("a", ["b"], "b");
    ObjectHelpersProperties.FlatKeyIsJoinedPath(l1.0);
    ObjectHelpersProperties.FlatKeyIsJoinedPath(l2.0);
    ObjectHelpersProperties.FlatKeyIsJoinedPath(l3.0);
    assert FlatKey(None, None, l3.0) == "a_b";
  }

  /** Two leaves with the same flattened key: the later value is kept, at the place of the first. */
  method FlattenOfCollidingKeys() returns (out: Record)
    ensures out == [("a_b", Num(2)), ("c", Num(3))]
  {
    out := Flatten(Colliding(), None, None);
    CollidingAssigned();
  }

  lemma CollidingAssigned()
    ensures PutAll([], FlatEntries(Colliding(), None, None)) == [("a_b", Num(2)), ("c", Num(3))]
  {
    CollidingLeaves();
    AssignOverwrites("a_b", Num(1), "c", Num(3), Num(2));
  }

  /** Assigning `k1`, `k2` and `k1` again: the second value of `k1` replaces the first, in place. */
  lemma AssignOverwrites(k1: string, x1: Value, k2: string, x2: Value, x3: Value)
    requires k1 != k2
    ensures PutAll([], [(k1, x1), (k2, x2), (k1, x3)]) == [(k1, x3), (k2, x2)]
  {
    var es := [(k1, x1), (k2, x2), (k1, x3)];
    assert es[..0] == [];
    PutAllOfLongerPrefix([], es, 0);
    assert PutAll([], es[..1]) == [(k1, x1)];
    PutAllOfLongerPrefix([], es, 1);
    assert PutAll([], es[..2]) == [(k1, x1), (k2, x2)];
    PutAllOfLongerPrefix([], es, 2);
    assert es[..3] == es;
  }

  // ---------------------------------------------------------------------------
  // merge

  /** `Object.assign({}, {key: v})`. */
  lemma CopyOfOne(k: string, v: Value)
    ensures Copy(Obj([(k, v)])) == [(k, v)]
  {
    assert OwnEntries(Obj([(k, v)])) == [(k, v)];
    assert [(k, v)][..0] == [];
    assert PutAll([], [(k, v)]) == Put([], k, v);
  }

  /** One turn of the loop that takes `objB[key]`. */
  lemma TakeStep(objA: Value, objB: Value, i: nat, out: Record)
    requires i < |OwnEntries(objB)| && MergeUpTo(objA, objB, i) == Ok(out)
    requires MergeAction(Get(out, OwnEntries(objB)[i].0), OwnEntries(objB)[i].1) == Take
    ensures MergeUpTo(objA, objB, i + 1) == Ok(Put(out, OwnEntries(objB)[i].0, OwnEntries(objB)[i].1))
  {
    MergeStepCases(objA, objB, i, out);
  }

  /** `null` over a truthy value: `null.length` throws. */
  method MergeNullOverValue() returns (result: Result<Record>)
    ensures result == TypeError
  {
    result := Merge(Obj([("x", Str("v"))]), Obj([("x", Null)]));
    MergeOfNull();
  }

  lemma MergeOfNull()
    ensures MergeSpec(Obj([("x", Str("v"))]), Obj([("x", Null)])) == TypeError
  {
    var a := Obj([("x", Str("v"))]);
    var b := Obj([("x", Null)]);
    CopyOfOne("x", Str("v"));
    ObjectHelpersProperties.MergeUpToNext(a, b, 0, Copy(a));
    assert MergeAction(Str("v"), Null) == Throw;
  }

  /** A boolean over a truthy value changes nothing; over a missing key it is taken. */
  method MergeBooleanOverValue() returns (result: Result<Record>)
    ensures result == Ok([("x", Str("v")), ("y", Bool(true))])
  {
    result := Merge(Obj([("x", Str("v"))]), Obj([("x", Bool(false)), ("y", Bool(true))]));
    MergeOfBoolean();
  }

  lemma MergeOfBoolean()
    ensures MergeSpec(Obj([("x", Str("v"))]), Obj([("x", Bool(false)), ("y", Bool(true))]))
         == Ok([("x", Str("v")), ("y", Bool(true))])
  {
    var a := Obj([("x", Str("v"))]);
    var b := Obj([("x", Bool(false)), ("y", Bool(true))]);
    var out := [("x", Str("v"))];
    CopyOfOne("x", Str("v"));
    assert MergeUpTo(a, b, 0) == Ok(out);
    assert Get(out, "x") == Str("v");
    assert MergeAction(Str("v"), Bool(false)) == Keep;
    MergeStepCases(a, b, 0, out);
    assert Get(out, "y") == Undefined;
    assert MergeAction(Undefined, Bool(true)) == Take;
    TakeStep(a, b, 1, out);
    assert Put(out, "y", Bool(true)) == [("x", Str("v")), ("y", Bool(true))];
    assert MergeSpec(a, b) == MergeUpTo(a, b, 2);
  }

  /** A non-empty array is taken; so is a `null` under a key `objA` does not have. */
  method MergeArrayOverValue() returns (result: Result<Record>)
    ensures result == Ok([("x", Arr([Num(1)])), ("y", Null)])
  {
    result := Merge(Obj([("x", Str("v"))]), Obj([("x", Arr([Num(1)])), ("y", Null)]));
    MergeOfArray();
  }

  lemma MergeOfArray()
    ensures MergeSpec(Obj([("x", Str("v"))]), Obj([("x", Arr([Num(1)])), ("y", Null)]))
         == Ok([("x", Arr([Num(1)])), ("y", Null)])
  {
    var a := Obj([("x", Str("v"))]);
    var b := Obj([("x", Arr([Num(1)])), ("y", Null)]);
    var out := [("x", Str("v"))];
    CopyOfOne("x", Str("v"));
    assert MergeUpTo(a, b, 0) == Ok(out);
    assert Get(out, "x") == Str("v");
    assert MergeAction(Str("v"), Arr([Num(1)])) == Take;
    TakeStep(a, b, 0, out);
    var out' := [("x", Arr([Num(1)]))];
    assert Put(out, "x", Arr([Num(1)])) == out';
    assert Get(out', "y") == Undefined;
    assert MergeAction(Undefined, Null) == Take;
    TakeStep(a, b, 1, out');
    assert Put(out', "y", Null) == [("x", Arr([Num(1)])), ("y", Null)];
    assert MergeSpec(a, b) == MergeUpTo(a, b, 2);
  }

  /** Two objects under the same key are merged in turn. */
  method MergeOfNestedObjects() returns (result: Result<Record>)
    ensures result == Ok([("test", Obj([("first", Str("value")), ("second", Str("value2"))]))])
  {
    result := Merge(Obj([("test", Obj([("first", Str("value"))]))]), Obj([("test", Obj([("second", Str("value2"))]))]));
    MergeOfNested();
  }

  lemma MergeOfNested()
    ensures MergeSpec(Obj([("test", Obj([("first", Str("value"))]))]), Obj([("test", Obj([("second", Str("value2"))]))]))
         == Ok([("test", Obj([("first", Str("value")), ("second", Str("value2"))]))])
  {
    var innerA := Obj([("first", Str("value"))]);
    var innerB := Obj([("second", Str("value2"))]);
    var a := Obj([("test", innerA)]);
    var b := Obj([("test", innerB)]);
    NestedInnerMerge();
    var out := [("test", innerA)];
    CopyOfOne("test", innerA);
    assert MergeUpTo(a, b, 0) == Ok(out);
    assert Get(out, "test") == innerA;
    assert MergeAction(innerA, innerB) == Recurse;
    assert Get(OwnEntries(a), "test") == innerA;
    MergeStepCases(a, b, 0, out);
    assert Put(out, "test", Obj([("first", Str("value")), ("second", Str("value2"))]))
        == [("test", Obj([("first", Str("value")), ("second", Str("value2"))]))];
    assert MergeSpec(a, b) == MergeUpTo(a, b, 1);
  }

  lemma NestedInnerMerge()
    ensures MergeSpec(Obj([("first", Str("value"))]), Obj([("second", Str("value2"))]))
         == Ok([("first", Str("value")), ("second", Str("value2"))])
  {
    var a := Obj([("first", Str("value"))]);
    var b := Obj([("second", Str("value2"))]);
    var out := [("first", Str("value"))];
    CopyOfOne("first", Str("value"));
    assert MergeUpTo(a, b, 0) == Ok(out);
    assert Get(out, "second") == Undefined;
    assert MergeAction(Undefined, Str("value2")) == Take;
    TakeStep(a, b, 0, out);
    assert Put(out, "second", Str("value2")) == [("first", Str("value")), ("second", Str("value2"))];
    assert MergeSpec(a, b) == MergeUpTo(a, b, 1);
  }
}
