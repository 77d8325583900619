/**
  The four helpers of `ObjectHelpers`: `indexAttributes`, `delta`, `flatten` and
  `merge`. Each is a method that builds its result step by step as the JavaScript
  does, proved against a specification stated as functions of the inputs.
 */
module ObjectHelpers {
  import opened KeySets
  import opened JsValues

  // ===========================================================================
  // indexAttributes(...objectArray)

  /** The own keys of every record, record after record, duplicates included. */
  function AllKeys(objects: seq<Record>): seq<string>
  {
    if objects == [] then [] else AllKeys(objects[..|objects| - 1]) + Keys(objects[|objects| - 1])
  }

  /** A key is in `AllKeys` exactly when it is an own key of one of the records. */
  lemma {:induction false} AllKeysMembers(objects: seq<Record>)
    ensures forall k :: k in AllKeys(objects) <==> exists o :: o in objects && k in Keys(o)
  {
    if objects != [] {
      var p, last := objects[..|objects| - 1], objects[|objects| - 1];
      AllKeysMembers(p);
      assert objects == p + [last];
      assert forall o :: o in objects <==> o in p || o == last;
    }
  }

  /** The keys of `keys` occur in `s`, and earlier in `keys` means first seen earlier in `s`. */
  predicate FirstSeenOrder(s: seq<string>, keys: seq<string>) {
    && (forall k :: k in keys ==> k in s)
    && forall i, j :: 0 <= i < j < |keys| ==> FirstIndex(s, keys[i]) < FirstIndex(s, keys[j])
  }

  /**
    `indexAttributes`: every own key of the records, once each, in first-seen order.
    The keys go into an insertion-ordered set one record at a time.
   */
  method IndexAttributes(objects: seq<Record>) returns (keys: seq<string>)
    ensures keys == AddAll([], AllKeys(objects))
    ensures NoDup(keys)
    ensures forall k :: k in keys <==> exists o :: o in objects && k in Keys(o)
    ensures forall k :: k in keys <==> k in AllKeys(objects)
    ensures FirstSeenOrder(AllKeys(objects), keys)
  {
    var keySet: seq<string> := [];
    var i := 0;
    while i < |objects|
      invariant 0 <= i <= |objects|
      invariant keySet == AddAll([], AllKeys(objects[..i]))
    {
      var objectKeys := Keys(objects[i]);
      var j := 0;
      assert AllKeys(objects[..i]) + objectKeys[..0] == AllKeys(objects[..i]);
      while j < |objectKeys|
        invariant 0 <= j <= |objectKeys|
        invariant keySet == AddAll([], AllKeys(objects[..i]) + objectKeys[..j])
      {
        IndexKeyStep(AllKeys(objects[..i]), objectKeys, j);
        keySet := AddKey(keySet, objectKeys[j]);
        j := j + 1;
      }
      IndexRecordStep(objects, i);
      i := i + 1;
    }
    assert objects[..i] == objects;
    keys := keySet;
    IndexedKeys(objects);
  }

  /** One turn of the inner loop of `indexAttributes`: `keySet.add(key)`. */
  lemma IndexKeyStep(seen: seq<string>, objectKeys: seq<string>, j: nat)
    requires j < |objectKeys|
    ensures AddAll([], seen + objectKeys[..j + 1]) == AddKey(AddAll([], seen + objectKeys[..j]), objectKeys[j])
  {
    assert seen + objectKeys[..j + 1] == (seen + objectKeys[..j]) + [objectKeys[j]];
    AddAllSnoc([], seen + objectKeys[..j], objectKeys[j]);
  }

  /** One turn of the outer loop of `indexAttributes`: the keys of one more record. */
  lemma IndexRecordStep(objects: seq<Record>, i: nat)
    requires i < |objects|
    ensures AllKeys(objects[..i + 1]) == AllKeys(objects[..i]) + Keys(objects[i])[..|Keys(objects[i])|]
  {
    assert objects[..i + 1][..i] == objects[..i];
    assert Keys(objects[i])[..|Keys(objects[i])|] == Keys(objects[i]);
  }

  /** What the set built from all the keys holds, and in which order. */
  lemma IndexedKeys(objects: seq<Record>)
    ensures NoDup(AddAll([], AllKeys(objects)))
    ensures forall k :: k in AddAll([], AllKeys(objects)) <==> exists o :: o in objects && k in Keys(o)
    ensures forall k :: k in AddAll([], AllKeys(objects)) <==> k in AllKeys(objects)
    ensures FirstSeenOrder(AllKeys(objects), AddAll([], AllKeys(objects)))
  {
    AddAllNoDup([], AllKeys(objects));
    AllKeysMembers(objects);
    AddAllMembers([], AllKeys(objects));
    AddAllFirstSeenOrder(AllKeys(objects));
  }

  // ===========================================================================
  // delta(oldObject, newObject)

  const Created := "created"
  const Deleted := "deleted"
  const NotSupported := "object value evaluation not supported"
  const Unmodified := "un-modified"
  const Updated := "updated"

  predicate IsVerb(s: string) {
    s == Created || s == Deleted || s == NotSupported || s == Unmodified || s == Updated
  }

  /**
    The verb `delta` records for one key, given `oldObject[key]` and `newObject[key]`.
    The last comparison is `===`, reached only by two truthy values of non-object
    type (strings, numbers, `true`), for which it is equality of values.
   */
  function Verb(oldValue: Value, newValue: Value): (verb: string)
    ensures IsVerb(verb)
  {
    if !Truthy(oldValue) then Created
    else if !Truthy(newValue) then Deleted
    else if TypeofObject(oldValue) || TypeofObject(newValue) then NotSupported
    else if oldValue == newValue then Unmodified
    else Updated
  }

  /**
    `delta`: one entry per key of `indexAttributes(oldObject, newObject)`, in that
    order, holding the verb for that key.
   */
  method Delta(oldObject: Record, newObject: Record) returns (delta: Record)
    ensures Keys(delta) == AddAll([], Keys(oldObject) + Keys(newObject))
    ensures NoDupKeys(delta)
    ensures forall i :: 0 <= i < |delta| ==>
      delta[i].1 == Str(Verb(Get(oldObject, delta[i].0), Get(newObject, delta[i].0)))
    ensures forall k :: k in Keys(oldObject) || k in Keys(newObject) ==>
      Get(delta, k) == Str(Verb(Get(oldObject, k), Get(newObject, k)))
    ensures forall k :: k !in Keys(oldObject) && k !in Keys(newObject) ==> Get(delta, k) == Undefined
  {
    delta := [];
    var keys := IndexAttributes([oldObject, newObject]);
    AllKeysOfPair(oldObject, newObject);
    var i := 0;
    while i < |keys|
      invariant 0 <= i <= |keys|
      invariant delta == DeltaEntries(oldObject, newObject, keys[..i])
    {
      var key := keys[i];
      DeltaStep(oldObject, newObject, keys, i);
      delta := Put(delta, key, Str(Verb(Get(oldObject, key), Get(newObject, key))));
      i := i + 1;
    }
    assert keys[..i] == keys;
    DeltaEntriesKeys(oldObject, newObject, keys);
    DeltaLookup(oldObject, newObject, delta);
  }

  lemma AllKeysOfPair(oldObject: Record, newObject: Record)
    ensures AllKeys([oldObject, newObject]) == Keys(oldObject) + Keys(newObject)
  {
    assert [oldObject, newObject][..1] == [oldObject];
    assert [oldObject][..0] == [];
    assert AllKeys([oldObject]) == Keys(oldObject);
  }

  /** One turn of the loop of `delta`: the next key is new, so `delta[key] = verb` appends. */
  lemma DeltaStep(oldObject: Record, newObject: Record, keys: seq<string>, i: nat)
    requires NoDup(keys) && i < |keys|
    ensures DeltaEntries(oldObject, newObject, keys[..i + 1])
         == Put(DeltaEntries(oldObject, newObject, keys[..i]), keys[i], Str(Verb(Get(oldObject, keys[i]), Get(newObject, keys[i]))))
  {
    var key := keys[i];
    assert keys[..i + 1][..i] == keys[..i];
    DeltaEntriesKeys(oldObject, newObject, keys[..i]);
    assert key !in keys[..i];
    PutAppends(DeltaEntries(oldObject, newObject, keys[..i]), key, Str(Verb(Get(oldObject, key), Get(newObject, key))));
  }

  /** The entries `delta` writes for `keys`, one after the other. */
  function DeltaEntries(oldObject: Record, newObject: Record, keys: seq<string>): Record
  {
    if keys == [] then []
    else
      var key := keys[|keys| - 1];
      DeltaEntries(oldObject, newObject, keys[..|keys| - 1]) + [(key, Str(Verb(Get(oldObject, key), Get(newObject, key))))]
  }

  lemma {:induction false} DeltaEntriesKeys(oldObject: Record, newObject: Record, keys: seq<string>)
    ensures Keys(DeltaEntries(oldObject, newObject, keys)) == keys
    ensures forall i :: 0 <= i < |keys| ==>
      DeltaEntries(oldObject, newObject, keys)[i].1 == Str(Verb(Get(oldObject, keys[i]), Get(newObject, keys[i])))
  {
    if keys != [] {
      DeltaEntriesKeys(oldObject, newObject, keys[..|keys| - 1]);
    }
  }

  /** Reading `delta[key]` off a record that holds the verb of each of its keys. */
  lemma DeltaLookup(oldObject: Record, newObject: Record, delta: Record)
    requires Keys(delta) == AddAll([], Keys(oldObject) + Keys(newObject))
    requires forall i :: 0 <= i < |delta| ==>
      delta[i].1 == Str(Verb(Get(oldObject, delta[i].0), Get(newObject, delta[i].0)))
    ensures NoDupKeys(delta)
    ensures forall k :: k in Keys(oldObject) || k in Keys(newObject) ==>
      Get(delta, k) == Str(Verb(Get(oldObject, k), Get(newObject, k)))
    ensures forall k :: k !in Keys(oldObject) && k !in Keys(newObject) ==> Get(delta, k) == Undefined
  {
    AddAllNoDup([], Keys(oldObject) + Keys(newObject));
    AddAllMembers([], Keys(oldObject) + Keys(newObject));
    forall k ensures Get(delta, k) ==
      (if k in Keys(oldObject) || k in Keys(newObject) then Str(Verb(Get(oldObject, k), Get(newObject, k))) else Undefined)
    {
      if k in Keys(delta) {
        GetAtIndex(delta, FirstIndex(Keys(delta), k));
      } else {
        GetAbsent(delta, k);
      }
    }
  }

  // ===========================================================================
  // flatten(obj, name, stem)

  /** A key or stem as JavaScript turns it into a string: `undefined` becomes "undefined". */
  function KeyString(s: Option<string>): string {
    if s.Some? then s.value else "undefined"
  }

  /** `newStem`: `stem + '_' + name` when `stem` is defined and not empty, else `name`. */
  function NewStem(name: Option<string>, stem: Option<string>): Option<string> {
    if stem.Some? && stem.value != "" then Some(stem.value + "_" + KeyString(name)) else name
  }

  /** A path from a value down to one of its leaves, and the leaf. */
  type Leaf = (seq<string>, Value)

  /**
    The leaves `flatten` reaches from `v`, depth first, in property order: `v` itself
    when it is not of object type, else the leaves of its own enumerable properties
    (none for `null`, a date or an empty object; array elements by index).
   */
  function Leaves(v: Value): seq<Leaf>
    decreases v, 1
  {
    if !TypeofObject(v) then [([], v)] else EntryLeaves(v, |OwnEntries(v)|)
  }

  /** The leaves below the first `n` own properties of `v`. */
  function EntryLeaves(v: Value, n: nat): seq<Leaf>
    requires TypeofObject(v) && n <= |OwnEntries(v)|
    decreases v, 0, n
  {
    if n == 0 then []
    else
      EntrySmaller(v, n - 1);
      EntryLeaves(v, n - 1) + Under(OwnEntries(v)[n - 1].0, Leaves(OwnEntries(v)[n - 1].1))
  }

  /** The same leaves seen from one level up, through the property `k`. */
  function Under(k: string, leaves: seq<Leaf>): seq<Leaf> {
    seq(|leaves|, i requires 0 <= i < |leaves| => ([k] + leaves[i].0, leaves[i].1))
  }

  /** The key `flatten(_, name, stem)` gives to the leaf at `path`. */
  function FlatKey(name: Option<string>, stem: Option<string>, path: seq<string>): string
    decreases |path|
  {
    var s := NewStem(name, stem);
    if path == [] then KeyString(s) else FlatKey(Some(path[0]), s, path[1..])
  }

  /** Each leaf under the key `flatten(_, name, stem)` gives it. */
  function Keyed(name: Option<string>, stem: Option<string>, leaves: seq<Leaf>): Record {
    seq(|leaves|, i requires 0 <= i < |leaves| => (FlatKey(name, stem, leaves[i].0), leaves[i].1))
  }

  /** Every leaf of `v` under its flattened key, in the order `flatten` reaches them. */
  function FlatEntries(v: Value, name: Option<string>, stem: Option<string>): Record {
    Keyed(name, stem, Leaves(v))
  }

  lemma KeyedUnder(name: Option<string>, stem: Option<string>, k: string, leaves: seq<Leaf>)
    ensures Keyed(name, stem, Under(k, leaves)) == Keyed(Some(k), NewStem(name, stem), leaves)
  {
    forall i | 0 <= i < |leaves|
      ensures FlatKey(name, stem, [k] + leaves[i].0) == FlatKey(Some(k), NewStem(name, stem), leaves[i].0)
    {
      assert ([k] + leaves[i].0)[1..] == leaves[i].0;
    }
  }

  lemma {:induction false} LeavesAreNotObjects(v: Value)
    ensures forall i :: 0 <= i < |Leaves(v)| ==> !TypeofObject(Leaves(v)[i].1)
    decreases v, 1
  {
    if TypeofObject(v) {
      EntryLeavesAreNotObjects(v, |OwnEntries(v)|);
    }
  }

  lemma {:induction false} EntryLeavesAreNotObjects(v: Value, n: nat)
    requires TypeofObject(v) && n <= |OwnEntries(v)|
    ensures forall i :: 0 <= i < |EntryLeaves(v, n)| ==> !TypeofObject(EntryLeaves(v, n)[i].1)
    decreases v, 0, n
  {
    if n > 0 {
      EntrySmaller(v, n - 1);
      EntryLeavesAreNotObjects(v, n - 1);
      LeavesAreNotObjects(OwnEntries(v)[n - 1].1);
    }
  }

  /** The properties of the record `flatten` returns, read off its leaf definition. */
  lemma FlatRecordShape(v: Value, name: Option<string>, stem: Option<string>)
    ensures NoDupKeys(PutAll([], FlatEntries(v, name, stem)))
    ensures NoObjectValues(PutAll([], FlatEntries(v, name, stem)))
    ensures forall k :: k in Keys(PutAll([], FlatEntries(v, name, stem))) <==> k in Keys(FlatEntries(v, name, stem))
    ensures forall k :: Get(PutAll([], FlatEntries(v, name, stem)), k) == GetLast(FlatEntries(v, name, stem), k, Undefined)
  {
    var es := FlatEntries(v, name, stem);
    PutAllSpec([], es);
    AddAllMembers([], Keys(es));
    LeavesAreNotObjects(v);
    PutAllNoObjectValues([], es);
  }

  /** One turn of the loop of `flatten`: `Object.assign` of the next property's leaves. */
  lemma FlattenStep(obj: Value, name: Option<string>, stem: Option<string>, i: nat)
    requires TypeofObject(obj) && i < |OwnEntries(obj)|
    ensures EntryLeaves(obj, i + 1) == EntryLeaves(obj, i) + Under(OwnEntries(obj)[i].0, Leaves(OwnEntries(obj)[i].1))
    ensures Assign(PutAll([], Keyed(name, stem, EntryLeaves(obj, i))),
                   PutAll([], FlatEntries(OwnEntries(obj)[i].1, Some(OwnEntries(obj)[i].0), NewStem(name, stem))))
         == PutAll([], Keyed(name, stem, EntryLeaves(obj, i + 1)))
  {
    var k := OwnEntries(obj)[i].0;
    var child := OwnEntries(obj)[i].1;
    var below := Under(k, Leaves(child));
    KeyedUnder(name, stem, k, Leaves(child));
    KeyedConcat(name, stem, EntryLeaves(obj, i), below);
    AssignBuilt(Keyed(name, stem, EntryLeaves(obj, i)), Keyed(name, stem, below));
  }

  lemma KeyedConcat(name: Option<string>, stem: Option<string>, a: seq<Leaf>, b: seq<Leaf>)
    ensures Keyed(name, stem, a + b) == Keyed(name, stem, a) + Keyed(name, stem, b)
  {
  }

  /**
    `flatten`: the single-depth record holding every leaf under its flattened key; when
    two leaves get the same key the later one wins (`Object.assign`), at the place of
    the first.
   */
  method Flatten(obj: Value, name: Option<string>, stem: Option<string>) returns (out: Record)
    ensures out == PutAll([], FlatEntries(obj, name, stem))
    ensures NoDupKeys(out) && NoObjectValues(out)
    ensures forall k :: k in Keys(out) <==> k in Keys(FlatEntries(obj, name, stem))
    ensures forall k :: Get(out, k) == GetLast(FlatEntries(obj, name, stem), k, Undefined)
    decreases obj
  {
    out := [];
    var newStem := NewStem(name, stem);
    if !TypeofObject(obj) {
      out := Put(out, KeyString(newStem), obj);
      FlatRecordShape(obj, name, stem);
      return;
    }
    var entries := OwnEntries(obj);
    var i := 0;
    while i < |entries|
      invariant 0 <= i <= |entries|
      invariant out == PutAll([], Keyed(name, stem, EntryLeaves(obj, i)))
    {
      EntrySmaller(obj, i);
      var prop := Flatten(entries[i].1, Some(entries[i].0), newStem);
      FlattenStep(obj, name, stem, i);
      out := Assign(out, prop);
      i := i + 1;
    }
    FlatRecordShape(obj, name, stem);
  }

  // ===========================================================================
  // merge(objA, objB)

  /** How `merge` completes: with a record, or by throwing a TypeError. */
  datatype Result<+T> = Ok(value: T) | TypeError

  /** What the body of the `for...in` loop of `merge` does with one key. */
  datatype Action =
    | Take     // outObject[key] = objB[key]
    | Recurse  // outObject[key] = merge(objA[key], objB[key])
    | Keep     // no branch applies: outObject[key] stays
    | Throw    // objB[key].length throws

  /** The branch the loop body of `merge` takes, given `outObject[key]` and `objB[key]`. */
  function MergeAction(existing: Value, incoming: Value): (a: Action)
    ensures a == Recurse ==> incoming.Obj? || incoming.Arr?
  {
    if !Truthy(existing) then Take
    else if incoming.Str? || incoming.Num? || incoming.Date? then Take
    else match LengthOf(incoming)
      case None => Throw
      case Some(length) =>
        if Truthy(length) then Take
        else if TypeofObject(incoming) then Recurse
        else Keep
  }

  /** The outcome of `merge(objA, objB)`. */
  function MergeSpec(objA: Value, objB: Value): Result<Record>
    decreases objB, 1
  {
    MergeUpTo(objA, objB, |OwnEntries(objB)|)
  }

  /** The outcome of `merge` once the loop has visited the first `n` keys of `objB`. */
  function MergeUpTo(objA: Value, objB: Value, n: nat): Result<Record>
    requires n <= |OwnEntries(objB)|
    decreases objB, 0, n
  {
    if n == 0 then Ok(Copy(objA))
    else match MergeUpTo(objA, objB, n - 1)
      case TypeError => TypeError
      case Ok(out) => MergeStep(objA, objB, n - 1, out)
  }

  /** The body of the loop of `merge` for the `i`-th key of `objB`, on `outObject == out`. */
  function MergeStep(objA: Value, objB: Value, i: nat, out: Record): Result<Record>
    requires i < |OwnEntries(objB)|
    decreases objB, 0, i
  {
    var key := OwnEntries(objB)[i].0;
    var incoming := OwnEntries(objB)[i].1;
    match MergeAction(Get(out, key), incoming)
    case Take => Ok(Put(out, key, incoming))
    case Keep => Ok(out)
    case Throw => TypeError
    case Recurse =>
      EntrySmaller(objB, i);
      match MergeSpec(Get(OwnEntries(objA), key), incoming)
      case TypeError => TypeError
      case Ok(inner) => Ok(Put(out, key, Obj(inner)))
  }

  /** One turn of the loop of `merge`, by the branch it takes. */
  lemma MergeStepCases(objA: Value, objB: Value, i: nat, out: Record)
    requires i < |OwnEntries(objB)| && MergeUpTo(objA, objB, i) == Ok(out)
    ensures var key := OwnEntries(objB)[i].0;
      var incoming := OwnEntries(objB)[i].1;
      var action := MergeAction(Get(out, key), incoming);
      && (action == Take ==> MergeUpTo(objA, objB, i + 1) == Ok(Put(out, key, incoming)))
      && (action == Keep ==> MergeUpTo(objA, objB, i + 1) == Ok(out))
      && (action == Throw ==> MergeUpTo(objA, objB, i + 1) == TypeError)
      && (action == Recurse ==> incoming < objB)
      && (action == Recurse ==> MergeSpec(Get(OwnEntries(objA), key), incoming).TypeError? ==>
            MergeUpTo(objA, objB, i + 1) == TypeError)
      && (action == Recurse ==> MergeSpec(Get(OwnEntries(objA), key), incoming).Ok? ==>
            MergeUpTo(objA, objB, i + 1) == Ok(Put(out, key, Obj(MergeSpec(Get(OwnEntries(objA), key), incoming).value))))
  {
    if MergeAction(Get(out, OwnEntries(objB)[i].0), OwnEntries(objB)[i].1) == Recurse {
      EntrySmaller(objB, i);
    }
  }

  /** Once the loop of `merge` has thrown, so has `merge`. */
  lemma {:induction false} MergeThrowIsFinal(objA: Value, objB: Value, n: nat)
    requires n <= |OwnEntries(objB)| && MergeUpTo(objA, objB, n).TypeError?
    ensures MergeSpec(objA, objB).TypeError?
    decreases |OwnEntries(objB)| - n
  {
    if n < |OwnEntries(objB)| {
      MergeThrowIsFinal(objA, objB, n + 1);
    }
  }

  /**
    `merge`: a copy of `objA` overlaid with `objB` key by key; scalars, dates and
    values with a truthy `length` overwrite, other objects merge recursively, a
    boolean over a truthy value is ignored, and a `null` or `undefined` over a truthy
    value throws.
   */
  method Merge(objA: Value, objB: Value) returns (result: Result<Record>)
    ensures result == MergeSpec(objA, objB)
    decreases objB
  {
    var outObject := Copy(objA);
    var entries := OwnEntries(objB);
    var i := 0;
    while i < |entries|
      invariant 0 <= i <= |entries|
      invariant MergeUpTo(objA, objB, i) == Ok(outObject)
    {
      var key := entries[i].0;
      var incoming := entries[i].1;
      MergeStepCases(objA, objB, i, outObject);
      if !Truthy(Get(outObject, key)) {
        assert MergeAction(Get(outObject, key), incoming) == Take;
        outObject := Put(outObject, key, incoming);
      } else if incoming.Str? || incoming.Num? || incoming.Date? {
        assert MergeAction(Get(outObject, key), incoming) == Take;
        outObject := Put(outObject, key, incoming);
      } else {
        var length := LengthOf(incoming);
        if length.None? {
          assert MergeAction(Get(outObject, key), incoming) == Throw;
          MergeThrowIsFinal(objA, objB, i + 1);
          return TypeError;
        }
        if Truthy(length.value) {
          assert MergeAction(Get(outObject, key), incoming) == Take;
          outObject := Put(outObject, key, incoming);
        } else if TypeofObject(incoming) {
          assert MergeAction(Get(outObject, key), incoming) == Recurse;
          var inner := Merge(Get(OwnEntries(objA), key), incoming);
          if inner.TypeError? {
            MergeThrowIsFinal(objA, objB, i + 1);
            return TypeError;
          }
          outObject := Put(outObject, key, Obj(inner.value));
        } else {
          assert MergeAction(Get(outObject, key), incoming) == Keep;
        }
      }
      i := i + 1;
    }
    result := Ok(outObject);
  }
}
