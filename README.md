# ObjectHelpers in Dafny

A model of `ObjectHelpers`, the four helpers over plain JavaScript objects in
`src/Object-Helpers.module.js`, with proofs of what they promise:

- `indexAttributes(...objects)` puts the own keys of every object into a `Set` and
  returns them as an array;
- `delta(oldObject, newObject)` gives every key of the two objects one of five verbs
  (`created`, `deleted`, `object value evaluation not supported`, `un-modified`,
  `updated`) by a fixed chain of truthiness, `typeof` and `===` checks;
- `flatten(obj, name, stem)` walks nested objects and arrays and collects every leaf
  into one object, under its path joined with `_` (a leading empty property name is
  dropped together with its `_`), later leaves overwriting earlier ones through
  `Object.assign`;
- `merge(objA, objB)` copies `objA` and then, key by key of `objB`, either takes
  `objB`'s value, merges the two values recursively, or leaves the copy alone; reading
  `.length` of `null` or `undefined` throws a `TypeError`.

The modules follow the program:

- `KeySets` is the insertion-ordered `Set` of strings: `add` and adding a run of keys.
- `JsValues` holds JavaScript values (strings, integers, booleans, dates, arrays,
  plain objects, `null`, `undefined`) and the semantics the helpers use:
  - truthiness, `typeof ... === 'object'` and reading `.length`, which can throw;
  - the own enumerable properties that `for...in` and `Object.assign` visit;
  - plain objects as records in insertion order, with `obj[key]`, `obj[key] = v` and
    `Object.assign`.
- `ObjectHelpers` has one method per helper. Each builds its result with the loops
  (and, for `flatten` and `merge`, the recursion) of the JavaScript. Each is proved
  against a specification written as functions of its inputs:
  - the keys of all records, deduplicated (`AllKeys`, `AddAll`);
  - one verb per key (`Verb`, `DeltaEntries`);
  - the leaves of a value, each with its path (`Leaves`, `FlatKey`, `FlatEntries`);
  - the outcome of the loop after its first `n` keys (`MergeUpTo`, `MergeStep`,
    `MergeSpec`).
- `ObjectHelpersProperties` proves the promised behaviour about those specifications.
- `ObjectHelpersExamples` works through the cases of `src/Object-Helpers.spec.js`,
  and a few cases of `merge`, to the exact result.

Where the model could have read differently, it follows the code:

- `merge` tests that `objB[key].length` is *truthy*, not that it is defined. So an
  empty array in `objB` over a truthy value is merged recursively rather than taken.
- A boolean in `objB`, `true` as well as `false`, never replaces a truthy value.
- `merge` throws when `objB` holds `null` or `undefined` under a key whose value in
  `outObject` is truthy. The model gives `TypeError` as its result there.
- `flatten` walks arrays index by index. The index names are `"0"`, `"1"` and so on.
  `null`, dates and empty objects and arrays give no key at all.
- A top-level `flatten(v)` of a non-object `v` stores it under the key `"undefined"`.
- The stem is tested against `''`, so a leading empty property name is dropped with
  its `_`: `flatten({"": {test: 'value'}})` is `{test: 'value'}`, and so is
  `flatten({"": {"": {test: 'value'}}})`.

## Model

| member | source | states |
|---|---|---|
| KeySets.AddKey | src/Object-Helpers.module.js:71 | `keySet.add(key)`: the key is held afterwards, the set holds exactly the old keys and the new one, and no key is held twice |
| KeySets.AddAllMembers | src/Object-Helpers.module.js:69-73 | after adding a run of keys, a key is held exactly when it was held before or occurs in the run |
| KeySets.AddAllNoDup | src/Object-Helpers.module.js:75 | the array built from the set has no duplicates |
| KeySets.AddAllPrefix | src/Object-Helpers.module.js:71 | adding keys keeps the keys already held, in their order, at the front |
| KeySets.AddAllConcat | src/Object-Helpers.module.js:69-73 | adding two runs of keys one after the other is adding their concatenation |
| KeySets.AddAllOfDeduplicated | src/Object-Helpers.module.js:69-75 | adding the deduplicated form of a run is the same as adding the run itself |
| KeySets.AddAllOfNoDup | src/Object-Helpers.module.js:69-75 | a run without duplicates comes back unchanged |
| KeySets.AddAllFirstSeenOrder | src/Object-Helpers.module.js:75 | `Array.from(keySet)` lists only keys of the input, and a key listed earlier was first seen earlier |
| JsValues.LengthOf | src/Object-Helpers.module.js:88 | reading `.length` throws exactly on `null` and `undefined` |
| JsValues.EntrySmaller | src/Object-Helpers.module.js:55 | a property of an array or object is smaller than its container, so the recursion of `flatten` and `merge` ends |
| JsValues.GetAbsent | src/Object-Helpers.module.js:19 | reading a property the object does not have gives `undefined` |
| JsValues.GetAtIndex | src/Object-Helpers.module.js:19 | reading a property gives the value stored under it |
| JsValues.GetFirst | src/Object-Helpers.module.js:55 | `obj[key]` reads the first property named `key` |
| JsValues.PutKeys | src/Object-Helpers.module.js:83 | `obj[key] = v` adds `key` to the property names, at the end, when it is new |
| JsValues.PutAppends | src/Object-Helpers.module.js:21 | `obj[key] = v` with a new key appends the property |
| JsValues.PutGet | src/Object-Helpers.module.js:83 | `obj[key] = v` changes the value of `key` and of no other property |
| JsValues.PutSpec | src/Object-Helpers.module.js:83 | `obj[key] = v`: the names are the old names with `key` added, `key` reads `v`, and every other property reads as before |
| JsValues.PutNoDup | src/Object-Helpers.module.js:83 | `obj[key] = v` never creates a second property of the same name |
| JsValues.PutNoObjectValues | src/Object-Helpers.module.js:50 | storing a value of non-object type keeps every value of non-object type |
| JsValues.PutAllKeys | src/Object-Helpers.module.js:56 | `Object.assign` adds the source's names after the target's, each new name once |
| JsValues.PutAllGet | src/Object-Helpers.module.js:56 | after `Object.assign`, a property reads the last value the sources give it, else the target's value |
| JsValues.PutAllSpec | src/Object-Helpers.module.js:56 | `Object.assign`: its property names, its values, and no duplicate names |
| JsValues.PutAllNoObjectValues | src/Object-Helpers.module.js:56 | assigning values of non-object type to such a record keeps every value of non-object type |
| JsValues.GetLastAbsent | src/Object-Helpers.module.js:56 | a name no source gives keeps the target's value |
| JsValues.GetLastDefault | src/Object-Helpers.module.js:56 | a name a source gives does not depend on the target's value |
| JsValues.GetLastOfNoDup | src/Object-Helpers.module.js:79 | in an object without repeated names, the last value of a name is its only value |
| JsValues.RecordExtensionality | src/Object-Helpers.module.js:79 | two objects with the same property names in the same order and the same value for each are equal |
| JsValues.PutAllOfNoDup | src/Object-Helpers.module.js:79 | `Object.assign({}, obj)` copies `obj` exactly |
| JsValues.PutAllAbsent | src/Object-Helpers.module.js:79 | a copy has no value for a name its source lacks |
| JsValues.PutAllOfLongerPrefix | src/Object-Helpers.module.js:56 | `Object.assign` of one more property is that property's assignment |
| JsValues.PutAllConcat | src/Object-Helpers.module.js:56 | assigning two runs of properties one after the other is assigning their concatenation |
| JsValues.PutAllOfBuilt | src/Object-Helpers.module.js:56 | assigning a built record is the same as assigning the properties it was built from |
| JsValues.AssignBuilt | src/Object-Helpers.module.js:56 | `Object.assign({}, out, prop)` of two built records is the record built from both runs of properties |
| ObjectHelpers.AllKeysMembers | src/Object-Helpers.module.js:69-70 | a key occurs among the keys of the records exactly when it is an own key of one of them |
| ObjectHelpers.IndexAttributes | src/Object-Helpers.module.js:66-76 | the result is the `Set` of all own keys, record after record: no duplicates, exactly the own keys of the records, in first-seen order |
| ObjectHelpers.IndexKeyStep | src/Object-Helpers.module.js:70-72 | one turn of the inner loop adds one key to the set |
| ObjectHelpers.IndexRecordStep | src/Object-Helpers.module.js:69-73 | one turn of the outer loop adds the keys of one more record |
| ObjectHelpers.IndexedKeys | src/Object-Helpers.module.js:75 | the array built from the set has no duplicates, holds exactly the keys of the records, and keeps first-seen order |
| ObjectHelpers.Verb | src/Object-Helpers.module.js:19-33 | the verb for one key is one of the five verb strings |
| ObjectHelpers.Delta | src/Object-Helpers.module.js:14-36 | the result has exactly the keys of `indexAttributes(oldObject, newObject)`, in that order, once each; every key of either object reads its verb, and every other key reads `undefined` |
| ObjectHelpers.AllKeysOfPair | src/Object-Helpers.module.js:16 | the keys `delta` indexes are the old object's followed by the new object's |
| ObjectHelpers.DeltaStep | src/Object-Helpers.module.js:18-34 | one turn of the loop appends the verb of the next key, which is new |
| ObjectHelpers.DeltaEntriesKeys | src/Object-Helpers.module.js:18-34 | the loop writes one property per key, in the order of the keys, each holding the verb of its key |
| ObjectHelpers.DeltaLookup | src/Object-Helpers.module.js:35 | `delta[key]` is the verb of `key` for the keys of either object, and `undefined` for every other key |
| ObjectHelpers.KeyedUnder | src/Object-Helpers.module.js:47-55 | a leaf below `attribute` gets the key the recursive call `flatten(obj[attribute], attribute, newStem)` gives it |
| ObjectHelpers.LeavesAreNotObjects | src/Object-Helpers.module.js:49-52 | every leaf `flatten` reaches is of non-object type |
| ObjectHelpers.FlatRecordShape | src/Object-Helpers.module.js:54-58 | the result of `flatten` has no repeated key and no value of object type; its keys are the keys of the leaves, and each reads the value of the last leaf with that key |
| ObjectHelpers.FlattenStep | src/Object-Helpers.module.js:54-57 | one turn of the loop: `Object.assign({}, out, prop)` adds the leaves of the next property |
| ObjectHelpers.KeyedConcat | src/Object-Helpers.module.js:56 | keying two runs of leaves one after the other is keying their concatenation |
| ObjectHelpers.Flatten | src/Object-Helpers.module.js:45-59 | the result is every leaf under its flattened key, the later leaf winning a key in the place of the first; it has no repeated key, no value of object type, and exactly the keys of the leaves |
| ObjectHelpers.MergeAction | src/Object-Helpers.module.js:82-93 | the loop body recurses only into an object or an array |
| ObjectHelpers.MergeStepCases | src/Object-Helpers.module.js:81-94 | one turn of the loop, branch by branch: take `objB[key]`, keep the value, throw, or store the result of the recursive merge (or throw when it throws) |
| ObjectHelpers.MergeThrowIsFinal | src/Object-Helpers.module.js:88 | once the loop has thrown, `merge` throws |
| ObjectHelpers.Merge | src/Object-Helpers.module.js:78-97 | the method returns the outcome of the loop over all keys of `objB`, a record or a `TypeError` |
| ObjectHelpersProperties.FirstSeenOrderDetermines | src/Object-Helpers.module.js:66-76 | two key lists without duplicates, holding the same keys in first-seen order, are equal: what `indexAttributes` promises fixes its result |
| ObjectHelpersProperties.SharedKeyListedOnce | src/Object-Helpers.spec.js:40-55 | records that all have just the key `k` give `[k]` |
| ObjectHelpersProperties.VerbCases | src/Object-Helpers.module.js:19-33 | each verb, with exactly the case that yields it, in the order of the checks |
| ObjectHelpersProperties.VerbOfMissingKeys | src/Object-Helpers.module.js:19-24 | a key missing from `oldObject` is `created` whatever `newObject` holds; a truthy old value missing from `newObject` is `deleted` |
| ObjectHelpersProperties.VerbIgnoresObjectContents | src/Object-Helpers.module.js:25-26 | two objects with any contents give `object value evaluation not supported` |
| ObjectHelpersProperties.VerbFalsyOldValue | src/Object-Helpers.module.js:19-21 | an old `false`, `0` or `""` gives `created`, whatever the new value |
| ObjectHelpersProperties.FlatKeyUnderStem | src/Object-Helpers.module.js:47 | below a non-empty stem, a key is the stem, `_`, and the path joined with `_` |
| ObjectHelpersProperties.FlatKeyIsJoinedPath | src/Object-Helpers.module.js:47 | from the root call, a leaf's key is its path joined with `_`, when the first segment is not empty |
| ObjectHelpersProperties.FlattenNonObject | src/Object-Helpers.module.js:49-52 | a value of non-object type gives one property, under `newStem` |
| ObjectHelpersProperties.FlattenEmpty | src/Object-Helpers.module.js:54-58 | `null`, a date, `{}` and `[]` give `{}` |
| ObjectHelpersProperties.FlatEntriesOfSingleDepth | src/Object-Helpers.module.js:54-57 | the leaves of a single-depth object are its properties, in order, under their own names |
| ObjectHelpersProperties.FlattenSingleDepth | src/Object-Helpers.module.js:45-59 | `flatten` gives back a single-depth object unchanged |
| ObjectHelpersProperties.NatToStringRoundTrip | src/Object-Helpers.module.js:54 | the decimal name of an array index reads back as the index |
| ObjectHelpersProperties.IndexKeysDistinct | src/Object-Helpers.module.js:54 | the indices of an array or string have distinct names |
| ObjectHelpersProperties.WellFormedEntries | src/Object-Helpers.module.js:54 | the properties of a value without repeated names have distinct names and are themselves without repeated names |
| ObjectHelpersProperties.LeafAtItsPath | src/Object-Helpers.module.js:54-57 | each leaf `flatten` reaches is the value its path leads to |
| ObjectHelpersProperties.EntryLeafAtItsPath | src/Object-Helpers.module.js:54-57 | each leaf below the first `n` properties is the value its path leads to |
| ObjectHelpersProperties.LeafPathEndsAtNonObject | src/Object-Helpers.module.js:49-55 | a path that descends through values of object type, one own property at a time, ends at a value of non-object type |
| ObjectHelpersProperties.LeafOnLeafPath | src/Object-Helpers.module.js:49-57 | the path of each leaf `flatten` reaches descends through values of object type along own properties |
| ObjectHelpersProperties.LeafBelowListed | src/Object-Helpers.module.js:54-57 | each leaf below one of the first `n` properties is listed among their leaves, with the property name in front of its path |
| ObjectHelpersProperties.LeafPathListed | src/Object-Helpers.module.js:49-57 | every path through values of object type to a value of non-object type is the path of some leaf: `flatten` visits every such value |
| ObjectHelpersProperties.LeavesAreAtTheirPaths | src/Object-Helpers.module.js:45-59 | the leaves `flatten` reaches are exactly the values of non-object type at the end of a path through values of object type: each listed leaf is the value its path leads to, and every such path is listed; two paths that join to the same key still keep only the later leaf |
| ObjectHelpersProperties.MergeActionCases | src/Object-Helpers.module.js:82-93 | each branch of the loop body, with exactly the case that selects it |
| ObjectHelpersProperties.MergeStepOutcome | src/Object-Helpers.module.js:82-93 | one turn either throws, keeps `outObject`, or stores its branch's value under the key |
| ObjectHelpersProperties.MergeStepTakes | src/Object-Helpers.module.js:82-83 | a key with no truthy value in `outObject` takes `objB[key]` as it is |
| ObjectHelpersProperties.TruthyIsPresent | src/Object-Helpers.module.js:82 | a key whose value is truthy is a key of the object |
| ObjectHelpersProperties.MergeStepThrows | src/Object-Helpers.module.js:88 | one turn throws exactly when its branch does |
| ObjectHelpersProperties.MergeStepKeys | src/Object-Helpers.module.js:83 | one turn that does not throw adds its key |
| ObjectHelpersProperties.MergeStepGet | src/Object-Helpers.module.js:82-93 | one turn that does not throw changes the value of its key and no other |
| ObjectHelpersProperties.MergeUpToKeys | src/Object-Helpers.module.js:79-94 | after the first `n` keys, `outObject` has the keys of `objA` followed by the new keys of `objB` among them |
| ObjectHelpersProperties.MergeUpToUntouched | src/Object-Helpers.module.js:79-94 | a key the loop has not visited still holds `objA`'s value |
| ObjectHelpersProperties.MergeUpToStored | src/Object-Helpers.module.js:82-93 | each visited key holds the value its branch gives to `objA`'s value |
| ObjectHelpersProperties.MergeUpToThrows | src/Object-Helpers.module.js:88 | the loop has thrown exactly when one of the keys visited throws on its own |
| ObjectHelpersProperties.MergeKeys | src/Object-Helpers.module.js:79-96 | `merge` keeps every key of `objA` in its place and appends the keys of `objB` it lacks, in `for...in` order |
| ObjectHelpersProperties.MergeValues | src/Object-Helpers.module.js:79-96 | a key only `objA` has keeps its value; every key of `objB` holds the value its branch gives it |
| ObjectHelpersProperties.MergeThrows | src/Object-Helpers.module.js:88 | `merge` throws exactly when some key of `objB` throws on its own |
| ObjectHelpersProperties.MergeTotal | src/Object-Helpers.module.js:78-97 | without `null` or `undefined` anywhere in `objB`, `merge` never throws |
| ObjectHelpersProperties.MergeUpToTotal | src/Object-Helpers.module.js:81-94 | without `null` or `undefined` in `objB`, no turn of the loop throws |
| ObjectHelpersProperties.MergeRightIdentity | src/Object-Helpers.module.js:79-81 | `merge(a, {})` is a copy of `a`, and equal to `a` when `a` is an object |
| ObjectHelpersProperties.MergeUpToTakes | src/Object-Helpers.module.js:82-83 | a turn on a key whose value in `outObject` is falsy stores `objB[key]` under it |
| ObjectHelpersProperties.MergeUpToIntoEmpty | src/Object-Helpers.module.js:79-83 | into an empty copy, the loop takes each key of `objB` as it is |
| ObjectHelpersProperties.MergeIntoEmpty | src/Object-Helpers.module.js:79-83 | merging into a value without properties gives a copy of `objB` |
| ObjectHelpersExamples.AllKeysOfThree | src/Object-Helpers.module.js:69-70 | the keys of three records are theirs, one record after another |
| ObjectHelpersExamples.IndexAttributesOfEmptyObject | src/Object-Helpers.spec.js:20-27 | `indexAttributes({})` is `[]` |
| ObjectHelpersExamples.IndexAttributesOfOneObject | src/Object-Helpers.spec.js:29-38 | `indexAttributes({test})` is `["test"]` |
| ObjectHelpersExamples.IndexAttributesOfDuplicateKeys | src/Object-Helpers.spec.js:40-55 | three records with the key `test` give `["test"]` |
| ObjectHelpersExamples.UniqueKeysIndexed | src/Object-Helpers.spec.js:57-72 | three records with three different keys list them all |
| ObjectHelpersExamples.IndexAttributesOfUniqueKeys | src/Object-Helpers.spec.js:57-72 | the result is `["test1", "test2", "test3"]` |
| ObjectHelpersExamples.OverlappingKeysListed | src/Object-Helpers.spec.js:74-91 | the keys of the overlapping records, duplicates included |
| ObjectHelpersExamples.OverlappingOrder | src/Object-Helpers.spec.js:74-91 | keys seen as `a a b b c` are, once each and in first-seen order, `a b c` |
| ObjectHelpersExamples.IndexAttributesOfOverlappingKeys | src/Object-Helpers.spec.js:74-91 | the result is `["test1", "test2", "test3"]` |
| ObjectHelpersExamples.PairKeys | src/Object-Helpers.module.js:16 | two one-property records index one key when they share it, else both |
| ObjectHelpersExamples.DeltaOfPair | src/Object-Helpers.module.js:14-36 | `delta` of two one-property records, exactly |
| ObjectHelpersExamples.DeltaOfUnchangedValue | src/Object-Helpers.spec.js:101-113 | an equal value is `un-modified` |
| ObjectHelpersExamples.DeltaOfChangedValue | src/Object-Helpers.spec.js:115-127 | a different value is `updated` |
| ObjectHelpersExamples.DeltaOfRemovedValue | src/Object-Helpers.spec.js:129-141 | a key only the old object has is `deleted`, and the new object's key `created` |
| ObjectHelpersExamples.DeltaOfCreatedValue | src/Object-Helpers.spec.js:143-155 | a key only the new object has is `created`, and the old object's key `deleted` |
| ObjectHelpersExamples.DeltaOfNestedObjects | src/Object-Helpers.spec.js:157-173 | two objects under the same key give `object value evaluation not supported` |
| ObjectHelpersExamples.LeavesOfOneEntry | src/Object-Helpers.module.js:54-57 | an object with one property has that property's leaves, one level down |
| ObjectHelpersExamples.FlatOne | src/Object-Helpers.module.js:54-57 | a single leaf becomes a single property |
| ObjectHelpersExamples.FlattenOfSingleDepthObject | src/Object-Helpers.spec.js:183-191 | `{test: 'value'}` comes back unchanged |
| ObjectHelpersExamples.LeavesOfNestedString | src/Object-Helpers.spec.js:193-221 | a string nested along a path is the one leaf, at that path |
| ObjectHelpersExamples.FlattenNested | src/Object-Helpers.spec.js:193-221 | a nested string is flattened to one property, keyed by its path joined with `_` |
| ObjectHelpersExamples.FlattenOfNestedObject | src/Object-Helpers.spec.js:193-203 | `{nested: {test: 'value'}}` gives `{nested_test: 'value'}` |
| ObjectHelpersExamples.FlattenOfDeeplyNestedObject | src/Object-Helpers.spec.js:205-221 | the deep path gives the key `nested_really_really_deep_test` |
| ObjectHelpersExamples.EmptyFirstNameDropped | src/Object-Helpers.module.js:47 | a leading empty property name, or two, gives no segment and no `_`: the path `["", "test"]` is keyed `test` |
| ObjectHelpersExamples.FlattenOfEmptyFirstName | src/Object-Helpers.module.js:45-59 | `flatten({"": {test: 'value'}})` is `{test: 'value'}` |
| ObjectHelpersExamples.DeepPathJoined | src/Object-Helpers.spec.js:220 | the deep path joins to `nested_really_really_deep_test` |
| ObjectHelpersExamples.ReallyReallyDeepJoined | src/Object-Helpers.spec.js:220 | the end of the deep path joins to `really_really_deep_test` |
| ObjectHelpersExamples.ReallyDeepJoined | src/Object-Helpers.spec.js:220 | the end of the deep path joins to `really_deep_test` |
| ObjectHelpersExamples.LeavesOfThree | src/Object-Helpers.module.js:54-57 | the leaves of an object with two scalar properties and a third one |
| ObjectHelpersExamples.LeavesOfOneScalar | src/Object-Helpers.module.js:49-55 | an object with one scalar property has one leaf, at the property's name |
| ObjectHelpersExamples.CollidingLeaves | src/Object-Helpers.module.js:54-57 | `{a_b: 1, c: 3, a: {b: 2}}` has two leaves keyed `a_b` |
| ObjectHelpersExamples.FlattenOfCollidingKeys | src/Object-Helpers.module.js:56 | on a collision the later leaf wins, in the place of the first: `{a_b: 2, c: 3}` |
| ObjectHelpersExamples.CollidingAssigned | src/Object-Helpers.module.js:56 | the colliding leaves assigned in turn give `{a_b: 2, c: 3}` |
| ObjectHelpersExamples.AssignOverwrites | src/Object-Helpers.module.js:56 | assigning `k1`, `k2` and `k1` again: the second value of `k1` replaces the first, in place |
| ObjectHelpersExamples.CopyOfOne | src/Object-Helpers.module.js:79 | `Object.assign({}, {key: v})` is `{key: v}` |
| ObjectHelpersExamples.MergeNullOverValue | src/Object-Helpers.module.js:88 | `merge({x: 'v'}, {x: null})` throws |
| ObjectHelpersExamples.MergeOfNull | src/Object-Helpers.module.js:88 | the outcome of `merge({x: 'v'}, {x: null})` is a `TypeError` |
| ObjectHelpersExamples.MergeBooleanOverValue | src/Object-Helpers.module.js:82-93 | `false` over a truthy value keeps it; `true` under a new key is taken |
| ObjectHelpersExamples.MergeOfBoolean | src/Object-Helpers.module.js:82-93 | the outcome for `{x: false, y: true}` over `{x: 'v'}` |
| ObjectHelpersExamples.MergeArrayOverValue | src/Object-Helpers.module.js:82-90 | a non-empty array replaces a truthy value; `null` under a new key is taken |
| ObjectHelpersExamples.MergeOfArray | src/Object-Helpers.module.js:82-90 | the outcome for `{x: [1], y: null}` over `{x: 'v'}` |
| ObjectHelpersExamples.MergeOfNestedObjects | src/Object-Helpers.module.js:91-92 | two objects under one key are merged: `{test: {first, second}}` |
| ObjectHelpersExamples.MergeOfNested | src/Object-Helpers.module.js:91-92 | the outcome of merging the nested objects |
| ObjectHelpersExamples.NestedInnerMerge | src/Object-Helpers.module.js:82-83 | the inner merge takes the new key |

## Left out

- Inherited properties: `for...in` also visits enumerable properties of the
  prototype chain, and a read `obj[key]` also finds inherited ones (so
  `delta({}, {toString: 'x'})` is `updated` in JavaScript, where `({}).toString` is a
  truthy function, but `created` in the model). Only own properties are modelled, those
  of plain objects, arrays and strings, and a read of any other key gives `undefined`.
- Strings are sequences of Unicode code points, not of UTF-16 code units. A character
  outside the Basic Multilingual Plane is one index of a string in the model but two in
  JavaScript. This changes `.length` of such strings, and the properties that
  `for...in` and `Object.assign` see on a string. `merge` reaches them when `objA`
  or `objB` is itself a string (`merge("\u{1F600}", {})`, `merge({}, "\u{1F600}")`)
  and when an object or array is merged into a string; `flatten` never does, since
  strings are leaves.
- JavaScript lists integer-like property names first, in numeric order. Records
  keep plain insertion order.
- Numbers are integers. There is no floating point, no `NaN` and no `-0`, so `0` is
  the only falsy number.
- Cyclic objects, and running out of stack on deep ones, are not modelled. Values
  are finite trees.
- Object identity and aliasing are not modelled. In JavaScript the result of `merge`
  shares nested objects with its inputs: with `objA` through the shallow copy
  `Object.assign({}, objA)` and the branch that leaves a value alone, and with `objB`
  when it takes an object or array as it is, so `merge({x: {a: 1}}, {}).x === objA.x`.
  The model's results are values, and a later change to an input cannot show through.
- `delta` and `indexAttributes` take records only. Their behaviour on other
  arguments depends on host laxity, and the model does not give it.
- Symbol-keyed properties, getters and non-enumerable properties are left out.
- `module.exports` and `'use strict'` are module plumbing and are left out.
- ObjectHelpersProperties.MergeValues: requires that the own keys of `objB` are
  distinct, which every JavaScript object guarantees.
- ObjectHelpersProperties.MergeThrows: requires distinct own keys of `objB`, for the same reason.
- ObjectHelpersProperties.MergeUpToStored: requires distinct own keys of `objB`, for the same reason.
- ObjectHelpersProperties.MergeUpToThrows: requires distinct own keys of `objB`, for the same reason.
- ObjectHelpersProperties.MergeIntoEmpty: requires distinct own keys of `objB`, for the same reason.
- ObjectHelpersProperties.MergeUpToIntoEmpty: requires distinct own keys of `objB`, for the same reason.
- ObjectHelpersProperties.LeavesAreAtTheirPaths: requires distinct property names
  at every depth (`WellFormed`), for the same reason.
- ObjectHelpersProperties.FlattenSingleDepth: requires distinct property names, for the same reason.
