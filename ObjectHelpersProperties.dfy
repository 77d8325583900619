/**
  What the four helpers promise, proved about the specifications their methods
  are verified against.
 */
module ObjectHelpersProperties {
  import opened KeySets
  import opened JsValues
  import opened ObjectHelpers

  // ===========================================================================
  // indexAttributes

  /**
    The result of `indexAttributes` is determined by what it promises: two key lists
    without duplicates, holding the same keys in first-seen order, are equal.
   */
  lemma {:induction false} FirstSeenOrderDetermines(s: seq<string>, x: seq<string>, y: seq<string>)
    requires NoDup(x) && NoDup(y)
    requires forall k :: k in x <==> k in y
    requires FirstSeenOrder(s, x) && FirstSeenOrder(s, y)
    ensures x == y
    decreases |x|
  {
    if x != [] {
      // The first key of each list is the key of the smallest first index.
      assert x[0] in y;
      assert y[0] in x;
      assert x[0] == y[0];
      var x', y' := x[1..], y[1..];
      forall k ensures k in x' <==> k in y' {
        if k in x' {
          assert k != x[0];
          assert k in y;
        }
        if k in y' {
          assert k != y[0];
          assert k in x;
        }
      }
      assert FirstSeenOrder(s, x') by {
        forall i, j | 0 <= i < j < |x'| ensures FirstIndex(s, x'[i]) < FirstIndex(s, x'[j]) {
          assert x'[i] == x[i + 1] && x'[j] == x[j + 1];
        }
      }
      assert FirstSeenOrder(s, y') by {
        forall i, j | 0 <= i < j < |y'| ensures FirstIndex(s, y'[i]) < FirstIndex(s, y'[j]) {
          assert y'[i] == y[i + 1] && y'[j] == y[j + 1];
        }
      }
      FirstSeenOrderDetermines(s, x', y');
      assert x == [x[0]] + x' && y == [y[0]] + y';
    } else if y != [] {
      HeadIsMember(y);
      assert false;
    }
  }

  lemma HeadIsMember(s: seq<string>)
    requires s != []
    ensures s[0] in s
  {
  }

  /** A key shared by every record is listed once. */
  lemma {:induction false} SharedKeyListedOnce(objects: seq<Record>, k: string)
    requires objects != []
    requires forall o :: o in objects ==> Keys(o) == [k]
    ensures AddAll([], AllKeys(objects)) == [k]
    decreases |objects|
  {
    var p := objects[..|objects| - 1];
    assert objects[|objects| - 1] in objects;
    if p == [] {
      assert AllKeys(objects) == [k];
    } else {
      forall o | o in p ensures Keys(o) == [k] {
        assert o in objects;
      }
      SharedKeyListedOnce(p, k);
      AddAllConcat([], AllKeys(p), [k]);
      assert AllKeys(p) + [k] == AllKeys(objects);
      AddAllSnoc([], [], k);
      assert AddAll([k], [k]) == AddKey(AddAll([k], []), k);
    }
  }

  // ===========================================================================
  // delta

  /** The chain of checks of `delta`, each verb with exactly the case that yields it. */
  lemma VerbCases(oldValue: Value, newValue: Value)
    ensures Verb(oldValue, newValue) == Created <==> !Truthy(oldValue)
    ensures Verb(oldValue, newValue) == Deleted <==> Truthy(oldValue) && !Truthy(newValue)
    ensures Verb(oldValue, newValue) == NotSupported <==>
      Truthy(oldValue) && Truthy(newValue) && (TypeofObject(oldValue) || TypeofObject(newValue))
    ensures Verb(oldValue, newValue) == Unmodified <==>
      Truthy(oldValue) && Truthy(newValue) && !TypeofObject(oldValue) && !TypeofObject(newValue) && oldValue == newValue
    ensures Verb(oldValue, newValue) == Updated <==>
      Truthy(oldValue) && Truthy(newValue) && !TypeofObject(oldValue) && !TypeofObject(newValue) && oldValue != newValue
  {
  }

  /**
    Read through key presence: a key missing from `oldObject` (so `undefined` there) is
    `created`, whatever `newObject` holds; a key with a truthy old value and missing from
    `newObject` is `deleted`.
   */
  lemma VerbOfMissingKeys(oldObject: Record, newObject: Record, k: string)
    ensures k !in Keys(oldObject) ==> Verb(Get(oldObject, k), Get(newObject, k)) == Created
    ensures Truthy(Get(oldObject, k)) && k !in Keys(newObject) ==>
      Verb(Get(oldObject, k), Get(newObject, k)) == Deleted
  {
    if k !in Keys(oldObject) {
      GetAbsent(oldObject, k);
    }
    if k !in Keys(newObject) {
      GetAbsent(newObject, k);
    }
  }

  /** Objects are never compared: two objects with any contents give the same verb. */
  lemma VerbIgnoresObjectContents(fields1: Record, fields2: Record, fields3: Record, fields4: Record)
    ensures Verb(Obj(fields1), Obj(fields2)) == Verb(Obj(fields3), Obj(fields4)) == NotSupported
  {
  }

  /** The absence test is truthiness: `false` turning `true` reads as `created`. */
  lemma VerbFalsyOldValue(newValue: Value)
    ensures Verb(Bool(false), newValue) == Verb(Num(0), newValue) == Verb(Str(""), newValue) == Created
  {
  }

  // ===========================================================================
  // flatten

  /** Path segments joined with underscores. */
  function JoinPath(path: seq<string>): string
    requires path != []
  {
    if |path| == 1 then path[0] else path[0] + "_" + JoinPath(path[1..])
  }

  lemma {:induction false} FlatKeyUnderStem(s: string, n: string, path: seq<string>)
    requires s != ""
    ensures FlatKey(Some(n), Some(s), path) == s + "_" + JoinPath([n] + path)
    decreases |path|
  {
    if path == [] {
      assert [n] + path == [n];
    } else {
      var s' := s + "_" + n;
      FlatKeyUnderStem(s', path[0], path[1..]);
      assert [path[0]] + path[1..] == path;
      assert ([n] + path)[1..] == path;
      assert JoinPath([n] + path) == n + "_" + JoinPath(path);
      assert s' + "_" + JoinPath(path) == s + "_" + (n + "_" + JoinPath(path));
    }
  }

  /**
    A leaf reached from the root call `flatten(obj)` through the path `p` is keyed by the
    segments of `p` joined with `_`, provided the first segment is not empty (an empty
    stem is dropped rather than joined).
   */
  lemma FlatKeyIsJoinedPath(path: seq<string>)
    requires path != [] && path[0] != ""
    ensures FlatKey(None, None, path) == JoinPath(path)
  {
    if |path| > 1 {
      FlatKeyUnderStem(path[0], path[1], path[2..]);
      assert [path[1]] + path[2..] == path[1..];
    }
  }

  /** A value of non-object type is wrapped under `newStem`. */
  lemma FlattenNonObject(v: Value, name: Option<string>, stem: Option<string>)
    requires !TypeofObject(v)
    ensures PutAll([], FlatEntries(v, name, stem)) == [(KeyString(NewStem(name, stem)), v)]
  {
  }

  /** `null`, dates and empty objects produce no keys. */
  lemma FlattenEmpty(v: Value, name: Option<string>, stem: Option<string>)
    requires v.Null? || v.Date? || v == Obj([]) || v == Arr([])
    ensures PutAll([], FlatEntries(v, name, stem)) == []
  {
    assert |OwnEntries(v)| == 0;
    assert Leaves(v) == [];
    assert |FlatEntries(v, name, stem)| == 0;
  }

  lemma {:induction false} FlatEntriesOfSingleDepth(r: Record, n: nat)
    requires NoObjectValues(r) && n <= |r|
    ensures Keyed(None, None, EntryLeaves(Obj(r), n)) == r[..n]
  {
    if n > 0 {
      FlatEntriesOfSingleDepth(r, n - 1);
      assert !TypeofObject(r[n - 1].1);
      assert Leaves(r[n - 1].1) == [([], r[n - 1].1)];
      assert FlatKey(None, None, [r[n - 1].0]) == r[n - 1].0;
      assert r[..n] == r[..n - 1] + [r[n - 1]];
    }
  }

  /** `flatten` leaves a single-depth record as it is. */
  lemma FlattenSingleDepth(r: Record)
    requires NoDupKeys(r) && NoObjectValues(r)
    ensures PutAll([], FlatEntries(Obj(r), None, None)) == r
  {
    FlatEntriesOfSingleDepth(r, |r|);
    assert r[..|r|] == r;
    PutAllOfNoDup(r);
  }

  /** The value found by following a path of property names. */
  function ValueAt(v: Value, path: seq<string>): Value
    decreases |path|
  {
    if path == [] then v else ValueAt(Get(OwnEntries(v), path[0]), path[1..])
  }

  /** A JavaScript value: no object has two properties of the same name, at any depth. */
  predicate WellFormed(v: Value)
    decreases v
  {
    match v
    case Obj(f) => NoDupKeys(f) && forall i :: 0 <= i < |f| ==> WellFormed(f[i].1)
    case Arr(e) => forall i :: 0 <= i < |e| ==> WellFormed(e[i])
    case _ => true
  }

  function DigitValue(c: char): int {
    c as int - '0' as int
  }

  /** Reading a decimal property name back as a number. */
  function StringToNat(s: string): int {
    if s == [] then 0 else StringToNat(s[..|s| - 1]) * 10 + DigitValue(s[|s| - 1])
  }

  lemma {:induction false} NatToStringRoundTrip(n: nat)
    ensures StringToNat(NatToString(n)) == n
    decreases n
  {
    var d := n % 10;
    assert DigitValue(DigitChar(d)) == d by {
      assert d == 0 || d == 1 || d == 2 || d == 3 || d == 4 || d == 5 || d == 6 || d == 7 || d == 8 || d == 9;
    }
    if n >= 10 {
      NatToStringRoundTrip(n / 10);
      var t := NatToString(n / 10);
      assert (t + [DigitChar(d)])[..|t|] == t;
    }
  }

  /** Array indices have distinct property names. */
  lemma IndexKeysDistinct(v: Value)
    requires v.Arr? || v.Str?
    ensures NoDupKeys(OwnEntries(v))
  {
    forall i, j | 0 <= i < j < |OwnEntries(v)|
      ensures Keys(OwnEntries(v))[i] != Keys(OwnEntries(v))[j]
    {
      NatToStringRoundTrip(i);
      NatToStringRoundTrip(j);
    }
  }

  lemma WellFormedEntries(v: Value)
    requires WellFormed(v) && TypeofObject(v)
    ensures NoDupKeys(OwnEntries(v))
    ensures forall i :: 0 <= i < |OwnEntries(v)| ==> WellFormed(OwnEntries(v)[i].1)
  {
    if v.Arr? {
      IndexKeysDistinct(v);
    }
  }

  /**
    `path` leads from `v` to a value of non-object type through values of object type,
    one own property at a time: the values `flatten` stops at.
   */
  predicate LeafPath(v: Value, path: seq<string>)
    decreases |path|
  {
    if path == [] then !TypeofObject(v)
    else TypeofObject(v) && path[0] in Keys(OwnEntries(v)) && LeafPath(Get(OwnEntries(v), path[0]), path[1..])
  }

  /** A leaf path ends at a value of non-object type. */
  lemma {:induction false} LeafPathEndsAtNonObject(v: Value, path: seq<string>)
    requires LeafPath(v, path)
    ensures !TypeofObject(ValueAt(v, path))
    decreases |path|
  {
    if path != [] {
      LeafPathEndsAtNonObject(Get(OwnEntries(v), path[0]), path[1..]);
    }
  }

  /** The `i`-th leaf `flatten` reaches is what its path leads to. */
  lemma {:induction false} LeafAtItsPath(v: Value, i: nat)
    requires WellFormed(v) && i < |Leaves(v)|
    ensures ValueAt(v, Leaves(v)[i].0) == Leaves(v)[i].1
    decreases v, 1
  {
    if TypeofObject(v) {
      EntryLeafAtItsPath(v, |OwnEntries(v)|, i);
    }
  }

  lemma {:induction false} EntryLeafAtItsPath(v: Value, n: nat, i: nat)
    requires WellFormed(v) && TypeofObject(v) && n <= |OwnEntries(v)| && i < |EntryLeaves(v, n)|
    ensures ValueAt(v, EntryLeaves(v, n)[i].0) == EntryLeaves(v, n)[i].1
    decreases v, 0, n
  {
    var es := OwnEntries(v);
    var k, child := es[n - 1].0, es[n - 1].1;
    var all, before, below := EntryLeaves(v, n), EntryLeaves(v, n - 1), Under(k, Leaves(child));
    assert all == before + below by {
      EntryLeavesNext(v, n);
    }
    if i < |before| {
      EntryLeafAtItsPath(v, n - 1, i);
      assert all[i] == before[i];
    } else {
      EntrySmaller(v, n - 1);
      var leaf := Leaves(child)[i - |before|];
      assert all[i] == ([k] + leaf.0, leaf.1) by {
        UnderAt(k, Leaves(child), i - |before|);
      }
      assert ValueAt(child, leaf.0) == leaf.1 by {
        LeafAtItsPath(child, i - |before|);
      }
      assert Get(es, k) == child by {
        WellFormedEntries(v);
        GetAtIndex(es, n - 1);
      }
      assert ([k] + leaf.0)[1..] == leaf.0;
    }
  }

  /** The path of the `i`-th leaf `flatten` reaches is a leaf path. */
  lemma {:induction false} LeafOnLeafPath(v: Value, i: nat)
    requires WellFormed(v) && i < |Leaves(v)|
    ensures LeafPath(v, Leaves(v)[i].0)
    decreases v, 1
  {
    if TypeofObject(v) {
      EntryLeafOnLeafPath(v, |OwnEntries(v)|, i);
    }
  }

  lemma {:induction false} EntryLeafOnLeafPath(v: Value, n: nat, i: nat)
    requires WellFormed(v) && TypeofObject(v) && n <= |OwnEntries(v)| && i < |EntryLeaves(v, n)|
    ensures LeafPath(v, EntryLeaves(v, n)[i].0)
    decreases v, 0, n
  {
    var es := OwnEntries(v);
    var k, child := es[n - 1].0, es[n - 1].1;
    var all, before, below := EntryLeaves(v, n), EntryLeaves(v, n - 1), Under(k, Leaves(child));
    assert all == before + below by {
      EntryLeavesNext(v, n);
    }
    if i < |before| {
      EntryLeafOnLeafPath(v, n - 1, i);
      assert all[i] == before[i];
    } else {
      EntrySmaller(v, n - 1);
      var path := Leaves(child)[i - |before|].0;
      assert below[i - |before|].0 == [k] + path by {
        UnderAt(k, Leaves(child), i - |before|);
      }
      assert all[i].0 == [k] + path;
      assert LeafPath(Get(es, k), path) by {
        WellFormedEntries(v);
        GetAtIndex(es, n - 1);
        LeafOnLeafPath(child, i - |before|);
      }
      assert k in Keys(es) by {
        assert Keys(es)[n - 1] == k;
      }
      assert ([k] + path)[1..] == path;
    }
  }

  /** Every leaf path is the path of some leaf `flatten` reaches: it visits them all. */
  lemma {:induction false} LeafPathListed(v: Value, path: seq<string>)
    requires LeafPath(v, path)
    ensures exists i :: 0 <= i < |Leaves(v)| && Leaves(v)[i].0 == path
    decreases |path|
  {
    if path == [] {
      assert Leaves(v)[0].0 == path;
    } else {
      var es := OwnEntries(v);
      var k := path[0];
      assert TypeofObject(v) && k in Keys(es) && LeafPath(Get(es, k), path[1..]);
      var j := FirstIndex(Keys(es), k);
      var child := es[j].1;
      assert LeafPath(child, path[1..]) by {
        GetFirst(es, k);
      }
      LeafPathListed(child, path[1..]);
      var m :| 0 <= m < |Leaves(child)| && Leaves(child)[m].0 == path[1..];
      assert path == [es[j].0] + Leaves(child)[m].0;
      LeafBelowListed(v, |es|, j, m, path);
      assert Leaves(v) == EntryLeaves(v, |es|);
    }
  }

  /** The `m`-th leaf below the `j`-th property is listed among the leaves below the first `n`. */
  lemma {:induction false} LeafBelowListed(v: Value, n: nat, j: nat, m: nat, path: seq<string>)
    requires TypeofObject(v) && j < n <= |OwnEntries(v)| && m < |Leaves(OwnEntries(v)[j].1)|
    requires path == [OwnEntries(v)[j].0] + Leaves(OwnEntries(v)[j].1)[m].0
    ensures exists i :: 0 <= i < |EntryLeaves(v, n)| && EntryLeaves(v, n)[i].0 == path
    decreases n
  {
    var es := OwnEntries(v);
    var all, before, below := EntryLeaves(v, n), EntryLeaves(v, n - 1), Under(es[n - 1].0, Leaves(es[n - 1].1));
    assert all == before + below by {
      EntryLeavesNext(v, n);
    }
    if j < n - 1 {
      LeafBelowListed(v, n - 1, j, m, path);
      var i :| 0 <= i < |before| && before[i].0 == path;
      assert all[i] == before[i];
    } else {
      assert |below| == |Leaves(es[j].1)| && below[m].0 == path by {
        UnderAt(es[j].0, Leaves(es[j].1), m);
      }
      assert all[|before| + m] == below[m];
    }
  }

  /** One more property's leaves come after those of the properties before it. */
  lemma EntryLeavesNext(v: Value, n: nat)
    requires TypeofObject(v) && 0 < n <= |OwnEntries(v)|
    ensures EntryLeaves(v, n) == EntryLeaves(v, n - 1) + Under(OwnEntries(v)[n - 1].0, Leaves(OwnEntries(v)[n - 1].1))
  {
    EntrySmaller(v, n - 1);
  }

  /** Seen from one level up, a leaf's path gets the property's name in front. */
  lemma UnderAt(k: string, leaves: seq<Leaf>, m: nat)
    requires m < |leaves|
    ensures |Under(k, leaves)| == |leaves| && Under(k, leaves)[m] == ([k] + leaves[m].0, leaves[m].1)
  {
  }

  /**
    The leaves `flatten` reaches are exactly the values of non-object type at the end of
    a leaf path, each with its path: every listed leaf is what its path leads to, and
    every leaf path is listed. (Two paths can still join to the same key, and then
    `Object.assign` keeps only the later leaf.)
   */
  lemma LeavesAreAtTheirPaths(v: Value)
    requires WellFormed(v)
    ensures forall i :: 0 <= i < |Leaves(v)| ==>
      ValueAt(v, Leaves(v)[i].0) == Leaves(v)[i].1 && !TypeofObject(Leaves(v)[i].1) && LeafPath(v, Leaves(v)[i].0)
    ensures forall path :: LeafPath(v, path) ==>
      !TypeofObject(ValueAt(v, path)) && exists i :: 0 <= i < |Leaves(v)| && Leaves(v)[i].0 == path
  {
    LeavesAreNotObjects(v);
    forall i | 0 <= i < |Leaves(v)|
      ensures ValueAt(v, Leaves(v)[i].0) == Leaves(v)[i].1 && LeafPath(v, Leaves(v)[i].0)
    {
      LeafAtItsPath(v, i);
      LeafOnLeafPath(v, i);
    }
    forall path | LeafPath(v, path)
      ensures !TypeofObject(ValueAt(v, path)) && exists i :: 0 <= i < |Leaves(v)| && Leaves(v)[i].0 == path
    {
      LeafPathEndsAtNonObject(v, path);
      LeafPathListed(v, path);
    }
  }

  // ===========================================================================
  // merge

  /** The value the branch taken for the `i`-th key of `objB` stores, when `outObject[key]` is `existing`. */
  function BranchValue(objA: Value, objB: Value, i: nat, existing: Value): Value
    requires i < |OwnEntries(objB)|
  {
    var key := OwnEntries(objB)[i].0;
    var incoming := OwnEntries(objB)[i].1;
    match MergeAction(existing, incoming)
    case Take => incoming
    case Keep => existing
    case Throw => Undefined
    case Recurse =>
      match MergeSpec(Get(OwnEntries(objA), key), incoming)
      case Ok(inner) => Obj(inner)
      case TypeError => Undefined
  }

  /** Whether the branch taken for the `i`-th key of `objB` throws, when `outObject[key]` is `existing`. */
  predicate BranchThrows(objA: Value, objB: Value, i: nat, existing: Value)
    requires i < |OwnEntries(objB)|
  {
    var key := OwnEntries(objB)[i].0;
    var incoming := OwnEntries(objB)[i].1;
    var action := MergeAction(existing, incoming);
    action == Throw || (action == Recurse && MergeSpec(Get(OwnEntries(objA), key), incoming).TypeError?)
  }

  /** The value `merge` leaves under the `i`-th key of `objB`: its branch applied to `objA`'s value. */
  function StoredValue(objA: Value, objB: Value, i: nat): Value
    requires i < |OwnEntries(objB)|
  {
    BranchValue(objA, objB, i, Get(Copy(objA), OwnEntries(objB)[i].0))
  }

  /** The `i`-th key of `objB`, on its own, makes `merge` throw. */
  predicate StepThrows(objA: Value, objB: Value, i: nat)
    requires i < |OwnEntries(objB)|
  {
    BranchThrows(objA, objB, i, Get(Copy(objA), OwnEntries(objB)[i].0))
  }

  /** The branch chosen for one key, with exactly the case that selects it. */
  lemma MergeActionCases(existing: Value, incoming: Value)
    ensures MergeAction(existing, incoming) == Take <==>
      || !Truthy(existing)
      || incoming.Str? || incoming.Num? || incoming.Date?
      || (incoming.Arr? && incoming.elems != [])
      || (incoming.Obj? && Truthy(Get(incoming.fields, "length")))
    ensures MergeAction(existing, incoming) == Recurse <==>
      && Truthy(existing)
      && (incoming == Arr([]) || (incoming.Obj? && !Truthy(Get(incoming.fields, "length"))))
    ensures MergeAction(existing, incoming) == Keep <==> Truthy(existing) && incoming.Bool?
    ensures MergeAction(existing, incoming) == Throw <==> Truthy(existing) && (incoming.Null? || incoming.Undefined?)
  {
  }

  /** The loop after one more key is one more turn of its body. */
  lemma MergeUpToNext(objA: Value, objB: Value, i: nat, out: Record)
    requires i < |OwnEntries(objB)| && MergeUpTo(objA, objB, i) == Ok(out)
    ensures MergeUpTo(objA, objB, i + 1) == MergeStep(objA, objB, i, out)
  {
  }

  /** What one turn of the loop stores under its key, or that it throws. */
  lemma MergeStepOutcome(objA: Value, objB: Value, i: nat, out: Record)
    requires i < |OwnEntries(objB)|
    ensures var key := OwnEntries(objB)[i].0;
      MergeStep(objA, objB, i, out) ==
        if BranchThrows(objA, objB, i, Get(out, key)) then TypeError
        else if MergeAction(Get(out, key), OwnEntries(objB)[i].1) == Keep then Ok(out)
        else Ok(Put(out, key, BranchValue(objA, objB, i, Get(out, key))))
  {
  }

  /** A key `outObject` has no truthy value for takes the value of `objB`. */
  lemma MergeStepTakes(objA: Value, objB: Value, i: nat, out: Record)
    requires i < |OwnEntries(objB)| && !Truthy(Get(out, OwnEntries(objB)[i].0))
    ensures MergeStep(objA, objB, i, out) == Ok(Put(out, OwnEntries(objB)[i].0, OwnEntries(objB)[i].1))
  {
  }

  /** A key whose value is truthy is a key of the record. */
  lemma TruthyIsPresent(r: Record, k: string)
    requires Truthy(Get(r, k))
    ensures k in Keys(r)
  {
    if k !in Keys(r) {
      GetAbsent(r, k);
    }
  }

  /** One turn of the loop throws exactly when its branch does. */
  lemma MergeStepThrows(objA: Value, objB: Value, i: nat, out: Record)
    requires i < |OwnEntries(objB)|
    ensures MergeStep(objA, objB, i, out).TypeError? <==> BranchThrows(objA, objB, i, Get(out, OwnEntries(objB)[i].0))
  {
    MergeStepOutcome(objA, objB, i, out);
  }

  /** One turn of the loop that does not throw adds its key. */
  lemma MergeStepKeys(objA: Value, objB: Value, i: nat, out: Record)
    requires i < |OwnEntries(objB)| && MergeStep(objA, objB, i, out).Ok?
    ensures Keys(MergeStep(objA, objB, i, out).value) == AddKey(Keys(out), OwnEntries(objB)[i].0)
  {
    var key := OwnEntries(objB)[i].0;
    var existing := Get(out, key);
    MergeStepOutcome(objA, objB, i, out);
    if MergeAction(existing, OwnEntries(objB)[i].1) == Keep {
      TruthyIsPresent(out, key);
    } else {
      PutKeys(out, key, BranchValue(objA, objB, i, existing));
    }
  }

  /** One turn of the loop that does not throw changes the value of its key alone. */
  lemma MergeStepGet(objA: Value, objB: Value, i: nat, out: Record, k: string)
    requires i < |OwnEntries(objB)| && MergeStep(objA, objB, i, out).Ok?
    ensures Get(MergeStep(objA, objB, i, out).value, k) ==
      if k == OwnEntries(objB)[i].0 then BranchValue(objA, objB, i, Get(out, k)) else Get(out, k)
  {
    var key := OwnEntries(objB)[i].0;
    MergeStepOutcome(objA, objB, i, out);
    if MergeAction(Get(out, key), OwnEntries(objB)[i].1) != Keep {
      PutGet(out, key, BranchValue(objA, objB, i, Get(out, key)), k);
    }
  }

  /** Before the loop has visited any key, no key has been visited. */
  lemma NoKeysBefore(es: Record)
    ensures Keys(es[..0]) == []
  {
  }

  /** The keys of one more entry. */
  lemma KeysOfLongerPrefix(es: Record, n: nat)
    requires n < |es|
    ensures Keys(es[..n + 1]) == Keys(es[..n]) + [es[n].0]
  {
  }

  /** Every key of `objB` ends up in the result, after the keys of `objA`. */
  lemma {:induction false} MergeUpToKeys(objA: Value, objB: Value, n: nat)
    requires n <= |OwnEntries(objB)| && MergeUpTo(objA, objB, n).Ok?
    ensures Keys(MergeUpTo(objA, objB, n).value) == AddAll(Keys(Copy(objA)), Keys(OwnEntries(objB)[..n]))
  {
    var es := OwnEntries(objB);
    if n == 0 {
      NoKeysBefore(es);
    } else {
      MergeUpToKeys(objA, objB, n - 1);
      var out := MergeUpTo(objA, objB, n - 1).value;
      var done, key := Keys(es[..n - 1]), es[n - 1].0;
      var step := MergeStep(objA, objB, n - 1, out);
      assert MergeUpTo(objA, objB, n) == step by {
        MergeUpToNext(objA, objB, n - 1, out);
      }
      assert Keys(step.value) == AddKey(Keys(out), key) by {
        MergeStepKeys(objA, objB, n - 1, out);
      }
      KeysOfLongerPrefix(es, n - 1);
      AddAllSnoc(Keys(Copy(objA)), done, key);
    }
  }

  /** A key occurs in no entry before its own, when no key occurs twice. */
  lemma KeyNotBefore(es: Record, i: nat)
    requires NoDupKeys(es) && i < |es|
    ensures es[i].0 !in Keys(es[..i])
  {
  }

  /** A key the loop has not visited yet still holds what the copy of `objA` held. */
  lemma {:induction false} MergeUpToUntouched(objA: Value, objB: Value, n: nat, k: string)
    requires n <= |OwnEntries(objB)| && MergeUpTo(objA, objB, n).Ok?
    requires k !in Keys(OwnEntries(objB)[..n])
    ensures Get(MergeUpTo(objA, objB, n).value, k) == Get(Copy(objA), k)
  {
    if n > 0 {
      var es := OwnEntries(objB);
      var out := MergeUpTo(objA, objB, n - 1).value;
      KeysOfLongerPrefix(es, n - 1);
      MergeUpToUntouched(objA, objB, n - 1, k);
      var step := MergeStep(objA, objB, n - 1, out);
      assert MergeUpTo(objA, objB, n) == step by {
        MergeUpToNext(objA, objB, n - 1, out);
      }
      assert Get(step.value, k) == Get(out, k) by {
        MergeStepGet(objA, objB, n - 1, out, k);
      }
    }
  }

  /** After the first `n` keys of `objB`, the `i`-th of them holds its `StoredValue`. */
  lemma {:induction false} MergeUpToStored(objA: Value, objB: Value, n: nat, i: nat)
    requires NoDupKeys(OwnEntries(objB))
    requires i < n <= |OwnEntries(objB)| && MergeUpTo(objA, objB, n).Ok?
    ensures Get(MergeUpTo(objA, objB, n).value, OwnEntries(objB)[i].0) == StoredValue(objA, objB, i)
  {
    var es := OwnEntries(objB);
    var out := MergeUpTo(objA, objB, n - 1).value;
    var step := MergeStep(objA, objB, n - 1, out);
    assert MergeUpTo(objA, objB, n) == step by {
      MergeUpToNext(objA, objB, n - 1, out);
    }
    assert Get(step.value, es[i].0) ==
      if es[i].0 == es[n - 1].0 then BranchValue(objA, objB, n - 1, Get(out, es[i].0)) else Get(out, es[i].0) by {
      MergeStepGet(objA, objB, n - 1, out, es[i].0);
    }
    if i == n - 1 {
      assert Get(out, es[i].0) == Get(Copy(objA), es[i].0) by {
        KeyNotBefore(es, n - 1);
        MergeUpToUntouched(objA, objB, n - 1, es[i].0);
      }
    } else {
      assert es[i].0 != es[n - 1].0 by {
        assert Keys(es)[i] != Keys(es)[n - 1];
      }
      assert Get(out, es[i].0) == StoredValue(objA, objB, i) by {
        MergeUpToStored(objA, objB, n - 1, i);
      }
    }
  }

  /** The loop throws exactly when one of the keys it has visited throws on its own. */
  lemma {:induction false} MergeUpToThrows(objA: Value, objB: Value, n: nat)
    requires NoDupKeys(OwnEntries(objB)) && n <= |OwnEntries(objB)|
    ensures MergeUpTo(objA, objB, n).TypeError? <==> exists i :: 0 <= i < n && StepThrows(objA, objB, i)
  {
    if n > 0 {
      MergeUpToThrows(objA, objB, n - 1);
      if MergeUpTo(objA, objB, n - 1).Ok? {
        var es := OwnEntries(objB);
        var out := MergeUpTo(objA, objB, n - 1).value;
        var key := es[n - 1].0;
        assert Get(out, key) == Get(Copy(objA), key) by {
          KeyNotBefore(es, n - 1);
          MergeUpToUntouched(objA, objB, n - 1, key);
        }
        assert MergeUpTo(objA, objB, n) == MergeStep(objA, objB, n - 1, out) by {
          MergeUpToNext(objA, objB, n - 1, out);
        }
        assert MergeStep(objA, objB, n - 1, out).TypeError? <==> BranchThrows(objA, objB, n - 1, Get(out, key)) by {
          MergeStepThrows(objA, objB, n - 1, out);
        }
        assert StepThrows(objA, objB, n - 1) <==> MergeUpTo(objA, objB, n).TypeError?;
        if MergeUpTo(objA, objB, n).Ok? {
          forall i | 0 <= i < n ensures !StepThrows(objA, objB, i) {
            if i < n - 1 {
              assert !(0 <= i < n - 1 && StepThrows(objA, objB, i));
            }
          }
        } else {
          assert 0 <= n - 1 < n && StepThrows(objA, objB, n - 1);
        }
      } else {
        var i :| 0 <= i < n - 1 && StepThrows(objA, objB, i);
        assert 0 <= i < n && StepThrows(objA, objB, i);
      }
    }
  }

  /**
    `merge` keeps every key of `objA`, in its place, and appends the keys of `objB` it does
    not have, in `for...in` order.
   */
  lemma MergeKeys(objA: Value, objB: Value)
    requires MergeSpec(objA, objB).Ok?
    ensures Keys(MergeSpec(objA, objB).value) == AddAll(Keys(Copy(objA)), Keys(OwnEntries(objB)))
  {
    MergeUpToKeys(objA, objB, |OwnEntries(objB)|);
    assert OwnEntries(objB)[..|OwnEntries(objB)|] == OwnEntries(objB);
  }

  /**
    What `merge` stores: a key only `objA` has keeps its value, and every key of `objB` holds
    the value its branch of the loop body gives it.
   */
  lemma MergeValues(objA: Value, objB: Value)
    requires NoDupKeys(OwnEntries(objB)) && MergeSpec(objA, objB).Ok?
    ensures forall k :: k !in Keys(OwnEntries(objB)) ==>
      Get(MergeSpec(objA, objB).value, k) == Get(Copy(objA), k)
    ensures forall i :: 0 <= i < |OwnEntries(objB)| ==>
      Get(MergeSpec(objA, objB).value, OwnEntries(objB)[i].0) == StoredValue(objA, objB, i)
  {
    var es := OwnEntries(objB);
    assert es[..|es|] == es;
    forall k | k !in Keys(es)
      ensures Get(MergeSpec(objA, objB).value, k) == Get(Copy(objA), k)
    {
      MergeUpToUntouched(objA, objB, |es|, k);
    }
    forall i | 0 <= i < |es|
      ensures Get(MergeSpec(objA, objB).value, es[i].0) == StoredValue(objA, objB, i)
    {
      MergeUpToStored(objA, objB, |es|, i);
    }
  }

  /** `merge` throws exactly when one key of `objB` throws on its own. */
  lemma MergeThrows(objA: Value, objB: Value)
    requires NoDupKeys(OwnEntries(objB))
    ensures MergeSpec(objA, objB).TypeError? <==>
      exists i :: 0 <= i < |OwnEntries(objB)| && StepThrows(objA, objB, i)
  {
    MergeUpToThrows(objA, objB, |OwnEntries(objB)|);
  }

  /** `null` and `undefined` occur nowhere inside `v`. */
  predicate NoNullish(v: Value)
    decreases v
  {
    match v
    case Null => false
    case Undefined => false
    case Obj(f) => forall i :: 0 <= i < |f| ==> NoNullish(f[i].1)
    case Arr(e) => forall i :: 0 <= i < |e| ==> NoNullish(e[i])
    case _ => true
  }

  /** Without `null` or `undefined` anywhere in `objB`, `merge` never throws. */
  lemma {:induction false} MergeTotal(objA: Value, objB: Value)
    requires NoNullish(objB)
    ensures MergeSpec(objA, objB).Ok?
    decreases objB, 1
  {
    MergeUpToTotal(objA, objB, |OwnEntries(objB)|);
  }

  lemma {:induction false} MergeUpToTotal(objA: Value, objB: Value, n: nat)
    requires NoNullish(objB) && n <= |OwnEntries(objB)|
    ensures MergeUpTo(objA, objB, n).Ok?
    decreases objB, 0, n
  {
    if n > 0 {
      MergeUpToTotal(objA, objB, n - 1);
      var out := MergeUpTo(objA, objB, n - 1).value;
      var key, incoming := OwnEntries(objB)[n - 1].0, OwnEntries(objB)[n - 1].1;
      MergeStepCases(objA, objB, n - 1, out);
      assert NoNullish(incoming);
      if MergeAction(Get(out, key), incoming) == Recurse {
        MergeTotal(Get(OwnEntries(objA), key), incoming);
      }
    }
  }

  /** Merging an object without properties gives a copy of `objA`. */
  lemma MergeRightIdentity(objA: Value, f: Record)
    ensures MergeSpec(objA, Obj([])) == Ok(Copy(objA))
    ensures NoDupKeys(f) ==> MergeSpec(Obj(f), Obj([])) == Ok(f)
  {
    if NoDupKeys(f) {
      PutAllOfNoDup(f);
    }
  }

  lemma {:induction false} MergeUpToIntoEmpty(objA: Value, objB: Value, n: nat)
    requires OwnEntries(objA) == [] && NoDupKeys(OwnEntries(objB)) && n <= |OwnEntries(objB)|
    ensures MergeUpTo(objA, objB, n) == Ok(PutAll([], OwnEntries(objB)[..n]))
  {
    if n > 0 {
      var es := OwnEntries(objB);
      MergeUpToIntoEmpty(objA, objB, n - 1);
      var out := PutAll([], es[..n - 1]);
      var key, incoming := es[n - 1].0, es[n - 1].1;
      assert Get(out, key) == Undefined by {
        KeyNotBefore(es, n - 1);
        PutAllAbsent(es[..n - 1], key);
      }
      var m := n - 1;
      assert MergeUpTo(objA, objB, m + 1) == Ok(Put(out, key, incoming)) by {
        MergeUpToTakes(objA, objB, m, out);
      }
      assert PutAll([], es[..m + 1]) == Put(out, key, incoming) by {
        PutAllOfLongerPrefix([], es, m);
      }
      assert m + 1 == n;
    }
  }

  /** A turn of the loop on a key with no truthy value in `outObject` takes `objB[key]`. */
  lemma MergeUpToTakes(objA: Value, objB: Value, i: nat, out: Record)
    requires i < |OwnEntries(objB)| && MergeUpTo(objA, objB, i) == Ok(out)
    requires !Truthy(Get(out, OwnEntries(objB)[i].0))
    ensures MergeUpTo(objA, objB, i + 1) == Ok(Put(out, OwnEntries(objB)[i].0, OwnEntries(objB)[i].1))
  {
    MergeUpToNext(objA, objB, i, out);
    MergeStepTakes(objA, objB, i, out);
  }

  /** Merging into a value with no properties of its own gives a copy of `objB`. */
  lemma MergeIntoEmpty(objA: Value, objB: Value)
    requires OwnEntries(objA) == [] && NoDupKeys(OwnEntries(objB))
    ensures MergeSpec(objA, objB) == Ok(Copy(objB))
  {
    MergeUpToIntoEmpty(objA, objB, |OwnEntries(objB)|);
    assert OwnEntries(objB)[..|OwnEntries(objB)|] == OwnEntries(objB);
  }
}
