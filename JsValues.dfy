/**
  The part of JavaScript's value semantics that the object helpers rely on:
  values, truthiness, `typeof`, `.length`, and plain objects ("records") read
  with `obj[key]`, written with `obj[key] = v` and copied with `Object.assign`.
 */
module JsValues {
  import opened KeySets

  datatype Option<+T> = None | Some(value: T)

  /** A JavaScript value as the helpers see it. Numbers are integers. */
  datatype Value =
    | Str(s: string)
    | Num(n: int)
    | Bool(b: bool)
    | Date(time: int)
    | Arr(elems: seq<Value>)
    | Obj(fields: Record)
    | Null
    | Undefined

  /** A plain object: its own enumerable properties in insertion order. */
  type Record = seq<(string, Value)>

  /** `!!v`: the empty string, zero, `false`, `null` and `undefined` are falsy. */
  predicate Truthy(v: Value) {
    match v
    case Str(s) => s != ""
    case Num(n) => n != 0
    case Bool(b) => b
    case Null => false
    case Undefined => false
    case _ => true
  }

  /** `typeof v === 'object'`: true of `null`, arrays, dates and plain objects. */
  predicate TypeofObject(v: Value) {
    v.Null? || v.Arr? || v.Date? || v.Obj?
  }

  /** Reading `v.length`; `None` when the read throws a TypeError (on `null` and `undefined`). */
  function LengthOf(v: Value): (r: Option<Value>)
    ensures r.None? <==> v.Null? || v.Undefined?
  {
    match v
    case Str(s) => Some(Num(|s|))
    case Arr(e) => Some(Num(|e|))
    case Obj(f) => Some(Get(f, "length"))
    case Null => None
    case Undefined => None
    case _ => Some(Undefined)
  }

  function DigitChar(d: nat): char
    requires d < 10
  {
    "0123456789"[d]
  }

  /** The decimal property name of an array or string index. */
  function NatToString(n: nat): string
    decreases n
  {
    if n < 10 then [DigitChar(n)] else NatToString(n / 10) + [DigitChar(n % 10)]
  }

  /**
    The own enumerable properties of `v`, as `for...in` and `Object.assign` visit
    them: the fields of an object, the indices of an array or of a string (a
    string's entries are its one-character strings), nothing for the others.
   */
  function OwnEntries(v: Value): Record {
    match v
    case Obj(f) => f
    case Arr(e) => seq(|e|, i requires 0 <= i < |e| => (NatToString(i), e[i]))
    case Str(s) => seq(|s|, i requires 0 <= i < |s| => (NatToString(i), Str([s[i]])))
    case _ => []
  }

  /** An entry of an array or object is structurally smaller than its container. */
  lemma EntrySmaller(v: Value, i: nat)
    requires v.Obj? || v.Arr?
    requires i < |OwnEntries(v)|
    ensures OwnEntries(v)[i].1 < v
  {
    if v.Obj? {
      assert v.fields[i] in v.fields;
    } else {
      assert v.elems[i] in v.elems;
    }
  }

  // ---------------------------------------------------------------------------
  // Records

  /** `Object.keys`: the property names of a record, in order. */
  function Keys(r: Record): (ks: seq<string>)
    ensures |ks| == |r|
    ensures forall i :: 0 <= i < |r| ==> ks[i] == r[i].0
  {
    seq(|r|, i requires 0 <= i < |r| => r[i].0)
  }

  predicate NoDupKeys(r: Record) {
    NoDup(Keys(r))
  }

  /** `r[k]`: the value of the property `k`, `undefined` when there is none. */
  function Get(r: Record, k: string): (v: Value)
  {
    if r == [] then Undefined else if r[0].0 == k then r[0].1 else Get(r[1..], k)
  }

  /** `r[k] = v`: an existing property keeps its place, a new one is appended. */
  function Put(r: Record, k: string, v: Value): (r': Record)
  {
    if r == [] then [(k, v)]
    else if r[0].0 == k then [(k, v)] + r[1..]
    else [r[0]] + Put(r[1..], k, v)
  }

  /** Assigning every entry of `es`, left to right, to `r`. */
  function PutAll(r: Record, es: Record): Record
  {
    if es == [] then r else Put(PutAll(r, es[..|es| - 1]), es[|es| - 1].0, es[|es| - 1].1)
  }

  /** The value of the last entry of `es` with key `k`, or `d` when there is none. */
  function GetLast(es: Record, k: string, d: Value): Value
  {
    if es == [] then d
    else if es[|es| - 1].0 == k then es[|es| - 1].1
    else GetLast(es[..|es| - 1], k, d)
  }

  /** `Object.assign({}, v)`: a fresh record with the own enumerable properties of `v`. */
  function Copy(v: Value): Record {
    PutAll([], OwnEntries(v))
  }

  /** `Object.assign({}, target, source)` on two records. */
  function Assign(target: Record, source: Record): Record {
    PutAll(PutAll([], target), source)
  }

  /** Every value of the record is of a non-object type. */
  predicate NoObjectValues(r: Record) {
    forall i :: 0 <= i < |r| ==> !TypeofObject(r[i].1)
  }

  // ---------------------------------------------------------------------------
  // Lemmas about records

  lemma {:induction false} GetAbsent(r: Record, k: string)
    requires k !in Keys(r)
    ensures Get(r, k) == Undefined
  {
    if r != [] {
      assert Keys(r[1..]) == Keys(r)[1..];
      GetAbsent(r[1..], k);
    }
  }

  lemma {:induction false} GetAtIndex(r: Record, i: nat)
    requires NoDupKeys(r) && i < |r|
    ensures Get(r, r[i].0) == r[i].1
  {
    if i > 0 {
      assert Keys(r[1..]) == Keys(r)[1..];
      GetAtIndex(r[1..], i - 1);
    }
  }

  /** `r[k]` reads the first property named `k`. */
  lemma {:induction false} GetFirst(r: Record, k: string)
    requires k in Keys(r)
    ensures Get(r, k) == r[FirstIndex(Keys(r), k)].1
  {
    if r[0].0 != k {
      assert Keys(r[1..]) == Keys(r)[1..];
      GetFirst(r[1..], k);
    }
  }

  /** `r[k] = v` adds `k` to the keys, at the end, when it is new. */
  lemma {:induction false} PutKeys(r: Record, k: string, v: Value)
    ensures Keys(Put(r, k, v)) == AddKey(Keys(r), k)
  {
    if r == [] {
      assert Keys([(k, v)]) == [k];
    } else if r[0].0 == k {
      assert Keys([(k, v)] + r[1..]) == Keys(r);
    } else {
      PutKeys(r[1..], k, v);
      PutKeysCons(r, k, v);
    }
  }

  lemma PutKeysCons(r: Record, k: string, v: Value)
    requires r != [] && r[0].0 != k
    requires Keys(Put(r[1..], k, v)) == AddKey(Keys(r[1..]), k)
    ensures Keys(Put(r, k, v)) == AddKey(Keys(r), k)
  {
    var ks := Keys(r[1..]);
    var t := Put(r[1..], k, v);
    KeysCons(r[0], r[1..]);
    KeysCons(r[0], t);
    assert [r[0]] + r[1..] == r;
    if k in ks {
      assert k in Keys(r);
      assert AddKey(Keys(r), k) == Keys(r);
    } else {
      assert k !in Keys(r);
      assert AddKey(Keys(r), k) == Keys(r) + [k];
      assert [r[0].0] + (ks + [k]) == ([r[0].0] + ks) + [k];
    }
  }

  lemma KeysCons(e: (string, Value), r: Record)
    ensures Keys([e] + r) == [e.0] + Keys(r)
  {
  }

  /** `r[k] = v` with a new key appends the entry. */
  lemma {:induction false} PutAppends(r: Record, k: string, v: Value)
    requires k !in Keys(r)
    ensures Put(r, k, v) == r + [(k, v)]
  {
    if r != [] {
      assert Keys(r[1..]) == Keys(r)[1..];
      PutAppends(r[1..], k, v);
      assert [r[0]] + (r[1..] + [(k, v)]) == r + [(k, v)];
    }
  }

  /** `r[k] = v` changes the value of `k` and of no other key. */
  lemma {:induction false} PutGet(r: Record, k: string, v: Value, j: string)
    ensures Get(Put(r, k, v), j) == if j == k then v else Get(r, j)
  {
    if r != [] && r[0].0 != k {
      PutGet(r[1..], k, v, j);
    }
  }

  lemma PutSpec(r: Record, k: string, v: Value)
    ensures Keys(Put(r, k, v)) == AddKey(Keys(r), k)
    ensures forall j :: Get(Put(r, k, v), j) == if j == k then v else Get(r, j)
  {
    PutKeys(r, k, v);
    forall j ensures Get(Put(r, k, v), j) == if j == k then v else Get(r, j) {
      PutGet(r, k, v, j);
    }
  }

  /** `r[k] = v` on a record without duplicate keys leaves it without duplicate keys. */
  lemma PutNoDup(r: Record, k: string, v: Value)
    requires NoDupKeys(r)
    ensures NoDupKeys(Put(r, k, v))
  {
    PutSpec(r, k, v);
  }

  /** A Put never introduces a value of object type unless it stores one. */
  lemma {:induction false} PutNoObjectValues(r: Record, k: string, v: Value)
    requires NoObjectValues(r) && !TypeofObject(v)
    ensures NoObjectValues(Put(r, k, v))
  {
    if r != [] && r[0].0 != k {
      PutNoObjectValues(r[1..], k, v);
    }
  }

  /** Assigning a run of entries: the keys are the old keys followed by the new ones in first-seen order. */
  lemma {:induction false} PutAllKeys(r: Record, es: Record)
    ensures Keys(PutAll(r, es)) == AddAll(Keys(r), Keys(es))
  {
    if es != [] {
      var p := es[..|es| - 1];
      var e := es[|es| - 1];
      PutAllKeys(r, p);
      PutKeys(PutAll(r, p), e.0, e.1);
      assert Keys(es) == Keys(p) + [e.0];
      AddAllSnoc(Keys(r), Keys(p), e.0);
    }
  }

  lemma {:induction false} PutAllGet(r: Record, es: Record, j: string)
    ensures Get(PutAll(r, es), j) == GetLast(es, j, Get(r, j))
  {
    if es != [] {
      var p := es[..|es| - 1];
      var e := es[|es| - 1];
      PutAllGet(r, p, j);
      PutGet(PutAll(r, p), e.0, e.1, j);
    }
  }

  /**
    Assigning a run of entries: the keys are the old keys followed by the new ones in
    first-seen order, and the last assignment to a key decides its value.
   */
  lemma PutAllSpec(r: Record, es: Record)
    ensures Keys(PutAll(r, es)) == AddAll(Keys(r), Keys(es))
    ensures forall j :: Get(PutAll(r, es), j) == GetLast(es, j, Get(r, j))
    ensures NoDupKeys(r) ==> NoDupKeys(PutAll(r, es))
  {
    PutAllKeys(r, es);
    forall j ensures Get(PutAll(r, es), j) == GetLast(es, j, Get(r, j)) {
      PutAllGet(r, es, j);
    }
    if NoDupKeys(r) {
      AddAllNoDup(Keys(r), Keys(es));
    }
  }

  lemma {:induction false} PutAllNoObjectValues(r: Record, es: Record)
    requires NoObjectValues(r) && NoObjectValues(es)
    ensures NoObjectValues(PutAll(r, es))
  {
    if es != [] {
      PutAllNoObjectValues(r, es[..|es| - 1]);
      PutNoObjectValues(PutAll(r, es[..|es| - 1]), es[|es| - 1].0, es[|es| - 1].1);
    }
  }

  lemma {:induction false} GetLastAbsent(es: Record, k: string, d: Value)
    requires k !in Keys(es)
    ensures GetLast(es, k, d) == d
  {
    if es != [] {
      assert Keys(es[..|es| - 1]) == Keys(es)[..|es| - 1];
      GetLastAbsent(es[..|es| - 1], k, d);
    }
  }

  lemma {:induction false} GetLastDefault(es: Record, k: string, d: Value, d': Value)
    requires k in Keys(es)
    ensures GetLast(es, k, d) == GetLast(es, k, d')
  {
    var p := es[..|es| - 1];
    assert Keys(es) == Keys(p) + [es[|es| - 1].0];
    if es[|es| - 1].0 != k {
      GetLastDefault(p, k, d, d');
    }
  }

  /** In a record without duplicate keys the last entry of a key is its only one. */
  lemma {:induction false} GetLastOfNoDup(es: Record, k: string, d: Value)
    requires NoDupKeys(es)
    ensures GetLast(es, k, d) == if k in Keys(es) then Get(es, k) else d
  {
    if k !in Keys(es) {
      GetLastAbsent(es, k, d);
    } else {
      var i := FirstIndex(Keys(es), k);
      GetAtIndex(es, i);
      if i == |es| - 1 {
      } else {
        var p := es[..|es| - 1];
        assert Keys(p) == Keys(es)[..|es| - 1];
        assert NoDupKeys(p);
        assert k in Keys(p);
        GetLastOfNoDup(p, k, d);
        assert p[i] == es[i];
        GetAtIndex(p, i);
      }
    }
  }

  /** Two records without duplicate keys that agree on keys and on every lookup are equal. */
  lemma RecordExtensionality(x: Record, y: Record)
    requires NoDupKeys(x) && Keys(x) == Keys(y)
    requires forall k :: Get(x, k) == Get(y, k)
    ensures x == y
  {
    assert |x| == |y|;
    forall i | 0 <= i < |x|
      ensures x[i] == y[i]
    {
      assert x[i].0 == Keys(x)[i] == Keys(y)[i] == y[i].0;
      GetAtIndex(x, i);
      GetAtIndex(y, i);
    }
  }

  /** Assigning the entries of a record without duplicate keys to `{}` rebuilds it. */
  lemma PutAllOfNoDup(r: Record)
    requires NoDupKeys(r)
    ensures PutAll([], r) == r
  {
    PutAllSpec([], r);
    AddAllOfNoDup(Keys(r));
    forall k ensures Get(PutAll([], r), k) == Get(r, k) {
      GetLastOfNoDup(r, k, Undefined);
      if k !in Keys(r) {
        GetAbsent(r, k);
      }
    }
    RecordExtensionality(PutAll([], r), r);
  }

  /** A record built from entries without the key `k` has no value for it. */
  lemma PutAllAbsent(es: Record, k: string)
    requires k !in Keys(es)
    ensures Get(PutAll([], es), k) == Undefined
  {
    PutAllKeys([], es);
    AddAllMembers([], Keys(es));
    GetAbsent(PutAll([], es), k);
  }

  /** Assigning the entries of one more entry of `es`. */
  lemma PutAllOfLongerPrefix(r: Record, es: Record, n: nat)
    requires n < |es|
    ensures PutAll(r, es[..n + 1]) == Put(PutAll(r, es[..n]), es[n].0, es[n].1)
  {
    assert es[..n + 1][..n] == es[..n];
  }

  lemma {:induction false} PutAllConcat(r: Record, a: Record, b: Record)
    ensures PutAll(r, a + b) == PutAll(PutAll(r, a), b)
  {
    if b == [] {
      assert a + b == a;
    } else {
      var p := b[..|b| - 1];
      assert (a + b)[..|a + b| - 1] == a + p;
      PutAllConcat(r, a, p);
    }
  }

  /** Assigning the record built from `es` is the same as assigning `es` itself. */
  lemma PutAllOfBuilt(r: Record, es: Record)
    requires NoDupKeys(r)
    ensures PutAll(r, PutAll([], es)) == PutAll(r, es)
  {
    var built := PutAll([], es);
    PutAllSpec([], es);
    PutAllSpec(r, built);
    PutAllSpec(r, es);
    AddAllOfDeduplicated(Keys(r), Keys(es));
    AddAllMembers([], Keys(es));
    forall k ensures Get(PutAll(r, built), k) == Get(PutAll(r, es), k) {
      GetLastOfNoDup(built, k, Get(r, k));
      if k in Keys(es) {
        GetLastDefault(es, k, Undefined, Get(r, k));
      } else {
        GetLastAbsent(es, k, Get(r, k));
      }
    }
    RecordExtensionality(PutAll(r, built), PutAll(r, es));
  }

  /** `Object.assign({}, built(a), built(b))` is the record built from `a` then `b`. */
  lemma AssignBuilt(a: Record, b: Record)
    ensures Assign(PutAll([], a), PutAll([], b)) == PutAll([], a + b)
  {
    PutAllSpec([], a);
    PutAllOfBuilt([], a);
    PutAllOfBuilt(PutAll([], a), b);
    PutAllConcat([], a, b);
  }
}
