/**
  Insertion-ordered sets of keys, as a JavaScript `Set` of strings behaves:
  `add` appends a key the set does not hold yet and ignores one it holds, and
  iteration (here: the sequence itself) follows insertion order.
 */
module KeySets {

  /** No key occurs twice. */
  predicate NoDup(s: seq<string>) {
    forall i, j :: 0 <= i < j < |s| ==> s[i] != s[j]
  }

  /** `set.add(k)` on a set whose contents, in insertion order, are `ks`. */
  function AddKey(ks: seq<string>, k: string): (r: seq<string>)
    ensures k in r
    ensures forall x :: x in r <==> x in ks || x == k
    ensures NoDup(ks) ==> NoDup(r)
  {
    if k in ks then ks else ks + [k]
  }

  /** Adding every key of `s`, left to right, to a set holding `acc`. */
  function AddAll(acc: seq<string>, s: seq<string>): seq<string>
  {
    if s == [] then acc else AddKey(AddAll(acc, s[..|s| - 1]), s[|s| - 1])
  }

  /** Position of the first occurrence of `x` in `s`. */
  function FirstIndex(s: seq<string>, x: string): (i: nat)
    requires x in s
    ensures i < |s| && s[i] == x
    ensures forall j :: 0 <= j < i ==> s[j] != x
  {
    if s[0] == x then 0 else 1 + FirstIndex(s[1..], x)
  }

  lemma FirstIndexUnique(s: seq<string>, x: string, i: nat)
    requires i < |s| && s[i] == x
    requires forall j :: 0 <= j < i ==> s[j] != x
    ensures FirstIndex(s, x) == i
  {
  }

  /** The last step of `AddAll` on a sequence that ends in `x`. */
  lemma AddAllSnoc(acc: seq<string>, s: seq<string>, x: string)
    ensures AddAll(acc, s + [x]) == AddKey(AddAll(acc, s), x)
  {
    assert (s + [x])[..|s|] == s;
  }

  /** The keys held after adding `s` are those held before and those of `s`. */
  lemma {:induction false} AddAllMembers(acc: seq<string>, s: seq<string>)
    ensures forall x :: x in AddAll(acc, s) <==> x in acc || x in s
  {
    if s != [] {
      var p := s[..|s| - 1];
      AddAllMembers(acc, p);
      assert s == p + [s[|s| - 1]];
    }
  }

  /** Adding keys never duplicates one. */
  lemma {:induction false} AddAllNoDup(acc: seq<string>, s: seq<string>)
    requires NoDup(acc)
    ensures NoDup(AddAll(acc, s))
  {
    if s != [] {
      AddAllNoDup(acc, s[..|s| - 1]);
    }
  }

  /** What the set held is kept, at the front and in its order. */
  lemma {:induction false} AddAllPrefix(acc: seq<string>, s: seq<string>)
    ensures |acc| <= |AddAll(acc, s)| && AddAll(acc, s)[..|acc|] == acc
  {
    if s != [] {
      AddAllPrefix(acc, s[..|s| - 1]);
    }
  }

  /** Adding two runs of keys one after the other is adding their concatenation. */
  lemma {:induction false} AddAllConcat(acc: seq<string>, a: seq<string>, b: seq<string>)
    ensures AddAll(acc, a + b) == AddAll(AddAll(acc, a), b)
  {
    if b == [] {
      assert a + b == a;
    } else {
      var p := b[..|b| - 1];
      var x := b[|b| - 1];
      assert b == p + [x];
      assert a + b == (a + p) + [x];
      AddAllSnoc(acc, a + p, x);
      AddAllConcat(acc, a, p);
    }
  }

  /** Adding the deduplicated form of `b` is the same as adding `b` itself. */
  lemma {:induction false} AddAllOfDeduplicated(acc: seq<string>, b: seq<string>)
    ensures AddAll(acc, AddAll([], b)) == AddAll(acc, b)
  {
    if b != [] {
      var p := b[..|b| - 1];
      var x := b[|b| - 1];
      AddAllOfDeduplicated(acc, p);
      AddAllMembers([], p);
      AddAllMembers(acc, p);
      var d := AddAll([], p);
      if x !in d {
        AddAllSnoc(acc, d, x);
      }
    }
  }

  /** A sequence without duplicates deduplicates to itself. */
  lemma {:induction false} AddAllOfNoDup(s: seq<string>)
    requires NoDup(s)
    ensures AddAll([], s) == s
  {
    if s != [] {
      var p := s[..|s| - 1];
      AddAllOfNoDup(p);
      assert s[|s| - 1] !in p;
      assert p + [s[|s| - 1]] == s;
    }
  }

  /**
    Deduplication keeps first-seen order: of two keys of the result, the earlier one
    occurs first in the input.
   */
  lemma {:induction false} AddAllFirstSeenOrder(s: seq<string>)
    ensures forall x :: x in AddAll([], s) ==> x in s
    ensures forall i, j :: 0 <= i < j < |AddAll([], s)| ==>
      FirstIndex(s, AddAll([], s)[i]) < FirstIndex(s, AddAll([], s)[j])
  {
    AddAllMembers([], s);
    if s != [] {
      var p := s[..|s| - 1];
      var x := s[|s| - 1];
      var d := AddAll([], p);
      assert s == p + [x];
      AddAllFirstSeenOrder(p);
      AddAllMembers([], p);
      forall y | y in p
        ensures FirstIndex(s, y) == FirstIndex(p, y)
      {
        FirstIndexUnique(s, y, FirstIndex(p, y));
      }
      if x !in d {
        FirstIndexUnique(s, x, |p|);
      }
    }
  }
}
