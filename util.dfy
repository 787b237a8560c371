/**
 * Small generic helpers shared by the chess and puzzle modules: an optional value,
 * duplicate-free sequences, first-occurrence search and first-seen deduplication.
 */
module Util {

  /** A value that may be missing; stands for TypeScript's `T | null` and `T | undefined`. */
  datatype Option<T> = None | Some(value: T) {
    /** `x ?? default` */
    function GetOr(default: T): T {
      if Some? then value else default
    }
  }

  /** Math.abs on integers. */
  function Abs(x: int): (r: nat)
    ensures r == x || r == -x
  {
    if x < 0 then -x else x
  }

  /** Concatenation is associative. */
  lemma AppendAssoc<T>(a: seq<T>, b: seq<T>, c: seq<T>)
    ensures (a + b) + c == a + (b + c)
  {
  }

  /** No element occurs twice. */
  predicate NoDuplicates<T(==)>(s: seq<T>) {
    forall i, j :: 0 <= i < j < |s| ==> s[i] != s[j]
  }

  /** Index of the first occurrence of x, or -1 (Array.prototype.findIndex / indexOf). */
  function IndexOf<T(==)>(s: seq<T>, x: T): (i: int)
    ensures -1 <= i < |s|
    ensures i == -1 <==> x !in s
    ensures 0 <= i ==> s[i] == x && x !in s[..i]
  {
    if s == [] then -1
    else if s[0] == x then 0
    else
      var k := IndexOf(s[1..], x);
      assert s[1..][..if k < 0 then 0 else k] == s[1..1 + (if k < 0 then 0 else k)];
      if k == -1 then -1 else k + 1
  }

  /** The sequence without the element at index i (Array.prototype.splice(i, 1)). */
  function RemoveAt<T>(s: seq<T>, i: nat): (r: seq<T>)
    requires i < |s|
    ensures |r| == |s| - 1
    ensures forall k :: 0 <= k < i ==> r[k] == s[k]
    ensures forall k :: i <= k < |r| ==> r[k] == s[k + 1]
  {
    s[..i] + s[i + 1..]
  }

  /**
   * Keeps the first occurrence of every element, in first-seen order. This is what both the
   * `find`-guarded push in EdgeMatcher.checkFit and the Map-based dedupe in
   * MoveValidator.getPossiblePositions compute.
   */
  function Dedupe<T(==)>(s: seq<T>): seq<T>
    decreases |s|
  {
    if s == [] then []
    else
      var d := Dedupe(s[..|s| - 1]);
      if s[|s| - 1] in d then d else d + [s[|s| - 1]]
  }

  /** Dedupe leaves no repetition, keeps every element and drops nothing else. */
  lemma {:induction false} DedupeSpec<T>(s: seq<T>)
    ensures NoDuplicates(Dedupe(s))
    ensures forall x :: x in Dedupe(s) <==> x in s
    ensures |Dedupe(s)| <= |s|
    decreases |s|
  {
    if s != [] {
      var p, last := s[..|s| - 1], s[|s| - 1];
      assert s == p + [last];
      DedupeSpec(p);
    }
  }

  /** Dedupe of a sequence with one more element at the end. */
  lemma DedupeSnoc<T(!new)>(s: seq<T>, x: T)
    ensures Dedupe(s + [x]) == if x in Dedupe(s) then Dedupe(s) else Dedupe(s) + [x]
  {
    assert (s + [x])[..|s + [x]| - 1] == s;
  }

  /** The elements of Dedupe(s) appear in the order of their first occurrence in s. */
  lemma {:induction false} DedupeFirstSeenOrder<T(!new)>(s: seq<T>, i: nat, j: nat)
    requires i < j < |Dedupe(s)|
    ensures IndexOf(s, Dedupe(s)[i]) < IndexOf(s, Dedupe(s)[j])
    decreases |s|
  {
    var p := s[..|s| - 1];
    var last := s[|s| - 1];
    assert s == p + [last];
    var d := Dedupe(p);
    DedupeSpec(p);
    IndexOfPrefix(p, last, Dedupe(s)[i]);
    IndexOfPrefix(p, last, Dedupe(s)[j]);
    if last in d {
      DedupeFirstSeenOrder(p, i, j);
    } else if j < |d| {
      DedupeFirstSeenOrder(p, i, j);
    } else {
      assert Dedupe(s)[j] == last;
      assert Dedupe(s)[i] == d[i] && d[i] in p;
    }
  }

  /** IndexOf on a sequence extended at the end agrees with IndexOf on the prefix for old elements. */
  lemma IndexOfPrefix<T>(p: seq<T>, last: T, x: T)
    ensures x in p ==> IndexOf(p + [last], x) == IndexOf(p, x)
    ensures x !in p && x == last ==> IndexOf(p + [last], x) == |p|
  {
    var s := p + [last];
    var k := IndexOf(s, x);
    if x in p {
      var kp := IndexOf(p, x);
      assert s[kp] == x && s[..kp] == p[..kp];
      assert k <= kp;
      assert k < |p| && p[..k] == s[..k];
    } else if x == last {
      assert s[|p|] == x && s[..|p|] == p;
    }
  }

  /** The concatenation of a sequence of sequences, in order. */
  function Flatten<T>(ss: seq<seq<T>>): seq<T> {
    if ss == [] then [] else Flatten(ss[..|ss| - 1]) + ss[|ss| - 1]
  }

  lemma FlattenSnoc<T>(ss: seq<seq<T>>, s: seq<T>)
    ensures Flatten(ss + [s]) == Flatten(ss) + s
  {
    assert (ss + [s])[..|ss|] == ss;
  }

  /** An element is in the concatenation iff it is in one of the parts. */
  lemma {:induction false} FlattenMember<T>(ss: seq<seq<T>>, x: T)
    ensures x in Flatten(ss) <==> exists i :: 0 <= i < |ss| && x in ss[i]
  {
    if ss != [] {
      var init := ss[..|ss| - 1];
      FlattenMember(init, x);
      if x in Flatten(init) {
        var i :| 0 <= i < |init| && x in init[i];
        assert x in ss[i];
      }
      if exists i :: 0 <= i < |ss| && x in ss[i] {
        var i :| 0 <= i < |ss| && x in ss[i];
        if i < |init| {
          assert x in init[i];
        }
      }
    }
  }

  /** The count of an element in a concatenation is the sum of its counts. */
  lemma CountAppend<T>(a: seq<T>, b: seq<T>, x: T)
    ensures multiset(a + b)[x] == multiset(a)[x] + multiset(b)[x]
  {
  }

  /** Replacing one part changes the count of each element by its change in that part. */
  lemma {:induction false} FlattenUpdate<T>(ss: seq<seq<T>>, i: nat, s: seq<T>, x: T)
    requires i < |ss|
    ensures multiset(Flatten(ss[i := s]))[x] + multiset(ss[i])[x] == multiset(Flatten(ss))[x] + multiset(s)[x]
  {
    var n := |ss| - 1;
    var tt := ss[i := s];
    var init, init' := ss[..n], tt[..n];
    CountAppend(Flatten(init), ss[n], x);
    CountAppend(Flatten(init'), tt[n], x);
    if i == n {
      assert init' == init;
    } else {
      assert init' == init[i := s];
      FlattenUpdate(init, i, s, x);
    }
  }
}
