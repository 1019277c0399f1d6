/**
 The two iterator adapters of a `lines().filter(..).map(..).collect()`
 pipeline, as functions on sequences, with what they keep and in which order.
 */
module Seqs {

  /** `Iterator::filter`: the elements of `s` that satisfy `keep`, in order. */
  function Filter<T>(s: seq<T>, keep: T -> bool): (r: seq<T>)
    ensures |r| <= |s|
    ensures forall k :: 0 <= k < |r| ==> r[k] in s && keep(r[k])
  {
    if s == [] then []
    else (if keep(s[0]) then [s[0]] else []) + Filter(s[1..], keep)
  }

  /** `Iterator::map`: `f` applied to each element of `s`, in order. */
  function Map<T, U>(f: T -> U, s: seq<T>): (r: seq<U>)
    ensures |r| == |s|
    ensures forall k :: 0 <= k < |s| ==> r[k] == f(s[k])
  {
    if s == [] then [] else [f(s[0])] + Map(f, s[1..])
  }

  /** `Map` over one or two elements, for concrete results. */
  lemma MapPair<T, U>(f: T -> U, a: T, b: T)
    ensures Map(f, [a]) == [f(a)]
    ensures Map(f, [a, b]) == [f(a), f(b)]
  {
    assert [a, b][1..] == [b];
  }

  predicate StrictlyIncreasing(idx: seq<nat>) {
    forall a, b :: 0 <= a < b < |idx| ==> idx[a] < idx[b]
  }

  /** `a` is `b` with some elements dropped and none reordered. */
  predicate SubsequenceOf<T(==)>(a: seq<T>, b: seq<T>)
    decreases |b|
  {
    if a == [] then true
    else if b == [] then false
    else if a[0] == b[0] then SubsequenceOf(a[1..], b[1..])
    else SubsequenceOf(a, b[1..])
  }

  /** Every position moved one place to the right. */
  function Shift(idx: seq<nat>): (r: seq<nat>)
    ensures |r| == |idx|
    ensures forall k :: 0 <= k < |idx| ==> r[k] == idx[k] + 1
  {
    seq(|idx|, k requires 0 <= k < |idx| => idx[k] + 1)
  }

  lemma ShiftMembership(idx: seq<nat>, i: nat)
    ensures (i in Shift(idx)) <==> (i > 0 && i - 1 in idx)
  {
    if i > 0 && i - 1 in idx {
      var k :| 0 <= k < |idx| && idx[k] == i - 1;
      assert Shift(idx)[k] == i;
    }
  }

  /** Shifted increasing positions stay increasing, also behind a leading `0`. */
  lemma ShiftIncreasing(head: seq<nat>, idx: seq<nat>)
    requires head == [] || head == [0]
    requires StrictlyIncreasing(idx)
    ensures StrictlyIncreasing(head + Shift(idx))
  {
    var r := head + Shift(idx);
    forall a, b | 0 <= a < b < |r| ensures r[a] < r[b] {
      assert r[b] == idx[b - |head|] + 1;
      if a >= |head| {
        assert r[a] == idx[a - |head|] + 1;
      }
    }
  }

  /**
   What `Filter` returns, stated through positions: the result lists exactly
   the elements of `s` at the positions `idx`, in increasing order, and a
   position is in `idx` exactly when `keep` holds of its element.
   */
  lemma {:induction false} FilterPositions<T>(s: seq<T>, keep: T -> bool) returns (idx: seq<nat>)
    ensures |idx| == |Filter(s, keep)|
    ensures StrictlyIncreasing(idx)
    ensures forall k :: 0 <= k < |idx| ==> idx[k] < |s| && Filter(s, keep)[k] == s[idx[k]]
    ensures forall i :: 0 <= i < |s| ==> (keep(s[i]) <==> i in idx)
  {
    if s == [] {
      idx := [];
    } else {
      var tail := FilterPositions(s[1..], keep);
      var head := if keep(s[0]) then [0] else [];
      idx := head + Shift(tail);
      ShiftIncreasing(head, tail);
      ConsElements(s, keep, head, tail);
      ConsMembership(s, keep, head, tail);
    }
  }

  /** The positions of a filter's results, one step of the recursion in `FilterPositions`. */
  lemma ConsElements<T>(s: seq<T>, keep: T -> bool, head: seq<nat>, tail: seq<nat>)
    requires s != [] && head == (if keep(s[0]) then [0] else [])
    requires |tail| == |Filter(s[1..], keep)|
    requires forall k :: 0 <= k < |tail| ==> tail[k] < |s[1..]| && Filter(s[1..], keep)[k] == s[1..][tail[k]]
    ensures |head + Shift(tail)| == |Filter(s, keep)|
    ensures forall k :: 0 <= k < |head + Shift(tail)| ==>
              (head + Shift(tail))[k] < |s| && Filter(s, keep)[k] == s[(head + Shift(tail))[k]]
  {
    var idx := head + Shift(tail);
    var rest := Filter(s[1..], keep);
    assert Filter(s, keep) == (if keep(s[0]) then [s[0]] else []) + rest;
    forall k | 0 <= k < |idx| ensures idx[k] < |s| && Filter(s, keep)[k] == s[idx[k]] {
      if k >= |head| {
        assert idx[k] == tail[k - |head|] + 1;
        assert Filter(s, keep)[k] == rest[k - |head|];
      }
    }
  }

  /** Which positions a filter keeps, one step of the recursion in `FilterPositions`. */
  lemma ConsMembership<T>(s: seq<T>, keep: T -> bool, head: seq<nat>, tail: seq<nat>)
    requires s != [] && head == (if keep(s[0]) then [0] else [])
    requires forall i :: 0 <= i < |s[1..]| ==> (keep(s[1..][i]) <==> i in tail)
    ensures forall i :: 0 <= i < |s| ==> (keep(s[i]) <==> i in head + Shift(tail))
  {
    forall i | 0 <= i < |s| ensures keep(s[i]) <==> i in head + Shift(tail) {
      ShiftMembership(tail, i);
      if i > 0 {
        assert s[i] == s[1..][i - 1];
      }
    }
  }

  /** When every element is kept, filtering changes nothing. */
  lemma {:induction false} FilterAll<T>(s: seq<T>, keep: T -> bool)
    requires forall k :: 0 <= k < |s| ==> keep(s[k])
    ensures Filter(s, keep) == s
  {
    if s != [] {
      assert keep(s[0]);
      FilterAll(s[1..], keep);
    }
  }

  /** A weaker test keeps at least what a stronger one keeps, in the same order. */
  lemma {:induction false} FilterWeaker<T>(s: seq<T>, strong: T -> bool, weak: T -> bool)
    requires forall k :: 0 <= k < |s| ==> strong(s[k]) ==> weak(s[k])
    ensures SubsequenceOf(Filter(s, strong), Filter(s, weak))
  {
    if s != [] {
      FilterWeaker(s[1..], strong, weak);
      var a, b := Filter(s[1..], strong), Filter(s[1..], weak);
      if strong(s[0]) {
        assert Filter(s, strong) == [s[0]] + a;
        assert Filter(s, weak) == [s[0]] + b;
      } else if weak(s[0]) {
        assert Filter(s, strong) == a;
        assert Filter(s, weak) == [s[0]] + b;
        SubsequenceOfCons(a, b, s[0]);
      } else {
        assert Filter(s, strong) == a;
        assert Filter(s, weak) == b;
      }
    }
  }

  /** Putting an element in front of the longer sequence keeps it a supersequence. */
  lemma {:induction false} SubsequenceOfCons<T>(a: seq<T>, b: seq<T>, x: T)
    requires SubsequenceOf(a, b)
    ensures SubsequenceOf(a, [x] + b)
    decreases |b|, 1
  {
    assert ([x] + b)[1..] == b;
    if a != [] && a[0] == x {
      SubsequenceDropFirst(a, b);
    }
  }

  /** A subsequence with its first element removed is still a subsequence. */
  lemma {:induction false} SubsequenceDropFirst<T>(a: seq<T>, b: seq<T>)
    requires a != [] && SubsequenceOf(a, b)
    ensures SubsequenceOf(a[1..], b)
    decreases |b|, 0
  {
    assert [b[0]] + b[1..] == b;
    if a[0] != b[0] {
      SubsequenceDropFirst(a, b[1..]);
    }
    SubsequenceOfCons(a[1..], b[1..], b[0]);
  }

  /** Mapping both sides preserves being a subsequence. */
  lemma {:induction false} MapSubsequence<T, U>(f: T -> U, a: seq<T>, b: seq<T>)
    requires SubsequenceOf(a, b)
    ensures SubsequenceOf(Map(f, a), Map(f, b))
    decreases |b|
  {
    if a != [] {
      var ma, mb := Map(f, a), Map(f, b);
      assert ma[1..] == Map(f, a[1..]) && mb[1..] == Map(f, b[1..]);
      if a[0] == b[0] {
        MapSubsequence(f, a[1..], b[1..]);
      } else {
        MapSubsequence(f, a, b[1..]);
        SubsequenceOfCons(ma, mb[1..], mb[0]);
        assert [mb[0]] + mb[1..] == mb;
      }
    }
  }

  /** A subsequence is no longer than the sequence it is drawn from. */
  lemma {:induction false} SubsequenceLength<T>(a: seq<T>, b: seq<T>)
    requires SubsequenceOf(a, b)
    ensures |a| <= |b|
    decreases |b|
  {
    if a != [] {
      if a[0] == b[0] {
        SubsequenceLength(a[1..], b[1..]);
      } else {
        SubsequenceLength(a, b[1..]);
      }
    }
  }
}
