/**
 * The order-preserving filter behind Rust's `iter().filter(..).collect()`,
 * with what it promises: which elements survive, in which order, and how
 * many copies of each.
 */
module Seqs {

  /** The elements of `s` for which `keep` holds, in their original order. */
  function Filter<T>(keep: T -> bool, s: seq<T>): (r: seq<T>)
    ensures |r| <= |s|
    ensures forall k :: 0 <= k < |r| ==> keep(r[k])
  {
    if s == [] then [] else (if keep(s[0]) then [s[0]] else []) + Filter(keep, s[1..])
  }

  /** Filtering distributes over concatenation: kept elements never change order. */
  lemma {:induction false} FilterConcat<T>(keep: T -> bool, a: seq<T>, b: seq<T>)
    ensures Filter(keep, a + b) == Filter(keep, a) + Filter(keep, b)
  {
    if a == [] {
      assert a + b == b;
    } else {
      assert (a + b)[1..] == a[1..] + b;
      FilterConcat(keep, a[1..], b);
    }
  }

  /** Each value is kept as often as it occurs, when it passes, and never otherwise. */
  lemma {:induction false} FilterCount<T>(keep: T -> bool, s: seq<T>, x: T)
    ensures multiset(Filter(keep, s))[x] == if keep(x) then multiset(s)[x] else 0
  {
    if s != [] {
      FilterCount(keep, s[1..], x);
      assert s == [s[0]] + s[1..];
    }
  }

  /** A sequence every element of which passes is left as it is. */
  lemma {:induction false} FilterAllKept<T>(keep: T -> bool, s: seq<T>)
    requires forall k :: 0 <= k < |s| ==> keep(s[k])
    ensures Filter(keep, s) == s
  {
    if s != [] {
      FilterAllKept(keep, s[1..]);
    }
  }

  /** Filtering twice with the same test is filtering once. */
  lemma FilterIdempotent<T>(keep: T -> bool, s: seq<T>)
    ensures Filter(keep, Filter(keep, s)) == Filter(keep, s)
  {
    FilterAllKept(keep, Filter(keep, s));
  }

  /** `r` is the subsequence of `s` at the strictly increasing positions `idx`. */
  ghost predicate At<T>(idx: seq<nat>, s: seq<T>, r: seq<T>) {
    && |idx| == |r|
    && (forall k :: 0 <= k < |idx| ==> idx[k] < |s| && r[k] == s[idx[k]])
    && Increasing(idx)
  }

  /** Every position moved one place to the right. */
  function Shift(idx: seq<nat>): (r: seq<nat>)
    ensures |r| == |idx|
    ensures forall k :: 0 <= k < |idx| ==> r[k] == idx[k] + 1
  {
    seq(|idx|, k requires 0 <= k < |idx| => idx[k] + 1)
  }

  /** The positions of `s` whose elements pass `keep`, in increasing order. */
  ghost function KeptPositions<T>(keep: T -> bool, s: seq<T>): seq<nat>
  {
    if s == [] then []
    else (if keep(s[0]) then [0] else []) + Shift(KeptPositions(keep, s[1..]))
  }

  /** Positions strictly increase. */
  ghost predicate Increasing(idx: seq<nat>) {
    forall j, k :: 0 <= j < k < |idx| ==> idx[j] < idx[k]
  }

  /** The kept positions increase and pick out exactly the filter's result. */
  lemma KeptPositionsAt<T>(keep: T -> bool, s: seq<T>)
    ensures At(KeptPositions(keep, s), s, Filter(keep, s))
  {
    KeptPositionsPick(keep, s);
    KeptPositionsIncreasing(keep, s);
  }

  lemma {:induction false} KeptPositionsPick<T>(keep: T -> bool, s: seq<T>)
    ensures |KeptPositions(keep, s)| == |Filter(keep, s)|
    ensures forall k :: 0 <= k < |KeptPositions(keep, s)| ==>
      KeptPositions(keep, s)[k] < |s| && Filter(keep, s)[k] == s[KeptPositions(keep, s)[k]]
  {
    if s != [] {
      KeptPositionsPick(keep, s[1..]);
      var rest := KeptPositions(keep, s[1..]);
      var tail := Filter(keep, s[1..]);
      var h := if keep(s[0]) then 1 else 0;
      var idx := KeptPositions(keep, s);
      var r := Filter(keep, s);
      assert |idx| == h + |rest|;
      forall k | 0 <= k < |idx|
        ensures idx[k] < |s| && r[k] == s[idx[k]]
      {
        if k >= h {
          assert idx[k] == rest[k - h] + 1;
          assert r[k] == tail[k - h];
          assert tail[k - h] == s[1..][rest[k - h]];
        }
      }
    }
  }

  lemma {:induction false} KeptPositionsIncreasing<T>(keep: T -> bool, s: seq<T>)
    ensures Increasing(KeptPositions(keep, s))
  {
    if s != [] {
      KeptPositionsIncreasing(keep, s[1..]);
      var rest := KeptPositions(keep, s[1..]);
      var h := if keep(s[0]) then 1 else 0;
      var idx := KeptPositions(keep, s);
      assert |idx| == h + |rest|;
      forall j, k | 0 <= j < k < |idx|
        ensures idx[j] < idx[k]
      {
        assert idx[k] == rest[k - h] + 1;
        if j >= h {
          assert idx[j] == rest[j - h] + 1;
        }
      }
    }
  }

  /** A position is kept exactly when its element passes. */
  lemma {:induction false} KeptPositionsMembers<T>(keep: T -> bool, s: seq<T>)
    ensures forall i :: 0 <= i < |s| ==> (keep(s[i]) <==> i in KeptPositions(keep, s))
  {
    if s != [] {
      KeptPositionsMembers(keep, s[1..]);
      var rest := KeptPositions(keep, s[1..]);
      var h := if keep(s[0]) then 1 else 0;
      var idx := KeptPositions(keep, s);
      assert |idx| == h + |rest|;
      assert forall k :: h <= k < |idx| ==> idx[k] == rest[k - h] + 1;
      assert forall k :: 0 <= k < h ==> idx[k] == 0;
      forall i | 0 <= i < |s|
        ensures keep(s[i]) <==> i in idx
      {
        if i > 0 {
          assert s[i] == s[1..][i - 1];
          if i - 1 in rest {
            var k :| 0 <= k < |rest| && rest[k] == i - 1;
            assert idx[h + k] == i;
          }
          if i in idx {
            var k :| 0 <= k < |idx| && idx[k] == i;
            assert rest[k - h] == i - 1;
          }
        }
      }
    }
  }

  /**
   * The filter's result is exactly the subsequence of `s` taken at the
   * positions whose elements pass, in order.
   */
  lemma FilterIsSubsequence<T>(keep: T -> bool, s: seq<T>)
    ensures exists idx: seq<nat> ::
      && At(idx, s, Filter(keep, s))
      && (forall i :: 0 <= i < |s| ==> (keep(s[i]) <==> i in idx))
  {
    KeptPositionsAt(keep, s);
    KeptPositionsMembers(keep, s);
  }
}
