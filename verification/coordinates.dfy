/**
 * The records a tensor buffers before packing, the coordinate comparison
 * `lexicographicalCmp` of src/tensor.cpp, the permutation of a record's
 * coordinates by a mode ordering, and the sort `pack` asks `qsort` for.
 */
module Coordinates {
  import opened StorageModel

  /** One buffered insertion: `order` coordinates followed by the component's bytes. */
  datatype Record = Record(coords: seq<int>, value: Value)

  /**
   * `lexicographicalCmp` from position `i` on: the difference of the first
   * pair of coordinates below `n` that differ, or 0 when none do. The
   * subtraction is exact here (it cannot overflow).
   */
  function LexCmpFrom(a: seq<int>, b: seq<int>, i: nat, n: nat): (r: int)
    requires i <= n <= |a| && n <= |b|
    ensures r == 0 || exists k :: i <= k < n && r == a[k] - b[k] && forall j :: i <= j < k ==> a[j] == b[j]
    decreases n - i
  {
    if i == n then 0
    else if a[i] - b[i] != 0 then a[i] - b[i]
    else LexCmpFrom(a, b, i + 1, n)
  }

  /** `lexicographicalCmp(a, b)` with `numIntegersToCompare == n`. */
  function LexCmp(a: seq<int>, b: seq<int>, n: nat): (r: int)
    requires n <= |a| && n <= |b|
    ensures r == 0 || exists k :: 0 <= k < n && r == a[k] - b[k] && a[..k] == b[..k]
  {
    LexCmpFrom(a, b, 0, n)
  }

  /** `a` sorts no later than `b` on their first `n` coordinates. */
  predicate LexLeq(a: seq<int>, b: seq<int>, n: nat)
    requires n <= |a| && n <= |b|
  {
    LexCmp(a, b, n) <= 0
  }

  lemma {:induction false} LexCmpFromZero(a: seq<int>, b: seq<int>, i: nat, n: nat)
    requires i <= n <= |a| && n <= |b|
    ensures LexCmpFrom(a, b, i, n) == 0 <==> a[i..n] == b[i..n]
    decreases n - i
  {
    if i < n {
      LexCmpFromZero(a, b, i + 1, n);
      assert a[i..n] == [a[i]] + a[i + 1..n];
      assert b[i..n] == [b[i]] + b[i + 1..n];
    }
  }

  /** The comparison is zero exactly when the first `n` coordinates agree. */
  lemma LexCmpZero(a: seq<int>, b: seq<int>, n: nat)
    requires n <= |a| && n <= |b|
    ensures LexCmp(a, b, n) == 0 <==> a[..n] == b[..n]
  {
    LexCmpFromZero(a, b, 0, n);
    assert a[..n] == a[0..n];
    assert b[..n] == b[0..n];
  }

  lemma {:induction false} LexCmpFromAntisymmetric(a: seq<int>, b: seq<int>, i: nat, n: nat)
    requires i <= n <= |a| && n <= |b|
    ensures LexCmpFrom(b, a, i, n) == -LexCmpFrom(a, b, i, n)
    decreases n - i
  {
    if i < n && a[i] == b[i] {
      LexCmpFromAntisymmetric(a, b, i + 1, n);
    }
  }

  /** Swapping the arguments negates the comparison, so any two coordinates are ordered one way or the other. */
  lemma LexCmpAntisymmetric(a: seq<int>, b: seq<int>, n: nat)
    requires n <= |a| && n <= |b|
    ensures LexCmp(b, a, n) == -LexCmp(a, b, n)
    ensures LexLeq(a, b, n) || LexLeq(b, a, n)
  {
    LexCmpFromAntisymmetric(a, b, 0, n);
  }

  lemma {:induction false} LexCmpFromTransitive(a: seq<int>, b: seq<int>, c: seq<int>, i: nat, n: nat)
    requires i <= n <= |a| && n <= |b| && n <= |c|
    requires LexCmpFrom(a, b, i, n) <= 0 && LexCmpFrom(b, c, i, n) <= 0
    ensures LexCmpFrom(a, c, i, n) <= 0
    decreases n - i
  {
    if i < n && a[i] == b[i] && b[i] == c[i] {
      LexCmpFromTransitive(a, b, c, i + 1, n);
    }
  }

  /** The order the comparison induces is transitive. */
  lemma LexLeqTransitive(a: seq<int>, b: seq<int>, c: seq<int>, n: nat)
    requires n <= |a| && n <= |b| && n <= |c|
    requires LexLeq(a, b, n) && LexLeq(b, c, n)
    ensures LexLeq(a, c, n)
  {
    LexCmpFromTransitive(a, b, c, 0, n);
  }

  /** Every record carries at least `n` coordinates. */
  predicate Wide(rs: seq<Record>, n: nat) {
    forall k :: 0 <= k < |rs| ==> |rs[k].coords| >= n
  }

  /** The records are in non-decreasing lexicographic order of their first `n` coordinates. */
  ghost predicate SortedBy(rs: seq<Record>, n: nat)
    requires Wide(rs, n)
  {
    forall i, j :: 0 <= i < j < |rs| ==> LexLeq(rs[i].coords, rs[j].coords, n)
  }

  /** Insert one record into a sorted run, before the first record it does not sort after. */
  function InsertSorted(x: Record, s: seq<Record>, n: nat): (r: seq<Record>)
    requires |x.coords| >= n && Wide(s, n)
    ensures |r| == |s| + 1 && multiset(r) == multiset(s) + multiset{x} && Wide(r, n)
  {
    if s == [] then [x]
    else if LexLeq(x.coords, s[0].coords, n) then [x] + s
    else
      assert s == [s[0]] + s[1..];
      [s[0]] + InsertSorted(x, s[1..], n)
  }

  lemma {:induction false} InsertSortedKeepsOrder(x: Record, s: seq<Record>, n: nat)
    requires |x.coords| >= n && Wide(s, n) && SortedBy(s, n)
    ensures SortedBy(InsertSorted(x, s, n), n)
  {
    if s == [] {
    } else if LexLeq(x.coords, s[0].coords, n) {
      forall j | 0 <= j < |s| ensures LexLeq(x.coords, s[j].coords, n) {
        if j > 0 { LexLeqTransitive(x.coords, s[0].coords, s[j].coords, n); }
      }
      SortedCons(x, s, n);
    } else {
      var tail := InsertSorted(x, s[1..], n);
      InsertSortedKeepsOrder(x, s[1..], n);
      LexCmpAntisymmetric(x.coords, s[0].coords, n);
      HeadBelowInsertion(x, s, n);
      SortedCons(s[0], tail, n);
    }
  }

  /** A record no greater than any in a sorted run can go in front of it. */
  lemma SortedCons(h: Record, t: seq<Record>, n: nat)
    requires |h.coords| >= n && Wide(t, n) && SortedBy(t, n)
    requires forall j :: 0 <= j < |t| ==> LexLeq(h.coords, t[j].coords, n)
    ensures Wide([h] + t, n) && SortedBy([h] + t, n)
  {
    var r := [h] + t;
    forall i, j | 0 <= i < j < |r| ensures LexLeq(r[i].coords, r[j].coords, n) {
      assert r[j] == t[j - 1];
      if i == 0 {
        assert LexLeq(h.coords, t[j - 1].coords, n);
      } else {
        assert r[i] == t[i - 1];
        assert LexLeq(t[i - 1].coords, t[j - 1].coords, n);
      }
    }
  }

  /** The head of a sorted run is below every record once another record it is below is inserted into the rest. */
  lemma HeadBelowInsertion(x: Record, s: seq<Record>, n: nat)
    requires |x.coords| >= n && Wide(s, n) && SortedBy(s, n) && |s| > 0
    requires LexLeq(s[0].coords, x.coords, n)
    ensures forall j :: 0 <= j < |InsertSorted(x, s[1..], n)| ==> LexLeq(s[0].coords, InsertSorted(x, s[1..], n)[j].coords, n)
  {
    var tail := InsertSorted(x, s[1..], n);
    forall j | 0 <= j < |tail| ensures LexLeq(s[0].coords, tail[j].coords, n) {
      assert tail[j] in multiset(tail);
      if tail[j] != x {
        assert tail[j] in multiset(s[1..]);
        var k :| 0 <= k < |s[1..]| && s[1..][k] == tail[j];
        assert s[k + 1] == tail[j];
      }
    }
  }

  /**
   * The sort `pack` asks `qsort` for: the records in lexicographic order of
   * their first `n` coordinates. Which of two equal records comes first is
   * not specified; this insertion sort is one of the allowed outcomes.
   */
  function SortRecords(s: seq<Record>, n: nat): (r: seq<Record>)
    requires Wide(s, n)
    ensures |r| == |s| && multiset(r) == multiset(s) && Wide(r, n)
  {
    if s == [] then []
    else
      assert s == [s[0]] + s[1..];
      InsertSorted(s[0], SortRecords(s[1..], n), n)
  }

  /** The sort's result is ordered. */
  lemma {:induction false} SortRecordsSorted(s: seq<Record>, n: nat)
    requires Wide(s, n)
    ensures SortedBy(SortRecords(s, n), n)
  {
    if s != [] {
      SortRecordsSorted(s[1..], n);
      InsertSortedKeepsOrder(s[0], SortRecords(s[1..], n), n);
    }
  }

  /** `c'[j] = c[perm[j]]`: a coordinate reordered by a mode ordering. */
  function Permute(c: seq<int>, perm: seq<nat>): (r: seq<int>)
    requires forall j :: 0 <= j < |perm| ==> perm[j] < |c|
    ensures |r| == |perm|
    ensures forall j :: 0 <= j < |perm| ==> r[j] == c[perm[j]]
  {
    seq(|perm|, j requires 0 <= j < |perm| => c[perm[j]])
  }

  /** Column `d` of a run of records: their `d`-th coordinates, in order. */
  function Column(rs: seq<Record>, d: nat): (col: seq<int>)
    requires forall k :: 0 <= k < |rs| ==> d < |rs[k].coords|
    ensures |col| == |rs|
    ensures forall k :: 0 <= k < |rs| ==> col[k] == rs[k].coords[d]
  {
    seq(|rs|, k requires 0 <= k < |rs| => rs[k].coords[d])
  }

  /** The values of a run of records, in order. */
  function ValuesOf(rs: seq<Record>): (vs: seq<Value>)
    ensures |vs| == |rs|
    ensures forall k :: 0 <= k < |rs| ==> vs[k] == rs[k].value
  {
    seq(|rs|, k requires 0 <= k < |rs| => rs[k].value)
  }
}
