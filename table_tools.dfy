/**
 * Grid-line clustering of table_tools as pinned down by tests/test_table_tools.py:
 * `within_threshold`, `remove_duplicate_limits`, the row/column limit recipe and
 * `clean_cell_text`. Coordinates are reals.
 */
module TableTools {
  import opened Wrappers
  import opened Sorting
  import opened Strings

  // ---------------------------------------------------------------------
  // within_threshold
  // ---------------------------------------------------------------------

  function Abs(x: real): real {
    if x < 0.0 then -x else x
  }

  /** `within_threshold(a, b, t)`: the two coordinates lie strictly closer than `t`. */
  predicate WithinThreshold(a: real, b: real, t: real)
    ensures WithinThreshold(a, b, t) <==> a - t < b < a + t
  {
    Abs(a - b) < t
  }

  lemma WithinThresholdSymmetric(a: real, b: real, t: real)
    ensures WithinThreshold(a, b, t) <==> WithinThreshold(b, a, t)
  {
  }

  /** The four assertions of `test_within_threshold`. */
  lemma WithinThresholdExamples()
    ensures WithinThreshold(1.0, 1.0, 1.0)
    ensures !WithinThreshold(1.0, 5.0, 1.0)
    ensures WithinThreshold(1.3, 1.4, 1.0)
    ensures !WithinThreshold(1.3, 1.4, 0.01)
  {
  }

  // ---------------------------------------------------------------------
  // remove_duplicate_limits
  // ---------------------------------------------------------------------

  /**
   * The values a left-to-right scan of `s` keeps when each value is compared
   * with the most recently kept one: the first value is always kept, a later
   * one only if it is not within `t` of the last kept value.
   */
  function Kept(s: seq<real>, t: real): (r: seq<real>)
    ensures |r| <= |s|
    decreases |s|
  {
    if s == [] then []
    else
      var k := Kept(s[..|s| - 1], t);
      var v := s[|s| - 1];
      if k == [] || !WithinThreshold(k[|k| - 1], v, t) then k + [v] else k
  }

  /** `remove_duplicate_limits(values, t)` as a value: sort, then scan. */
  function Dedup(values: seq<real>, t: real): (r: seq<real>)
    ensures |r| <= |values|
  {
    var sorted := Sort(values);
    assert |sorted| == |multiset(values)|;
    Kept(sorted, t)
  }

  /** Adjacent entries differ by at least `t`. */
  predicate Spaced(r: seq<real>, t: real) {
    forall i :: 0 <= i < |r| - 1 ==> r[i + 1] - r[i] >= t
  }

  predicate StrictlyIncreasing(r: seq<real>) {
    forall i, j :: 0 <= i < j < |r| ==> r[i] < r[j]
  }

  /**
   * `remove_duplicate_limits`: sorts the values, then walks them keeping a value
   * only when it is at least `threshold` above the last value kept.
   */
  method RemoveDuplicateLimits(values: seq<real>, threshold: real) returns (unique: seq<real>)
    ensures unique == Dedup(values, threshold)
  {
    var sorted := Sort(values);
    unique := ScanLimits(sorted, threshold);
  }

  /** The loop of `remove_duplicate_limits` over the sorted values, remembering the last value kept. */
  method ScanLimits(sorted: seq<real>, threshold: real) returns (unique: seq<real>)
    ensures unique == Kept(sorted, threshold)
  {
    unique := [];
    var last := 0.0;
    var i := 0;
    while i < |sorted|
      invariant 0 <= i <= |sorted|
      invariant unique == Kept(sorted[..i], threshold)
      invariant unique != [] ==> last == unique[|unique| - 1]
    {
      assert sorted[..i + 1][..i] == sorted[..i];
      if unique == [] || !WithinThreshold(last, sorted[i], threshold) {
        unique := unique + [sorted[i]];
        last := sorted[i];
      }
      i := i + 1;
    }
    assert sorted[..i] == sorted;
  }

  /** The scan only keeps values of its input. */
  lemma {:induction false} KeptFromInput(s: seq<real>, t: real)
    ensures forall x :: x in Kept(s, t) ==> x in s
  {
    if s != [] {
      var p := s[..|s| - 1];
      KeptFromInput(p, t);
      assert forall x :: x in p ==> x in s;
    }
  }

  /** On ascending input, "not within `t`" of the last kept value means "at least `t` above it". */
  lemma {:induction false} KeptSortedSpaced(s: seq<real>, t: real)
    requires Sorted(s)
    ensures Sorted(Kept(s, t)) && Spaced(Kept(s, t), t)
  {
    if s != [] {
      var p := s[..|s| - 1];
      assert Sorted(p);
      KeptSortedSpaced(p, t);
      KeptFromInput(p, t);
      var k := Kept(p, t);
      var v := s[|s| - 1];
      if k != [] {
        var last := k[|k| - 1];
        assert last in p;
        assert last <= v;
        assert forall i :: 0 <= i < |k| ==> k[i] <= last;
      }
    }
  }

  /** The scan keeps the first (smallest) value. */
  lemma {:induction false} KeptFirst(s: seq<real>, t: real)
    requires s != []
    ensures Kept(s, t) != [] && Kept(s, t)[0] == s[0]
  {
    if |s| > 1 {
      var p := s[..|s| - 1];
      KeptFirst(p, t);
    } else {
      assert s[..0] == [];
    }
  }

  /** `x` lies less than `t` above some entry of `r`. */
  predicate Covered(r: seq<real>, x: real, t: real) {
    exists i :: 0 <= i < |r| && r[i] <= x && WithinThreshold(r[i], x, t)
  }

  /** Every input value lies less than `t` above some kept value, so nothing is lost but near-duplicates. */
  lemma {:induction false} KeptCovers(s: seq<real>, t: real)
    requires Sorted(s) && t > 0.0
    ensures forall j :: 0 <= j < |s| ==> Covered(Kept(s, t), s[j], t)
  {
    if s != [] {
      var p := s[..|s| - 1];
      assert Sorted(p);
      KeptCovers(p, t);
      KeptFromInput(p, t);
      var k := Kept(p, t);
      var r := Kept(s, t);
      var v := s[|s| - 1];
      assert k == r[..|k|];
      forall j | 0 <= j < |s|
        ensures Covered(r, s[j], t)
      {
        var w: int;
        if j < |s| - 1 {
          assert s[j] == p[j];
          assert Covered(k, p[j], t);
          w :| 0 <= w < |k| && k[w] <= p[j] && WithinThreshold(k[w], p[j], t);
          assert r[w] == k[w];
        } else if r == k + [v] {
          w := |r| - 1;
          assert r[w] == v == s[j];
        } else {
          w := |k| - 1;
          assert k[w] in p;
          assert r[w] == k[w];
        }
        assert 0 <= w < |r| && r[w] <= s[j] && WithinThreshold(r[w], s[j], t);
      }
    }
  }

  /** A list that is already ascending and spaced by `t` is kept whole. */
  lemma {:induction false} KeptOfSpaced(s: seq<real>, t: real)
    requires Sorted(s) && Spaced(s, t)
    ensures Kept(s, t) == s
  {
    if s != [] {
      var p := s[..|s| - 1];
      assert Sorted(p) && Spaced(p, t);
      KeptOfSpaced(p, t);
      var v := s[|s| - 1];
      if |s| > 1 {
        assert v - p[|p| - 1] >= t;
        assert !WithinThreshold(p[|p| - 1], v, t);
      }
      assert Kept(s, t) == p + [v];
      assert p + [v] == s;
    }
  }

  /** The result is ascending, spaced by the threshold, strictly increasing for a positive threshold, and drawn from the input. */
  lemma DedupShape(values: seq<real>, t: real)
    ensures Sorted(Dedup(values, t)) && Spaced(Dedup(values, t), t)
    ensures t > 0.0 ==> StrictlyIncreasing(Dedup(values, t))
    ensures forall x :: x in Dedup(values, t) ==> x in values
  {
    var s := Sort(values);
    KeptSortedSpaced(s, t);
    KeptFromInput(s, t);
    var r := Kept(s, t);
    forall x | x in r ensures x in values {
      assert x in multiset(s);
    }
    if t > 0.0 {
      forall i, j | 0 <= i < j < |r| ensures r[i] < r[j] {
        assert r[i] < r[i + 1] <= r[j];
      }
    }
  }

  /** Applying `remove_duplicate_limits` twice with one threshold equals applying it once. */
  lemma DedupIdempotent(values: seq<real>, t: real)
    ensures Dedup(Dedup(values, t), t) == Dedup(values, t)
  {
    var d := Dedup(values, t);
    DedupShape(values, t);
    SortOfSorted(d);
    KeptOfSpaced(d, t);
  }

  /** The result depends only on the input's elements, not on their order. */
  lemma DedupPermutationInvariant(a: seq<real>, b: seq<real>, t: real)
    requires multiset(a) == multiset(b)
    ensures Dedup(a, t) == Dedup(b, t)
  {
    SortPermutationInvariant(a, b);
  }

  /** The limits of `test_remove_duplicate_limits`, as given and in ascending order. */
  const DedupTestInput: seq<real> := [0.0, 0.1, 0.1, 50.0, 60.0, 0.0, 51.0, 52.0, -50.0]
  const DedupTestSorted: seq<real> := [-50.0, 0.0, 0.0, 0.1, 0.1, 50.0, 51.0, 52.0, 60.0]

  // Selection-sort exchanges taking the input to its ascending order, one lemma per step.
  const DedupTestStep1: seq<real> := [-50.0, 0.1, 0.1, 50.0, 60.0, 0.0, 51.0, 52.0, 0.0]
  const DedupTestStep2: seq<real> := [-50.0, 0.0, 0.1, 50.0, 60.0, 0.1, 51.0, 52.0, 0.0]
  const DedupTestStep3: seq<real> := [-50.0, 0.0, 0.0, 50.0, 60.0, 0.1, 51.0, 52.0, 0.1]
  const DedupTestStep4: seq<real> := [-50.0, 0.0, 0.0, 0.1, 60.0, 50.0, 51.0, 52.0, 0.1]

  lemma DedupTestSwap1()
    ensures IsSwap(DedupTestInput, DedupTestStep1, 0, 8)
  {
  }

  lemma DedupTestSwap2()
    ensures IsSwap(DedupTestStep1, DedupTestStep2, 1, 5)
  {
  }

  lemma DedupTestSwap3()
    ensures IsSwap(DedupTestStep2, DedupTestStep3, 2, 8)
  {
  }

  lemma DedupTestSwap4()
    ensures IsSwap(DedupTestStep3, DedupTestStep4, 3, 5)
  {
  }

  lemma DedupTestSwap5()
    ensures IsSwap(DedupTestStep4, DedupTestSorted, 4, 8)
  {
  }

  lemma DedupTestPermuted()
    ensures multiset(DedupTestInput) == multiset(DedupTestSorted)
  {
    DedupTestSwap1();
    SwapPreservesMultiset(DedupTestInput, DedupTestStep1, 0, 8);
    DedupTestSwap2();
    SwapPreservesMultiset(DedupTestStep1, DedupTestStep2, 1, 5);
    DedupTestSwap3();
    SwapPreservesMultiset(DedupTestStep2, DedupTestStep3, 2, 8);
    DedupTestSwap4();
    SwapPreservesMultiset(DedupTestStep3, DedupTestStep4, 3, 5);
    DedupTestSwap5();
    SwapPreservesMultiset(DedupTestStep4, DedupTestSorted, 4, 8);
  }

  lemma DedupTestAscending()
    ensures Sorted(DedupTestSorted)
  {
  }

  lemma SortTestValues()
    ensures Sort(DedupTestInput) == DedupTestSorted
  {
    DedupTestPermuted();
    DedupTestAscending();
    SortedUnique(Sort(DedupTestInput), DedupTestSorted);
  }

  /** The scan over the sorted values of `test_remove_duplicate_limits` with threshold 2. */
  lemma KeptTestValues()
    ensures Kept(DedupTestSorted, 2.0) == [-50.0, 0.0, 50.0, 52.0, 60.0]
  {
    var ys := DedupTestSorted;
    KeptTestPrefix();
    assert ys[..6][..5] == ys[..5];
    assert Kept(ys[..6], 2.0) == [-50.0, 0.0, 50.0];
    assert ys[..7][..6] == ys[..6];
    assert Kept(ys[..7], 2.0) == [-50.0, 0.0, 50.0];
    assert ys[..8][..7] == ys[..7];
    assert Kept(ys[..8], 2.0) == [-50.0, 0.0, 50.0, 52.0];
    assert ys[..8] == ys[..|ys| - 1];
  }

  /** The scan over the first five sorted values: the repeated zeros and both 0.1s fall within 2 of the kept 0. */
  lemma KeptTestPrefix()
    ensures Kept(DedupTestSorted[..5], 2.0) == [-50.0, 0.0]
  {
    var ys := DedupTestSorted;
    assert ys[..1][..0] == [];
    assert Kept(ys[..1], 2.0) == [-50.0];
    assert ys[..2][..1] == ys[..1];
    assert Kept(ys[..2], 2.0) == [-50.0, 0.0];
    assert ys[..3][..2] == ys[..2];
    assert Kept(ys[..3], 2.0) == [-50.0, 0.0];
    assert ys[..4][..3] == ys[..3];
    assert Kept(ys[..4], 2.0) == [-50.0, 0.0];
    assert ys[..5][..4] == ys[..4];
  }

  /**
   * `test_remove_duplicate_limits`: 51 is dropped because it is within 2 of the kept 50,
   * yet 52 survives because it is compared with 50 and not with the dropped 51.
   */
  lemma DedupTestExample()
    ensures Dedup(DedupTestInput, 2.0) == [-50.0, 0.0, 50.0, 52.0, 60.0]
  {
    SortTestValues();
    KeptTestValues();
  }

  /** Two values exactly one threshold apart are both kept: the merge test is strict. */
  lemma DedupKeepsExactGap()
    ensures Dedup([2.0, 0.0], 2.0) == [0.0, 2.0]
  {
    SortedUnique(Sort([2.0, 0.0]), [0.0, 2.0]);
    KeptExactGap();
  }

  lemma KeptExactGap()
    ensures Kept([0.0, 2.0], 2.0) == [0.0, 2.0]
  {
    var ys := [0.0, 2.0];
    assert ys[..1][..0] == [];
    assert Kept(ys[..1], 2.0) == [0.0];
  }

  // ---------------------------------------------------------------------
  // Row and column limits (the recipe of test_calculate_row_column_limits)
  // ---------------------------------------------------------------------

  /** A cell bounding box as the detector reports it; the corners may come in either order. */
  datatype Box = Box(x1: real, y1: real, x2: real, y2: real)

  datatype Axis = Columns | Rows

  /** The two coordinates a box contributes along one axis, in the order the recipe appends them. */
  function Coords(b: Box, axis: Axis): seq<real> {
    match axis
    case Columns => [b.x1, b.x2]
    case Rows => [b.y1, b.y2]
  }

  /** Every coordinate of every box along one axis, box by box. */
  function Pool(boxes: seq<Box>, axis: Axis): (r: seq<real>)
    ensures |r| == 2 * |boxes|
  {
    if boxes == [] then [] else Pool(boxes[..|boxes| - 1], axis) + Coords(boxes[|boxes| - 1], axis)
  }

  /** Column candidates tolerate a wider misalignment than row candidates. */
  const ColumnThreshold: real := 16.0
  const RowThreshold: real := 8.0

  /** Grid-line coordinates: column limits along the width, row limits along the height. */
  datatype Limits = Limits(columns: seq<real>, rows: seq<real>)

  /**
   * The last phase of the recipe on deduplicated lists: only the column list
   * drops its first and last values, then both get the page boundaries and are
   * sorted. `pop` on a list that has run out raises, which is None here.
   */
  function FramedLimits(width: real, height: real, cols: seq<real>, rows: seq<real>): (r: Option<Limits>)
    ensures r.Some? <==> |cols| >= 2
    ensures r.Some? ==> Sorted(r.value.columns) && Sorted(r.value.rows)
    ensures r.Some? ==> 0.0 in r.value.columns && width in r.value.columns
    ensures r.Some? ==> 0.0 in r.value.rows && height in r.value.rows
    ensures r.Some? ==> |r.value.columns| == |cols| && |r.value.rows| == |rows| + 2
  {
    if |cols| < 2 then None
    else
      var c, w := cols[1..|cols| - 1] + [0.0, width], rows + [0.0, height];
      var sc, sw := Sort(c), Sort(w);
      assert c[|c| - 2] == 0.0 && c[|c| - 1] == width;
      assert w[|w| - 2] == 0.0 && w[|w| - 1] == height;
      assert 0.0 in multiset(sc) && width in multiset(sc);
      assert 0.0 in multiset(sw) && height in multiset(sw);
      assert |sc| == |multiset(c)| && |sw| == |multiset(w)|;
      Some(Limits(sc, sw))
  }

  /** The limits of the recipe for a page of the given width and height. */
  function LimitsOf(width: real, height: real, boxes: seq<Box>): (r: Option<Limits>)
    ensures r.Some? ==> |boxes| >= 1
    ensures r.Some? ==> |r.value.columns| <= 2 * |boxes| && |r.value.rows| <= 2 * |boxes| + 2
  {
    FramedLimits(width, height,
      Dedup(Pool(boxes, Columns), ColumnThreshold), Dedup(Pool(boxes, Rows), RowThreshold))
  }

  /**
   * The expected limits of `test_calculate_row_column_limits`, built the way the
   * test builds them: append both coordinates of every box, sort, deduplicate
   * (16 for columns, 8 for rows), then frame them with the page boundaries.
   */
  method CalculateRowColumnLimits(width: real, height: real, boxes: seq<Box>) returns (r: Option<Limits>)
    ensures r == LimitsOf(width, height, boxes)
  {
    var colLimit, rowLimit := CollectCoordinates(boxes);
    colLimit := Sort(colLimit);
    rowLimit := Sort(rowLimit);
    SortOfSorted(colLimit);
    SortOfSorted(rowLimit);
    colLimit := RemoveDuplicateLimits(colLimit, ColumnThreshold);
    rowLimit := RemoveDuplicateLimits(rowLimit, RowThreshold);
    r := FrameLimits(width, height, colLimit, rowLimit);
  }

  /** Pops the first and last column limit, appends 0 and the page extent to each list, and sorts both. */
  method FrameLimits(width: real, height: real, colLimit: seq<real>, rowLimit: seq<real>) returns (r: Option<Limits>)
    ensures r == FramedLimits(width, height, colLimit, rowLimit)
  {
    var cols := colLimit;
    var rows := rowLimit;
    if |cols| == 0 {
      return None;  // pop(0) on an empty list
    }
    cols := cols[1..];
    if |cols| == 0 {
      return None;  // pop() on an empty list
    }
    cols := cols[..|cols| - 1];
    cols := cols + [0.0];
    cols := cols + [width];
    rows := rows + [0.0];
    rows := rows + [height];
    assert cols == colLimit[1..|colLimit| - 1] + [0.0, width];
    assert rows == rowLimit + [0.0, height];
    cols := Sort(cols);
    rows := Sort(rows);
    r := Some(Limits(cols, rows));
  }

  /** The append loop of the recipe: both coordinates of each box, box by box. */
  method CollectCoordinates(boxes: seq<Box>) returns (colLimit: seq<real>, rowLimit: seq<real>)
    ensures colLimit == Pool(boxes, Columns) && rowLimit == Pool(boxes, Rows)
  {
    rowLimit := [];
    colLimit := [];
    for k := 0 to |boxes|
      invariant colLimit == Pool(boxes[..k], Columns)
      invariant rowLimit == Pool(boxes[..k], Rows)
    {
      assert boxes[..k + 1][..k] == boxes[..k];
      var b := boxes[k];
      rowLimit := rowLimit + [b.y1];
      rowLimit := rowLimit + [b.y2];
      colLimit := colLimit + [b.x1];
      colLimit := colLimit + [b.x2];
    }
    assert boxes[..|boxes|] == boxes;
  }

  /**
   * Framing yields ascending lists that hold the page boundaries; the column
   * list keeps only the interior deduplicated values, the row list keeps them all.
   */
  lemma FramedLimitsShape(width: real, height: real, cols: seq<real>, rows: seq<real>)
    ensures FramedLimits(width, height, cols, rows).Some? <==> |cols| >= 2
    ensures FramedLimits(width, height, cols, rows).Some? ==>
      var l := FramedLimits(width, height, cols, rows).value;
      && Sorted(l.columns) && Sorted(l.rows)
      && multiset(l.columns) == multiset(cols[1..|cols| - 1]) + multiset{0.0, width}
      && multiset(l.rows) == multiset(rows) + multiset{0.0, height}
      && |l.columns| == |cols| && |l.rows| == |rows| + 2
  {
    if |cols| >= 2 {
      var l := FramedLimits(width, height, cols, rows).value;
      var c := cols[1..|cols| - 1] + [0.0, width];
      var r := rows + [0.0, height];
      assert |l.columns| == |multiset(l.columns)| == |multiset(c)| == |c|;
      assert |l.rows| == |multiset(l.rows)| == |multiset(r)| == |r|;
    }
  }

  /** Without boxes the column list is empty and the first `pop` raises. */
  lemma LimitsNoBoxes(width: real, height: real)
    ensures LimitsOf(width, height, []) == None
  {
    assert Sort([]) == [];
  }

  lemma {:induction false} PoolConcat(u: seq<Box>, v: seq<Box>, axis: Axis)
    ensures Pool(u + v, axis) == Pool(u, axis) + Pool(v, axis)
  {
    if v != [] {
      var w := v[..|v| - 1];
      assert (u + v)[..|u + v| - 1] == u + w;
      PoolConcat(u, w, axis);
    } else {
      assert u + v == u;
    }
  }

  /** Taking one box out of the middle takes its coordinates out of the pool. */
  lemma PoolRemove(b: seq<Box>, i: nat, axis: Axis)
    requires i < |b|
    ensures multiset(Pool(b, axis)) == multiset(Pool(b[..i] + b[i + 1..], axis)) + multiset(Coords(b[i], axis))
  {
    var b1, b2, x := b[..i], b[i + 1..], b[i];
    var front := b1 + [x];
    assert b == front + b2;
    assert front[..|front| - 1] == b1;
    assert Pool(front, axis) == Pool(b1, axis) + Coords(x, axis);
    PoolConcat(front, b2, axis);
    PoolConcat(b1, b2, axis);
    assert Pool(b, axis) == Pool(b1, axis) + Coords(x, axis) + Pool(b2, axis);
    MultisetSplice(Pool(b1, axis), Coords(x, axis), Pool(b2, axis));
  }

  lemma MultisetSplice(p: seq<real>, c: seq<real>, q: seq<real>)
    ensures multiset(p + c + q) == multiset(p + q) + multiset(c)
  {
  }

  /** A box occurring in a list sits at some index, and removing it there removes one copy. */
  lemma RemoveOne(b: seq<Box>, x: Box) returns (i: nat)
    requires x in multiset(b)
    ensures i < |b| && b[i] == x
    ensures multiset(b[..i] + b[i + 1..]) == multiset(b) - multiset{x}
  {
    i :| 0 <= i < |b| && b[i] == x;
    assert b == b[..i] + [x] + b[i + 1..];
  }

  /** The pooled coordinates depend only on which boxes there are, not on their order. */
  lemma {:induction false} PoolPermutation(a: seq<Box>, b: seq<Box>, axis: Axis)
    requires multiset(a) == multiset(b)
    ensures multiset(Pool(a, axis)) == multiset(Pool(b, axis))
    decreases |a|
  {
    if a == [] {
      assert |b| == |multiset(b)| == 0;
    } else {
      var x := a[|a| - 1];
      var a' := a[..|a| - 1];
      assert a == a' + [x];
      assert multiset(a') == multiset(a) - multiset{x};
      var i := RemoveOne(b, x);
      PoolPermutation(a', b[..i] + b[i + 1..], axis);
      PoolRemove(b, i, axis);
    }
  }

  /** The limits do not depend on the order in which the boxes are supplied. */
  lemma LimitsPermutationInvariant(width: real, height: real, a: seq<Box>, b: seq<Box>)
    requires multiset(a) == multiset(b)
    ensures LimitsOf(width, height, a) == LimitsOf(width, height, b)
  {
    PoolPermutation(a, b, Columns);
    PoolPermutation(a, b, Rows);
    SortPermutationInvariant(Pool(a, Columns), Pool(b, Columns));
    SortPermutationInvariant(Pool(a, Rows), Pool(b, Rows));
  }

  /** A box with its corners put in order: smaller coordinate first on each axis. */
  function Normalized(b: Box): (n: Box)
    ensures n.x1 <= n.x2 && n.y1 <= n.y2
    ensures multiset(Coords(n, Columns)) == multiset(Coords(b, Columns))
    ensures multiset(Coords(n, Rows)) == multiset(Coords(b, Rows))
  {
    Box(if b.x1 <= b.x2 then b.x1 else b.x2, if b.y1 <= b.y2 then b.y1 else b.y2,
        if b.x1 <= b.x2 then b.x2 else b.x1, if b.y1 <= b.y2 then b.y2 else b.y1)
  }

  lemma PoolReplace(boxes: seq<Box>, i: nat, n: Box, axis: Axis)
    requires i < |boxes| && multiset(Coords(n, axis)) == multiset(Coords(boxes[i], axis))
    ensures multiset(Pool(boxes[i := n], axis)) == multiset(Pool(boxes, axis))
  {
    var u, v := boxes[..i], boxes[i + 1..];
    assert boxes == u + [boxes[i]] + v;
    assert boxes[i := n] == u + [n] + v;
    PoolConcat(u + [boxes[i]], v, axis);
    PoolConcat(u, [boxes[i]], axis);
    PoolConcat(u + [n], v, axis);
    PoolConcat(u, [n], axis);
    assert [n][..0] == [] && [boxes[i]][..0] == [];
  }

  /**
   * A box with inverted corners (the first test box has y1 > y2) gives the same
   * limits as the same box with its corners in order: coordinates are pooled and
   * sorted, never swapped or rejected.
   */
  lemma LimitsIgnoreCornerOrder(width: real, height: real, boxes: seq<Box>, i: nat)
    requires i < |boxes|
    ensures LimitsOf(width, height, boxes[i := Normalized(boxes[i])]) == LimitsOf(width, height, boxes)
  {
    var n := Normalized(boxes[i]);
    PoolReplace(boxes, i, n, Columns);
    PoolReplace(boxes, i, n, Rows);
    SortPermutationInvariant(Pool(boxes[i := n], Columns), Pool(boxes, Columns));
    SortPermutationInvariant(Pool(boxes[i := n], Rows), Pool(boxes, Rows));
  }

  // The worked example of test_calculate_row_column_limits: a 730 x 250 image
  // and three boxes, the first of them with y1 > y2.

  const LimitsTestBoxes: seq<Box> :=
    [Box(122.0, 122.7, 133.0, 42.0), Box(50.0, 40.0, 123.0, 100.0), Box(26.0, 107.0, 108.2, 111.0)]

  const LimitsTestColumnPool: seq<real> := [122.0, 133.0, 50.0, 123.0, 26.0, 108.2]
  const LimitsTestColumnSorted: seq<real> := [26.0, 50.0, 108.2, 122.0, 123.0, 133.0]
  const LimitsTestRowPool: seq<real> := [122.7, 42.0, 40.0, 100.0, 107.0, 111.0]
  const LimitsTestRowSorted: seq<real> := [40.0, 42.0, 100.0, 107.0, 111.0, 122.7]

  lemma LimitsTestPools()
    ensures Pool(LimitsTestBoxes, Columns) == LimitsTestColumnPool
    ensures Pool(LimitsTestBoxes, Rows) == LimitsTestRowPool
  {
    var b := LimitsTestBoxes;
    assert b[..1][..0] == [] && b[..2][..1] == b[..1] && b[..3][..2] == b[..2] && b[..3] == b;
  }

  // Exchanges taking each pool to its ascending order, one lemma per step.
  const LimitsTestColumnStep1: seq<real> := [26.0, 133.0, 50.0, 123.0, 122.0, 108.2]
  const LimitsTestColumnStep2: seq<real> := [26.0, 50.0, 133.0, 123.0, 122.0, 108.2]
  const LimitsTestColumnStep3: seq<real> := [26.0, 50.0, 108.2, 123.0, 122.0, 133.0]

  lemma LimitsTestColumnSwap1()
    ensures IsSwap(LimitsTestColumnPool, LimitsTestColumnStep1, 0, 4)
  {
  }

  lemma LimitsTestColumnSwap2()
    ensures IsSwap(LimitsTestColumnStep1, LimitsTestColumnStep2, 1, 2)
  {
  }

  lemma LimitsTestColumnSwap3()
    ensures IsSwap(LimitsTestColumnStep2, LimitsTestColumnStep3, 2, 5)
  {
  }

  lemma LimitsTestColumnSwap4()
    ensures IsSwap(LimitsTestColumnStep3, LimitsTestColumnSorted, 3, 4)
  {
  }

  const LimitsTestRowStep1: seq<real> := [40.0, 42.0, 122.7, 100.0, 107.0, 111.0]
  const LimitsTestRowStep2: seq<real> := [40.0, 42.0, 100.0, 122.7, 107.0, 111.0]
  const LimitsTestRowStep3: seq<real> := [40.0, 42.0, 100.0, 107.0, 122.7, 111.0]

  lemma LimitsTestRowSwap1()
    ensures IsSwap(LimitsTestRowPool, LimitsTestRowStep1, 0, 2)
  {
  }

  lemma LimitsTestRowSwap2()
    ensures IsSwap(LimitsTestRowStep1, LimitsTestRowStep2, 2, 3)
  {
  }

  lemma LimitsTestRowSwap3()
    ensures IsSwap(LimitsTestRowStep2, LimitsTestRowStep3, 3, 4)
  {
  }

  lemma LimitsTestRowSwap4()
    ensures IsSwap(LimitsTestRowStep3, LimitsTestRowSorted, 4, 5)
  {
  }

  lemma LimitsTestColumnPermuted()
    ensures multiset(LimitsTestColumnPool) == multiset(LimitsTestColumnSorted)
  {
    LimitsTestColumnSwap1();
    SwapPreservesMultiset(LimitsTestColumnPool, LimitsTestColumnStep1, 0, 4);
    LimitsTestColumnSwap2();
    SwapPreservesMultiset(LimitsTestColumnStep1, LimitsTestColumnStep2, 1, 2);
    LimitsTestColumnSwap3();
    SwapPreservesMultiset(LimitsTestColumnStep2, LimitsTestColumnStep3, 2, 5);
    LimitsTestColumnSwap4();
    SwapPreservesMultiset(LimitsTestColumnStep3, LimitsTestColumnSorted, 3, 4);
  }

  /** The column pool in ascending order. */
  lemma LimitsTestSortColumns()
    ensures Sort(LimitsTestColumnPool) == LimitsTestColumnSorted
  {
    LimitsTestColumnPermuted();
    assert Sorted(LimitsTestColumnSorted);
    SortedUnique(Sort(LimitsTestColumnPool), LimitsTestColumnSorted);
  }

  lemma LimitsTestRowPermuted()
    ensures multiset(LimitsTestRowPool) == multiset(LimitsTestRowSorted)
  {
    LimitsTestRowSwap1();
    SwapPreservesMultiset(LimitsTestRowPool, LimitsTestRowStep1, 0, 2);
    LimitsTestRowSwap2();
    SwapPreservesMultiset(LimitsTestRowStep1, LimitsTestRowStep2, 2, 3);
    LimitsTestRowSwap3();
    SwapPreservesMultiset(LimitsTestRowStep2, LimitsTestRowStep3, 3, 4);
    LimitsTestRowSwap4();
    SwapPreservesMultiset(LimitsTestRowStep3, LimitsTestRowSorted, 4, 5);
  }

  /** The row pool in ascending order. */
  lemma LimitsTestSortRows()
    ensures Sort(LimitsTestRowPool) == LimitsTestRowSorted
  {
    LimitsTestRowPermuted();
    assert Sorted(LimitsTestRowSorted);
    SortedUnique(Sort(LimitsTestRowPool), LimitsTestRowSorted);
  }

  /** Columns: 122 and 123 lie within 16 of the kept 108.2; 133 does not. */
  lemma LimitsTestKeptColumns()
    ensures Kept(LimitsTestColumnSorted, ColumnThreshold) == [26.0, 50.0, 108.2, 133.0]
  {
    var c := LimitsTestColumnSorted;
    assert c[..1][..0] == [];
    assert Kept(c[..1], 16.0) == [26.0];
    assert c[..2][..1] == c[..1];
    assert Kept(c[..2], 16.0) == [26.0, 50.0];
    assert c[..3][..2] == c[..2];
    assert Kept(c[..3], 16.0) == [26.0, 50.0, 108.2];
    assert c[..4][..3] == c[..3];
    assert Kept(c[..4], 16.0) == [26.0, 50.0, 108.2];
    assert c[..5][..4] == c[..4];
    assert Kept(c[..5], 16.0) == [26.0, 50.0, 108.2];
    assert c[..5] == c[..|c| - 1];
  }

  /** Rows: 42 lies within 8 of 40 and 107 within 8 of 100. */
  lemma LimitsTestKeptRows()
    ensures Kept(LimitsTestRowSorted, RowThreshold) == [40.0, 100.0, 111.0, 122.7]
  {
    var r := LimitsTestRowSorted;
    assert r[..1][..0] == [];
    assert Kept(r[..1], 8.0) == [40.0];
    assert r[..2][..1] == r[..1];
    assert Kept(r[..2], 8.0) == [40.0];
    assert r[..3][..2] == r[..2];
    assert Kept(r[..3], 8.0) == [40.0, 100.0];
    assert r[..4][..3] == r[..3];
    assert Kept(r[..4], 8.0) == [40.0, 100.0];
    assert r[..5][..4] == r[..4];
    assert Kept(r[..5], 8.0) == [40.0, 100.0, 111.0];
    assert r[..5] == r[..|r| - 1];
  }

  lemma LimitsTestDedupColumns()
    ensures Dedup(Pool(LimitsTestBoxes, Columns), ColumnThreshold) == [26.0, 50.0, 108.2, 133.0]
  {
    LimitsTestPools();
    LimitsTestSortColumns();
    LimitsTestKeptColumns();
  }

  lemma LimitsTestDedupRows()
    ensures Dedup(Pool(LimitsTestBoxes, Rows), RowThreshold) == [40.0, 100.0, 111.0, 122.7]
  {
    LimitsTestPools();
    LimitsTestSortRows();
    LimitsTestKeptRows();
  }

  // The framed lists before sorting, and the exchanges that sort them.
  const LimitsTestFramedColumnInput: seq<real> := [50.0, 108.2, 0.0, 730.0]
  const LimitsTestFramedColumnSorted: seq<real> := [0.0, 50.0, 108.2, 730.0]
  const LimitsTestFramedRowInput: seq<real> := [40.0, 100.0, 111.0, 122.7, 0.0, 250.0]
  const LimitsTestFramedRowSorted: seq<real> := [0.0, 40.0, 100.0, 111.0, 122.7, 250.0]

  const LimitsTestFramedColumnStep1: seq<real> := [0.0, 108.2, 50.0, 730.0]

  lemma LimitsTestFramedColumnSwap1()
    ensures IsSwap(LimitsTestFramedColumnInput, LimitsTestFramedColumnStep1, 0, 2)
  {
  }

  lemma LimitsTestFramedColumnSwap2()
    ensures IsSwap(LimitsTestFramedColumnStep1, LimitsTestFramedColumnSorted, 1, 2)
  {
  }

  const LimitsTestFramedRowStep1: seq<real> := [0.0, 100.0, 111.0, 122.7, 40.0, 250.0]
  const LimitsTestFramedRowStep2: seq<real> := [0.0, 40.0, 111.0, 122.7, 100.0, 250.0]
  const LimitsTestFramedRowStep3: seq<real> := [0.0, 40.0, 100.0, 122.7, 111.0, 250.0]

  lemma LimitsTestFramedRowSwap1()
    ensures IsSwap(LimitsTestFramedRowInput, LimitsTestFramedRowStep1, 0, 4)
  {
  }

  lemma LimitsTestFramedRowSwap2()
    ensures IsSwap(LimitsTestFramedRowStep1, LimitsTestFramedRowStep2, 1, 4)
  {
  }

  lemma LimitsTestFramedRowSwap3()
    ensures IsSwap(LimitsTestFramedRowStep2, LimitsTestFramedRowStep3, 2, 4)
  {
  }

  lemma LimitsTestFramedRowSwap4()
    ensures IsSwap(LimitsTestFramedRowStep3, LimitsTestFramedRowSorted, 3, 4)
  {
  }

  lemma LimitsTestFramedColumnPermuted()
    ensures multiset(LimitsTestFramedColumnInput) == multiset(LimitsTestFramedColumnSorted)
  {
    LimitsTestFramedColumnSwap1();
    SwapPreservesMultiset(LimitsTestFramedColumnInput, LimitsTestFramedColumnStep1, 0, 2);
    LimitsTestFramedColumnSwap2();
    SwapPreservesMultiset(LimitsTestFramedColumnStep1, LimitsTestFramedColumnSorted, 1, 2);
  }

  /** The framed column list in ascending order. */
  lemma LimitsTestFramedColumns()
    ensures Sort(LimitsTestFramedColumnInput) == LimitsTestFramedColumnSorted
  {
    LimitsTestFramedColumnPermuted();
    assert Sorted(LimitsTestFramedColumnSorted);
    SortedUnique(Sort(LimitsTestFramedColumnInput), LimitsTestFramedColumnSorted);
  }

  lemma LimitsTestFramedRowPermuted()
    ensures multiset(LimitsTestFramedRowInput) == multiset(LimitsTestFramedRowSorted)
  {
    LimitsTestFramedRowSwap1();
    SwapPreservesMultiset(LimitsTestFramedRowInput, LimitsTestFramedRowStep1, 0, 4);
    LimitsTestFramedRowSwap2();
    SwapPreservesMultiset(LimitsTestFramedRowStep1, LimitsTestFramedRowStep2, 1, 4);
    LimitsTestFramedRowSwap3();
    SwapPreservesMultiset(LimitsTestFramedRowStep2, LimitsTestFramedRowStep3, 2, 4);
    LimitsTestFramedRowSwap4();
    SwapPreservesMultiset(LimitsTestFramedRowStep3, LimitsTestFramedRowSorted, 3, 4);
  }

  /** The framed row list in ascending order. */
  lemma LimitsTestFramedRows()
    ensures Sort(LimitsTestFramedRowInput) == LimitsTestFramedRowSorted
  {
    LimitsTestFramedRowPermuted();
    assert Sorted(LimitsTestFramedRowSorted);
    SortedUnique(Sort(LimitsTestFramedRowInput), LimitsTestFramedRowSorted);
  }

  lemma LimitsTestFramed()
    ensures FramedLimits(730.0, 250.0, [26.0, 50.0, 108.2, 133.0], [40.0, 100.0, 111.0, 122.7])
         == Some(Limits([0.0, 50.0, 108.2, 730.0], [0.0, 40.0, 100.0, 111.0, 122.7, 250.0]))
  {
    var c := [26.0, 50.0, 108.2, 133.0][1..3] + [0.0, 730.0];
    var r := [40.0, 100.0, 111.0, 122.7] + [0.0, 250.0];
    assert c == LimitsTestFramedColumnInput;
    assert r == LimitsTestFramedRowInput;
    LimitsTestFramedColumns();
    LimitsTestFramedRows();
  }

  /** The two assertions of `test_calculate_row_column_limits`. */
  lemma LimitsTestExample()
    ensures LimitsOf(730.0, 250.0, LimitsTestBoxes)
         == Some(Limits([0.0, 50.0, 108.2, 730.0], [0.0, 40.0, 100.0, 111.0, 122.7, 250.0]))
  {
    LimitsTestDedupColumns();
    LimitsTestDedupRows();
    LimitsTestFramed();
  }

  // ---------------------------------------------------------------------
  // clean_cell_text
  // ---------------------------------------------------------------------

  /** `clean_cell_text`: trim, drop one leading '|' column marker, trim again. */
  function CleanCellText(s: string): (r: string)
    ensures |r| <= |s|
  {
    DropMarker(Trim(s))
  }

  /** Removes one leading '|' from trimmed text and trims what follows it. */
  function DropMarker(t: string): string {
    if t != [] && t[0] == '|' then Trim(t[1..]) else t
  }

  /** A string with no surrounding whitespace is left as it is by `strip`. */
  lemma TrimOfTrimmed(s: string)
    requires s == [] || (!IsSpace(s[0]) && !IsSpace(s[|s| - 1]))
    ensures Trim(s) == s
  {
    assert SkipSpaces(s, 0) == 0;
    assert SkipSpacesBack(s, |s|) == |s|;
  }

  /** `strip` leaves a piece of its input with no whitespace at either end. */
  lemma TrimShape(s: string)
    ensures var t := Trim(s);
      && (t == [] || (!IsSpace(t[0]) && !IsSpace(t[|t| - 1])))
      && IsSubstring(t, s)
  {
    var i := SkipSpaces(s, 0);
    var a := s[i..];
    var j := SkipSpacesBack(a, |a|);
    assert Trim(s) == a[..j] == s[i..i + j];
    assert OccursAt(s, Trim(s), i);
  }

  /** The cleaned text has no whitespace at either end. */
  lemma CleanCellTextTrimmed(s: string)
    ensures var r := CleanCellText(s);
      r == [] || (!IsSpace(r[0]) && !IsSpace(r[|r| - 1]))
  {
    var t := Trim(s);
    TrimShape(s);
    if t != [] && t[0] == '|' {
      TrimShape(t[1..]);
    }
  }

  /** `strip` returns the slice of its input between two positions. */
  lemma TrimSlice(s: string) returns (i: nat, j: nat)
    ensures i <= j <= |s| && Trim(s) == s[i..j] && OccursAt(s, Trim(s), i)
  {
    i := SkipSpaces(s, 0);
    var a := s[i..];
    j := i + SkipSpacesBack(a, |a|);
    assert Trim(s) == a[..j - i];
  }

  /** Dropping the marker keeps a contiguous piece of the text. */
  lemma DropMarkerSlice(t: string) returns (k: nat)
    ensures OccursAt(t, DropMarker(t), k)
  {
    if t != [] && t[0] == '|' {
      var u := t[1..];
      var i, j := TrimSlice(u);
      assert OccursAt(t, u, 1);
      OccursAtNested(t, u, Trim(u), 1, i);
      k := 1 + i;
    } else {
      k := 0;
      assert t[0..|t|] == t;
    }
  }

  /** The cleaned text is a contiguous piece of the input: nothing inside it is altered. */
  lemma CleanCellTextIsPiece(s: string)
    ensures IsSubstring(CleanCellText(s), s)
  {
    var i, j := TrimSlice(s);
    var k := DropMarkerSlice(Trim(s));
    OccursAtNested(s, Trim(s), CleanCellText(s), i, k);
    assert i + k <= |s|;
  }

  /**
   * Cleaning twice equals cleaning once, unless the cleaned text still starts
   * with a '|' marker: only one marker is removed per call.
   */
  lemma CleanCellTextIdempotent(s: string)
    requires CleanCellText(s) == [] || CleanCellText(s)[0] != '|'
    ensures CleanCellText(CleanCellText(s)) == CleanCellText(s)
  {
    CleanCellTextTrimmed(s);
    TrimOfTrimmed(CleanCellText(s));
  }

  /** The one-marker reading is not idempotent on text with two markers. */
  lemma CleanCellTextTwoMarkers()
    ensures CleanCellText("| | x") == "| x" && CleanCellText("| x") == "x"
  {
    CleanCellTextOuterMarker();
    CleanCellTextInnerMarker();
  }

  lemma CleanCellTextOuterMarker()
    ensures CleanCellText("| | x") == "| x"
  {
    TrimOfTrimmed("| | x");
    assert "| | x"[1..] == " | x";
    assert TrimStart(" | x") == "| x";
    TrimOfTrimmed("| x");
  }

  lemma CleanCellTextInnerMarker()
    ensures CleanCellText("| x") == "x"
  {
    TrimOfTrimmed("| x");
    assert "| x"[1..] == " x";
    assert TrimStart(" x") == "x";
    TrimOfTrimmed("x");
  }

  /** `test_clean_cell_text`: a leading marker and trailing padding are removed, clean text is kept. */
  lemma CleanCellTextExamples()
    ensures CleanCellText("|   asdf") == "asdf"
    ensures CleanCellText("asdf        ") == "asdf"
    ensures CleanCellText("asdf") == "asdf"
  {
    TrimOfTrimmed("|   asdf");
    assert "|   asdf"[1..] == "   asdf";
    assert TrimStart("   asdf") == "asdf";
    TrimOfTrimmed("asdf");
    CleanCellTextPadded();
  }

  lemma CleanCellTextPadded()
    ensures CleanCellText("asdf        ") == "asdf"
  {
    var padded := "asdf        ";
    assert SkipSpaces(padded, 0) == 0;
    assert !IsSpace(padded[3]);
    assert SkipSpacesBack(padded, |padded|) == 4;
  }
}
