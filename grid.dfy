/** `gen_2d_range` (src/math/mod.rs): every pair `(a, b)` with `a` and `b` in
    `from..to`, the outer `a` fixed while the inner `b` runs through the range. */
module Grid {

  /** The half-open integer range `from..to`. */
  function Range(lo: int, hi: int): (r: seq<int>)
    ensures |r| == if lo <= hi then hi - lo else 0
    ensures forall i :: 0 <= i < |r| ==> r[i] == lo + i
    decreases hi - lo
  {
    if lo < hi then [lo] + Range(lo + 1, hi) else []
  }

  /** `inner.map(move |b| (a, b))` */
  function Row(a: int, inner: seq<int>): (r: seq<(int, int)>)
    ensures |r| == |inner|
    ensures forall j :: 0 <= j < |r| ==> r[j] == (a, inner[j])
  {
    if inner == [] then [] else [(a, inner[0])] + Row(a, inner[1..])
  }

  /** `outer.flat_map(move |a| inner.map(move |b| (a, b)))` */
  function FlatMapRows(outer: seq<int>, inner: seq<int>): (r: seq<(int, int)>)
    ensures |r| == |outer| * |inner|
  {
    if outer == [] then []
    else
      assert |outer[1..]| * |inner| == |outer| * |inner| - |inner|;
      Row(outer[0], inner) + FlatMapRows(outer[1..], inner)
  }

  /** `gen_2d_range(from, to)`: `(to - from)²` pairs when `from <= to`, none otherwise. */
  function Gen2dRange(lo: int, hi: int): (r: seq<(int, int)>)
    ensures |r| == Side(lo, hi) * Side(lo, hi)
  {
    FlatMapRows(Range(lo, hi), Range(lo, hi))
  }

  /** The side length of the square of pairs: `hi - lo`, or none at all. */
  function Side(lo: int, hi: int): nat {
    if lo <= hi then hi - lo else 0
  }

  /** Where row `y` of a row-major layout `width` wide starts: the grid's
      rows here, the pixel buffer's rows in `render_to`.  Counted row by row
      so that loops over rows stay linear. */
  function RowStart(y: nat, width: nat): nat {
    if y == 0 then 0 else RowStart(y - 1, width) + width
  }

  /** Row `y` starts at `y * width`. */
  lemma {:induction false} RowStartIsProduct(y: nat, width: nat)
    ensures RowStart(y, width) == y * width
  {
    if y > 0 {
      RowStartIsProduct(y - 1, width);
      assert (y - 1) * width == y * width - width;
    }
  }

  /** Later rows start later. */
  lemma {:induction false} RowStartMonotonic(m: nat, n: nat, width: nat)
    requires m <= n
    ensures RowStart(m, width) <= RowStart(n, width)
    decreases n
  {
    if m < n {
      RowStartMonotonic(m, n - 1, width);
    }
  }

  /** Row `p` of the flattened grid starts at `RowStart(p, |inner|)` (that
      is `p * |inner|`) and holds `outer[p]` paired with each inner value in
      turn. */
  lemma {:induction false} FlatMapRowsAt(outer: seq<int>, inner: seq<int>, p: nat, q: nat)
    requires p < |outer| && q < |inner|
    ensures RowStart(p, |inner|) + q < |FlatMapRows(outer, inner)|
    ensures FlatMapRows(outer, inner)[RowStart(p, |inner|) + q] == (outer[p], inner[q])
  {
    var row := Row(outer[0], inner);
    var rest := FlatMapRows(outer[1..], inner);
    assert FlatMapRows(outer, inner) == row + rest;
    if p != 0 {
      var p': nat := p - 1;
      FlatMapRowsAt(outer[1..], inner, p', q);
      assert outer[1..][p'] == outer[p];
      assert RowStart(p, |inner|) == RowStart(p', |inner|) + |row|;
    }
  }

  /** Every pair draws its first component from `outer` and its second from `inner`. */
  lemma {:induction false} FlatMapRowsMembers(outer: seq<int>, inner: seq<int>)
    ensures forall pr :: pr in FlatMapRows(outer, inner) ==> pr.0 in outer && pr.1 in inner
  {
    if outer != [] {
      FlatMapRowsMembers(outer[1..], inner);
      forall pr | pr in FlatMapRows(outer, inner)
        ensures pr.0 in outer && pr.1 in inner
      {
        if pr in Row(outer[0], inner) {
          var j :| 0 <= j < |inner| && Row(outer[0], inner)[j] == pr;
        } else {
          assert pr in FlatMapRows(outer[1..], inner);
        }
      }
    }
  }

  ghost predicate StrictlyIncreasing(s: seq<int>) {
    forall i, j :: 0 <= i < j < |s| ==> s[i] < s[j]
  }

  /** Lexicographic order on pairs. */
  predicate LexLess(p: (int, int), q: (int, int)) {
    p.0 < q.0 || (p.0 == q.0 && p.1 < q.1)
  }

  /** Over increasing ranges the flattened grid is strictly increasing in
      lexicographic order. */
  lemma {:induction false} FlatMapRowsSorted(outer: seq<int>, inner: seq<int>)
    requires StrictlyIncreasing(outer) && StrictlyIncreasing(inner)
    ensures forall i, j :: 0 <= i < j < |FlatMapRows(outer, inner)| ==>
      LexLess(FlatMapRows(outer, inner)[i], FlatMapRows(outer, inner)[j])
  {
    if outer != [] {
      var row := Row(outer[0], inner);
      var rest := FlatMapRows(outer[1..], inner);
      var all := FlatMapRows(outer, inner);
      assert StrictlyIncreasing(outer[1..]) by {
        forall i, j | 0 <= i < j < |outer[1..]| ensures outer[1..][i] < outer[1..][j] {
          assert outer[1..][i] == outer[i + 1] && outer[1..][j] == outer[j + 1];
        }
      }
      FlatMapRowsSorted(outer[1..], inner);
      FlatMapRowsMembers(outer[1..], inner);
      assert all == row + rest;
      forall i, j | 0 <= i < j < |all| ensures LexLess(all[i], all[j]) {
        if j < |row| {
          assert all[i] == row[i] && all[j] == row[j];
        } else if i < |row| {
          assert all[i] == row[i];
          assert all[j] == rest[j - |row|];
          assert all[j] in rest;
          var k :| 0 < k < |outer| && outer[k] == all[j].0;
        } else {
          assert all[i] == rest[i - |row|] && all[j] == rest[j - |row|];
        }
      }
    }
  }

  lemma RangeIncreasing(lo: int, hi: int)
    ensures StrictlyIncreasing(Range(lo, hi))
  {
  }

  lemma RangeMembers(lo: int, hi: int, a: int)
    ensures a in Range(lo, hi) <==> lo <= a < hi
  {
    if lo <= a < hi {
      assert Range(lo, hi)[a - lo] == a;
    }
  }

  /** The pair `(a, b)` sits at position `(a - lo) * n + (b - lo)`, with `n`
      the side length: the outer component is fixed while the inner one runs
      through the range. */
  lemma Gen2dRangeAt(lo: int, hi: int, a: int, b: int)
    requires lo <= a < hi && lo <= b < hi
    ensures var i := RowStart(a - lo, Side(lo, hi)) + (b - lo);
      i == (a - lo) * Side(lo, hi) + (b - lo) &&
      i < |Gen2dRange(lo, hi)| && Gen2dRange(lo, hi)[i] == (a, b)
  {
    var r := Range(lo, hi);
    var p: nat, q: nat := a - lo, b - lo;
    assert |r| == Side(lo, hi);
    assert r[p] == a && r[q] == b;
    FlatMapRowsAt(r, r, p, q);
    RowStartIsProduct(p, Side(lo, hi));
  }

  /** A pair is yielded exactly when both components lie in `from..to`. */
  lemma Gen2dRangeMembers(lo: int, hi: int, a: int, b: int)
    ensures (a, b) in Gen2dRange(lo, hi) <==> lo <= a < hi && lo <= b < hi
  {
    if lo <= a < hi && lo <= b < hi {
      Gen2dRangeAt(lo, hi, a, b);
    } else {
      RangeMembers(lo, hi, a);
      RangeMembers(lo, hi, b);
      FlatMapRowsMembers(Range(lo, hi), Range(lo, hi));
    }
  }

  /** The pairs come in strictly increasing lexicographic order. */
  lemma Gen2dRangeSorted(lo: int, hi: int)
    ensures forall i, j :: 0 <= i < j < |Gen2dRange(lo, hi)| ==>
      LexLess(Gen2dRange(lo, hi)[i], Gen2dRange(lo, hi)[j])
  {
    RangeIncreasing(lo, hi);
    FlatMapRowsSorted(Range(lo, hi), Range(lo, hi));
  }

  /** No pair is yielded twice. */
  lemma Gen2dRangeDistinct(lo: int, hi: int)
    ensures forall i, j :: 0 <= i < j < |Gen2dRange(lo, hi)| ==>
      Gen2dRange(lo, hi)[i] != Gen2dRange(lo, hi)[j]
  {
    Gen2dRangeSorted(lo, hi);
  }

  /** The camera's offsets: the nine pairs of `{-1, 0, 1}²`, in this order. */
  lemma CameraOffsets()
    ensures Gen2dRange(-1, 2) ==
      [(-1, -1), (-1, 0), (-1, 1), (0, -1), (0, 0), (0, 1), (1, -1), (1, 0), (1, 1)]
  {
    var r := Range(-1, 2);
    assert r == [-1, 0, 1];
    assert Row(-1, r) == [(-1, -1), (-1, 0), (-1, 1)];
    assert Row(0, r) == [(0, -1), (0, 0), (0, 1)];
    assert Row(1, r) == [(1, -1), (1, 0), (1, 1)];
    assert r[1..] == [0, 1] && r[1..][1..] == [1];
    assert FlatMapRows([1], r) == Row(1, r);
    assert FlatMapRows([0, 1], r) == Row(0, r) + Row(1, r);
  }
}
