/**
  The embedded statistics kernel (`md_utils.c`), with `float` values as exact
  reals. The routines that sort or overwrite their input array in place return
  the array's contents after the call together with their result.
 */
module MdUtils {
  import opened LinAlg
  import opened Sorting

  // ---------------------------------------------------------------- compare_floats

  /** `compare_floats`: the three-way comparator handed to `qsort`. */
  function CompareFloats(x: real, y: real): (r: int)
    ensures r == -1 <==> x < y
    ensures r == 1 <==> x > y
    ensures r == 0 <==> x == y
  {
    if x < y then -1 else if x > y then 1 else 0
  }

  /** Swapping the arguments negates the comparison. */
  lemma CompareAntisymmetric(x: real, y: real)
    ensures CompareFloats(y, x) == -CompareFloats(x, y)
  {
  }

  /** An array is in `qsort` order under the comparator exactly when it is ascending. */
  lemma SortedByComparator(s: seq<real>)
    ensures Sorted(s) <==> forall i, j :: 0 <= i < j < |s| ==> CompareFloats(s[i], s[j]) <= 0
  {
  }

  // ---------------------------------------------------------------- median and calc_mad

  /** The array as the routine leaves it, and the value it returns. */
  datatype InPlace = InPlace(arr: seq<real>, value: real)

  /** The least element. */
  function MinOf(s: seq<real>): (m: real)
    requires |s| >= 1
    ensures m in s
    ensures forall k :: 0 <= k < |s| ==> m <= s[k]
    decreases |s|
  {
    if |s| == 1 then s[0]
    else
      var m' := MinOf(s[..|s| - 1]);
      assert forall k :: 0 <= k < |s| - 1 ==> s[..|s| - 1][k] == s[k];
      if s[|s| - 1] < m' then s[|s| - 1] else m'
  }

  /** A lower bound of every element bounds the least one. */
  lemma {:induction false} MinOfAtLeast(s: seq<real>, lo: real)
    requires |s| >= 1 && forall k :: 0 <= k < |s| ==> lo <= s[k]
    ensures lo <= MinOf(s)
    decreases |s|
  {
    if |s| > 1 {
      MinOfAtLeast(s[..|s| - 1], lo);
    }
  }

  /** The greatest element. */
  function MaxOf(s: seq<real>): (m: real)
    requires |s| >= 1
    ensures m in s
    ensures forall k :: 0 <= k < |s| ==> s[k] <= m
    decreases |s|
  {
    if |s| == 1 then s[0]
    else
      var m' := MaxOf(s[..|s| - 1]);
      assert forall k :: 0 <= k < |s| - 1 ==> s[..|s| - 1][k] == s[k];
      if s[|s| - 1] > m' then s[|s| - 1] else m'
  }

  /** The middle element of an odd-length array, or the mean of the two middle elements of an even-length one. */
  function Middle(s: seq<real>): real
    requires |s| >= 1
  {
    if |s| % 2 == 0 then (s[(|s| - 1) / 2] + s[|s| / 2]) / 2.0 else s[|s| / 2]
  }

  /** The ends of a sorted permutation are the least and greatest elements. */
  lemma SortedEnds(r: seq<real>, s: seq<real>)
    requires |s| >= 1 && Sorted(r) && multiset(r) == multiset(s)
    ensures |r| == |s|
    ensures r[0] == MinOf(s) && r[|r| - 1] == MaxOf(s)
  {
    assert |r| == |multiset(r)| == |s|;
    var lo := MinOf(s);
    var hi := MaxOf(s);
    assert lo in multiset(r) && hi in multiset(r);
    assert r[0] in multiset(s) && r[|r| - 1] in multiset(s);
    var a :| 0 <= a < |r| && r[a] == lo;
    var b :| 0 <= b < |r| && r[b] == hi;
    var c :| 0 <= c < |s| && s[c] == r[0];
    var d :| 0 <= d < |s| && s[d] == r[|r| - 1];
  }

  /**
    `median(arr, arr_len)`: sorts the array in place and returns its middle
    value. The array must not be empty: for length 0 the routine reads
    `arr[0]`, outside the array.
   */
  function Median(arr: seq<real>): (r: InPlace)
    requires |arr| >= 1
    ensures Sorted(r.arr) && multiset(r.arr) == multiset(arr)
    ensures r.value == Middle(r.arr)
    ensures MinOf(arr) <= r.value <= MaxOf(arr)
  {
    var s := Sort(arr);
    SortedEnds(s, arr);
    InPlace(s, Middle(s))
  }

  /** The median depends only on the values, not on their order. */
  lemma MedianPermutationInvariant(a: seq<real>, b: seq<real>)
    requires |a| >= 1 && multiset(a) == multiset(b)
    ensures |b| >= 1 && Median(a) == Median(b)
  {
    assert |a| == |multiset(a)| == |b|;
    SortIsPermutationInvariant(a, b);
  }

  /** Whatever sorting routine is used, the median is the middle of the sorted arrangement. */
  lemma MedianOfAnySort(arr: seq<real>, sorted: seq<real>)
    requires |arr| >= 1 && Sorted(sorted) && multiset(sorted) == multiset(arr)
    ensures Median(arr) == InPlace(sorted, Middle(sorted))
  {
    SortedPermutationIsSort(arr, sorted);
  }

  /** The median of an array holding one value throughout is that value. */
  lemma MedianOfConstant(arr: seq<real>, c: real)
    requires |arr| >= 1 && forall k :: 0 <= k < |arr| ==> arr[k] == c
    ensures Median(arr).value == c
  {
    assert MinOf(arr) == c && MaxOf(arr) == c;
  }

  function Abs(x: real): real
  {
    if x < 0.0 then -x else x
  }

  /** `f` applied to every element, as the C loops do in place. */
  function Map(s: seq<real>, f: real -> real): (r: seq<real>)
    ensures |r| == |s|
    ensures forall k :: 0 <= k < |s| ==> r[k] == f(s[k])
    decreases |s|
  {
    if s == [] then [] else Map(s[..|s| - 1], f) + [f(s[|s| - 1])]
  }

  lemma {:induction false} MapConcat(a: seq<real>, b: seq<real>, f: real -> real)
    ensures Map(a + b, f) == Map(a, f) + Map(b, f)
  {
    var l := Map(a + b, f);
    var r := Map(a, f) + Map(b, f);
    assert |l| == |r|;
    forall k | 0 <= k < |l| ensures l[k] == r[k] {
      if k < |a| {
        assert (a + b)[k] == a[k];
      } else {
        assert (a + b)[k] == b[k - |a|];
      }
    }
  }

  /** The image of a sequence is the image without entry `k`, plus the image of that entry. */
  lemma {:induction false} MapRemove(t: seq<real>, k: nat, f: real -> real)
    requires k < |t|
    ensures multiset(Map(t, f)) == multiset(Map(t[..k] + t[k + 1..], f)) + multiset{f(t[k])}
  {
    var a := Map(t[..k], f);
    var b := Map(t[k + 1..], f);
    assert Map(t, f) == a + [f(t[k])] + b by {
      assert t == t[..k] + [t[k]] + t[k + 1..];
      MapConcat(t[..k], [t[k]], f);
      MapConcat(t[..k] + [t[k]], t[k + 1..], f);
    }
    assert Map(t[..k] + t[k + 1..], f) == a + b by { MapConcat(t[..k], t[k + 1..], f); }
    MultisetInsert(a, f(t[k]), b);
  }

  /** Rearranging the values rearranges their images the same way. */
  lemma {:induction false} MapPermutation(s: seq<real>, t: seq<real>, f: real -> real)
    requires multiset(s) == multiset(t)
    ensures multiset(Map(s, f)) == multiset(Map(t, f))
    decreases |s|
  {
    if |s| == 0 {
      assert |t| == |multiset(t)| == 0;
    } else {
      var n := |s| - 1;
      assert s[n] in multiset(t);
      var k :| 0 <= k < |t| && t[k] == s[n];
      var s' := s[..n] + s[n + 1..];
      var t' := t[..k] + t[k + 1..];
      assert multiset(s') == multiset(t') by {
        RemoveAt(s, n);
        RemoveAt(t, k);
      }
      assert multiset(Map(s', f)) == multiset(Map(t', f)) by { MapPermutation(s', t', f); }
      assert multiset(Map(s, f)) == multiset(Map(s', f)) + multiset{f(s[n])} by { MapRemove(s, n, f); }
      assert multiset(Map(t, f)) == multiset(Map(t', f)) + multiset{f(t[k])} by { MapRemove(t, k, f); }
    }
  }

  /** The distance from `m`. */
  function Deviation(m: real): real -> real
  {
    x => Abs(x - m)
  }

  /** `fabs(arr[i] - med)` for every element, in place. */
  function AbsDev(s: seq<real>, m: real): (d: seq<real>)
    ensures |d| == |s|
    ensures forall k :: 0 <= k < |s| ==> d[k] == Abs(s[k] - m)
  {
    Map(s, Deviation(m))
  }

  /** Rearranging the values rearranges their deviations the same way. */
  lemma AbsDevPermutation(s: seq<real>, t: seq<real>, m: real)
    requires multiset(s) == multiset(t)
    ensures multiset(AbsDev(s, m)) == multiset(AbsDev(t, m))
  {
    MapPermutation(s, t, Deviation(m));
  }

  /**
    `calc_mad(arr, arr_len)`: the median of the absolute deviations from the
    median. The deviations are taken over the array as the first `median`
    left it (sorted), and the array ends up holding them, sorted.
   */
  function CalcMad(arr: seq<real>): (r: InPlace)
    requires |arr| >= 1
    ensures r.value >= 0.0
    ensures var dev := AbsDev(arr, Median(arr).value);
      && Sorted(r.arr) && multiset(r.arr) == multiset(dev)
      && r.value == Median(dev).value
  {
    var m := Median(arr);
    var dev := AbsDev(m.arr, m.value);
    DeviationsOfSorted(arr, m.arr, m.value, dev);
    Median(dev)
  }

  /** The deviations of a rearrangement are a rearrangement of the deviations, with the same median. */
  lemma DeviationsOfSorted(arr: seq<real>, sorted: seq<real>, med: real, dev: seq<real>)
    requires |arr| >= 1 && multiset(sorted) == multiset(arr) && dev == AbsDev(sorted, med)
    ensures |dev| >= 1
    ensures multiset(dev) == multiset(AbsDev(arr, med))
    ensures Median(dev) == Median(AbsDev(arr, med))
    ensures Median(dev).value >= 0.0
  {
    assert |dev| >= 1 by { assert |sorted| == |multiset(sorted)| == |arr|; }
    AbsDevPermutation(sorted, arr, med);
    MedianPermutationInvariant(dev, AbsDev(arr, med));
    MinOfAtLeast(dev, 0.0);
  }

  /** A constant array has no deviation. */
  lemma MadOfConstant(arr: seq<real>, c: real)
    requires |arr| >= 1 && forall k :: 0 <= k < |arr| ==> arr[k] == c
    ensures CalcMad(arr).value == 0.0
  {
    MedianOfConstant(arr, c);
    var dev := AbsDev(arr, c);
    MedianOfConstant(dev, 0.0);
  }

  /** Translation by `c`. */
  function Translation(c: real): real -> real
  {
    x => x + c
  }

  /** Every value moved by `c`. */
  function Shift(s: seq<real>, c: real): (r: seq<real>)
    ensures |r| == |s|
    ensures forall k :: 0 <= k < |s| ==> r[k] == s[k] + c
  {
    Map(s, Translation(c))
  }

  lemma ShiftSorted(s: seq<real>, c: real)
    requires Sorted(s)
    ensures Sorted(Shift(s, c))
  {
  }

  lemma ShiftPermutation(s: seq<real>, t: seq<real>, c: real)
    requires multiset(s) == multiset(t)
    ensures multiset(Shift(s, c)) == multiset(Shift(t, c))
  {
    MapPermutation(s, t, Translation(c));
  }

  /** Sorting commutes with translation. */
  lemma SortShift(s: seq<real>, c: real)
    ensures Sort(Shift(s, c)) == Shift(Sort(s), c)
  {
    ShiftSorted(Sort(s), c);
    ShiftPermutation(Sort(s), s, c);
    SortedPermutationIsSort(Shift(s, c), Shift(Sort(s), c));
  }

  /** The middle of translated data is the translated middle. */
  lemma MiddleShift(r: seq<real>, c: real)
    requires |r| >= 1
    ensures Middle(Shift(r, c)) == Middle(r) + c
  {
    var r' := Shift(r, c);
    if |r| % 2 == 0 {
      assert r'[(|r| - 1) / 2] == r[(|r| - 1) / 2] + c;
      assert r'[|r| / 2] == r[|r| / 2] + c;
    } else {
      assert r'[|r| / 2] == r[|r| / 2] + c;
    }
  }

  /** The median moves with a translation of the data. */
  lemma MedianShift(s: seq<real>, c: real)
    requires |s| >= 1
    ensures Median(Shift(s, c)).value == Median(s).value + c
  {
    var r := Sort(s);
    assert |r| >= 1 by { assert |r| == |multiset(r)| == |s|; }
    assert Median(Shift(s, c)).value == Middle(Shift(r, c)) by { SortShift(s, c); }
    assert Middle(Shift(r, c)) == Middle(r) + c by { MiddleShift(r, c); }
  }

  /** Deviations from a translated centre of translated data are the original deviations. */
  lemma AbsDevShift(s: seq<real>, m: real, c: real, mt: real)
    requires mt == m + c
    ensures AbsDev(Shift(s, c), mt) == AbsDev(s, m)
  {
    var a := AbsDev(Shift(s, c), mt);
    var b := AbsDev(s, m);
    forall k | 0 <= k < |s| ensures a[k] == b[k] {
      assert (s[k] + c) - mt == s[k] - m;
    }
  }

  lemma MedianOfShiftedDeviations(s: seq<real>, m: real, c: real, mt: real)
    requires |s| >= 1 && mt == m + c
    ensures Median(AbsDev(Shift(s, c), mt)).value == Median(AbsDev(s, m)).value
  {
    var a := AbsDev(Shift(s, c), mt);
    var b := AbsDev(s, m);
    assert a == b by { AbsDevShift(s, m, c, mt); }
  }

  /** The MAD is translation invariant. */
  lemma MadShift(s: seq<real>, c: real)
    requires |s| >= 1
    ensures CalcMad(Shift(s, c)).value == CalcMad(s).value
  {
    var m := Median(s).value;
    var t := Shift(s, c);
    var mt := Median(t).value;
    assert mt == m + c by { MedianShift(s, c); }
    assert CalcMad(t).value == Median(AbsDev(t, mt)).value;
    assert Median(AbsDev(t, mt)).value == Median(AbsDev(s, m)).value by {
      MedianOfShiftedDeviations(s, m, c, mt);
    }
  }

  // ---------------------------------------------------------------- dot_product

  /** `dot_product(a, b, len)` */
  method DotProduct(a: seq<real>, b: seq<real>, len: nat) returns (sum: real)
    requires len <= |a| && len <= |b|
    ensures sum == Dot(a[..len], b[..len])
  {
    sum := 0.0;
    var i := 0;
    while i < len
      invariant 0 <= i <= len
      invariant sum == Dot(a[..i], b[..i])
    {
      assert a[..i + 1] == a[..i] + [a[i]] && b[..i + 1] == b[..i] + [b[i]];
      DotSnoc(a[..i], b[..i], a[i], b[i]);
      sum := sum + a[i] * b[i];
      i := i + 1;
    }
  }

  // ---------------------------------------------------------------- matrix_multiply

  /** The innermost loop of `matrix_multiply`: row `i` of `a` against column `j` of `b`. */
  method CellSum(a: seq<real>, b: seq<real>, aRows: nat, aCols: nat, bCols: nat, i: nat, j: nat)
    returns (sum: real)
    requires i < aRows && aRows * aCols <= |a|
    requires j < bCols && aCols * bCols <= |b|
    ensures sum == Entry(a, b, aRows, aCols, bCols, i, j)
  {
    RowBound(i, aRows, aCols);
    sum := 0.0;
    var k := 0;
    while k < aCols
      invariant 0 <= k <= aCols
      invariant sum == Dot(Row(a, aCols, i)[..k], Col(b, bCols, j, k))
    {
      RowMajorBound(i, k, aRows, aCols);
      RowMajorBound(k, j, aCols, bCols);
      CellSumStep(a, b, aCols, bCols, i, j, k);
      sum := sum + a[i * aCols + k] * b[k * bCols + j];
      k := k + 1;
    }
    assert Row(a, aCols, i)[..aCols] == Row(a, aCols, i);
  }

  /** One more term of the sum for entry `(i, j)`. */
  lemma CellSumStep(a: seq<real>, b: seq<real>, aCols: nat, bCols: nat, i: nat, j: nat, k: nat)
    requires k < aCols && j < bCols
    requires (i + 1) * aCols <= |a| && i * aCols + k < |a|
    requires k * bCols <= |b| && (k + 1) * bCols <= |b| && k * bCols + j < |b|
    ensures Dot(Row(a, aCols, i)[..k + 1], Col(b, bCols, j, k + 1))
      == Dot(Row(a, aCols, i)[..k], Col(b, bCols, j, k)) + a[i * aCols + k] * b[k * bCols + j]
  {
    var row := Row(a, aCols, i);
    var col := Col(b, bCols, j, k);
    var x := a[i * aCols + k];
    var y := b[k * bCols + j];
    assert row[..k + 1] == row[..k] + [x] by { assert row[k] == x; }
    assert Col(b, bCols, j, k + 1) == col + [y] by { ColSnoc(b, bCols, j, k); }
    assert Dot(row[..k] + [x], col + [y]) == Dot(row[..k], col) + x * y by { DotSnoc(row[..k], col, x, y); }
  }

  /** Position `(i, j)` of the flat product holds its entry. */
  predicate CellDone(out: seq<real>, a: seq<real>, b: seq<real>, aRows: nat, aCols: nat, bCols: nat, i: nat, j: nat)
  {
    && i < aRows && j < bCols && aRows * aCols <= |a| && aCols * bCols <= |b|
    && i * bCols + j < |out| && out[i * bCols + j] == Entry(a, b, aRows, aCols, bCols, i, j)
  }

  /** Writing elsewhere keeps a filled position filled. */
  lemma CellDoneUpdate(out: seq<real>, a: seq<real>, b: seq<real>, aRows: nat, aCols: nat, bCols: nat,
                       i: nat, j: nat, q: nat, v: real)
    requires CellDone(out, a, b, aRows, aCols, bCols, i, j)
    requires q < |out| && q != i * bCols + j
    ensures CellDone(out[q := v], a, b, aRows, aCols, bCols, i, j)
  {
  }

  /**
    `matrix_multiply(a, b, a_rows, a_cols, b_rows, b_cols, prod)`: refuses
    with 0, leaving `prod` as it was, when the inner dimensions differ;
    otherwise fills the `a_rows × b_cols` product into `prod` in row-major
    order and returns 1.
   */
  method MatrixMultiply(a: seq<real>, b: seq<real>, aRows: nat, aCols: nat, bRows: nat, bCols: nat,
                        prod: seq<real>)
    returns (ok: int, out: seq<real>)
    requires aCols == bRows ==> aRows * aCols <= |a| && bRows * bCols <= |b| && aRows * bCols <= |prod|
    ensures ok == 0 || ok == 1
    ensures ok == 0 <==> aCols != bRows
    ensures ok == 0 ==> out == prod
    ensures |out| == |prod|
    ensures ok == 1 ==> forall i, j :: 0 <= i < aRows && 0 <= j < bCols ==> CellDone(out, a, b, aRows, aCols, bCols, i, j)
    ensures ok == 1 ==> forall p :: aRows * bCols <= p < |out| ==> out[p] == prod[p]
  {
    if aCols != bRows {
      return 0, prod;
    }
    out := prod;
    var i := 0;
    while i < aRows
      invariant 0 <= i <= aRows
      invariant |out| == |prod|
      invariant forall i', j' :: 0 <= i' < i && 0 <= j' < bCols ==> CellDone(out, a, b, aRows, aCols, bCols, i', j')
      invariant forall p :: i * bCols <= p < |out| ==> out[p] == prod[p]
    {
      out := FillRow(a, b, aRows, aCols, bCols, i, prod, out);
      assert (i + 1) * bCols == i * bCols + bCols;
      i := i + 1;
    }
    assert aRows * bCols <= i * bCols;
    return 1, out;
  }

  /** The two inner loops of `matrix_multiply`: row `i` of the product. */
  method FillRow(a: seq<real>, b: seq<real>, aRows: nat, aCols: nat, bCols: nat, i: nat,
                 prod: seq<real>, cur: seq<real>)
    returns (out: seq<real>)
    requires i < aRows && aRows * aCols <= |a| && aCols * bCols <= |b| && aRows * bCols <= |prod|
    requires |cur| == |prod|
    requires forall i', j' :: 0 <= i' < i && 0 <= j' < bCols ==> CellDone(cur, a, b, aRows, aCols, bCols, i', j')
    requires forall p :: i * bCols <= p < |cur| ==> cur[p] == prod[p]
    ensures |out| == |prod|
    ensures forall i', j' :: 0 <= i' <= i && 0 <= j' < bCols ==> CellDone(out, a, b, aRows, aCols, bCols, i', j')
    ensures forall p :: i * bCols + bCols <= p < |out| ==> out[p] == prod[p]
  {
    out := cur;
    var j := 0;
    while j < bCols
      invariant 0 <= j <= bCols
      invariant |out| == |prod|
      invariant forall i', j' :: 0 <= i' < i && 0 <= j' < bCols ==> CellDone(out, a, b, aRows, aCols, bCols, i', j')
      invariant forall j' :: 0 <= j' < j ==> CellDone(out, a, b, aRows, aCols, bCols, i, j')
      invariant forall p :: i * bCols + j <= p < |out| ==> out[p] == prod[p]
    {
      var sum := CellSum(a, b, aRows, aCols, bCols, i, j);
      RowMajorBound(i, j, aRows, bCols);
      var q := i * bCols + j;
      ghost var prev := out;
      out := out[q := sum];
      forall i', j' | 0 <= i' < i && 0 <= j' < bCols
        ensures CellDone(out, a, b, aRows, aCols, bCols, i', j')
      {
        RowMajorOrder(i', j', i, j, bCols);
        CellDoneUpdate(prev, a, b, aRows, aCols, bCols, i', j', q, sum);
      }
      forall j' | 0 <= j' < j
        ensures CellDone(out, a, b, aRows, aCols, bCols, i, j')
      {
        CellDoneUpdate(prev, a, b, aRows, aCols, bCols, i, j', q, sum);
      }
      assert CellDone(out, a, b, aRows, aCols, bCols, i, j);
      j := j + 1;
    }
  }

  // ---------------------------------------------------------------- mahalanobis

  /**
    `mahalanobis(x, mu, inv_cov, len)`: the quadratic form
    `(x - mu) · inv_cov · (x - mu)ᵀ` of the flat `len × len` inverse covariance,
    with no square root taken.
   */
  method Mahalanobis(x: seq<real>, mu: seq<real>, invCov: seq<real>, len: nat) returns (r: real)
    requires len <= |x| && len <= |mu| && len * len <= |invCov|
    ensures r == Quad(Sub(x[..len], mu[..len]), Unflatten(invCov, len, len))
  {
    var d := Sub(x[..len], mu[..len]);
    var ok1, left := MatrixMultiply(d, invCov, 1, len, len, len, Zeros(len));
    var dT := d;
    var ok2, mahal := MatrixMultiply(left, dT, 1, len, len, 1, [0.0]);
    assert ok1 == 1 && ok2 == 1;
    assert CellDone(mahal, left, d, 1, len, 1, 0, 0);
    r := mahal[0];
    LeftTermIsVecMat(d, invCov, len, left);
    QuadFromProducts(d, invCov, len, left, r);
  }

  function Zeros(n: nat): (z: seq<real>)
    ensures |z| == n && IsZero(z)
    decreases n
  {
    if n == 0 then [] else Zeros(n - 1) + [0.0]
  }

  /** The first product of `mahalanobis` is the row vector `d · inv_cov`. */
  lemma LeftTermIsVecMat(d: seq<real>, invCov: seq<real>, len: nat, left: seq<real>)
    requires |d| == len && len * len <= |invCov| && |left| == len
    requires forall j :: 0 <= j < len ==> CellDone(left, d, invCov, 1, len, len, 0, j)
    ensures left == VecMat(d, Unflatten(invCov, len, len), len)
  {
    var m := Unflatten(invCov, len, len);
    assert Row(d, len, 0) == d;
    forall j | 0 <= j < len ensures left[j] == VecMat(d, m, len)[j] {
      assert CellDone(left, d, invCov, 1, len, len, 0, j);
      ColumnOfUnflatten(invCov, len, len, j);
    }
  }

  /** The second product of `mahalanobis` takes the dot product with `d` again. */
  lemma QuadFromProducts(d: seq<real>, invCov: seq<real>, len: nat, left: seq<real>, r: real)
    requires |d| == len && len * len <= |invCov|
    requires left == VecMat(d, Unflatten(invCov, len, len), len)
    requires r == Entry(left, d, 1, len, 1, 0, 0)
    ensures r == Quad(d, Unflatten(invCov, len, len))
  {
    assert r == Dot(left, d) by {
      RowOfVector(left);
      ColOfVector(d);
    }
  }

  /** A vector is the only row of a one-row flat matrix. */
  lemma RowOfVector(v: seq<real>)
    ensures Row(v, |v|, 0) == v
  {
  }

  /** A vector is the only column of a one-column flat matrix. */
  lemma ColOfVector(v: seq<real>)
    ensures Col(v, 1, 0, |v|) == v
  {
    forall k | 0 <= k < |v| ensures Col(v, 1, 0, |v|)[k] == v[k] {
      ColAt(v, 1, 0, |v|, k);
    }
  }

  /** Equal vectors are at distance zero. */
  lemma MahalanobisOfMean(x: seq<real>, invCov: seq<real>, len: nat)
    requires len <= |x| && len * len <= |invCov|
    ensures Quad(Sub(x[..len], x[..len]), Unflatten(invCov, len, len)) == 0.0
  {
    QuadZero(Sub(x[..len], x[..len]), Unflatten(invCov, len, len));
  }

  // ---------------------------------------------------------------- calc_mse

  /** `Σ_{i<n} (x[i] - x_hat[i])²` */
  function SumSq(x: seq<real>, xHat: seq<real>, n: nat): real
    requires n <= |x| && n <= |xHat|
  {
    var d := Sub(x[..n], xHat[..n]);
    Dot(d, d)
  }

  lemma SumSqStep(x: seq<real>, xHat: seq<real>, n: nat)
    requires n < |x| && n < |xHat|
    ensures SumSq(x, xHat, n + 1) == SumSq(x, xHat, n) + (x[n] - xHat[n]) * (x[n] - xHat[n])
  {
    var d := Sub(x[..n], xHat[..n]);
    assert Sub(x[..n + 1], xHat[..n + 1]) == d + [x[n] - xHat[n]];
    DotSnoc(d, d, x[n] - xHat[n], x[n] - xHat[n]);
  }

  /** `calc_mse(x, x_hat, len)`: the mean of the squared differences. */
  method CalcMse(x: seq<real>, xHat: seq<real>, len: nat) returns (mse: real)
    requires 0 < len <= |x| && len <= |xHat|
    ensures mse == MeanSq(x, xHat, len)
    ensures mse >= 0.0
    ensures x[..len] == xHat[..len] ==> mse == 0.0
  {
    var total := 0.0;
    var i := 0;
    while i < len
      invariant 0 <= i <= len
      invariant total == SumSq(x, xHat, i)
    {
      SumSqStep(x, xHat, i);
      total := total + (x[i] - xHat[i]) * (x[i] - xHat[i]);
      i := i + 1;
    }
    mse := total / (len as real);
    MeanSqFacts(x, xHat, len);
  }

  /** `Σ (x[i] - x_hat[i])² / len` */
  function MeanSq(x: seq<real>, xHat: seq<real>, len: nat): real
    requires 0 < len <= |x| && len <= |xHat|
  {
    SumSq(x, xHat, len) / (len as real)
  }

  lemma DivNonNegative(a: real, n: real)
    requires a >= 0.0 && n > 0.0
    ensures a / n >= 0.0
  {
  }

  /** The mean squared error is non-negative, and zero when the two arrays agree. */
  lemma MeanSqFacts(x: seq<real>, xHat: seq<real>, len: nat)
    requires 0 < len <= |x| && len <= |xHat|
    ensures MeanSq(x, xHat, len) >= 0.0
    ensures x[..len] == xHat[..len] ==> MeanSq(x, xHat, len) == 0.0
  {
    var total := SumSq(x, xHat, len);
    assert total >= 0.0 by {
      DotSelfNonNegative(Sub(x[..len], xHat[..len]));
    }
    DivNonNegative(total, len as real);
    if x[..len] == xHat[..len] {
      assert total == 0.0 by {
        var d := Sub(x[..len], xHat[..len]);
        DotZero(d, d);
      }
    }
  }
}
