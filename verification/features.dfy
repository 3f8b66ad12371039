/**
  The Python scoring pipeline shared by the detection server and the training
  script: `extract_features` (truncate, optionally scale, then one median
  absolute deviation per axis) and `mahalanobis` in its single-vector and
  batch forms. SciPy's `median_absolute_deviation` is a parameter `mad`
  applied to one column of the sample; the inverse covariance is given.
 */
module Features {
  import opened Wrappers
  import opened LinAlg

  /**
    Rows kept per burst: the detection server's `MAX_MEASUREMENTS`, and the
    training script's `int(sample_time * sensor_sample_rate)` with 0.64 s at
    200 Hz. Both scripts truncate to the same 128 rows.
   */
  const MaxMeasurements: nat := 128

  /** The accelerometer axes: every sample has three columns, one feature each. */
  const Axes: nat := 3

  // ---------------------------------------------------------------- truncation

  /** The number of rows `sample[0:max_measurements]` keeps, where 0 means all. */
  function KeptRows(n: nat, maxMeasurements: nat): nat
  {
    if maxMeasurements == 0 then n else Min(n, maxMeasurements)
  }

  /** `sample[0:max_measurements]` after replacing 0 by the sample length. */
  function Truncate<T>(sample: seq<T>, maxMeasurements: nat): (r: seq<T>)
    ensures r <= sample
    ensures |r| == KeptRows(|sample|, maxMeasurements)
  {
    var limit := if maxMeasurements == 0 then |sample| else maxMeasurements;
    if limit < |sample| then sample[..limit] else sample
  }

  /** A limit of 0, or one no shorter than the sample, keeps the whole sample. */
  lemma TruncateKeepsAll<T>(sample: seq<T>, maxMeasurements: nat)
    requires maxMeasurements == 0 || |sample| <= maxMeasurements
    ensures Truncate(sample, maxMeasurements) == sample
  {
  }

  /** Truncating twice to the same limit is truncating once. */
  lemma TruncateIdempotent<T>(sample: seq<T>, maxMeasurements: nat)
    ensures Truncate(Truncate(sample, maxMeasurements), maxMeasurements) == Truncate(sample, maxMeasurements)
  {
    var r := Truncate(sample, maxMeasurements);
    assert |r| == KeptRows(|r|, maxMeasurements);
  }

  /** Rows past a positive limit never reach the features: only the first `max_measurements` rows matter. */
  lemma TruncateIgnoresTail<T>(sample: seq<T>, extra: seq<T>, maxMeasurements: nat)
    requires 0 < maxMeasurements <= |sample|
    ensures Truncate(sample + extra, maxMeasurements) == Truncate(sample, maxMeasurements)
  {
    assert (sample + extra)[..maxMeasurements] == sample[..maxMeasurements];
  }

  /** A truncated matrix keeps its row width. */
  lemma TruncateMatrix(sample: seq<seq<real>>, width: nat, maxMeasurements: nat)
    requires IsMatrix(sample, width)
    ensures IsMatrix(Truncate(sample, maxMeasurements), width)
  {
    var r := Truncate(sample, maxMeasurements);
    forall i | 0 <= i < |r| ensures |r[i]| == width {
      assert r[i] == sample[i];
    }
  }

  // ---------------------------------------------------------------- scaling

  /** `scale * sample`: every entry multiplied by `k`. */
  function Scale(k: real, rows: seq<seq<real>>): (r: seq<seq<real>>)
    ensures |r| == |rows|
    ensures forall i :: 0 <= i < |rows| ==> |r[i]| == |rows[i]|
    ensures forall i, j :: 0 <= i < |rows| && 0 <= j < |rows[i]| ==> r[i][j] == k * rows[i][j]
  {
    seq(|rows|, i requires 0 <= i < |rows| => seq(|rows[i]|, j requires 0 <= j < |rows[i]| => k * rows[i][j]))
  }

  /** The default scale 1 leaves the sample unchanged. */
  lemma ScaleOne(rows: seq<seq<real>>)
    ensures Scale(1.0, rows) == rows
  {
    var r := Scale(1.0, rows);
    forall i | 0 <= i < |rows| ensures r[i] == rows[i] {
      assert |r[i]| == |rows[i]|;
    }
  }

  /** Scaling keeps a matrix's width. */
  lemma ScaleMatrix(k: real, rows: seq<seq<real>>, width: nat)
    requires IsMatrix(rows, width)
    ensures IsMatrix(Scale(k, rows), width)
  {
  }

  /** Scaling then truncating is truncating then scaling. */
  lemma ScaleTruncateCommute(k: real, rows: seq<seq<real>>, maxMeasurements: nat)
    ensures Scale(k, Truncate(rows, maxMeasurements)) == Truncate(Scale(k, rows), maxMeasurements)
  {
    var a := Scale(k, Truncate(rows, maxMeasurements));
    var b := Truncate(Scale(k, rows), maxMeasurements);
    var t := Truncate(rows, maxMeasurements);
    forall i | 0 <= i < |a| ensures a[i] == b[i] {
      assert t[i] == rows[i];
      assert |a[i]| == |b[i]|;
    }
  }

  // ---------------------------------------------------------------- features

  /** One `mad` value per column of a sample, in column order (the first `n` columns). */
  function MadsUpTo(rows: seq<seq<real>>, width: nat, n: nat, mad: seq<real> -> real): (f: seq<real>)
    requires IsMatrix(rows, width) && n <= width
    ensures |f| == n
    ensures forall j :: 0 <= j < n ==> f[j] == mad(Column(rows, j))
  {
    if n == 0 then [] else MadsUpTo(rows, width, n - 1, mad) + [mad(Column(rows, n - 1))]
  }

  /** `stats.median_absolute_deviation(sample)`: one value per axis. */
  function Mads(rows: seq<seq<real>>, width: nat, mad: seq<real> -> real): (f: seq<real>)
    requires IsMatrix(rows, width)
    ensures |f| == width
    ensures forall j :: 0 <= j < width ==> f[j] == mad(Column(rows, j))
  {
    MadsUpTo(rows, width, width, mad)
  }

  /** The detection server's `extract_features`: truncate, then one MAD per axis. */
  function ServerFeatures(sample: seq<seq<real>>, width: nat, maxMeasurements: nat, mad: seq<real> -> real): (f: seq<real>)
    requires IsMatrix(sample, width)
    ensures |f| == width
    ensures forall j :: 0 <= j < width ==> f[j] == mad(Column(Truncate(sample, maxMeasurements), j))
  {
    TruncateMatrix(sample, width, maxMeasurements);
    Mads(Truncate(sample, maxMeasurements), width, mad)
  }

  /** The training script's `extract_features`: truncate, scale, then one MAD per axis. */
  function TrainingFeatures(sample: seq<seq<real>>, width: nat, maxMeasurements: nat, scale: real,
                            mad: seq<real> -> real): (f: seq<real>)
    requires IsMatrix(sample, width)
    ensures |f| == width
    ensures forall j :: 0 <= j < width ==>
      f[j] == mad(Column(Scale(scale, Truncate(sample, maxMeasurements)), j))
  {
    TruncateMatrix(sample, width, maxMeasurements);
    ScaleMatrix(scale, Truncate(sample, maxMeasurements), width);
    Mads(Scale(scale, Truncate(sample, maxMeasurements)), width, mad)
  }

  /** At the default scale the two scripts extract the same features. */
  lemma {:induction false} ServerMatchesTraining(sample: seq<seq<real>>, width: nat, maxMeasurements: nat,
                                                 mad: seq<real> -> real)
    requires IsMatrix(sample, width)
    ensures ServerFeatures(sample, width, maxMeasurements, mad) == TrainingFeatures(sample, width, maxMeasurements, 1.0, mad)
  {
    ScaleOne(Truncate(sample, maxMeasurements));
  }

  /** Rows past the limit do not change the features. */
  lemma FeaturesIgnoreTail(sample: seq<seq<real>>, extra: seq<seq<real>>, width: nat, maxMeasurements: nat,
                           mad: seq<real> -> real)
    requires IsMatrix(sample, width) && IsMatrix(extra, width)
    requires 0 < maxMeasurements <= |sample|
    ensures IsMatrix(sample + extra, width)
    ensures ServerFeatures(sample + extra, width, maxMeasurements, mad) == ServerFeatures(sample, width, maxMeasurements, mad)
  {
    TruncateIgnoresTail(sample, extra, maxMeasurements);
  }

  // ---------------------------------------------------------------- mahalanobis

  /** What `mahalanobis` is called with: one feature vector, or a matrix with one per row. */
  datatype Points = Single(x: seq<real>) | Batch(xs: seq<seq<real>>)

  /** What it returns: a 0-d array for a vector, the diagonal for a matrix. */
  datatype Distance = Scalar(value: real) | PerRow(values: seq<real>)

  /** `x - mu` broadcast over the rows of a batch. */
  function SubRows(xs: seq<seq<real>>, mu: seq<real>): (d: seq<seq<real>>)
    requires IsMatrix(xs, |mu|)
    ensures |d| == |xs| && IsMatrix(d, |mu|)
    ensures forall i :: 0 <= i < |xs| ==> d[i] == Sub(xs[i], mu)
  {
    seq(|xs|, i requires 0 <= i < |xs| => Sub(xs[i], mu))
  }

  /** Row `i` of `d · inv` is the vector-matrix product of row `i`. */
  lemma LeftTermRow(d: seq<seq<real>>, inv: seq<seq<real>>, w: nat, i: nat)
    requires IsMatrix(d, w) && |inv| == w && IsMatrix(inv, w) && i < |d|
    ensures MatMul(d, inv, w)[i] == VecMat(d[i], inv, w)
  {
    var l := MatMul(d, inv, w)[i];
    var v := VecMat(d[i], inv, w);
    forall j | 0 <= j < w ensures l[j] == v[j] {
    }
  }

  /** Diagonal entry `i` of `d · inv · dᵀ` is the quadratic form of row `i`. */
  lemma {:induction false} BatchDiagonalEntry(d: seq<seq<real>>, inv: seq<seq<real>>, w: nat, i: nat)
    requires IsMatrix(d, w) && |inv| == w && IsMatrix(inv, w) && i < |d|
    ensures var left := MatMul(d, inv, w);
      MatMul(left, Transpose(d, w), |d|)[i][i] == Quad(d[i], inv)
  {
    var left := MatMul(d, inv, w);
    LeftTermRow(d, inv, w, i);
    ColumnOfTranspose(d, w, i);
  }

  /** The diagonal of `d · inv · dᵀ`: the quadratic form of every row. */
  lemma BatchDiagonal(d: seq<seq<real>>, inv: seq<seq<real>>, w: nat)
    requires IsMatrix(d, w) && |inv| == w && IsMatrix(inv, w)
    ensures var left := MatMul(d, inv, w);
      var m := MatMul(left, Transpose(d, w), |d|);
      forall i :: 0 <= i < |d| ==> Diagonal(m)[i] == Quad(d[i], inv)
  {
    var m := MatMul(MatMul(d, inv, w), Transpose(d, w), |d|);
    forall i | 0 <= i < |d| ensures Diagonal(m)[i] == Quad(d[i], inv) {
      BatchDiagonalEntry(d, inv, w, i);
    }
  }

  /**
    `mahalanobis(x, mu, cov)` with `inv` standing for `sp.linalg.inv(cov)`:
    `(x - mu) · inv · (x - mu)ᵀ`, the squared distance, for a vector; for a
    batch the diagonal of the product, which is the same form taken row by row.
   */
  function PyMahalanobis(p: Points, mu: seq<real>, inv: seq<seq<real>>): (r: Distance)
    requires |inv| == |mu| && IsMatrix(inv, |mu|)
    requires p.Single? ==> |p.x| == |mu|
    requires p.Batch? ==> IsMatrix(p.xs, |mu|)
    ensures r.Scalar? <==> p.Single?
    ensures p.Single? ==> r.value == Quad(Sub(p.x, mu), inv)
    ensures p.Batch? ==> |r.values| == |p.xs|
    ensures p.Batch? ==> forall i :: 0 <= i < |p.xs| ==> r.values[i] == Quad(Sub(p.xs[i], mu), inv)
  {
    var w := |mu|;
    match p
    case Single(x) =>
      var d := Sub(x, mu);
      var left := VecMat(d, inv, w);
      Scalar(Dot(left, d))
    case Batch(xs) =>
      var d := SubRows(xs, mu);
      var left := MatMul(d, inv, w);
      var m := MatMul(left, Transpose(d, w), |d|);
      BatchDiagonal(d, inv, w);
      PerRow(Diagonal(m))
  }

  /** Each batch entry is the single-vector distance of its row. */
  lemma {:induction false} BatchIsRowwise(xs: seq<seq<real>>, mu: seq<real>, inv: seq<seq<real>>, i: nat)
    requires |inv| == |mu| && IsMatrix(inv, |mu|) && IsMatrix(xs, |mu|) && i < |xs|
    ensures PyMahalanobis(Batch(xs), mu, inv).values[i] == PyMahalanobis(Single(xs[i]), mu, inv).value
  {
    var r := PyMahalanobis(Batch(xs), mu, inv);
    assert r.values[i] == Quad(Sub(xs[i], mu), inv);
  }

  /** The distance of the mean itself is 0. */
  lemma MahalanobisOfMean(mu: seq<real>, inv: seq<seq<real>>)
    requires |inv| == |mu| && IsMatrix(inv, |mu|)
    ensures PyMahalanobis(Single(mu), mu, inv) == Scalar(0.0)
  {
    QuadZero(Sub(mu, mu), inv);
  }

  /** With the identity as inverse covariance the distance is the squared Euclidean one. */
  lemma MahalanobisIdentity(x: seq<real>, mu: seq<real>, inv: seq<seq<real>>)
    requires |x| == |mu| && |inv| == |mu| && IsMatrix(inv, |mu|) && IsIdentity(inv)
    ensures PyMahalanobis(Single(x), mu, inv) == Scalar(Dot(Sub(x, mu), Sub(x, mu)))
  {
    QuadIdentity(Sub(x, mu), inv);
  }
}
