/**
  The detection server's `parseSamples`: decode a burst, assemble rows
  `[x[i], y[i], z[i]]`, extract the per-axis features, score them against the
  loaded model and compare the squared distance with a fixed threshold. The
  JSON decoder is replaced by its outcome (`None` when decoding fails), and
  the model's inverse covariance is given.
 */
module DetectionServer {
  import opened Wrappers
  import opened LinAlg
  import opened Features

  /** `ANOMALY_THRESHOLD`: a distance above this is an anomaly. */
  const AnomalyThreshold: real := 9.0

  /** The decoded JSON document's `x`, `y` and `z` arrays, as floats. */
  datatype Payload = Payload(x: seq<real>, y: seq<real>, z: seq<real>)

  /** How one call ends. */
  datatype Outcome =
    | NotParsed                               // the JSON decoder raised: nothing is scored
    | RowIndexError                           // `y` or `z` is shorter than `x`: the row loop raises
    | Scored(distance: real, anomaly: bool)   // the printed distance and verdict

  // ---------------------------------------------------------------- row assembly

  /** The first `n` rows of the sample. */
  function RowsUpTo(x: seq<real>, y: seq<real>, z: seq<real>, n: nat): (rows: seq<seq<real>>)
    requires n <= |x| && n <= |y| && n <= |z|
    ensures |rows| == n
    ensures forall i :: 0 <= i < n ==> rows[i] == [x[i], y[i], z[i]]
  {
    if n == 0 then [] else RowsUpTo(x, y, z, n - 1) + [[x[n - 1], y[n - 1], z[n - 1]]]
  }

  /**
    The loop over `range(len(x))`: one row per `x` entry, or an index error
    when `y` or `z` runs out first. Entries of `y` and `z` past `len(x)` are
    never read.
   */
  function AssembleRows(p: Payload): (r: Option<seq<seq<real>>>)
    ensures r.Some? <==> |p.x| <= |p.y| && |p.x| <= |p.z|
    ensures r.Some? ==> |r.value| == |p.x| && IsMatrix(r.value, Axes)
  {
    if |p.x| <= |p.y| && |p.x| <= |p.z| then Some(RowsUpTo(p.x, p.y, p.z, |p.x|)) else None
  }

  /** The assembled sample's columns are `x` and the first `len(x)` entries of `y` and `z`. */
  lemma AssembledColumns(p: Payload)
    requires |p.x| <= |p.y| && |p.x| <= |p.z|
    ensures var rows := AssembleRows(p).value;
      Column(rows, 0) == p.x && Column(rows, 1) == p.y[..|p.x|] && Column(rows, 2) == p.z[..|p.x|]
  {
    var rows := AssembleRows(p).value;
    assert Column(rows, 0) == p.x;
    assert Column(rows, 1) == p.y[..|p.x|];
    assert Column(rows, 2) == p.z[..|p.x|];
  }

  /** Surplus `y` and `z` entries do not change the sample. */
  lemma {:induction false} SurplusIgnored(p: Payload, ey: seq<real>, ez: seq<real>)
    requires |p.x| <= |p.y| && |p.x| <= |p.z|
    ensures AssembleRows(Payload(p.x, p.y + ey, p.z + ez)) == AssembleRows(p)
  {
    var a := AssembleRows(Payload(p.x, p.y + ey, p.z + ez)).value;
    var b := AssembleRows(p).value;
    forall i | 0 <= i < |p.x| ensures a[i] == b[i] {
      assert (p.y + ey)[i] == p.y[i];
      assert (p.z + ez)[i] == p.z[i];
    }
    assert a == b;
  }

  // ---------------------------------------------------------------- decision

  /** `mahal > ANOMALY_THRESHOLD`. */
  predicate IsAnomaly(distance: real)
  {
    distance > AnomalyThreshold
  }

  /**
    `parseSamples` for a model with mean `mu` and inverse covariance `inv`:
    the squared distance of the burst's features, flagged when it exceeds the
    threshold.
   */
  function ParseSamples(payload: Option<Payload>, mu: seq<real>, inv: seq<seq<real>>, mad: seq<real> -> real): (r: Outcome)
    requires |mu| == Axes && |inv| == Axes && IsMatrix(inv, Axes)
    ensures r.NotParsed? <==> payload.None?
    ensures r.RowIndexError? <==> payload.Some? && (|payload.value.y| < |payload.value.x| || |payload.value.z| < |payload.value.x|)
    ensures r.Scored? ==>
      var rows := AssembleRows(payload.value).value;
      var features := ServerFeatures(rows, Axes, MaxMeasurements, mad);
      r.distance == PyMahalanobis(Single(features), mu, inv).value
      && (r.anomaly <==> r.distance > AnomalyThreshold)
  {
    match payload
    case None => NotParsed
    case Some(p) =>
      match AssembleRows(p)
      case None => RowIndexError
      case Some(rows) =>
        var features := ServerFeatures(rows, Axes, MaxMeasurements, mad);
        var mahal := PyMahalanobis(Single(features), mu, inv).value;
        Scored(mahal, IsAnomaly(mahal))
  }

  /** A burst whose features are the model mean scores 0 and is normal. */
  lemma MeanIsNormal(p: Payload, mu: seq<real>, inv: seq<seq<real>>, mad: seq<real> -> real)
    requires |mu| == Axes && |inv| == Axes && IsMatrix(inv, Axes)
    requires |p.x| <= |p.y| && |p.x| <= |p.z|
    requires ServerFeatures(AssembleRows(p).value, Axes, MaxMeasurements, mad) == mu
    ensures ParseSamples(Some(p), mu, inv, mad) == Scored(0.0, false)
  {
    MahalanobisOfMean(mu, inv);
  }

  /** A distance equal to the threshold is reported normal; the comparison is strict. */
  lemma ThresholdIsStrict()
    ensures !IsAnomaly(AnomalyThreshold)
    ensures forall d: real :: IsAnomaly(d) <==> d > 9.0
  {
  }

  /**
    A burst whose features lie exactly at squared distance 9.0 from the mean
    is reported with distance 9.0 and is normal; one whose features lie
    further out is reported with its distance and is an anomaly.
   */
  lemma {:induction false} BoundaryAtFeatures(p: Payload, mu: seq<real>, inv: seq<seq<real>>, mad: seq<real> -> real)
    requires |mu| == Axes && |inv| == Axes && IsMatrix(inv, Axes)
    requires |p.x| <= |p.y| && |p.x| <= |p.z|
    ensures var f := ServerFeatures(AssembleRows(p).value, Axes, MaxMeasurements, mad);
      var d := Quad(Sub(f, mu), inv);
      && (d == 9.0 ==> ParseSamples(Some(p), mu, inv, mad) == Scored(9.0, false))
      && (d > 9.0 ==> ParseSamples(Some(p), mu, inv, mad) == Scored(d, true))
  {
    var f := ServerFeatures(AssembleRows(p).value, Axes, MaxMeasurements, mad);
    var r := ParseSamples(Some(p), mu, inv, mad);
    assert r == Scored(Quad(Sub(f, mu), inv), Quad(Sub(f, mu), inv) > AnomalyThreshold);
  }

  /**
    A MAD of a single value is 0: the value is its own median, so its only
    absolute deviation is 0. SciPy's `median_absolute_deviation` has this
    property.
   */
  ghost predicate MadOfOneIsZero(mad: seq<real> -> real)
  {
    forall v :: mad([v]) == 0.0
  }

  /** The features of a one-row sample are all 0, whatever the row holds. */
  lemma {:induction false} OneTickFeatures(a: real, b: real, c: real, mad: seq<real> -> real)
    requires MadOfOneIsZero(mad)
    ensures ServerFeatures([[a, b, c]], Axes, MaxMeasurements, mad) == [0.0, 0.0, 0.0]
  {
    var rows := [[a, b, c]];
    var f := ServerFeatures(rows, Axes, MaxMeasurements, mad);
    assert Truncate(rows, MaxMeasurements) == rows;
    forall j | 0 <= j < 3 ensures f[j] == 0.0 {
      assert Column(rows, j) == [rows[0][j]];
    }
  }

  /**
    A one-tick burst `(a, b, c)` is scored as the model mean's distance from
    the zero vector, whatever values it carries: the readings never reach the
    distance.
   */
  lemma {:induction false} OneTickScore(a: real, b: real, c: real, mu: seq<real>, inv: seq<seq<real>>, mad: seq<real> -> real)
    requires |mu| == Axes && |inv| == Axes && IsMatrix(inv, Axes)
    requires MadOfOneIsZero(mad)
    ensures var d := Quad(Sub([0.0, 0.0, 0.0], mu), inv);
      ParseSamples(Some(Payload([a], [b], [c])), mu, inv, mad) == Scored(d, d > AnomalyThreshold)
  {
    var p := Payload([a], [b], [c]);
    assert AssembleRows(p).value == [[a, b, c]];
    OneTickFeatures(a, b, c, mad);
  }

  /** Against a zero model mean, every one-tick burst scores 0 and is normal. */
  lemma {:induction false} OneTickAtZeroMeanIsNormal(a: real, b: real, c: real, inv: seq<seq<real>>, mad: seq<real> -> real)
    requires |inv| == Axes && IsMatrix(inv, Axes)
    requires MadOfOneIsZero(mad)
    ensures ParseSamples(Some(Payload([a], [b], [c])), [0.0, 0.0, 0.0], inv, mad) == Scored(0.0, false)
  {
    var zero := [0.0, 0.0, 0.0];
    OneTickScore(a, b, c, zero, inv, mad);
    assert Sub(zero, zero) == zero;
    QuadZero(zero, inv);
  }
}
