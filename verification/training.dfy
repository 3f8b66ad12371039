/**
  The training script's data handling: the validation/training split of the
  shuffled file list, the feature set built from each file's sample, and the
  batch distances of the validation set. Shuffling, file reading, the mean
  and the covariance are NumPy and library calls outside the model; the
  shuffled list, the decoded samples and the inverse covariance are inputs.
 */
module Training {
  import opened Wrappers
  import opened LinAlg
  import opened Features

  /** The two parts of the shuffled list. */
  datatype Sets<T> = Sets(val: seq<T>, train: seq<T>)

  /**
    `items[:k]` and `items[k:]`. Python slicing clamps an index past the end,
    so any `k` is accepted.
   */
  function Split<T>(items: seq<T>, k: nat): (s: Sets<T>)
    ensures s.val + s.train == items
    ensures |s.val| == Min(k, |items|)
  {
    if k <= |items| then Sets(items[..k], items[k..]) else Sets(items, [])
  }

  /** The script's own check, `len(train) + len(val) == num_samples`, always holds. */
  lemma SplitSizesAddUp<T>(items: seq<T>, k: nat)
    ensures |Split(items, k).train| + |Split(items, k).val| == |items|
  {
    var s := Split(items, k);
    assert |s.val + s.train| == |items|;
  }

  /** Nothing is lost or duplicated: every item lands in exactly the part its position says. */
  lemma {:induction false} SplitPositions<T>(items: seq<T>, k: nat)
    requires k <= |items|
    ensures forall i :: 0 <= i < k ==> Split(items, k).val[i] == items[i]
    ensures forall i :: k <= i < |items| ==> Split(items, k).train[i - k] == items[i]
  {
    var s := Split(items, k);
    forall i | 0 <= i < |items|
      ensures if i < k then s.val[i] == items[i] else s.train[i - k] == items[i]
    {
      assert (s.val + s.train)[i] == items[i];
    }
  }

  /** Every file sample is an `n × 3` matrix. */
  predicate AllSamples(samples: seq<seq<seq<real>>>)
  {
    forall i :: 0 <= i < |samples| ==> IsMatrix(samples[i], Axes)
  }

  /** `create_feature_set`: one feature vector per sample, at the default scale. */
  function FeatureSet(samples: seq<seq<seq<real>>>, mad: seq<real> -> real): (xs: seq<seq<real>>)
    requires AllSamples(samples)
    ensures |xs| == |samples| && IsMatrix(xs, Axes)
    ensures forall i :: 0 <= i < |samples| ==> xs[i] == TrainingFeatures(samples[i], Axes, MaxMeasurements, 1.0, mad)
  {
    seq(|samples|, i requires 0 <= i < |samples| => TrainingFeatures(samples[i], Axes, MaxMeasurements, 1.0, mad))
  }

  /** Training features are what the detection server computes for the same burst. */
  lemma {:induction false} FeatureSetMatchesServer(samples: seq<seq<seq<real>>>, mad: seq<real> -> real, i: nat)
    requires AllSamples(samples) && i < |samples|
    ensures FeatureSet(samples, mad)[i] == ServerFeatures(samples[i], Axes, MaxMeasurements, mad)
  {
    ServerMatchesTraining(samples[i], Axes, MaxMeasurements, mad);
  }

  /**
    `normal_mds`: the batch distances of the validation features. With no
    validation file, `create_feature_set` returns `np.array([])` of shape
    (0,), `x - mu` cannot broadcast it against the three-entry mean, and the
    script stops with a `ValueError` before the model is saved (`None`).
   */
  function ValidationDistances(xVal: seq<seq<real>>, mu: seq<real>, inv: seq<seq<real>>): (ds: Option<seq<real>>)
    requires |mu| == Axes && |inv| == Axes && IsMatrix(inv, Axes) && IsMatrix(xVal, Axes)
    ensures ds.None? <==> |xVal| == 0
    ensures ds.Some? ==> |ds.value| == |xVal|
    ensures ds.Some? ==> forall i :: 0 <= i < |xVal| ==> ds.value[i] == PyMahalanobis(Single(xVal[i]), mu, inv).value
  {
    if |xVal| == 0 then None else Some(PyMahalanobis(Batch(xVal), mu, inv).values)
  }

  /**
    The script gets past `normal_mds` exactly when the split leaves at least
    one validation file: with `k = int(0.2 * n)`, that is when `n >= 5`.
   */
  lemma {:induction false} ValidationFailsWhenEmpty(samples: seq<seq<seq<real>>>, k: nat, mad: seq<real> -> real,
                                                   mu: seq<real>, inv: seq<seq<real>>)
    requires AllSamples(samples)
    requires |mu| == Axes && |inv| == Axes && IsMatrix(inv, Axes)
    ensures var valSamples := Split(samples, k).val;
      AllSamples(valSamples)
      && (ValidationDistances(FeatureSet(valSamples, mad), mu, inv).None? <==> k == 0 || |samples| == 0)
  {
    var valSamples := Split(samples, k).val;
    assert AllSamples(valSamples) by {
      forall i | 0 <= i < |valSamples| ensures IsMatrix(valSamples[i], Axes) {
        assert (valSamples + Split(samples, k).train)[i] == samples[i];
      }
    }
  }

  /**
    The whole pipeline: the `i`-th validation distance is the server's score
    for the `i`-th file of the shuffled list.
   */
  lemma {:induction false} ValidationScoresAreServerScores(samples: seq<seq<seq<real>>>, k: nat, mad: seq<real> -> real,
                                                           mu: seq<real>, inv: seq<seq<real>>, i: nat)
    requires AllSamples(samples) && k <= |samples| && i < k
    requires |mu| == Axes && |inv| == Axes && IsMatrix(inv, Axes)
    ensures var valSamples := Split(samples, k).val;
      AllSamples(valSamples)
      && ValidationDistances(FeatureSet(valSamples, mad), mu, inv).Some?
      && ValidationDistances(FeatureSet(valSamples, mad), mu, inv).value[i]
         == PyMahalanobis(Single(ServerFeatures(samples[i], Axes, MaxMeasurements, mad)), mu, inv).value
  {
    var valSamples := Split(samples, k).val;
    SplitPositions(samples, k);
    assert AllSamples(valSamples);
    FeatureSetMatchesServer(valSamples, mad, i);
  }
}
