# Accelerometer anomaly detection: a Dafny model of the core

The system collects accelerometer bursts (three axes, `x`, `y`, `z`) from a
microcontroller over HTTP. It archives them as numbered CSV files. From
them it trains a Mahalanobis-distance anomaly detector. The features are the
median absolute deviation (MAD) of each axis. A detection server scores new
bursts against the trained mean and inverse covariance. A C port of the
statistics runs on the device. A small Python helper renders NumPy arrays
and headers as C source.

This Dafny project models that core:

- `wrappers.dfy` (`Wrappers`): `Option` and `Min`.
- `decimal.dfy` (`Decimal`): `str(n)` for naturals, `zfill`, and reading digits back.
- `text.dfy` (`Text`): splitting a string on `'\n'`, and `sep.join`.
  Most line-structure statements are built on it.
- `sample_archive.dfy` (`SampleArchive`): the collection server's
  `parseSamples`. It covers the slot scan over a directory modelled as a
  `set<string>`, the zero-padded names, the CSV records, and the cursor that
  `do_POST` keeps between posts. It also states run-level properties over
  sequences of posts.
- `c_writer.dfy` (`CWriter`): `create_array`, with its dimension lines,
  declaration and line-wrapped value list, and `create_header`, the include guard.
- `lin_alg.dfy` (`LinAlg`): reference definitions. It defines dot products,
  nested and flat row-major matrices, vector-matrix products, transposes,
  diagonals and the quadratic form `d · M · dᵀ`.
- `sorting.dfy` (`Sorting`): the sorted permutation of a sequence, and the
  uniqueness of sorted arrangements.
- `md_utils.dfy` (`MdUtils`): the device's `md_utils.c`.
  - `compare_floats`.
  - `median` and `calc_mad`, whose in-place effects are returned as the
    array after the call.
  - `dot_product`.
  - `matrix_multiply` with its dimension guard.
  - `mahalanobis`.
  - `calc_mse`.
- `features.dfy` (`Features`): the Python `extract_features`, which
  truncates, optionally scales, then takes a MAD per axis. It also covers
  `mahalanobis` in its vector and batch forms.
- `detection_server.dfy` (`DetectionServer`): the detection server's
  `parseSamples`. It covers decoding failure, row assembly, features,
  distance and the strict threshold.
- `training.dfy` (`Training`): the training script's validation/training
  split, its feature set and the validation distances.

Floats are modelled as exact `real`s and integers as unbounded naturals.
SciPy's MAD is a parameter `mad: seq<real> -> real`. The inverse covariance
is a given matrix. Decoded JSON is a value wrapped in `Option`, where
`None` means the decoder raised.

Where the system's prose description and the code differ, the model follows
the code:

- Both Python `mahalanobis` functions and the C `mahalanobis` return the
  squared form. No square root is taken.
- The anomaly threshold is the constant 9.0. It is not configurable.
- Neither server rejects mismatched axis lengths or empty bursts.
  - In the detection server, a short `y` or `z` raises while rows are assembled.
  - In the collection server, a short `y` or `z` stops the write half-way.
    The file stays in place and the cursor is not advanced.
- Surplus `y`/`z` entries are never read.
- The training script stops with an error when the validation split is empty, which happens with fewer than five files.

## Model

| member | source | states |
|---|---|---|
| Decimal.NatToString | data_collection/http_accel_server.py:34 | `str(cnt)` is a non-empty digit string with no leading zero unless it is 0 |
| Decimal.NatToStringRoundTrip | data_collection/http_accel_server.py:34 | reading the digits of `str(n)` back gives n |
| Decimal.ZFill | data_collection/http_accel_server.py:34 | `zfill(width)` pads with '0' on the left up to `width`, never truncates, and keeps the numeral as its suffix |
| Decimal.ZFillRoundTrip | data_collection/http_accel_server.py:34 | a zero-filled numeral still reads back as the number |
| Decimal.NatToStringLength | data_collection/http_accel_server.py:33-34 | a number below 10^k has at most k digits, so `zfill(4)` of a slot below 10^4 adds no digit |
| SampleArchive.SlotNameShape | data_collection/http_accel_server.py:33-34 | for cnt < 10^4 the name is exactly four decimal digits followed by `.csv` |
| SampleArchive.SlotIndexRoundTrip | data_collection/http_accel_server.py:34 | every slot's file name reads back as that slot |
| SampleArchive.SlotNameInjective | data_collection/http_accel_server.py:34 | two slots share a file name if and only if they are the same slot |
| SampleArchive.Scan | data_collection/http_accel_server.py:31-38 | the scan starts at the cursor, every slot it skips already exists, and it stops at the first absent name or at 10^4 |
| SampleArchive.WriteRecords | data_collection/http_accel_server.py:46-56 | the write loop runs to its end if and only if `y` and `z` have an entry for every index of `x` |
| SampleArchive.RecordsAreLines | data_collection/http_accel_server.py:49-53 | a completed write holds exactly one line `x[i], y[i], z[i]` per index of `x`, in order, and nothing after the last newline |
| SampleArchive.ParseSamples | data_collection/http_accel_server.py:24-58 | no file is created exactly when every slot from the cursor to 9999 exists, and then the cursor and directory are unchanged; otherwise the first absent slot at or after the cursor is created (the only name added), it holds the records written, and the cursor becomes that slot if the write completed and stays put if it raised |
| SampleArchive.DoPost | data_collection/http_accel_server.py:75-93 | the file created is the one `parseSamples` creates; the new cursor is the created slot when the write completed and the incoming cursor when nothing was created or the write raised; the directory gains exactly the created name; an undecodable body changes nothing; a cursor inside the namespace stays inside it |
| SampleArchive.PostStep | data_collection/http_accel_server.py:31-58 | a post that creates a file picks a slot past every slot known to be taken, whose name was absent, and adds only that name |
| SampleArchive.RunSlotsIncrease | data_collection/http_accel_server.py:31-58 | over any run of posts the created slots strictly increase, were absent at the start, and the directory grows by exactly their names |
| SampleArchive.RunNeverReusesNames | data_collection/http_accel_server.py:33-45 | a run never produces the same file name twice and never one that existed before it |
| SampleArchive.ScanStopsAtFirstGap | data_collection/http_accel_server.py:33-38 | with slots 0..m-1 taken, a scan from any cursor at or below m stops at m |
| SampleArchive.PrefilledPost | data_collection/http_accel_server.py:31-58 | with slots 0..m-1 taken, a complete burst lands in slot m and the cursor becomes m |
| SampleArchive.RunFillsInOrder | data_collection/http_accel_server.py:31-58 | starting from slots 0..m-1 taken, complete posts fill slots m, m+1, ... in order |
| SampleArchive.RunFirstSlot | data_collection/http_accel_server.py:31-58 | the first complete post of a run takes slot m, and the run continues from there with the cursor at m |
| SampleArchive.ResumesAfterPrefilled | data_collection/http_accel_server.py:31-45 | with slots 0..m-1 present, any cursor at or below m creates the file for slot m |
| SampleArchive.FifthSlotName | data_collection/http_accel_server.py:34 | slot 5 is named `0005.csv` |
| CWriter.DimLines | utils/c_writer.py:10-11 | line i is the dimension constant `<var>_dim<i+1> = <shape[i]>`, one line per axis, in shape order |
| CWriter.DimBlockLines | utils/c_writer.py:10-12 | the dimension block splits into exactly the dimension lines, followed by whatever comes after it |
| CWriter.CreateArrayLines | utils/c_writer.py:5-44 | line by line, `create_array` is the dimension lines, a blank line, the declaration with one bracket per dimension, the value lines, `};` and a final empty piece |
| CWriter.WrapBreaksExactly | utils/c_writer.py:28-39 | a value starts a new line exactly when counter + value length + 2 exceeds the limit; that line is the indent followed by the value and its separator, and the counter restarts at its length |
| CWriter.WrapInvariant | utils/c_writer.py:21-39 | at every step of the value loop, the counter is the length of the current line, every line starts with the indent, and the lines with their indents removed are the values so far separated by `", "` |
| CWriter.ValueBlockUnwraps | utils/c_writer.py:21-39 | the finished value block is indented lines whose contents, joined, are all values in order, separated by `", "`, with no separator after the last |
| CWriter.WrapFits | utils/c_writer.py:28-32 | when the indent and each value with its separator fit the limit, every emitted line fits it |
| CWriter.CreateArrayEnds | utils/c_writer.py:42 | the output ends with `"\n};\n"` |
| CWriter.Upper | utils/c_writer.py:52-53 | the guard name is the name with each character upper-cased, same length |
| CWriter.CreateHeader | utils/c_writer.py:47-61 | stripping the guard prefix and suffix from the header gives back the code |
| CWriter.StripHeaderOnlyHeaders | utils/c_writer.py:47-61 | any text from which the guard strips is exactly the header of the stripped code |
| CWriter.GuardKeepsHyphen | utils/c_writer.py:52-53 | the guard name is not sanitised: `md_model-moving` gives `MD_MODEL-MOVING_H` |
| MdUtils.CompareFloats | mahalanobis_distance/esp32_test_md/md_utils.c:4-17 | the result is -1, 1 or 0 exactly when x < y, x > y or x = y |
| MdUtils.CompareAntisymmetric | mahalanobis_distance/esp32_test_md/md_utils.c:4-17 | swapping the arguments negates the result |
| MdUtils.SortedByComparator | mahalanobis_distance/esp32_test_md/md_utils.c:4-26 | an array is in the order `qsort` establishes with this comparator exactly when it is sorted |
| MdUtils.Median | mahalanobis_distance/esp32_test_md/md_utils.c:21-36 | the array is left as a sorted permutation of its input; the result is its middle element (odd length) or the mean of the two middle ones (even length), between the minimum and the maximum |
| MdUtils.MedianOfAnySort | mahalanobis_distance/esp32_test_md/md_utils.c:26 | whatever sorted permutation the sort produces, the median is the same |
| MdUtils.MedianPermutationInvariant | mahalanobis_distance/esp32_test_md/md_utils.c:21-36 | the median depends only on the multiset of values |
| MdUtils.MedianOfConstant | mahalanobis_distance/esp32_test_md/md_utils.c:21-36 | the median of a constant array is that constant |
| MdUtils.MedianShift | mahalanobis_distance/esp32_test_md/md_utils.c:21-36 | translating every value by c translates the median by c |
| MdUtils.AbsDev | mahalanobis_distance/esp32_test_md/md_utils.c:46-48 | entry i becomes `fabs(arr[i] - med)` |
| MdUtils.AbsDevPermutation | mahalanobis_distance/esp32_test_md/md_utils.c:43-48 | deviations taken over a rearranged array are a rearrangement of the deviations |
| MdUtils.CalcMad | mahalanobis_distance/esp32_test_md/md_utils.c:40-52 | the result is the median of the absolute deviations from the median, it is non-negative, and the array ends up holding those deviations, sorted |
| MdUtils.DeviationsOfSorted | mahalanobis_distance/esp32_test_md/md_utils.c:43-51 | taking deviations over the sorted array left by `median` gives the same multiset, and the same median, as over the input |
| MdUtils.MadOfConstant | mahalanobis_distance/esp32_test_md/md_utils.c:40-52 | the MAD of a constant array is 0 |
| MdUtils.MadShift | mahalanobis_distance/esp32_test_md/md_utils.c:40-52 | translating every value leaves the MAD unchanged |
| MdUtils.DotProduct | mahalanobis_distance/esp32_test_md/md_utils.c:55-62 | the result is the sum of `a[i] * b[i]` for i < len |
| MdUtils.CellSum | mahalanobis_distance/esp32_test_md/md_utils.c:83-86 | the inner loop sums `a[i*a_cols+k] * b[k*b_cols+j]` over k, which is row i of a against column j of b |
| MdUtils.FillRow | mahalanobis_distance/esp32_test_md/md_utils.c:82-88 | one pass of the middle loop fills row i of the product and writes nothing past it |
| MdUtils.MatrixMultiply | mahalanobis_distance/esp32_test_md/md_utils.c:65-92 | it returns 0 and leaves `prod` untouched exactly when a_cols ≠ b_rows; otherwise it returns 1, every `prod[i*b_cols+j]` holds its row-by-column sum, and nothing past the product is written |
| MdUtils.Mahalanobis | mahalanobis_distance/esp32_test_md/md_utils.c:95-122 | the result is the quadratic form (x−μ)·Σ⁻¹·(x−μ)ᵀ over the first len entries of x and μ and the flat len × len matrix, with no square root |
| MdUtils.MahalanobisOfMean | mahalanobis_distance/esp32_test_md/md_utils.c:106-121 | the distance of the mean from itself is 0 |
| MdUtils.CalcMse | mahalanobis_distance/esp32_test_md/md_utils.c:125-135 | the result is the sum of squared differences divided by len; it is non-negative and 0 when the arrays agree |
| MdUtils.MeanSqFacts | mahalanobis_distance/esp32_test_md/md_utils.c:125-135 | the mean squared error is non-negative and 0 for equal arrays |
| LinAlg.QuadZero | mahalanobis_distance/esp32_test_md/md_utils.c:106-121 | the quadratic form of a zero difference is 0, whatever the matrix |
| LinAlg.QuadIdentity | mahalanobis_distance/http_server_anomaly_detection_md.py:44-48 | under the identity matrix the quadratic form is the squared Euclidean length |
| Features.Truncate | mahalanobis_distance/http_server_anomaly_detection_md.py:33-35 | the truncated sample is a prefix of the sample, of length min(n, max) or all n rows when max is 0 |
| Features.TruncateKeepsAll | mahalanobis_distance/http_server_anomaly_detection_md.py:33-35 | a limit of 0, or one no shorter than the sample, keeps every row |
| Features.TruncateIdempotent | mahalanobis_distance/anomaly-detection-training-md-deploy.py:66-68 | truncating twice is truncating once |
| Features.TruncateIgnoresTail | mahalanobis_distance/anomaly-detection-training-md-deploy.py:66-68 | rows past a positive limit do not affect the truncated sample |
| Features.Scale | mahalanobis_distance/anomaly-detection-training-md-deploy.py:71 | every element is multiplied by the scale, shape unchanged |
| Features.ScaleOne | mahalanobis_distance/anomaly-detection-training-md-deploy.py:61-71 | the default scale 1 leaves the sample unchanged |
| Features.ScaleTruncateCommute | mahalanobis_distance/anomaly-detection-training-md-deploy.py:66-71 | scaling then truncating equals truncating then scaling |
| Features.ServerFeatures | mahalanobis_distance/http_server_anomaly_detection_md.py:28-40 | one feature per axis: the MAD of that column of the truncated sample |
| Features.TrainingFeatures | mahalanobis_distance/anomaly-detection-training-md-deploy.py:61-76 | one feature per axis: the MAD of that column of the truncated, scaled sample |
| Features.ServerMatchesTraining | mahalanobis_distance/anomaly-detection-training-md-deploy.py:61-76 | at the default scale the training script and the server extract identical features |
| Features.FeaturesIgnoreTail | mahalanobis_distance/http_server_anomaly_detection_md.py:33-38 | rows past a positive limit do not change the features |
| Features.BatchDiagonal | mahalanobis_distance/anomaly-detection-training-md-deploy.py:103-111 | diagonal entry i of `d · inv · dᵀ` is the quadratic form of row i |
| Features.PyMahalanobis | mahalanobis_distance/http_server_anomaly_detection_md.py:44-52 | a vector gives a scalar, the squared form (x−μ)·inv·(x−μ)ᵀ; a batch gives one value per row, the same form of that row |
| Features.BatchIsRowwise | mahalanobis_distance/anomaly-detection-training-md-deploy.py:103-111 | entry i of the batch result equals the vector result for row i |
| Features.MahalanobisOfMean | mahalanobis_distance/http_server_anomaly_detection_md.py:44-50 | the mean itself scores 0 |
| Features.MahalanobisIdentity | mahalanobis_distance/http_server_anomaly_detection_md.py:44-50 | under the identity inverse covariance the score is the squared Euclidean distance |
| DetectionServer.AssembleRows | mahalanobis_distance/http_server_anomaly_detection_md.py:64-70 | rows are assembled exactly when `y` and `z` are at least as long as `x`, giving len(x) rows of three values |
| DetectionServer.AssembledColumns | mahalanobis_distance/http_server_anomaly_detection_md.py:65-70 | the sample's columns are `x` and the first len(x) entries of `y` and `z` |
| DetectionServer.SurplusIgnored | mahalanobis_distance/http_server_anomaly_detection_md.py:65-70 | extra `y`/`z` entries do not change the sample |
| DetectionServer.ParseSamples | mahalanobis_distance/http_server_anomaly_detection_md.py:55-86 | a decoding failure scores nothing; a short `y` or `z` is an index error; otherwise the reported distance is the squared form of the burst's features and it is an anomaly exactly when it exceeds 9.0 |
| DetectionServer.MeanIsNormal | mahalanobis_distance/http_server_anomaly_detection_md.py:73-84 | a burst whose features equal the model mean scores 0 and is normal |
| DetectionServer.ThresholdIsStrict | mahalanobis_distance/http_server_anomaly_detection_md.py:81-84 | a distance equal to the threshold is normal; anomalies are exactly the distances above 9.0 |
| DetectionServer.BoundaryAtFeatures | mahalanobis_distance/http_server_anomaly_detection_md.py:73-84 | a burst whose features lie at squared distance exactly 9.0 from the mean is reported as 9.0 and normal; one further out is reported with its distance and is an anomaly |
| DetectionServer.OneTickFeatures | mahalanobis_distance/http_server_anomaly_detection_md.py:28-40 | when the MAD of one value is 0, a one-row sample has features [0, 0, 0] whatever it holds |
| DetectionServer.OneTickScore | mahalanobis_distance/http_server_anomaly_detection_md.py:55-84 | a one-tick burst scores the distance of the zero vector from the mean, independent of its readings, and is an anomaly exactly when that exceeds 9.0 |
| DetectionServer.OneTickAtZeroMeanIsNormal | mahalanobis_distance/http_server_anomaly_detection_md.py:55-84 | against a zero mean every one-tick burst scores 0 and is normal, under any inverse covariance |
| Training.Split | mahalanobis_distance/anomaly-detection-training-md-deploy.py:49-51 | validation followed by training is the shuffled list, and validation has min(k, n) items |
| Training.SplitSizesAddUp | mahalanobis_distance/anomaly-detection-training-md-deploy.py:49-58 | the script's own check that the two sizes add up to the total always holds |
| Training.SplitPositions | mahalanobis_distance/anomaly-detection-training-md-deploy.py:49-51 | item i lands in validation at i when i < k, and in training at i − k otherwise |
| Training.FeatureSet | mahalanobis_distance/anomaly-detection-training-md-deploy.py:79-86 | one feature vector per file, in order, each the training features of that file |
| Training.FeatureSetMatchesServer | mahalanobis_distance/anomaly-detection-training-md-deploy.py:79-86 | every training feature vector is what the detection server would compute for the same burst |
| Training.ValidationDistances | mahalanobis_distance/anomaly-detection-training-md-deploy.py:79-114 | an empty validation set fails (the broadcast of `x - mu` raises); otherwise one distance per validation row, each the single-vector distance of that row |
| Training.ValidationFailsWhenEmpty | mahalanobis_distance/anomaly-detection-training-md-deploy.py:46-114 | the validation distances fail exactly when the split size is 0 or there are no files |
| Training.ValidationScoresAreServerScores | mahalanobis_distance/anomaly-detection-training-md-deploy.py:49-114 | with at least one validation file the distances exist, and the i-th validation distance is the detection server's score for the i-th file of the shuffled list |

## Left out

- HTTP handling, threads, argparse, run loops, sockets and the readiness flag are left out. They carry no logic beyond sending a status and calling `parseSamples`.
- `json.loads` is replaced by its outcome. The payload is `None` when decoding raises. A JSON document without an `x`, `y` or `z` key, or with non-numeric entries, is not modelled.
- `os.path.exists` and `open` are replaced by membership in, and insertion into, a directory set. Disk errors other than the short-list index error are not modelled.
- The exists-then-open race is not modelled. The servers handle one request at a time.
- `str(val)` of the values written or emitted is an input string. The model does not render floats.
- IEEE-754 single- and double-precision rounding, NaN and infinities are not modelled. Values are exact reals. In particular:
  - NaN ordering in `compare_floats` is out of scope;
  - the MAD of an empty burst (NaN in NumPy) is out of scope;
  - `pow(d, 2)` is modelled as `d * d`.
- SciPy's `median_absolute_deviation` is an uninterpreted function. Its normalisation is not visible in the code. The one-tick lemmas assume only that the MAD of a single value is 0.
- `sp.linalg.inv` is replaced by the inverse covariance itself. Singular matrices are not modelled.
- `np.mean`, `np.cov`, `np.genfromtxt`, `np.savez`, `random.shuffle` and `listdir` are not modelled. The shuffled list, the decoded samples and the model are inputs.
- `str.upper` is modelled on ASCII letters only.
- The float-derived constants `int(0.64 * 200)` (128) and `int(len * 0.2)` are not computed. The first is the constant 128. The second is an arbitrary split size `k`.
- The C integer widths and negative dimensions are not modelled. Lengths and dimensions are naturals.
- `qsort`'s algorithm is not modelled. Sorting is insertion sort. A sorted permutation is unique, so the result is the same.
- MdUtils.Median: requires a non-empty array. For length 0 the C code reads `arr[0]`, outside the array.
- MdUtils.CalcMse: requires len > 0, where the C code would divide by zero. Only the direction "equal arrays give 0" is stated. The converse does not hold under rounding to `float`, and it is not claimed.
- MdUtils.MatrixMultiply: requires the arrays to hold the sizes the dimensions name. The C code trusts its callers for that.
- autoencoder/esp32_deploy_tflite/md_utils.h holds only declarations and is not part of this model.
- mahalanobis_distance/models/md_model.h and md_model-moving.h hold generated constant data and are not part of this model. Only the guard name of md_model-moving.h appears, in CWriter.GuardKeepsHyphen.
