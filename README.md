# keras-cv preprocessing and COCO recall, modelled in Dafny

This project models three pieces of keras-cv and proves properties of the models.

- **`Equalize`** (`equalize.dfy`): channel-wise histogram equalisation of integer image batches.
  - The model histograms one channel into `bins` bins over [0, 255].
  - It derives the step from the histogram and builds the lookup table from the shifted cumulative histogram.
  - It maps every pixel through the table, or returns the channel unchanged when the step is 0.
  - It casts the result back to the input dtype.
  - `call` rejects non-integer dtypes. It equalises channels 0, 1 and 2 of every image and stacks them.
  - Every error the TensorFlow CPU kernels raise on these paths is modelled as an `Err`: too few channels, no bins, an empty channel, `bins == 1`, and a pixel outside the table.
- **`GaussianBlur`** (`gaussian_blur.dfy`): how the blur layer's constructor normalises and validates `kernel_size` and `sigma`.
  - Python values are modelled as ints, bools, floats, strings, `None`, and tuples or lists of those.
  - Python's `isinstance` (bool is a subclass of int), `type(s)(0)` and `<` follow Python's rules. Every exception the constructor raises is modelled.
  - The module also models the integer offsets each 1-D kernel is evaluated at and the number of taps of the vertical and horizontal kernels after the reshapes. It also models what `get_config` reports.
- **`CocoRecall`** (`recall.dfy`): the result reducer of the COCO recall metric.
  - The accumulated tables (true positives per IoU threshold, class, area range and max-detections value; ground-truth box counts per class and area range) are given as a value.
  - A bucket's recall is the mean over all (threshold, class) cells of `divide_no_nan(tp, gt)`.
  - `result` returns a scalar for a single bucket. Otherwise it fills a string-keyed mapping in nested loops. The method `CocoRecall.Result` runs the outer loop over area ranges, and `CocoRecall.FillRow` runs the inner loop over max-detection values. Both are proved against the specification functions `ResultOf` and `RowInsert`.
- `results.dfy` holds the `Result` type shared by the modules.

## Model

| member | source | states |
|---|---|---|
| Equalize.Cast | keras_cv/layers/preprocessing/equalize.py:78 | the result is representable in the dtype and equals the input whenever the input already is, and differs from the input by a multiple of the dtype's modulus (two's-complement wrap-around) |
| Equalize.Clip | keras_cv/layers/preprocessing/equalize.py:68 | the result lies in [lo, hi] and equals the input when the input does |
| Equalize.BinIndex | keras_cv/layers/preprocessing/equalize.py:51 | every value, including values outside [0, 255], lands in a bin in [0, bins) |
| Equalize.Histogram | keras_cv/layers/preprocessing/equalize.py:51 | the histogram has exactly `bins` entries |
| Equalize.HistogramCounts | keras_cv/layers/preprocessing/equalize.py:51 | bin i of the histogram equals the number of pixels whose bin is i (an independent counting definition) |
| Equalize.HistogramTotal | keras_cv/layers/preprocessing/equalize.py:51 | the histogram has exactly `bins` entries and they sum to the pixel count |
| Equalize.HistogramDefaultBins | keras_cv/layers/preprocessing/equalize.py:51 | with 256 bins and pixels in [0, 255], bin i counts exactly the pixels equal to i |
| Equalize.NonZero | keras_cv/layers/preprocessing/equalize.py:54-55 | every kept entry is non-zero, and nothing is kept exactly when every bin is empty |
| Equalize.NonZeroFacts | keras_cv/layers/preprocessing/equalize.py:54-55 | dropping the empty bins keeps the total; the result is empty iff every bin is empty; its last element is the highest occupied bin |
| Equalize.Step | keras_cv/layers/preprocessing/equalize.py:56-58 | the step is never negative |
| Equalize.ChannelStep | keras_cv/layers/preprocessing/equalize.py:51-58 | the step computed from a channel's histogram is never negative |
| Equalize.StepFormula | keras_cv/layers/preprocessing/equalize.py:54-58 | the step is (pixel count − count of the highest occupied bin) floor-divided by bins − 1 |
| Equalize.Cumsum | keras_cv/layers/preprocessing/equalize.py:63 | entry k − 1 of the running total is the sum of the first k counts |
| Equalize.BuildMapping | keras_cv/layers/preprocessing/equalize.py:60-68 | the table has one entry per bin, entry 0 is 0, and every entry is in [0, 255] |
| Equalize.MappingEntries | keras_cv/layers/preprocessing/equalize.py:60-68 | entry i ≥ 1 of the table is clip((sum of bins below i + step // 2) // step, 0, 255) |
| Equalize.MappingMonotone | keras_cv/layers/preprocessing/equalize.py:63-68 | the table never decreases |
| Equalize.Gather | keras_cv/layers/preprocessing/equalize.py:75 | succeeds iff every pixel indexes the table; then output pixel i is table[pixel i]; the only error is an out-of-range index |
| Equalize.EqualizeChannel | keras_cv/layers/preprocessing/equalize.py:51-76 | a success has one output per pixel, and pixels with equal values get equal outputs |
| Equalize.EqualizeChannelCases | keras_cv/layers/preprocessing/equalize.py:51-76 | no bins, an empty channel and `bins == 1` each raise their own error; a zero step returns the channel; otherwise the table lookup is applied |
| Equalize.EqualizeChannelSucceeds | keras_cv/layers/preprocessing/equalize.py:72-76 | a channel with pixels, all in [0, bins), with at least 2 bins equalises without error and keeps its length |
| Equalize.EqualizeChannelFailure | keras_cv/layers/preprocessing/equalize.py:75 | with pixels and at least 2 bins, the only possible failure is the lookup, and it is caused by a pixel outside [0, bins) |
| Equalize.SingleValueUnchanged | keras_cv/layers/preprocessing/equalize.py:72-74 | a channel holding one value has step 0 and comes back unchanged |
| Equalize.EqualizeRange | keras_cv/layers/preprocessing/equalize.py:63-76 | the output is the unchanged input or lies entirely in [0, 255]; inputs in [0, 255] give outputs in [0, 255] |
| Equalize.EqualizeMonotone | keras_cv/layers/preprocessing/equalize.py:63-75 | equal input pixels give equal output pixels, and the output is non-decreasing in the input |
| Equalize.SmallBinsRejectLargePixels | keras_cv/layers/preprocessing/equalize.py:51-75 | with 2 bins the channel [0, 200] fails the lookup, because the table is indexed by raw pixel value |
| Equalize.ChannelOf | keras_cv/layers/preprocessing/equalize.py:49 | the extracted channel has one value per pixel, equal to the pixel's channel value when it fits in int32 |
| Equalize.EqualizeImageChannel | keras_cv/layers/preprocessing/equalize.py:48-78 | a missing channel is an error; a result has one value per pixel, each representable in the input dtype |
| Equalize.MapChannel | keras_cv/layers/preprocessing/equalize.py:90-92 | on success image n's result is that image's equalised channel; if every image succeeds the pass succeeds |
| Equalize.MapChannelError | keras_cv/layers/preprocessing/equalize.py:90-92 | a failed pass raises the error of the first image whose equalisation fails, every earlier image having succeeded |
| Equalize.Stack | keras_cv/layers/preprocessing/equalize.py:95 | output pixel p of image n is [r, g, b] at that pixel |
| Equalize.Call | keras_cv/layers/preprocessing/equalize.py:81-86 | images whose dtype is not an integer type are rejected before any work |
| Equalize.CallOk | keras_cv/layers/preprocessing/equalize.py:90-95 | a successful call is the stack of three successful passes for channels 0, 1 and 2 with dtype, height and width kept |
| Equalize.CallPixel | keras_cv/layers/preprocessing/equalize.py:90-95 | each output pixel is the triple of that pixel from the three passes |
| Equalize.CallShape | keras_cv/layers/preprocessing/equalize.py:90-95 | dtype, height, width and the number of images are kept, there are exactly 3 channels, and the output is a well-formed tensor of the input dtype |
| Equalize.CallChannels | keras_cv/layers/preprocessing/equalize.py:90-95 | output channel c of pixel p is pixel p of the equalised channel c of the same image, cast back to the dtype |
| Equalize.CallSucceeds | keras_cv/layers/preprocessing/equalize.py:80-96 | integer images with ≥ 3 channels, ≥ 1 pixel and values in [0, 255] equalise without error with the default bins |
| Equalize.CallRange | keras_cv/layers/preprocessing/equalize.py:68-95 | with inputs in [0, 255] and a dtype that holds 255, every output value is in [0, 255] |
| GaussianBlur.ZeroOfType | keras_cv/layers/preprocessing/gaussian_blur.py:53 | `type(s)(0)` fails exactly for None, otherwise has the class of s and numeric value 0 |
| GaussianBlur.Less | keras_cv/layers/preprocessing/gaussian_blur.py:64 | numbers compare by value (bools as 0 and 1); None raises TypeError |
| GaussianBlur.GreaterEq | keras_cv/layers/preprocessing/gaussian_blur.py:72 | numbers compare by value; None raises TypeError |
| GaussianBlur.KernelDims | keras_cv/layers/preprocessing/gaussian_blur.py:37-47 | a tuple or list gives its first two elements and needs at least two, else IndexError; a scalar is accepted iff it is an int (bools included) and then gives x = y = k; otherwise the kernel-size ValueError |
| GaussianBlur.SigmaBounds | keras_cv/layers/preprocessing/gaussian_blur.py:49-54 | a tuple or list gives its first two elements and needs at least two, else IndexError; a scalar s fails only for None (TypeError) and gives a lower bound of the class of s with numeric value 0, and upper bound s |
| GaussianBlur.Init | keras_cv/layers/preprocessing/gaussian_blur.py:32-76 | a non-int scalar kernel size raises the ValueError and a short tuple or list an IndexError; an int gives x = y = k, a pair gives x, y from its elements; a scalar sigma s gives [type(s)(0), s], a pair its elements; accepted bounds agree in type and are ordered; the originals are stored |
| GaussianBlur.InitIntended | keras_cv/layers/preprocessing/gaussian_blur.py:56-62 | the corrected constructor raises the type-mismatch ValueError exactly where the written one raises AttributeError, and agrees with it everywhere else |
| GaussianBlur.ScalarSigma | keras_cv/layers/preprocessing/gaussian_blur.py:49-68 | an int or float sigma is accepted iff it is ≥ 0; a negative one fails the ordering check; the lower bound is 0 of the same type |
| GaussianBlur.SigmaPair | keras_cv/layers/preprocessing/gaussian_blur.py:49-68 | numeric bounds of one type are accepted iff lower ≤ upper, otherwise the ordering ValueError |
| GaussianBlur.MismatchedBounds | keras_cv/layers/preprocessing/gaussian_blur.py:56-62 | bounds of different types fail construction with an AttributeError for `width_lower`, where the corrected constructor raises the mismatch ValueError |
| GaussianBlur.MismatchedBoundsRaiseAttributeError | keras_cv/layers/preprocessing/gaussian_blur.py:60 | kernel_size 3 with sigma (1, 2.0) raises AttributeError, not ValueError |
| GaussianBlur.NonNegativeCheckUnreachable | keras_cv/layers/preprocessing/gaussian_blur.py:70-76 | no input ever raises the "must be higher than 0" error |
| GaussianBlur.IntendedAgrees | keras_cv/layers/preprocessing/gaussian_blur.py:56-62 | the two constructors accept the same inputs with the same fields and raise the same errors other than the mismatch |
| GaussianBlur.NoneSigmaRejected | keras_cv/layers/preprocessing/gaussian_blur.py:53 | sigma None raises TypeError from `type(None)(0)` |
| GaussianBlur.StringSigmaAccepted | keras_cv/layers/preprocessing/gaussian_blur.py:49-76 | nothing checks that sigma is numeric: sigma "abc" is accepted with lower bound "0" |
| GaussianBlur.TestConfigurations | keras_cv/layers/preprocessing/gaussian_blur_test.py:29-93 | the configurations (3, 7)/(0, 2), 7/2 and (7, 3)/1 are accepted, with these x, y and sigma bounds |
| GaussianBlur.ConfigRoundTrip | keras_cv/layers/preprocessing/gaussian_blur.py:120-123 | get_config returns the original sigma and kernel_size, and constructing from them gives the same layer fields |
| GaussianBlur.GetConfig | keras_cv/layers/preprocessing/gaussian_blur.py:120-123 | the layer's entries are the sigma and the kernel size it was constructed with |
| GaussianBlur.FloorDiv | keras_cv/layers/preprocessing/gaussian_blur.py:112 | Python floor division by a positive divisor: b·q ≤ a < b·q + b |
| GaussianBlur.Range | keras_cv/layers/preprocessing/gaussian_blur.py:112 | range(lo, hi) has max(hi − lo, 0) elements, element i being lo + i |
| GaussianBlur.KernelOffsets | keras_cv/layers/preprocessing/gaussian_blur.py:112 | every offset x satisfies −n < 2x ≤ n: the kernel is centred, with the extra tap of an even size on the positive side |
| GaussianBlur.OffsetsLength | keras_cv/layers/preprocessing/gaussian_blur.py:112 | a size n ≥ 0 gives exactly n consecutive offsets; a negative size gives none |
| GaussianBlur.OffsetsOdd | keras_cv/layers/preprocessing/gaussian_blur.py:112 | an odd size 2k + 1 gives −k .. k, symmetric about 0 |
| GaussianBlur.OffsetsEven | keras_cv/layers/preprocessing/gaussian_blur.py:112 | an even size 2k gives −(k − 1) .. k |
| GaussianBlur.FloatOffsets | keras_cv/layers/preprocessing/gaussian_blur.py:111-113 | for a float size f, every offset z satisfies −f < 2z ≤ f |
| GaussianBlur.FloatOffsetsExact | keras_cv/layers/preprocessing/gaussian_blur.py:111-113 | a whole number z is a float offset iff −f < 2z ≤ f |
| GaussianBlur.KernelLength | keras_cv/layers/preprocessing/gaussian_blur.py:111-113 | an int size n gives max(n, 0) offsets; a float size f gives as many as there are float offsets; a string or None raises TypeError |
| GaussianBlur.WholeFloatLength | keras_cv/layers/preprocessing/gaussian_blur.py:111-113 | a float size with a whole value n gives as many offsets as the int n |
| GaussianBlur.FloatLengthExamples | keras_cv/layers/preprocessing/gaussian_blur.py:111-113 | size 3.0 gives 3 offsets, 2.5 gives −1, 0, 1, and −1.0 gives none |
| GaussianBlur.Reshape | keras_cv/layers/preprocessing/gaussian_blur.py:82-83 | the reshape succeeds iff the dimension is an int equal to −1 or to the element count, and then keeps the count; a non-int dimension raises TypeError |
| GaussianBlur.Taps | keras_cv/layers/preprocessing/gaussian_blur.py:78-84 | taps exist only for int sizes of at least −1, and then number max(y, 0) vertically and max(x, 0) horizontally |
| GaussianBlur.TapsMatchKernelSize | keras_cv/layers/preprocessing/gaussian_blur.py:80-83 | integers x, y ≥ 0 give a vertical kernel of y taps and a horizontal one of x taps, and both reshapes succeed |
| GaussianBlur.MinusOneGivesNoTaps | keras_cv/layers/preprocessing/gaussian_blur.py:82 | y = −1 passes: no offsets, and the reshape infers a 0-tap kernel |
| GaussianBlur.NegativeSizeRejected | keras_cv/layers/preprocessing/gaussian_blur.py:82 | an integer y below −1 fails the reshape |
| GaussianBlur.TestConfigurationTaps | keras_cv/layers/preprocessing/gaussian_blur_test.py:29 | kernel_size (3, 7) gives 7 vertical and 3 horizontal taps |
| CocoRecall.DivideNoNan | keras_cv/metrics/coco/recall.py:28-33 | a zero denominator gives 0; otherwise r · y = x |
| CocoRecall.SingleResult | keras_cv/metrics/coco/recall.py:23-35 | the bucket value is NaN iff there are no (threshold, class) cells; otherwise value × cell count = sum of the cells' ratios |
| CocoRecall.NatToString | keras_cv/metrics/coco/recall.py:41 | decimal text of a natural number: at least one character, all digits |
| CocoRecall.IntToString | keras_cv/metrics/coco/recall.py:41 | decimal text of an integer: at least one character, only digits and '-' |
| CocoRecall.IouThresholdStrRep | keras_cv/metrics/coco/recall.py:43-45 | a fixed 17-character text containing no '=' |
| CocoRecall.IntRoundTrip | keras_cv/metrics/coco/recall.py:41 | reading back the decimal text of n gives n |
| CocoRecall.KeyTextInjective | keras_cv/metrics/coco/recall.py:37-41 | two keys are equal iff their area-range labels and max-detection values are equal, whatever the labels contain |
| CocoRecall.KeyText | keras_cv/metrics/coco/recall.py:41 | the key is 28 characters of threshold text, then the label, 11 characters of separator and the decimal value |
| CocoRecall.KeyFormat | keras_cv/metrics/coco/recall.py:41-45 | those parts are "Recall @ [0.5, 0.95, 0.05], ", the label, ", max_dets=" and a value that parses back to the max-detection value |
| CocoRecall.Key | keras_cv/metrics/coco/recall.py:37-41 | the key of bucket (ai, mi) holds the label of area range ai at its fixed position and max-detection value mi as its tail |
| CocoRecall.KeyIgnoresThresholds | keras_cv/metrics/coco/recall.py:43-45 | the key does not depend on the configured IoU thresholds |
| CocoRecall.FillRow | keras_cv/metrics/coco/recall.py:18-20 | the inner loop leaves the mapping with every bucket of area range ai inserted under its key, in order of max detections |
| CocoRecall.ResultOf | keras_cv/metrics/coco/recall.py:7-21 | the result is a scalar exactly when there is one bucket (a · m = 1), and a mapping otherwise |
| CocoRecall.Result | keras_cv/metrics/coco/recall.py:7-21 | the loops compute exactly `ResultOf`: a scalar iff a · m = 1, otherwise the mapping from inserting every bucket in row-major order |
| CocoRecall.SingleBucket | keras_cv/metrics/coco/recall.py:8-14 | a · m = 1 means one area range and one max-detections value, and the result is bucket (0, 0)'s scalar |
| CocoRecall.ResultKeys | keras_cv/metrics/coco/recall.py:16-21 | otherwise the result is a mapping whose keys are exactly the buckets' keys |
| CocoRecall.ResultEntries | keras_cv/metrics/coco/recall.py:16-21 | with distinct labels and values the mapping has a · m entries, each bucket's value under its own key |
| CocoRecall.GridInsertKeys | keras_cv/metrics/coco/recall.py:16-20 | after n rows the mapping holds every inserted cell's key and no other |
| CocoRecall.LastWriterWins | keras_cv/metrics/coco/recall.py:16-20 | a bucket whose key no later bucket reuses keeps its own value |
| CocoRecall.GridInsertSize | keras_cv/metrics/coco/recall.py:16-20 | with pairwise different keys, n rows of m buckets give n · m entries |
| CocoRecall.DistinctKeys | keras_cv/metrics/coco/recall.py:37-41 | distinct labels and distinct max-detection values give every bucket a different key |
| CocoRecall.DuplicateLabelOverwrites | keras_cv/metrics/coco/recall.py:16-20 | two area ranges with one label leave one entry, holding the later range's value |
| CocoRecall.SingleResultFrame | keras_cv/metrics/coco/recall.py:28-33 | a bucket reads only truePositives[:, :, a, m] and groundTruthBoxes[:, a]: tables equal there give equal values |
| CocoRecall.ZeroGroundTruthCell | keras_cv/metrics/coco/recall.py:28 | a class with no ground truth contributes 0 to the bucket, not an error or NaN |
| CocoRecall.RecallInUnitInterval | keras_cv/metrics/coco/recall.py:28-35 | with 0 ≤ tp ≤ gt everywhere in the bucket and at least one cell, the recall lies in [0, 1] |
| CocoRecall.ZeroGroundTruthNotExcluded | keras_cv/metrics/coco/recall.py:26-35 | classes without ground truth are averaged in: one fully found class and one empty class give 0.5, not 1 |

## Left out

- float32 arithmetic. Recall is computed over Dafny `real`, and equalisation over unbounded integers with explicit dtype casts.
- Equalize.BinIndex: TensorFlow bins a value by float32 arithmetic. The model uses the exact integer quotient `bins * v / 255`, clamped to the last bin. The two can differ only where float rounding crosses a bin boundary.
- Equalize.Gather: the model follows the CPU kernel, which raises on an out-of-range index. A GPU gather writes zeros instead and is not modelled.
- Equalize.CallRange: the int8 dtype is excluded, because the cast back wraps values above 127 around. `Equalize.Cast` models that wrap-around.
- `Equalize.__init__` only stores `bins`, which is a parameter of every model function. `tf.map_fn`, `tf.cond`, Keras registration and the layer base classes are graph mechanics and are not modelled.
- The Gaussian kernel weights (`tf.exp`, normalisation by the sum), the depthwise convolutions in `augment_image`, and the random draw of sigma in `get_sigma`: these are float32 numerics and random state.
- GaussianBlur.Taps:
  - it takes the layer's fields without the sampled sigma, so sampling failures are not modelled (for example the failure for a string sigma);
  - a float kernel size builds its offsets (`KernelLength` counts them), but the reshape to a float shape then raises, so such a layer yields no taps.
- GaussianBlur.GetConfig: only the layer's own two entries are modelled. The base layer's entries from `super().get_config()` and the `**kwargs` passed to the base class are not part of this model.
- Python values: arguments are limited to ints, bools, floats, strings, `None` and flat tuples or lists of those. Nested sequences and other objects are left out. String order is by code point.
- GaussianBlur.ScalarSigma, GaussianBlur.SigmaPair: Python floats are finite reals here, so NaN and the infinities are not modelled. In the source a NaN sigma passes every check, because every comparison with NaN is false. `float('nan')` and `(0.0, float('nan'))` are both accepted, although neither is ≥ 0 or an ordered pair.
- `COCOBase` holds the tables and the matching engine; it is not part of this model.
  - CocoRecall.Shaped stands in for its invariants: the tables are rectangular, there is one label per area range and one value per max-detections column.
  - Area-range labels are given as their `str()` rendering. Max-detection values are Python ints.
- CocoRecall.Result: a Dafny `map` has no order, so the insertion order of the Python dict is not modelled. Which value wins for a repeated key is modelled (`LastWriterWins`, `DuplicateLabelOverwrites`).
- NaN and infinite entries in the tables are not modelled. `Value.NaN` only stands for the mean of an empty table.
- `_single_result` gives 0 for a class with no ground truth (`divide_no_nan`), not a no-data marker. It averages over the IoU thresholds instead of giving one recall per threshold. The model does the same (`ZeroGroundTruthCell`, `ZeroGroundTruthNotExcluded`).
- `mix_up.py` and the augmentation pipeline demo are outside the modelled core.

## Findings

| source | as written | input that shows it | evidently intended | confidence | as-written member | corrected member |
|---|---|---|---|---|---|---|
| keras_cv/layers/preprocessing/gaussian_blur.py:56-62 | when the sigma bounds have different types, the error message is formatted from `self.width_lower` and `self.width_upper`, which the layer never sets, so an AttributeError is raised | `GaussianBlur(kernel_size=3, sigma=(1, 2.0))` | raise the ValueError saying the bounds must have the same type | not executed | GaussianBlur.MismatchedBoundsRaiseAttributeError | GaussianBlur.InitIntended |
