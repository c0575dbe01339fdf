/**
 * The result reducer of the COCO recall metric. The accumulated tables
 * (true positives per IoU threshold, class, area range and max-detection
 * value; ground-truth box counts per class and area range) are given; the
 * reducer turns them into one recall per (area range, max detections)
 * bucket, returned as a scalar when there is a single bucket and as a
 * string-keyed mapping otherwise.
 */
module CocoRecall {

  /** A float the reducer can produce: a finite value, or the NaN of an empty mean. */
  datatype Value = Finite(v: real) | NaN

  /** What result() returns. */
  datatype RecallResult = Scalar(value: Value) | Mapping(entries: map<string, Value>)

  /**
   * The metric's accumulated state: truePositives[t][k][a][m] and
   * groundTruthBoxes[k][a], with their dimensions given explicitly so that
   * an empty outer dimension does not hide the inner ones.
   */
  datatype Metric = Metric(
    iouThresholds: seq<real>,
    areaRanges: seq<string>,
    maxDetections: seq<int>,
    t: nat, k: nat, a: nat, m: nat,
    truePositives: seq<seq<seq<seq<real>>>>,
    groundTruthBoxes: seq<seq<real>>)

  /** The tables are rectangular with the stated dimensions, and there is one label per area range and one value per max-detection column. */
  predicate Shaped(s: Metric) {
    && |s.truePositives| == s.t
    && (forall i :: 0 <= i < s.t ==> |s.truePositives[i]| == s.k)
    && (forall i, j :: 0 <= i < s.t && 0 <= j < s.k ==> |s.truePositives[i][j]| == s.a)
    && (forall i, j, l :: 0 <= i < s.t && 0 <= j < s.k && 0 <= l < s.a ==> |s.truePositives[i][j][l]| == s.m)
    && |s.groundTruthBoxes| == s.k
    && (forall j :: 0 <= j < s.k ==> |s.groundTruthBoxes[j]| == s.a)
    && |s.areaRanges| == s.a
    && |s.maxDetections| == s.m
  }

  // ---------------------------------------------------------------------
  // One bucket

  /** tf.math.divide_no_nan: x / y, and 0 where y is 0. */
  function DivideNoNan(x: real, y: real): (r: real)
    ensures y == 0.0 ==> r == 0.0
    ensures y != 0.0 ==> r * y == x
  {
    if y == 0.0 then 0.0 else x / y
  }

  /** The recall of threshold tt and class kk in bucket (ai, mi). */
  function Cell(s: Metric, tt: nat, kk: nat, ai: nat, mi: nat): real
    requires Shaped(s) && tt < s.t && kk < s.k && ai < s.a && mi < s.m
  {
    DivideNoNan(s.truePositives[tt][kk][ai][mi], s.groundTruthBoxes[kk][ai])
  }

  /** The sum of the cells of threshold tt over classes 0 .. n - 1. */
  function RowSum(s: Metric, tt: nat, n: nat, ai: nat, mi: nat): real
    requires Shaped(s) && tt < s.t && n <= s.k && ai < s.a && mi < s.m
  {
    if n == 0 then 0.0 else RowSum(s, tt, n - 1, ai, mi) + Cell(s, tt, n - 1, ai, mi)
  }

  /** The sum of the cells of thresholds 0 .. n - 1 over all classes. */
  function GridSum(s: Metric, n: nat, ai: nat, mi: nat): real
    requires Shaped(s) && n <= s.t && ai < s.a && mi < s.m
  {
    if n == 0 then 0.0 else GridSum(s, n - 1, ai, mi) + RowSum(s, n - 1, s.k, ai, mi)
  }

  /** _single_result: the mean of the t * k cells of the bucket; an empty mean is NaN. */
  function SingleResult(s: Metric, ai: nat, mi: nat): (r: Value)
    requires Shaped(s) && ai < s.a && mi < s.m
    ensures r.NaN? <==> s.t * s.k == 0
    ensures r.Finite? ==> r.v * (s.t * s.k) as real == GridSum(s, s.t, ai, mi)
  {
    if s.t * s.k == 0 then NaN else Finite(GridSum(s, s.t, ai, mi) / (s.t * s.k) as real)
  }

  // ---------------------------------------------------------------------
  // Keys

  /** iou_threshold_str_rep: a fixed text, with no '=' in it. */
  function IouThresholdStrRep(): (r: string)
    ensures |r| == 17
    ensures forall i :: 0 <= i < |r| ==> r[i] != '='
  {
    "[0.5, 0.95, 0.05]"
  }

  function Digit(n: nat): (c: char)
    requires n < 10
    ensures '0' <= c <= '9'
  {
    "0123456789"[n]
  }

  function DigitValue(c: char): nat {
    if '0' <= c <= '9' then (c as int - '0' as int) as nat else 0
  }

  /** str(n) for n >= 0: decimal digits, most significant first. */
  function NatToString(n: nat): (r: string)
    ensures |r| >= 1
    ensures forall i :: 0 <= i < |r| ==> '0' <= r[i] <= '9'
  {
    if n < 10 then [Digit(n)] else NatToString(n / 10) + [Digit(n % 10)]
  }

  /** str(n): a minus sign before the digits of -n when n is negative. */
  function IntToString(n: int): (r: string)
    ensures |r| >= 1
    ensures forall i :: 0 <= i < |r| ==> r[i] == '-' || '0' <= r[i] <= '9'
  {
    if n < 0 then "-" + NatToString(-n) else NatToString(n)
  }

  /** The decimal value of a digit string. */
  function ParseNat(s: string): nat {
    if s == [] then 0 else 10 * ParseNat(s[..|s| - 1]) + DigitValue(s[|s| - 1])
  }

  /** int(s) for the strings IntToString produces. */
  function ParseInt(s: string): int {
    if s != [] && s[0] == '-' then -(ParseNat(s[1..]) as int) else ParseNat(s)
  }

  /**
   * The key text for one area-range label and one max-detection value: after
   * the 28 characters of fixed threshold text come the label, 11 characters
   * of separator, and the decimal value.
   */
  function KeyText(areaRange: string, maxDets: int): (key: string)
    ensures |key| == 39 + |areaRange| + |IntToString(maxDets)|
    ensures key[28..28 + |areaRange|] == areaRange
    ensures key[39 + |areaRange|..] == IntToString(maxDets)
  {
    var head := "Recall @ " + IouThresholdStrRep() + ", ";
    var sep, digits := ", max_dets=", IntToString(maxDets);
    assert |head| == 28;
    ThreeParts(head, areaRange, sep + digits);
    ThreeParts(head + areaRange, sep, digits);
    head + areaRange + sep + digits
  }

  /** The three parts of a concatenation can be sliced back out. */
  lemma ThreeParts(a: string, b: string, c: string)
    ensures (a + b + c)[..|a|] == a
    ensures (a + b + c)[|a|..|a| + |b|] == b
    ensures (a + b + c)[|a| + |b|..] == c
  {
    assert a + b + c == a + (b + c);
  }

  /** _key_for: the key shows the label of area range ai and max-detection value mi. */
  function Key(s: Metric, ai: nat, mi: nat): (key: string)
    requires Shaped(s) && ai < s.a && mi < s.m
    ensures |key| > 39 + |s.areaRanges[ai]|
    ensures key[28..28 + |s.areaRanges[ai]|] == s.areaRanges[ai]
    ensures key[39 + |s.areaRanges[ai]|..] == IntToString(s.maxDetections[mi])
  {
    KeyText(s.areaRanges[ai], s.maxDetections[mi])
  }

  // ---------------------------------------------------------------------
  // The whole result

  /** The mapping after inserting keys[0] := vals[0] .. keys[n - 1] := vals[n - 1], in that order, into acc. */
  function RowInsert<K(==), V>(acc: map<K, V>, keys: seq<K>, vals: seq<V>, n: nat): map<K, V>
    requires |keys| == |vals| && n <= |keys|
  {
    if n == 0 then acc else RowInsert(acc, keys, vals, n - 1)[keys[n - 1] := vals[n - 1]]
  }

  /** A grid of keys and a grid of values with the same rectangular shape, m columns. */
  predicate Grid<K(==), V>(keys: seq<seq<K>>, vals: seq<seq<V>>, m: nat) {
    && |keys| == |vals|
    && (forall i :: 0 <= i < |keys| ==> |keys[i]| == m)
    && (forall i :: 0 <= i < |vals| ==> |vals[i]| == m)
  }

  /** The mapping after rows 0 .. n - 1 of the grid have been inserted, row by row, each row left to right. */
  function GridInsert<K(==), V>(keys: seq<seq<K>>, vals: seq<seq<V>>, m: nat, n: nat): map<K, V>
    requires Grid(keys, vals, m) && n <= |keys|
  {
    if n == 0 then map[] else RowInsert(GridInsert(keys, vals, m, n - 1), keys[n - 1], vals[n - 1], m)
  }

  /** Key(s, ai, mi) at row ai, column mi. */
  function KeyGrid(s: Metric): (g: seq<seq<string>>)
    requires Shaped(s)
    ensures |g| == s.a && forall ai :: 0 <= ai < s.a ==> |g[ai]| == s.m
    ensures forall ai, mi :: 0 <= ai < s.a && 0 <= mi < s.m ==> g[ai][mi] == Key(s, ai, mi)
  {
    seq(s.a, ai requires 0 <= ai < s.a => seq(s.m, mi requires 0 <= mi < s.m => Key(s, ai, mi)))
  }

  /** SingleResult(s, ai, mi) at row ai, column mi. */
  function ValueGrid(s: Metric): (g: seq<seq<Value>>)
    requires Shaped(s)
    ensures |g| == s.a && forall ai :: 0 <= ai < s.a ==> |g[ai]| == s.m
    ensures forall ai, mi :: 0 <= ai < s.a && 0 <= mi < s.m ==> g[ai][mi] == SingleResult(s, ai, mi)
  {
    seq(s.a, ai requires 0 <= ai < s.a => seq(s.m, mi requires 0 <= mi < s.m => SingleResult(s, ai, mi)))
  }

  /** The mapping after the loop has handled area ranges 0 .. n - 1. */
  function TableMap(s: Metric, n: nat): map<string, Value>
    requires Shaped(s) && n <= s.a
  {
    GridInsert(KeyGrid(s), ValueGrid(s), s.m, n)
  }

  /** What result() returns: a scalar for a single bucket, the mapping otherwise. */
  function ResultOf(s: Metric): (r: RecallResult)
    requires Shaped(s)
    ensures r.Scalar? <==> s.a * s.m == 1
  {
    if s.a * s.m == 1 then Scalar(SingleResult(s, 0, 0)) else Mapping(TableMap(s, s.a))
  }

  /** One step of the inner loop: the row so far, then bucket (ai, mi) under its key. */
  lemma RowStep(s: Metric, acc: map<string, Value>, ai: nat, mi: nat)
    requires Shaped(s) && ai < s.a && mi < s.m
    ensures |KeyGrid(s)[ai]| == |ValueGrid(s)[ai]| == s.m
    ensures RowInsert(acc, KeyGrid(s)[ai], ValueGrid(s)[ai], mi + 1)
            == RowInsert(acc, KeyGrid(s)[ai], ValueGrid(s)[ai], mi)[Key(s, ai, mi) := SingleResult(s, ai, mi)]
  {
    var keys, vals := KeyGrid(s)[ai], ValueGrid(s)[ai];
    assert keys[mi] == Key(s, ai, mi) && vals[mi] == SingleResult(s, ai, mi);
  }

  /** The inner loop of result(): insert the buckets of area range ai, in order of max detections. */
  method FillRow(s: Metric, acc: map<string, Value>, ai: nat) returns (result: map<string, Value>)
    requires Shaped(s) && ai < s.a
    ensures result == RowInsert(acc, KeyGrid(s)[ai], ValueGrid(s)[ai], s.m)
  {
    result := acc;
    var mi := 0;
    while mi < s.m
      invariant 0 <= mi <= s.m
      invariant result == RowInsert(acc, KeyGrid(s)[ai], ValueGrid(s)[ai], mi)
    {
      var key, value := Key(s, ai, mi), SingleResult(s, ai, mi);
      RowStep(s, acc, ai, mi);
      result := result[key := value];
      mi := mi + 1;
    }
  }

  /** COCORecall.result: the nested loops fill the mapping bucket by bucket. */
  method Result(s: Metric) returns (r: RecallResult)
    requires Shaped(s)
    ensures r == ResultOf(s)
    ensures r.Scalar? <==> s.a * s.m == 1
  {
    if s.a * s.m == 1 {
      return Scalar(SingleResult(s, 0, 0));
    }
    var result: map<string, Value> := map[];
    var ai := 0;
    while ai < s.a
      invariant 0 <= ai <= s.a
      invariant result == TableMap(s, ai)
    {
      result := FillRow(s, result, ai);
      ai := ai + 1;
    }
    return Mapping(result);
  }

  // ---------------------------------------------------------------------
  // Lemmas: numbers as text

  lemma DigitRoundTrip(d: nat)
    requires d < 10
    ensures DigitValue(Digit(d)) == d
  {
    assert "0123456789"[d] as int == '0' as int + d;
  }

  lemma {:induction false} NatRoundTrip(n: nat)
    ensures ParseNat(NatToString(n)) == n
    decreases n
  {
    var r := NatToString(n);
    if n < 10 {
      assert r[..|r| - 1] == [];
    } else {
      assert r == NatToString(n / 10) + [Digit(n % 10)];
      assert r[..|r| - 1] == NatToString(n / 10);
      DigitRoundTrip(n % 10);
      NatRoundTrip(n / 10);
    }
  }

  /** Reading back what str() wrote gives the number. */
  lemma IntRoundTrip(n: int)
    ensures ParseInt(IntToString(n)) == n
  {
    var text := IntToString(n);
    if n < 0 {
      var digits := NatToString(-n);
      assert text == "-" + digits;
      assert text[0] == '-' && text[1..] == digits;
      assert ParseInt(text) == -(ParseNat(digits) as int);
      NatRoundTrip(-n);
    } else {
      assert text == NatToString(n);
      assert text[0] != '-';
      NatRoundTrip(n);
    }
  }

  lemma IntToStringInjective(x: int, y: int)
    ensures IntToString(x) == IntToString(y) <==> x == y
  {
    IntRoundTrip(x);
    IntRoundTrip(y);
  }

  /** Two ways of writing one string as a head ending in '=' and a tail with no '=' are the same way. */
  lemma SplitAtLastEquals(h1: string, t1: string, h2: string, t2: string)
    requires h1 + t1 == h2 + t2
    requires |h1| >= 1 && h1[|h1| - 1] == '=' && |h2| >= 1 && h2[|h2| - 1] == '='
    requires forall q :: 0 <= q < |t1| ==> t1[q] != '='
    requires forall q :: 0 <= q < |t2| ==> t2[q] != '='
    ensures h1 == h2 && t1 == t2
  {
    var w := h1 + t1;
    assert w[|h1| - 1] == '=' && (h2 + t2)[|h2| - 1] == '=';
    assert forall q :: |h1| <= q < |w| ==> w[q] == t1[q - |h1|];
    assert forall q :: |h2| <= q < |w| ==> (h2 + t2)[q] == t2[q - |h2|];
    assert |h1| == |h2|;
    assert h1 == w[..|h1|] && h2 == (h2 + t2)[..|h2|];
    assert t1 == w[|h1|..] && t2 == (h2 + t2)[|h2|..];
  }

  /**
   * Two keys are equal exactly when their labels and their max-detection
   * values are: the value is the text after the last '=', which no label
   * can disturb.
   */
  lemma KeyTextInjective(l1: string, d1: int, l2: string, d2: int)
    ensures KeyText(l1, d1) == KeyText(l2, d2) <==> l1 == l2 && d1 == d2
  {
    if KeyText(l1, d1) == KeyText(l2, d2) {
      var p := "Recall @ " + IouThresholdStrRep() + ", ";
      var sep := ", max_dets=";
      var h1, h2 := p + l1 + sep, p + l2 + sep;
      var t1, t2 := IntToString(d1), IntToString(d2);
      assert KeyText(l1, d1) == h1 + t1;
      assert KeyText(l2, d2) == h2 + t2;
      SplitAtLastEquals(h1, t1, h2, t2);
      assert l1 == h1[|p|..|p| + |l1|] == h2[|p|..|p| + |l2|] == l2;
      IntToStringInjective(d1, d2);
    }
  }

  /** The key is the fixed threshold text, the label, ", max_dets=" and the value, which parses back. */
  lemma KeyFormat(areaRange: string, maxDets: int)
    ensures KeyText(areaRange, maxDets)[..28 + |areaRange|] == "Recall @ [0.5, 0.95, 0.05], " + areaRange
    ensures KeyText(areaRange, maxDets)[28 + |areaRange|..39 + |areaRange|] == ", max_dets="
    ensures ParseInt(KeyText(areaRange, maxDets)[39 + |areaRange|..]) == maxDets
  {
    var prefix := "Recall @ " + IouThresholdStrRep() + ", ";
    ThresholdPrefix();
    var head, sep, digits := prefix + areaRange, ", max_dets=", IntToString(maxDets);
    assert KeyText(areaRange, maxDets) == head + sep + digits;
    ThreeParts(head, sep, digits);
    IntRoundTrip(maxDets);
  }

  lemma ThresholdPrefix()
    ensures "Recall @ " + IouThresholdStrRep() + ", " == "Recall @ [0.5, 0.95, 0.05], "
  {
  }

  /** The key reads neither the thresholds nor the tables. */
  lemma KeyIgnoresThresholds(s: Metric, thresholds: seq<real>, ai: nat, mi: nat)
    requires Shaped(s) && ai < s.a && mi < s.m
    ensures Shaped(s.(iouThresholds := thresholds))
    ensures Key(s.(iouThresholds := thresholds), ai, mi) == Key(s, ai, mi)
  {
  }

  // ---------------------------------------------------------------------
  // Lemmas: one bucket

  lemma {:induction false} RowSumFrame(s1: Metric, s2: Metric, tt: nat, n: nat, ai: nat, mi: nat)
    requires Shaped(s1) && Shaped(s2) && s1.t == s2.t && s1.k == s2.k && s1.a == s2.a && s1.m == s2.m
    requires tt < s1.t && n <= s1.k && ai < s1.a && mi < s1.m
    requires forall kk :: 0 <= kk < s1.k ==>
               s1.truePositives[tt][kk][ai][mi] == s2.truePositives[tt][kk][ai][mi]
    requires forall kk :: 0 <= kk < s1.k ==> s1.groundTruthBoxes[kk][ai] == s2.groundTruthBoxes[kk][ai]
    ensures RowSum(s1, tt, n, ai, mi) == RowSum(s2, tt, n, ai, mi)
    decreases n
  {
    if n > 0 {
      RowSumFrame(s1, s2, tt, n - 1, ai, mi);
    }
  }

  lemma {:induction false} GridSumFrame(s1: Metric, s2: Metric, n: nat, ai: nat, mi: nat)
    requires Shaped(s1) && Shaped(s2) && s1.t == s2.t && s1.k == s2.k && s1.a == s2.a && s1.m == s2.m
    requires n <= s1.t && ai < s1.a && mi < s1.m
    requires forall tt, kk :: 0 <= tt < s1.t && 0 <= kk < s1.k ==>
               s1.truePositives[tt][kk][ai][mi] == s2.truePositives[tt][kk][ai][mi]
    requires forall kk :: 0 <= kk < s1.k ==> s1.groundTruthBoxes[kk][ai] == s2.groundTruthBoxes[kk][ai]
    ensures GridSum(s1, n, ai, mi) == GridSum(s2, n, ai, mi)
    decreases n
  {
    if n > 0 {
      GridSumFrame(s1, s2, n - 1, ai, mi);
      RowSumFrame(s1, s2, n - 1, s1.k, ai, mi);
    }
  }

  /**
   * A bucket reads only its own slices truePositives[:, :, ai, mi] and
   * groundTruthBoxes[:, ai]: tables that agree there give the same recall.
   */
  lemma SingleResultFrame(s1: Metric, s2: Metric, ai: nat, mi: nat)
    requires Shaped(s1) && Shaped(s2) && s1.t == s2.t && s1.k == s2.k && s1.a == s2.a && s1.m == s2.m
    requires ai < s1.a && mi < s1.m
    requires forall tt, kk :: 0 <= tt < s1.t && 0 <= kk < s1.k ==>
               s1.truePositives[tt][kk][ai][mi] == s2.truePositives[tt][kk][ai][mi]
    requires forall kk :: 0 <= kk < s1.k ==> s1.groundTruthBoxes[kk][ai] == s2.groundTruthBoxes[kk][ai]
    ensures SingleResult(s1, ai, mi) == SingleResult(s2, ai, mi)
  {
    GridSumFrame(s1, s2, s1.t, ai, mi);
  }

  /** A cell whose class has no ground truth contributes 0, not an error and not NaN. */
  lemma ZeroGroundTruthCell(s: Metric, tt: nat, kk: nat, ai: nat, mi: nat)
    requires Shaped(s) && tt < s.t && kk < s.k && ai < s.a && mi < s.m
    requires s.groundTruthBoxes[kk][ai] == 0.0
    ensures Cell(s, tt, kk, ai, mi) == 0.0
  {
  }

  /** Every ratio whose true positives lie in [0, gt] lies in [0, 1]. */
  predicate Bounded(s: Metric, ai: nat, mi: nat)
    requires Shaped(s) && ai < s.a && mi < s.m
  {
    forall tt, kk :: 0 <= tt < s.t && 0 <= kk < s.k ==>
      0.0 <= s.truePositives[tt][kk][ai][mi] <= s.groundTruthBoxes[kk][ai]
  }

  /** A ratio of a non-negative number to a larger non-zero one lies in [0, 1]. */
  lemma RatioInUnitInterval(x: real, y: real)
    requires 0.0 <= x <= y && y != 0.0
    ensures 0.0 <= x / y <= 1.0
  {
    var q := x / y;
    assert q * y == x;
    assert (1.0 - q) * y == y - x;
  }

  lemma {:induction false} RowSumBounds(s: Metric, tt: nat, n: nat, ai: nat, mi: nat)
    requires Shaped(s) && tt < s.t && n <= s.k && ai < s.a && mi < s.m
    requires Bounded(s, ai, mi)
    ensures 0.0 <= RowSum(s, tt, n, ai, mi) <= n as real
    decreases n
  {
    if n > 0 {
      RowSumBounds(s, tt, n - 1, ai, mi);
      var x, y := s.truePositives[tt][n - 1][ai][mi], s.groundTruthBoxes[n - 1][ai];
      if y != 0.0 {
        RatioInUnitInterval(x, y);
      }
    }
  }

  lemma {:induction false} GridSumBounds(s: Metric, n: nat, ai: nat, mi: nat)
    requires Shaped(s) && n <= s.t && ai < s.a && mi < s.m
    requires Bounded(s, ai, mi)
    ensures 0.0 <= GridSum(s, n, ai, mi) <= (n * s.k) as real
    decreases n
  {
    if n > 0 {
      GridSumBounds(s, n - 1, ai, mi);
      RowSumBounds(s, n - 1, s.k, ai, mi);
      assert (n * s.k) as real == ((n - 1) * s.k) as real + s.k as real;
    }
  }

  /** With true positives between 0 and the ground-truth count, a bucket's recall lies in [0, 1]. */
  lemma RecallInUnitInterval(s: Metric, ai: nat, mi: nat)
    requires Shaped(s) && ai < s.a && mi < s.m
    requires Bounded(s, ai, mi)
    requires s.t * s.k > 0
    ensures SingleResult(s, ai, mi).Finite?
    ensures 0.0 <= SingleResult(s, ai, mi).v <= 1.0
  {
    GridSumBounds(s, s.t, ai, mi);
    var sum, count := GridSum(s, s.t, ai, mi), (s.t * s.k) as real;
    assert SingleResult(s, ai, mi).v == sum / count;
    RatioInUnitInterval(sum, count);
  }

  /**
   * Classes without ground truth are averaged in, not masked out: one class
   * found in full and one with no boxes give 0.5, not 1.
   */
  lemma ZeroGroundTruthNotExcluded()
    ensures Shaped(Metric([0.5], ["all"], [100], 1, 2, 1, 1, [[[[2.0]], [[0.0]]]], [[2.0], [0.0]]))
    ensures SingleResult(Metric([0.5], ["all"], [100], 1, 2, 1, 1, [[[[2.0]], [[0.0]]]], [[2.0], [0.0]]), 0, 0)
            == Finite(0.5)
  {
    var s := Metric([0.5], ["all"], [100], 1, 2, 1, 1, [[[[2.0]], [[0.0]]]], [[2.0], [0.0]]);
    assert Cell(s, 0, 0, 0, 0) == 1.0;
    assert Cell(s, 0, 1, 0, 0) == 0.0;
    assert RowSum(s, 0, 2, 0, 0) == 1.0;
    assert GridSum(s, 1, 0, 0) == 1.0;
  }

  // ---------------------------------------------------------------------
  // Lemmas: the mapping

  lemma {:induction false} RowInsertKeys<K, V>(acc: map<K, V>, keys: seq<K>, vals: seq<V>, n: nat)
    requires |keys| == |vals| && n <= |keys|
    ensures forall key :: key in RowInsert(acc, keys, vals, n) ==> key in acc || key in keys[..n]
    ensures forall key :: key in acc || key in keys[..n] ==> key in RowInsert(acc, keys, vals, n)
    decreases n
  {
    if n > 0 {
      RowInsertKeys(acc, keys, vals, n - 1);
      assert keys[..n] == keys[..n - 1] + [keys[n - 1]];
    }
  }

  /** The keys after n rows: those of the rows' cells, and no others. */
  lemma {:induction false} GridInsertKeys<K, V>(keys: seq<seq<K>>, vals: seq<seq<V>>, m: nat, n: nat)
    requires Grid(keys, vals, m) && n <= |keys|
    ensures forall i, j :: 0 <= i < n && 0 <= j < m ==> keys[i][j] in GridInsert(keys, vals, m, n)
    ensures forall key :: key in GridInsert(keys, vals, m, n) ==>
              exists i, j :: 0 <= i < n && 0 <= j < m && key == keys[i][j]
    decreases n
  {
    if n > 0 {
      var prev, row := GridInsert(keys, vals, m, n - 1), keys[n - 1];
      GridInsertKeys(keys, vals, m, n - 1);
      RowInsertKeys(prev, row, vals[n - 1], m);
      assert row[..m] == row;
      assert GridInsert(keys, vals, m, n) == RowInsert(prev, row, vals[n - 1], m);
      forall key | key in GridInsert(keys, vals, m, n)
        ensures exists i, j :: 0 <= i < n && 0 <= j < m && key == keys[i][j]
      {
        if key !in prev {
          assert key in row;
          var j :| 0 <= j < m && row[j] == key;
          assert key == keys[n - 1][j];
        }
      }
    }
  }

  lemma {:induction false} RowInsertKeeps<K, V>(acc: map<K, V>, keys: seq<K>, vals: seq<V>, n: nat, key: K)
    requires |keys| == |vals| && n <= |keys|
    requires key in acc && key !in keys[..n]
    ensures key in RowInsert(acc, keys, vals, n) && RowInsert(acc, keys, vals, n)[key] == acc[key]
    decreases n
  {
    if n > 0 {
      assert keys[..n] == keys[..n - 1] + [keys[n - 1]];
      RowInsertKeeps(acc, keys, vals, n - 1, key);
    }
  }

  lemma {:induction false} RowInsertValue<K, V>(acc: map<K, V>, keys: seq<K>, vals: seq<V>, n: nat, j: nat)
    requires |keys| == |vals| && j < n <= |keys|
    requires forall j2 :: j < j2 < n ==> keys[j2] != keys[j]
    ensures keys[j] in RowInsert(acc, keys, vals, n) && RowInsert(acc, keys, vals, n)[keys[j]] == vals[j]
    decreases n
  {
    if n - 1 != j {
      RowInsertValue(acc, keys, vals, n - 1, j);
    }
  }

  /** Row-major order: cell (i2, j2) is inserted after cell (i, j). */
  predicate Later(i2: nat, j2: nat, i: nat, j: nat) {
    i2 > i || (i2 == i && j2 > j)
  }

  /** No cell inserted after (i, j), within the first n rows, has the same key. */
  predicate LastWriter<K(==)>(keys: seq<seq<K>>, m: nat, n: nat, i: nat, j: nat)
    requires n <= |keys| && i < |keys| && j < m && forall r :: 0 <= r < |keys| ==> |keys[r]| == m
  {
    forall i2, j2 :: 0 <= i2 < n && 0 <= j2 < m && Later(i2, j2, i, j) ==> keys[i2][j2] != keys[i][j]
  }

  /** The last insertion under a key wins. */
  lemma {:induction false} LastWriterWins<K, V>(keys: seq<seq<K>>, vals: seq<seq<V>>, m: nat, n: nat, i: nat, j: nat)
    requires Grid(keys, vals, m) && n <= |keys| && i < n && j < m
    requires LastWriter(keys, m, n, i, j)
    ensures keys[i][j] in GridInsert(keys, vals, m, n)
    ensures GridInsert(keys, vals, m, n)[keys[i][j]] == vals[i][j]
    decreases n
  {
    if n - 1 == i {
      RowInsertValue(GridInsert(keys, vals, m, n - 1), keys[i], vals[i], m, j);
    } else {
      LastWriterWins(keys, vals, m, n - 1, i, j);
      var row := keys[n - 1];
      assert keys[i][j] !in row[..m] by {
        assert row[..m] == row;
        forall j2 | 0 <= j2 < m
          ensures row[j2] != keys[i][j]
        {
          assert Later(n - 1, j2, i, j);
        }
      }
      RowInsertKeeps(GridInsert(keys, vals, m, n - 1), keys[n - 1], vals[n - 1], m, keys[i][j]);
    }
  }

  /** Different cells have different keys. */
  predicate Injective<K(==)>(keys: seq<seq<K>>, m: nat)
    requires forall r :: 0 <= r < |keys| ==> |keys[r]| == m
  {
    forall i, j, i2, j2 :: 0 <= i < |keys| && 0 <= j < m && 0 <= i2 < |keys| && 0 <= j2 < m && keys[i][j] == keys[i2][j2] ==>
      i == i2 && j == j2
  }

  /** A key that is not in acc and differs from keys[..n] is still absent after they are inserted. */
  lemma RowInsertFresh<K, V>(acc: map<K, V>, keys: seq<K>, vals: seq<V>, n: nat)
    requires |keys| == |vals| && n < |keys|
    requires keys[n] !in acc
    requires forall j :: 0 <= j < n ==> keys[j] != keys[n]
    ensures keys[n] !in RowInsert(acc, keys, vals, n)
  {
    var k, front := keys[n], keys[..n];
    RowInsertKeys(acc, keys, vals, n);
    assert k !in front by {
      forall j | 0 <= j < |front|
        ensures front[j] != k
      {
        assert front[j] == keys[j];
      }
    }
  }

  /** Adding a key that is not yet present grows the mapping by one. */
  lemma AddFresh<K, V>(m: map<K, V>, k: K, v: V)
    requires k !in m
    ensures |m[k := v]| == |m| + 1
  {
  }

  lemma {:induction false} RowInsertSize<K, V>(acc: map<K, V>, keys: seq<K>, vals: seq<V>, n: nat)
    requires |keys| == |vals| && n <= |keys|
    requires forall j :: 0 <= j < n ==> keys[j] !in acc
    requires forall j, j2 :: 0 <= j < j2 < n ==> keys[j] != keys[j2]
    ensures |RowInsert(acc, keys, vals, n)| == |acc| + n
    decreases n
  {
    if n > 0 {
      var prev, k := RowInsert(acc, keys, vals, n - 1), keys[n - 1];
      RowInsertSize(acc, keys, vals, n - 1);
      RowInsertFresh(acc, keys, vals, n - 1);
      AddFresh(prev, k, vals[n - 1]);
    }
  }

  /** With pairwise different keys, the cells of row n are not among the keys of the rows before it, nor among each other. */
  lemma RowFresh<K, V>(keys: seq<seq<K>>, vals: seq<seq<V>>, m: nat, n: nat)
    requires Grid(keys, vals, m) && n < |keys| && Injective(keys, m)
    ensures forall j :: 0 <= j < m ==> keys[n][j] !in GridInsert(keys, vals, m, n)
    ensures forall j, j2 :: 0 <= j < j2 < m ==> keys[n][j] != keys[n][j2]
  {
    GridInsertKeys(keys, vals, m, n);
  }

  /** With pairwise different keys, n rows of m cells give n * m entries. */
  lemma {:induction false} GridInsertSize<K, V>(keys: seq<seq<K>>, vals: seq<seq<V>>, m: nat, n: nat)
    requires Grid(keys, vals, m) && n <= |keys| && Injective(keys, m)
    ensures |GridInsert(keys, vals, m, n)| == n * m
    decreases n
  {
    if n > 0 {
      GridInsertSize(keys, vals, m, n - 1);
      RowFresh(keys, vals, m, n - 1);
      RowInsertSize(GridInsert(keys, vals, m, n - 1), keys[n - 1], vals[n - 1], m);
      assert n * m == (n - 1) * m + m;
    }
  }

  /** Different labels for different area ranges and different values for different max-detection columns. */
  predicate Distinct(s: Metric) {
    && (forall i, j :: 0 <= i < j < |s.areaRanges| ==> s.areaRanges[i] != s.areaRanges[j])
    && (forall i, j :: 0 <= i < j < |s.maxDetections| ==> s.maxDetections[i] != s.maxDetections[j])
  }

  /** With distinct labels and values, different buckets have different keys. */
  lemma DistinctKeys(s: Metric)
    requires Shaped(s) && Distinct(s)
    ensures Injective(KeyGrid(s), s.m)
  {
    var g := KeyGrid(s);
    forall a1, m1, a2, m2 | 0 <= a1 < s.a && 0 <= m1 < s.m && 0 <= a2 < s.a && 0 <= m2 < s.m && g[a1][m1] == g[a2][m2]
      ensures a1 == a2 && m1 == m2
    {
      KeyTextInjective(s.areaRanges[a1], s.maxDetections[m1], s.areaRanges[a2], s.maxDetections[m2]);
    }
  }

  /** Exactly one bucket: the result is that bucket's recall as a scalar. */
  lemma SingleBucket(s: Metric)
    requires Shaped(s) && s.a * s.m == 1
    ensures s.a == 1 && s.m == 1
    ensures ResultOf(s) == Scalar(SingleResult(s, 0, 0))
  {
  }

  /** Any other number of buckets: a mapping with a key for every bucket and no other key. */
  lemma ResultKeys(s: Metric)
    requires Shaped(s) && s.a * s.m != 1
    ensures ResultOf(s).Mapping?
    ensures forall ai, mi :: 0 <= ai < s.a && 0 <= mi < s.m ==> Key(s, ai, mi) in ResultOf(s).entries
    ensures forall key :: key in ResultOf(s).entries ==>
              exists ai, mi :: 0 <= ai < s.a && 0 <= mi < s.m && key == Key(s, ai, mi)
  {
    TableKeys(s);
    assert ResultOf(s) == Mapping(TableMap(s, s.a));
  }

  lemma TableKeys(s: Metric)
    requires Shaped(s)
    ensures forall ai, mi :: 0 <= ai < s.a && 0 <= mi < s.m ==> Key(s, ai, mi) in TableMap(s, s.a)
    ensures forall key :: key in TableMap(s, s.a) ==>
              exists ai, mi :: 0 <= ai < s.a && 0 <= mi < s.m && key == Key(s, ai, mi)
  {
    var keys, vals := KeyGrid(s), ValueGrid(s);
    GridInsertKeys(keys, vals, s.m, s.a);
    TableHasKeys(s, keys, GridInsert(keys, vals, s.m, s.a));
    TableOnlyKeys(s, keys, GridInsert(keys, vals, s.m, s.a));
  }

  lemma TableHasKeys(s: Metric, keys: seq<seq<string>>, table: map<string, Value>)
    requires Shaped(s) && keys == KeyGrid(s)
    requires forall i, j :: 0 <= i < s.a && 0 <= j < s.m ==> keys[i][j] in table
    ensures forall ai, mi :: 0 <= ai < s.a && 0 <= mi < s.m ==> Key(s, ai, mi) in table
  {
    forall ai, mi | 0 <= ai < s.a && 0 <= mi < s.m
      ensures Key(s, ai, mi) in table
    {
      assert keys[ai][mi] == Key(s, ai, mi);
    }
  }

  lemma TableOnlyKeys(s: Metric, keys: seq<seq<string>>, table: map<string, Value>)
    requires Shaped(s) && keys == KeyGrid(s)
    requires forall key :: key in table ==> exists i, j :: 0 <= i < s.a && 0 <= j < s.m && key == keys[i][j]
    ensures forall key :: key in table ==> exists ai, mi :: 0 <= ai < s.a && 0 <= mi < s.m && key == Key(s, ai, mi)
  {
    forall key | key in table
      ensures exists ai, mi :: 0 <= ai < s.a && 0 <= mi < s.m && key == Key(s, ai, mi)
    {
      var ai, mi :| 0 <= ai < s.a && 0 <= mi < s.m && key == keys[ai][mi];
      assert key == Key(s, ai, mi);
    }
  }

  /** With distinct labels and values the mapping has a * m entries, each bucket's recall under its own key. */
  lemma ResultEntries(s: Metric)
    requires Shaped(s) && s.a * s.m != 1 && Distinct(s)
    ensures ResultOf(s).Mapping?
    ensures |ResultOf(s).entries| == s.a * s.m
    ensures forall ai, mi :: 0 <= ai < s.a && 0 <= mi < s.m ==>
              Key(s, ai, mi) in ResultOf(s).entries && ResultOf(s).entries[Key(s, ai, mi)] == SingleResult(s, ai, mi)
  {
    var keys, vals := KeyGrid(s), ValueGrid(s);
    DistinctKeys(s);
    GridInsertSize(keys, vals, s.m, s.a);
    forall ai, mi | 0 <= ai < s.a && 0 <= mi < s.m
      ensures Key(s, ai, mi) in ResultOf(s).entries && ResultOf(s).entries[Key(s, ai, mi)] == SingleResult(s, ai, mi)
    {
      LastWriterWins(keys, vals, s.m, s.a, ai, mi);
    }
  }

  /** Two area ranges with the same label: one entry, holding the later range's recall. */
  lemma DuplicateLabelOverwrites(s: Metric)
    requires Shaped(s) && s.a == 2 && s.m == 1 && s.areaRanges[0] == s.areaRanges[1]
    ensures ResultOf(s).Mapping?
    ensures ResultOf(s).entries == map[Key(s, 0, 0) := SingleResult(s, 1, 0)]
  {
    var keys, vals := KeyGrid(s), ValueGrid(s);
    assert keys[0][0] == Key(s, 0, 0) == Key(s, 1, 0) == keys[1][0];
    assert vals[0][0] == SingleResult(s, 0, 0) && vals[1][0] == SingleResult(s, 1, 0);
    assert RowInsert(map[], keys[0], vals[0], 1) == map[keys[0][0] := vals[0][0]];
    assert GridInsert(keys, vals, 1, 1) == map[Key(s, 0, 0) := SingleResult(s, 0, 0)];
    var first := GridInsert(keys, vals, 1, 1);
    assert RowInsert(first, keys[1], vals[1], 1) == first[keys[1][0] := vals[1][0]];
  }
}
