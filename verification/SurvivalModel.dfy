/** Hazard scoring and calibration (analysis/survival_model.py). */
module SurvivalModel {
  import opened Collections
  import opened Numbers

  datatype Result<+T> = Ok(value: T) | Err(reason: string)

  datatype Feature = LiquidityDrop | TopHolderSell | MintAuth | ClusterSell | PmktEvent | Other(name: string)

  const REQUIRED: seq<Feature> := [LiquidityDrop, TopHolderSell, MintAuth, ClusterSell, PmktEvent]

  type Features = map<Feature, real>

  // ---- Raw score ----

  function Weight(weights: Features, k: Feature): real {
    if k in weights then weights[k] else 0.0
  }

  function WeightedSum(keys: seq<Feature>, features: Features, weights: Features): real
    requires forall k | k in keys :: k in features
  {
    if keys == [] then 0.0
    else Times(Weight(weights, keys[0]), features[keys[0]]) + WeightedSum(keys[1..], features, weights)
  }

  function WeightSum(keys: seq<Feature>, weights: Features): real {
    if keys == [] then 0.0 else Weight(weights, keys[0]) + WeightSum(keys[1..], weights)
  }

  predicate Complete(features: Features) {
    forall k | k in REQUIRED :: k in features
  }

  function Normalized(features: Features, weights: Features): real
    requires Complete(features)
  {
    var total := WeightSum(REQUIRED, weights);
    if total > 0.0 then WeightedSum(REQUIRED, features, weights) / total else 0.0
  }

  /** `sigmoid` stands for the logistic curve with its steepness and midpoint fixed. */
  function HazardScore(features: Features, weights: Features, sigmoid: real -> real): Result<real> {
    if !Complete(features) then Err("Missing required features")
    else Ok(sigmoid(Normalized(features, weights)))
  }

  lemma SumsCons(k: Feature, rest: seq<Feature>, features: Features, weights: Features)
    requires k in features && forall j | j in rest :: j in features
    ensures WeightSum([k] + rest, weights) == Weight(weights, k) + WeightSum(rest, weights)
    ensures WeightedSum([k] + rest, features, weights)
            == Times(Weight(weights, k), features[k]) + WeightedSum(rest, features, weights)
  {
    assert ([k] + rest)[1..] == rest;
  }

  /** The mean input times the weights' sum is the sum of the five weighted features; with no positive
      sum of weights the input is zero. */
  lemma NormalizedIsWeightedMean(features: Features, weights: Features)
    requires Complete(features)
    ensures var w := k => Weight(weights, k);
            var total := w(LiquidityDrop) + w(TopHolderSell) + w(MintAuth) + w(ClusterSell) + w(PmktEvent);
            if total > 0.0 then
              Times(Normalized(features, weights), total)
              == Times(w(LiquidityDrop), features[LiquidityDrop]) + Times(w(TopHolderSell), features[TopHolderSell])
                 + Times(w(MintAuth), features[MintAuth]) + Times(w(ClusterSell), features[ClusterSell])
                 + Times(w(PmktEvent), features[PmktEvent])
            else Normalized(features, weights) == 0.0
  {
    var total, sum := RequiredSums(features, weights);
    if total > 0.0 {
      QuotientOf(sum, total);
    }
  }

  lemma QuotientOf(a: real, d: real)
    requires d > 0.0
    ensures Times(a / d, d) == a
  {
  }

  lemma RequiredSums(features: Features, weights: Features) returns (total: real, sum: real)
    requires Complete(features)
    ensures total == WeightSum(REQUIRED, weights) && sum == WeightedSum(REQUIRED, features, weights)
    ensures total == Weight(weights, LiquidityDrop) + Weight(weights, TopHolderSell) + Weight(weights, MintAuth)
                     + Weight(weights, ClusterSell) + Weight(weights, PmktEvent)
    ensures sum == Times(Weight(weights, LiquidityDrop), features[LiquidityDrop])
                   + Times(Weight(weights, TopHolderSell), features[TopHolderSell])
                   + Times(Weight(weights, MintAuth), features[MintAuth])
                   + Times(Weight(weights, ClusterSell), features[ClusterSell])
                   + Times(Weight(weights, PmktEvent), features[PmktEvent])
  {
    total, sum := WeightSum(REQUIRED, weights), WeightedSum(REQUIRED, features, weights);
    SumsCons(PmktEvent, [], features, weights);
    SumsCons(ClusterSell, [PmktEvent], features, weights);
    SumsCons(MintAuth, [ClusterSell, PmktEvent], features, weights);
    SumsCons(TopHolderSell, [MintAuth, ClusterSell, PmktEvent], features, weights);
    SumsCons(LiquidityDrop, [TopHolderSell, MintAuth, ClusterSell, PmktEvent], features, weights);
    assert [PmktEvent] + [] == [PmktEvent];
    assert [ClusterSell] + [PmktEvent] == [ClusterSell, PmktEvent];
    assert [MintAuth] + [ClusterSell, PmktEvent] == [MintAuth, ClusterSell, PmktEvent];
    assert [TopHolderSell] + [MintAuth, ClusterSell, PmktEvent] == [TopHolderSell, MintAuth, ClusterSell, PmktEvent];
    assert [LiquidityDrop] + [TopHolderSell, MintAuth, ClusterSell, PmktEvent] == REQUIRED;
  }

  // ---- Calibration ----

  datatype Knot = Knot(x: real, y: real)

  predicate ByX(a: Knot, b: Knot) {
    a.x <= b.x
  }

  /** The line through two knots; on a vertical step, its start. */
  function OnSegment(a: Knot, b: Knot, x: real): real {
    a.y + Times(Ratio(a.x, b.x, x), b.y - a.y)
  }

  function Ratio(lo: real, hi: real, x: real): real {
    if hi - lo > 0.0 then (x - lo) / (hi - lo) else 0.0
  }

  /** The first segment from `i` on that contains `x`. */
  function FirstSegment(curve: seq<Knot>, x: real, i: nat): (k: nat)
    requires i + 1 < |curve| && curve[i].x <= x <= curve[|curve| - 1].x
    ensures i <= k && k + 1 < |curve| && curve[k].x <= x <= curve[k + 1].x
    ensures forall j | i <= j < k :: !(curve[j].x <= x <= curve[j + 1].x)
    decreases |curve| - i
  {
    if x <= curve[i + 1].x then i else FirstSegment(curve, x, i + 1)
  }

  /** Piecewise-linear interpolation, flat outside the knots. */
  function Interpolate(curve: seq<Knot>, x: real): real
    requires curve != []
  {
    if x <= curve[0].x then curve[0].y
    else if x >= curve[|curve| - 1].x then curve[|curve| - 1].y
    else
      var k := FirstSegment(curve, x, 0);
      OnSegment(curve[k], curve[k + 1], x)
  }

  function CalibrateHazardScore(raw: real, curve: seq<Knot>): Result<real> {
    if !(0.0 <= raw <= 1.0) then Err("raw_score out of bounds")
    else if curve == [] then Err("empty calibration curve")
    else Ok(Interpolate(Sort(curve, ByX), raw))
  }

  /** The index search of `calibrate_hazard_score`; it never falls through to its last line. */
  method Calibrate(raw: real, curve: seq<Knot>) returns (r: Result<real>)
    ensures r == CalibrateHazardScore(raw, curve)
  {
    if !(0.0 <= raw <= 1.0) {
      return Err("raw_score out of bounds");
    }
    if curve == [] {
      return Err("empty calibration curve");
    }
    SortCorrect(curve, ByX);
    var sorted := Sort(curve, ByX);
    if raw <= sorted[0].x {
      return Ok(sorted[0].y);
    }
    if raw >= sorted[|sorted| - 1].x {
      return Ok(sorted[|sorted| - 1].y);
    }
    var i := 0;
    while i < |sorted| - 1
      invariant 0 <= i <= |sorted| - 1 && sorted[i].x <= raw
      invariant forall j | 0 <= j < i :: !(sorted[j].x <= raw <= sorted[j + 1].x)
    {
      if sorted[i].x <= raw <= sorted[i + 1].x {
        ghost var k := FirstSegment(sorted, raw, 0);
        return Ok(OnSegment(sorted[i], sorted[i + 1], raw));
      }
      i := i + 1;
    }
    assert false;
  }

  lemma RatioInUnit(lo: real, hi: real, x: real)
    requires lo <= x <= hi && lo < hi
    ensures 0.0 <= Ratio(lo, hi, x) <= 1.0
    ensures x == hi ==> Ratio(lo, hi, x) == 1.0
  {
    var q, d := Ratio(lo, hi, x), hi - lo;
    assert q * d == x - lo;
    assert (1.0 - q) * d == hi - x;
    FactorSign(q, d);
    FactorSign(1.0 - q, d);
    if x == hi {
      assert (q - 1.0) * d == 0.0;
      FactorSign(q - 1.0, d);
    }
  }

  lemma RatioMonotone(lo: real, hi: real, x: real, x': real)
    requires x <= x'
    ensures Ratio(lo, hi, x) <= Ratio(lo, hi, x')
  {
    if lo < hi {
      QuotientMonotone(x - lo, x' - lo, hi - lo);
    }
  }

  lemma QuotientMonotone(x: real, y: real, d: real)
    requires x <= y && d > 0.0
    ensures x / d <= y / d
  {
    var q, r := x / d, y / d;
    assert q * d == x && r * d == y;
    assert (r - q) * d == y - x;
    FactorSign(r - q, d);
  }

  lemma SegmentBetween(a: Knot, b: Knot, x: real)
    requires a.x <= x <= b.x && a.y <= b.y
    ensures a.y <= OnSegment(a, b, x) <= b.y
  {
    if a.x < b.x {
      RatioInUnit(a.x, b.x, x);
      ProductSign(Ratio(a.x, b.x, x), b.y - a.y);
      ProductMonotone(Ratio(a.x, b.x, x), 1.0, b.y - a.y);
    }
  }

  lemma SegmentMonotone(a: Knot, b: Knot, x: real, x': real)
    requires x <= x' && a.y <= b.y
    ensures OnSegment(a, b, x) <= OnSegment(a, b, x')
  {
    RatioMonotone(a.x, b.x, x, x');
    ProductMonotone(Ratio(a.x, b.x, x), Ratio(a.x, b.x, x'), b.y - a.y);
  }

  /** On a segment that is not vertical the value lies on the straight line through its ends. */
  lemma SegmentIsStraight(a: Knot, b: Knot, x: real)
    requires a.x < b.x
    ensures Times(OnSegment(a, b, x) - a.y, b.x - a.x) == Times(x - a.x, b.y - a.y)
  {
    var q, d, h := Ratio(a.x, b.x, x), b.x - a.x, b.y - a.y;
    assert q * d == x - a.x;
    assert (q * h) * d == (q * d) * h;
  }

  /** Between two neighbouring knots interpolation is the straight line through them. */
  lemma InterpolationIsLinear(curve: seq<Knot>, i: nat, x: real)
    requires i + 1 < |curve| && forall j, k | 0 <= j < k < |curve| :: curve[j].x < curve[k].x
    requires curve[i].x < x < curve[i + 1].x
    ensures Times(Interpolate(curve, x) - curve[i].y, curve[i + 1].x - curve[i].x)
            == Times(x - curve[i].x, curve[i + 1].y - curve[i].y)
  {
    var n := |curve| - 1;
    assert curve[0].x <= curve[i].x && curve[i + 1].x <= curve[n].x;
    var k := FirstSegment(curve, x, 0);
    assert k == i;
    SegmentIsStraight(curve[i], curve[i + 1], x);
  }

  predicate ByY(a: Knot, b: Knot) {
    a.y <= b.y
  }

  /** A curve in order of `x` whose calibrated values never fall. */
  ghost predicate Rising(curve: seq<Knot>) {
    curve != [] && Sorted(curve, ByX) && Sorted(curve, ByY)
  }

  lemma SegmentWithin(a: Knot, b: Knot, x: real)
    requires a.x <= x <= b.x
    ensures a.y <= OnSegment(a, b, x) <= b.y || b.y <= OnSegment(a, b, x) <= a.y
  {
    if a.y <= b.y {
      SegmentBetween(a, b, x);
    } else if a.x < b.x {
      RatioInUnit(a.x, b.x, x);
      ProductSign(Ratio(a.x, b.x, x), a.y - b.y);
      ProductMonotone(Ratio(a.x, b.x, x), 1.0, a.y - b.y);
      assert Times(Ratio(a.x, b.x, x), b.y - a.y) == -(Ratio(a.x, b.x, x) * (a.y - b.y));
    }
  }

  /** Interpolation stays between two of the calibrated values, on a rising curve between the first
      and the last. */
  lemma InterpolationInRange(curve: seq<Knot>, x: real)
    requires curve != []
    ensures exists i, j | 0 <= i < |curve| && 0 <= j < |curve| :: curve[i].y <= Interpolate(curve, x) <= curve[j].y
    ensures Rising(curve) ==> curve[0].y <= Interpolate(curve, x) <= curve[|curve| - 1].y
  {
    var n := |curve| - 1;
    if curve[0].x < x < curve[n].x {
      var k := FirstSegment(curve, x, 0);
      SegmentWithin(curve[k], curve[k + 1], x);
      var v := Interpolate(curve, x);
      assert curve[k].y <= v <= curve[k + 1].y || curve[k + 1].y <= v <= curve[k].y;
    } else {
      var i := if x <= curve[0].x then 0 else n;
      assert curve[i].y <= Interpolate(curve, x) <= curve[i].y;
    }
    if Rising(curve) {
      RisingInRange(curve, x);
    }
  }

  lemma RisingInRange(curve: seq<Knot>, x: real)
    requires Rising(curve)
    ensures curve[0].y <= Interpolate(curve, x) <= curve[|curve| - 1].y
  {
    var n := |curve| - 1;
    assert n > 0 ==> ByY(curve[0], curve[n]);
    if curve[0].x < x < curve[n].x {
      var k := FirstSegment(curve, x, 0);
      assert ByY(curve[k], curve[k + 1]);
      SegmentBetween(curve[k], curve[k + 1], x);
      assert k == 0 || ByY(curve[0], curve[k]);
      assert k + 1 == n || ByY(curve[k + 1], curve[n]);
    }
  }

  /** A higher raw score never calibrates lower. */
  lemma InterpolationMonotone(curve: seq<Knot>, x: real, x': real)
    requires Rising(curve) && x <= x'
    ensures Interpolate(curve, x) <= Interpolate(curve, x')
  {
    var n := |curve| - 1;
    RisingInRange(curve, x);
    RisingInRange(curve, x');
    if curve[0].x < x && x' < curve[n].x {
      var k, k' := FirstSegment(curve, x, 0), FirstSegment(curve, x', 0);
      assert ByY(curve[k], curve[k + 1]) && ByY(curve[k'], curve[k' + 1]);
      if k == k' {
        SegmentMonotone(curve[k], curve[k + 1], x, x');
      } else {
        SegmentBetween(curve[k], curve[k + 1], x);
        SegmentBetween(curve[k'], curve[k' + 1], x');
        assert k < k';
        assert k + 1 == k' || ByY(curve[k + 1], curve[k']);
      }
    }
  }

  /** With distinct knots, interpolation passes through every one of them. */
  lemma InterpolationHitsKnots(curve: seq<Knot>, i: nat)
    requires i < |curve|
    requires forall j, k | 0 <= j < k < |curve| :: curve[j].x < curve[k].x
    ensures Interpolate(curve, curve[i].x) == curve[i].y
  {
    var n := |curve| - 1;
    if 0 < i < n {
      var k := FirstSegment(curve, curve[i].x, 0);
      assert k + 1 == i by {
        assert curve[i - 1].x < curve[i].x;
        assert k < i;
        assert i <= k + 1;
      }
      var a, b := curve[k], curve[i];
      RatioInUnit(a.x, b.x, b.x);
    }
  }

  // ---- From features to the emergency exit ----

  function IsEmergencyExit(score: real, threshold: real): Result<bool> {
    if !(0.0 <= score <= 1.0) then Err("hazard_score out of bounds")
    else if !(0.0 <= threshold <= 1.0) then Err("hazard_threshold out of bounds")
    else Ok(score >= threshold)
  }

  /** The composition in `compute_full_hazard`. */
  function EmergencyExit(features: Features, weights: Features, sigmoid: real -> real, curve: seq<Knot>, threshold: real): Result<bool> {
    match HazardScore(features, weights, sigmoid)
    case Err(e) => Err(e)
    case Ok(raw) =>
      (match CalibrateHazardScore(raw, curve)
       case Err(e) => Err(e)
       case Ok(calibrated) => IsEmergencyExit(calibrated, threshold))
  }

  /** The model gives an answer if and only if no required feature is missing, there is a curve, and the raw
      score, the calibrated one and the threshold are in the unit interval; then it is whether the
      calibrated score reaches the threshold. */
  lemma AnswerIsExact(features: Features, weights: Features, sigmoid: real -> real, curve: seq<Knot>, threshold: real)
    ensures var r := EmergencyExit(features, weights, sigmoid, curve, threshold);
            && (r.Ok? <==> Complete(features) && curve != [] && 0.0 <= threshold <= 1.0
                           && var raw := sigmoid(Normalized(features, weights));
                              0.0 <= raw <= 1.0 && 0.0 <= Interpolate(Sort(curve, ByX), raw) <= 1.0)
            && (r.Ok? ==> (r.value <==> threshold <= Interpolate(Sort(curve, ByX), sigmoid(Normalized(features, weights)))))
  {
  }

  ghost predicate RaisedOn(keys: seq<Feature>, f: Features, f': Features) {
    forall k | k in keys :: k in f && k in f' && f[k] <= f'[k]
  }

  lemma {:induction false} WeightedSumMonotone(keys: seq<Feature>, f: Features, f': Features, weights: Features)
    requires RaisedOn(keys, f, f') && forall k | k in keys :: Weight(weights, k) >= 0.0
    ensures WeightedSum(keys, f, weights) <= WeightedSum(keys, f', weights)
  {
    if keys != [] {
      WeightedSumMonotone(keys[1..], f, f', weights);
      var k := keys[0];
      ProductMonotone(f[k], f'[k], Weight(weights, k));
      assert Times(Weight(weights, k), f[k]) <= Times(Weight(weights, k), f'[k]);
    }
  }

  ghost predicate Sigmoidal(s: real -> real) {
    && (forall x :: 0.0 <= s(x) <= 1.0)
    && (forall x, y | x <= y :: s(x) <= s(y))
  }

  /** The setting in which the model is meant to be used. */
  ghost predicate WellPosed(weights: Features, sigmoid: real -> real, curve: seq<Knot>, threshold: real) {
    && (forall k | k in REQUIRED :: Weight(weights, k) >= 0.0)
    && WeightSum(REQUIRED, weights) > 0.0
    && Sigmoidal(sigmoid)
    && Rising(Sort(curve, ByX))
    && 0.0 <= Sort(curve, ByX)[0].y && Sort(curve, ByX)[|Sort(curve, ByX)| - 1].y <= 1.0
    && 0.0 <= threshold <= 1.0
  }

  lemma ScoreInUnit(weights: Features, sigmoid: real -> real, curve: seq<Knot>, threshold: real, features: Features)
    requires WellPosed(weights, sigmoid, curve, threshold) && Complete(features)
    ensures var raw := sigmoid(Normalized(features, weights));
            && HazardScore(features, weights, sigmoid) == Ok(raw)
            && CalibrateHazardScore(raw, curve) == Ok(Interpolate(Sort(curve, ByX), raw))
            && EmergencyExit(features, weights, sigmoid, curve, threshold)
               == Ok(Interpolate(Sort(curve, ByX), raw) >= threshold)
  {
    var raw := sigmoid(Normalized(features, weights));
    assert 0.0 <= raw <= 1.0;
    RisingInRange(Sort(curve, ByX), raw);
    assert curve != [];
  }

  /** Raising any required feature never turns an emergency exit off. */
  lemma RaisingFeaturesKeepsExit(weights: Features, sigmoid: real -> real, curve: seq<Knot>, threshold: real,
                                 f: Features, f': Features)
    requires WellPosed(weights, sigmoid, curve, threshold)
    requires RaisedOn(REQUIRED, f, f')
    ensures EmergencyExit(f, weights, sigmoid, curve, threshold).Ok?
    ensures EmergencyExit(f', weights, sigmoid, curve, threshold).Ok?
    ensures EmergencyExit(f, weights, sigmoid, curve, threshold) == Ok(true)
            ==> EmergencyExit(f', weights, sigmoid, curve, threshold) == Ok(true)
  {
    ScoreInUnit(weights, sigmoid, curve, threshold, f);
    ScoreInUnit(weights, sigmoid, curve, threshold, f');
    var x, x' := Normalized(f, weights), Normalized(f', weights);
    assert x <= x' by {
      WeightedSumMonotone(REQUIRED, f, f', weights);
      QuotientMonotone(WeightedSum(REQUIRED, f, weights), WeightedSum(REQUIRED, f', weights), WeightSum(REQUIRED, weights));
    }
    assert sigmoid(x) <= sigmoid(x');
    InterpolationMonotone(Sort(curve, ByX), sigmoid(x), sigmoid(x'));
  }
}
