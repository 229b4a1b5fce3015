/** Maximum drawdown of an equity curve (integration/pnl_aggregator.py, `_calculate_max_drawdown`). */
module Drawdown {
  import opened Numbers

  /** The fall from `a` to `b` as a fraction of `a`; a level that is not positive has none. */
  function Drop(a: real, b: real): real {
    if a > 0.0 then (a - b) / a else 0.0
  }

  function Peak(curve: seq<real>): real
    requires curve != []
  {
    var last := curve[|curve| - 1];
    if |curve| == 1 then last
    else
      var p := Peak(curve[..|curve| - 1]);
      if last > p then last else p
  }

  /** The deepest fall below the running peak. */
  function Worst(curve: seq<real>): real {
    if curve == [] then 0.0
    else
      var w, d := Worst(curve[..|curve| - 1]), Drop(Peak(curve), curve[|curve| - 1]);
      if d > w then d else w
  }

  /** What a maximum drawdown is: no earlier level falls further to any later one, and some pair
      attains it. */
  ghost predicate IsMaxDrawdown(curve: seq<real>, dd: real) {
    && dd >= 0.0
    && (forall i, j | 0 <= i <= j < |curve| :: Drop(curve[i], curve[j]) <= dd)
    && (dd == 0.0 || exists i, j | 0 <= i <= j < |curve| :: Drop(curve[i], curve[j]) == dd)
  }

  ghost predicate NonNegative(curve: seq<real>) {
    forall i | 0 <= i < |curve| :: curve[i] >= 0.0
  }

  lemma {:induction false} PeakIsGreatest(curve: seq<real>)
    requires curve != []
    ensures forall i | 0 <= i < |curve| :: curve[i] <= Peak(curve)
    ensures exists i :: 0 <= i < |curve| && curve[i] == Peak(curve)
  {
    var n := |curve| - 1;
    if n == 0 {
      assert curve[0] == Peak(curve);
    } else {
      var init := curve[..n];
      PeakIsGreatest(init);
      var k :| 0 <= k < |init| && init[k] == Peak(init);
      assert curve[k] == Peak(init) && curve[n] == curve[n];
      assert forall i | 0 <= i < n :: curve[i] == init[i];
    }
  }

  /** Falling to the same non-negative level from higher up is falling further. */
  lemma HigherFallsFurther(a: real, p: real, b: real)
    requires a <= p && b >= 0.0
    ensures Drop(a, b) <= Drop(p, b) || Drop(a, b) <= 0.0
    ensures p > 0.0 ==> Drop(a, b) <= Drop(p, b) || a <= 0.0
  {
    if a > 0.0 {
      FallRatio(a, p, b);
    }
  }

  lemma FallRatio(a: real, p: real, b: real)
    requires 0.0 < a <= p && b >= 0.0
    ensures (a - b) / a <= (p - b) / p
  {
    var q, r := (a - b) / a, (p - b) / p;
    assert q * a == a - b && r * p == p - b;
    KeptShare(1.0 - q, a, 1.0 - r, p, b);
  }

  lemma KeptShare(x: real, a: real, y: real, p: real, b: real)
    requires 0.0 < a <= p && b >= 0.0 && x * a == b && y * p == b
    ensures y <= x
  {
    FactorSign(y, p);
    ProductSign(y, p - a);
    assert y * p - y * a == y * (p - a);
    assert x * a - y * a == (x - y) * a;
    FactorSign(x - y, a);
  }

  /** Below zero it is the other way round: the lower start falls further. */
  lemma LowerFallsFurther(a: real, p: real, b: real)
    requires 0.0 < a <= p && b <= 0.0
    ensures Drop(p, b) <= Drop(a, b)
  {
    var q, r := (a - b) / a, (p - b) / p;
    assert q * a == a - b && r * p == p - b;
    DeficitShare(q - 1.0, a, r - 1.0, p, -b);
  }

  lemma DeficitShare(x: real, a: real, y: real, p: real, d: real)
    requires 0.0 < a <= p && d >= 0.0 && x * a == d && y * p == d
    ensures y <= x
  {
    KeptShare(x, a, y, p, d);
  }

  /** The fall below the running peak at each point, the deepest of which is the one pass's result. */
  lemma {:induction false} WorstIsDeepest(curve: seq<real>, x: real)
    ensures Worst(curve) <= x <==> x >= 0.0 && forall j | 0 <= j < |curve| :: FallAt(curve, j) <= x
  {
    if curve != [] {
      var n := |curve| - 1;
      var init := curve[..n];
      WorstIsDeepest(init, x);
      assert curve[..n + 1] == curve;
      assert FallAt(curve, n) == Drop(Peak(curve), curve[n]);
      forall j | 0 <= j < n
        ensures FallAt(init, j) == FallAt(curve, j)
      {
        assert init[..j + 1] == curve[..j + 1];
      }
    }
  }

  function FallAt(curve: seq<real>, j: int): real
    requires 0 <= j < |curve|
  {
    Drop(Peak(curve[..j + 1]), curve[j])
  }

  lemma {:induction false} WorstIsSomeFall(curve: seq<real>)
    ensures Worst(curve) == 0.0 || exists k | 0 <= k < |curve| :: FallAt(curve, k) == Worst(curve)
  {
    if curve != [] {
      var n := |curve| - 1;
      var init := curve[..n];
      WorstIsSomeFall(init);
      assert curve[..n + 1] == curve && FallAt(curve, n) == Drop(Peak(curve), curve[n]);
      if Worst(curve) == Worst(init) != 0.0 {
        var k :| 0 <= k < n && FallAt(init, k) == Worst(init);
        assert init[..k + 1] == curve[..k + 1];
        assert FallAt(curve, k) == Worst(curve);
      }
    }
  }

  /** Somewhere the curve lies at least the fraction `d` below its running peak. */
  ghost predicate Reaches(curve: seq<real>, d: real) {
    d <= 0.0 || exists k | 0 <= k < |curve| :: FallAt(curve, k) >= d
  }

  lemma ReachesIff(curve: seq<real>, d: real)
    ensures Reaches(curve, d) <==> d <= Worst(curve)
  {
    WorstIsDeepest(curve, Worst(curve));
    WorstIsSomeFall(curve);
  }

  /** The least positive level, or zero if there is none. */
  function LeastPositive(curve: seq<real>): real {
    if curve == [] then 0.0
    else
      var least, last := LeastPositive(curve[..|curve| - 1]), curve[|curve| - 1];
      if last > 0.0 && (least == 0.0 || last < least) then last else least
  }

  lemma {:induction false} LeastPositiveIsLeast(curve: seq<real>)
    ensures LeastPositive(curve) >= 0.0
    ensures forall i | 0 <= i < |curve| && curve[i] > 0.0 :: 0.0 < LeastPositive(curve) <= curve[i]
    ensures LeastPositive(curve) > 0.0 ==> LeastPositive(curve) in curve
  {
    if curve != [] {
      var n := |curve| - 1;
      LeastPositiveIsLeast(curve[..n]);
      assert curve == curve[..n] + [curve[n]];
      assert forall i | 0 <= i < n :: curve[i] == curve[..n][i];
    }
  }

  /** However far a negative level lies below the least positive level before it, somewhere the curve
      lies as far below its running peak. */
  ghost predicate NothingMissed(curve: seq<real>) {
    forall j | 0 <= j < |curve| && curve[j] < 0.0 :: Reaches(curve, Drop(LeastPositive(curve[..j]), curve[j]))
  }

  lemma PositiveLevelFall(curve: seq<real>, i: nat, j: nat)
    requires i <= j < |curve| && curve[j] >= 0.0
    ensures Drop(curve[i], curve[j]) <= Worst(curve)
  {
    WorstIsDeepest(curve, Worst(curve));
    PeakIsGreatest(curve[..j + 1]);
    assert curve[..j + 1][i] == curve[i];
    assert FallAt(curve, j) <= Worst(curve);
    HigherFallsFurther(curve[i], Peak(curve[..j + 1]), curve[j]);
  }

  lemma NegativeLevelFall(curve: seq<real>, i: nat, j: nat)
    requires i <= j < |curve| && curve[j] < 0.0 && NothingMissed(curve)
    ensures Drop(curve[i], curve[j]) <= Worst(curve)
  {
    WorstIsDeepest(curve, Worst(curve));
    if curve[i] > 0.0 {
      LeastPositiveIsLeast(curve[..j]);
      assert curve[..j][i] == curve[i];
      ReachesIff(curve, Drop(LeastPositive(curve[..j]), curve[j]));
      LowerFallsFurther(LeastPositive(curve[..j]), curve[i], curve[j]);
    }
  }

  lemma MaxMissesNothing(curve: seq<real>)
    requires IsMaxDrawdown(curve, Worst(curve))
    ensures NothingMissed(curve)
  {
    forall j | 0 <= j < |curve| && curve[j] < 0.0
      ensures Reaches(curve, Drop(LeastPositive(curve[..j]), curve[j]))
    {
      LeastPositiveIsLeast(curve[..j]);
      ReachesIff(curve, Drop(LeastPositive(curve[..j]), curve[j]));
      if LeastPositive(curve[..j]) > 0.0 {
        var i :| 0 <= i < j && curve[..j][i] == LeastPositive(curve[..j]);
        assert Drop(curve[i], curve[j]) <= Worst(curve);
      }
    }
  }

  /** The one pass finds the all-pairs maximum if and only if it misses no fall to a negative level. */
  lemma WorstIsMaxIffNothingMissed(curve: seq<real>)
    ensures IsMaxDrawdown(curve, Worst(curve)) <==> NothingMissed(curve)
  {
    if NothingMissed(curve) {
      forall i, j | 0 <= i <= j < |curve|
        ensures Drop(curve[i], curve[j]) <= Worst(curve)
      {
        if curve[j] >= 0.0 {
          PositiveLevelFall(curve, i, j);
        } else {
          NegativeLevelFall(curve, i, j);
        }
      }
      WorstIsAttained(curve);
    }
    if IsMaxDrawdown(curve, Worst(curve)) {
      MaxMissesNothing(curve);
    }
  }

  /** On a curve that never goes negative, the one pass finds the all-pairs maximum. */
  lemma WorstIsMaxDrawdown(curve: seq<real>)
    requires NonNegative(curve)
    ensures IsMaxDrawdown(curve, Worst(curve))
  {
    WorstIsMaxIffNothingMissed(curve);
  }

  lemma {:induction false} WorstIsAttained(curve: seq<real>)
    ensures Worst(curve) >= 0.0
    ensures Worst(curve) == 0.0 || exists i, j | 0 <= i <= j < |curve| :: Drop(curve[i], curve[j]) == Worst(curve)
  {
    if curve != [] {
      var n := |curve| - 1;
      var init := curve[..n];
      WorstIsAttained(init);
      if Worst(curve) == Worst(init) {
        if Worst(init) != 0.0 {
          var i, j :| 0 <= i <= j < |init| && Drop(init[i], init[j]) == Worst(init);
          assert Drop(curve[i], curve[j]) == Worst(curve);
        }
      } else {
        PeakIsGreatest(curve);
        var k :| 0 <= k < |curve| && curve[k] == Peak(curve);
        assert Drop(curve[k], curve[n]) == Worst(curve);
      }
    }
  }

  // ---- The aggregator ----

  const STARTING_EQUITY := 10000.0

  /** Equity after each position; the starting equity itself is not a point of the curve. */
  function EquityCurve(pnls: seq<real>): seq<real> {
    if pnls == [] then []
    else
      var n := |pnls| - 1;
      var c := EquityCurve(pnls[..n]);
      c + [(if n == 0 then STARTING_EQUITY else LastOr(c, STARTING_EQUITY)) + pnls[n]]
  }

  function LastOr(xs: seq<real>, default: real): real {
    if xs == [] then default else xs[|xs| - 1]
  }

  lemma ShortCurveNeverFalls(curve: seq<real>)
    requires |curve| <= 1
    ensures Worst(curve) == 0.0
  {
    if |curve| == 1 {
      NoFall(curve[0]);
      assert curve[..0] == [];
    }
  }

  method CalculateMaxDrawdown(pnls: seq<real>) returns (maxDd: real)
    ensures maxDd == Worst(EquityCurve(pnls))
    ensures IsMaxDrawdown(EquityCurve(pnls), maxDd) <==> NothingMissed(EquityCurve(pnls))
  {
    var curve: seq<real> := [];
    var equity := STARTING_EQUITY;
    for i := 0 to |pnls|
      invariant curve == EquityCurve(pnls[..i]) && |curve| == i
      invariant equity == LastOr(curve, STARTING_EQUITY)
    {
      assert pnls[..i + 1][..i] == pnls[..i];
      equity := equity + pnls[i];
      curve := curve + [equity];
    }
    assert pnls[..|pnls|] == pnls;
    maxDd := 0.0;
    if |curve| < 2 {
      ShortCurveNeverFalls(curve);
    } else {
      maxDd := OnePass(curve);
    }
    WorstIsMaxIffNothingMissed(curve);
  }

  /** The running-peak loop. */
  method OnePass(curve: seq<real>) returns (maxDd: real)
    requires curve != []
    ensures maxDd == Worst(curve)
  {
    var peak := curve[0];
    maxDd := 0.0;
    for i := 0 to |curve|
      invariant peak == if i == 0 then curve[0] else Peak(curve[..i])
      invariant maxDd == Worst(curve[..i])
    {
      assert curve[..i + 1][..i] == curve[..i];
      if curve[i] > peak {
        peak := curve[i];
      }
      var dd := Drop(peak, curve[i]);
      if dd > maxDd {
        maxDd := dd;
      }
    }
    assert curve[..|curve|] == curve;
  }

  lemma NoFall(a: real)
    ensures Drop(a, a) == 0.0
  {
  }

  /** Below zero the one pass can miss the maximum: after these positions equity stands at 1, 2 and
      -1, a fall of 2 from the first level, but the peak is 2. */
  lemma NegativeEquityMisleads()
    ensures var curve := EquityCurve([-9999.0, 1.0, -3.0]);
            curve == [1.0, 2.0, -1.0] && !IsMaxDrawdown(curve, Worst(curve))
  {
    var pnls := [-9999.0, 1.0, -3.0];
    assert pnls[..2] == [-9999.0, 1.0] && pnls[..2][..1] == [-9999.0] && pnls[..2][..1][..0] == [];
    assert EquityCurve(pnls[..2][..1]) == [1.0] && EquityCurve(pnls[..2]) == [1.0, 2.0];
    var c := [1.0, 2.0, -1.0];
    assert c[..2] == [1.0, 2.0] && c[..2][..1] == [1.0] && c[..2][..1][..0] == [];
    assert Peak(c[..2][..1]) == 1.0 && Peak(c[..2]) == 2.0 && Peak(c) == 2.0;
    assert Worst(c[..2][..1]) == 0.0 && Worst(c[..2]) == 0.0;
    assert (2.0 - -1.0) / 2.0 == 1.5 && Worst(c) == 1.5;
    assert Drop(c[0], c[2]) == 2.0;
  }

  // ---- The starting equity, which the curve leaves out ----

  /** Up to `j` the curve has not regained the level `start`. */
  ghost predicate Submerged(curve: seq<real>, j: int, start: real)
    requires 0 <= j < |curve|
  {
    forall i | 0 <= i <= j :: curve[i] < start
  }

  lemma {:induction false} PeakWithStart(curve: seq<real>, start: real)
    requires curve != []
    ensures Peak([start] + curve) == if Peak(curve) < start then start else Peak(curve)
  {
    var n := |curve| - 1;
    assert ([start] + curve)[..n + 1] == [start] + curve[..n];
    if n > 0 {
      PeakWithStart(curve[..n], start);
    }
  }

  /** The fall at `j` when the starting equity counts towards the peak. */
  ghost function FromStart(curve: seq<real>, start: real, j: int): real
    requires 0 <= j < |curve|
  {
    if Submerged(curve, j, start) then Drop(start, curve[j]) else FallAt(curve, j)
  }

  lemma FallWithStart(curve: seq<real>, start: real, j: nat)
    requires j < |curve|
    ensures FallAt([start] + curve, j + 1) == FromStart(curve, start, j)
  {
    var part := curve[..j + 1];
    assert ([start] + curve)[..j + 2] == [start] + part;
    PeakWithStart(part, start);
    PeakIsGreatest(part);
    var k :| 0 <= k < |part| && part[k] == Peak(part);
    assert forall i | 0 <= i <= j :: curve[i] == part[i] <= Peak(part);
    assert Submerged(curve, j, start) <==> Peak(part) < start;
  }

  lemma NoFallAtStart(curve: seq<real>, start: real)
    ensures FallAt([start] + curve, 0) == 0.0
  {
    NoFall(start);
    assert ([start] + curve)[..1] == [start];
  }

  /** The starting equity hides no fall if and only if, however far a level lies below it before the
      curve regains it, somewhere the curve lies as far below its own running peak. */
  lemma StartHidesNothingIff(curve: seq<real>, start: real)
    ensures Worst([start] + curve) <= Worst(curve)
            <==> forall j | 0 <= j < |curve| && Submerged(curve, j, start) :: Reaches(curve, Drop(start, curve[j]))
  {
    var whole, w := [start] + curve, Worst(curve);
    WorstIsDeepest(whole, w);
    WorstIsDeepest(curve, w);
    NoFallAtStart(curve, start);
    forall j | 0 <= j < |curve|
      ensures FallAt(whole, j + 1) <= w <==> (Submerged(curve, j, start) ==> Reaches(curve, Drop(start, curve[j])))
    {
      FallWithStart(curve, start, j);
      ReachesIff(curve, Drop(start, curve[j]));
      assert FallAt(curve, j) <= w;
    }
    if forall j | 0 <= j < |curve| && Submerged(curve, j, start) :: Reaches(curve, Drop(start, curve[j])) {
      forall j | 0 <= j < |whole|
        ensures FallAt(whole, j) <= w
      {
        assert j == 0 || FallAt(whole, j - 1 + 1) <= w;
      }
    }
  }

  /** At `k` the curve lies further below its own peak than it ever does once the start counts. */
  ghost predicate DeeperThanFromStart(curve: seq<real>, start: real, k: int)
    requires 0 <= k < |curve|
  {
    FallAt(curve, k) > 0.0 && forall j | 0 <= j < |curve| :: FromStart(curve, start, j) < FallAt(curve, k)
  }

  lemma ShrunkAt(curve: seq<real>, start: real, k: nat)
    requires k < |curve| && DeeperThanFromStart(curve, start, k)
    ensures Worst([start] + curve) < Worst(curve)
  {
    var whole := [start] + curve;
    WorstIsDeepest(curve, Worst(curve));
    WorstIsSomeFall(whole);
    if Worst(whole) != 0.0 {
      var j :| 0 <= j < |whole| && FallAt(whole, j) == Worst(whole);
      NoFallAtStart(curve, start);
      FallWithStart(curve, start, j - 1);
    }
  }

  /** Counting the starting equity shrinks the drawdown if and only if somewhere the curve lies further
      below its own peak than it ever does once the start counts. */
  lemma StartShrinksIff(curve: seq<real>, start: real)
    ensures Worst([start] + curve) < Worst(curve)
            <==> exists k | 0 <= k < |curve| :: DeeperThanFromStart(curve, start, k)
  {
    var whole := [start] + curve;
    if Worst(whole) < Worst(curve) {
      WorstIsDeepest(whole, Worst(whole));
      WorstIsSomeFall(curve);
      var k :| 0 <= k < |curve| && FallAt(curve, k) == Worst(curve);
      forall j | 0 <= j < |curve|
        ensures FromStart(curve, start, j) < FallAt(curve, k)
      {
        FallWithStart(curve, start, j);
        assert FallAt(whole, j + 1) <= Worst(whole);
      }
      assert DeeperThanFromStart(curve, start, k);
    }
    if k :| 0 <= k < |curve| && DeeperThanFromStart(curve, start, k) {
      ShrunkAt(curve, start, k);
    }
  }

  /** Above zero the starting equity can only deepen the drawdown, so what it does not deepen it
      does not change. */
  lemma StartChangesNothingIff(curve: seq<real>, start: real)
    requires NonNegative(curve) && start >= 0.0
    ensures Worst([start] + curve) == Worst(curve)
            <==> forall j | 0 <= j < |curve| && Submerged(curve, j, start) :: Reaches(curve, Drop(start, curve[j]))
  {
    StartHidesNothingIff(curve, start);
    StartOnlyDeepens(curve, start);
  }

  lemma StartOnlyDeepens(curve: seq<real>, start: real)
    requires NonNegative(curve) && start >= 0.0
    ensures Worst(curve) <= Worst([start] + curve)
  {
    var whole := [start] + curve;
    WorstIsMaxDrawdown(whole);
    WorstIsAttained(curve);
    if Worst(curve) != 0.0 {
      var i, j :| 0 <= i <= j < |curve| && Drop(curve[i], curve[j]) == Worst(curve);
      assert whole[i + 1] == curve[i] && whole[j + 1] == curve[j];
    }
  }

  /** After these positions equity stands at 1 and -1, a fall of 2; measured from 10000 it is less. */
  lemma StartCanShrinkBelowZero()
    ensures var curve := EquityCurve([-9999.0, -2.0]);
            curve == [1.0, -1.0] && Worst([STARTING_EQUITY] + curve) < Worst(curve)
  {
    var pnls, curve, start := [-9999.0, -2.0], [1.0, -1.0], STARTING_EQUITY;
    assert pnls[..1] == [-9999.0] && pnls[..1][..0] == [];
    assert EquityCurve(pnls[..1]) == [1.0];
    assert curve[..1] == [1.0] && FallAt(curve, 1) == Drop(1.0, -1.0) == 2.0;
    ShrunkAt(curve, start, 1);
  }

  lemma {:induction false} EquityPoints(pnls: seq<real>)
    ensures |EquityCurve(pnls)| == |pnls|
    ensures pnls != [] ==> EquityCurve(pnls)[0] == STARTING_EQUITY + pnls[0]
  {
    if pnls != [] {
      EquityPoints(pnls[..|pnls| - 1]);
    }
  }

  function SumOf(xs: seq<real>): real {
    if xs == [] then 0.0 else SumOf(xs[..|xs| - 1]) + xs[|xs| - 1]
  }

  /** Each point of the curve is the starting equity and all that was earned up to it. */
  lemma {:induction false} EquityIsRunningSum(pnls: seq<real>, i: nat)
    requires i < |pnls|
    ensures |EquityCurve(pnls)| == |pnls|
    ensures EquityCurve(pnls)[i] == STARTING_EQUITY + SumOf(pnls[..i + 1])
  {
    var n := |pnls| - 1;
    EquityPoints(pnls);
    EquityPoints(pnls[..n]);
    assert pnls[..n + 1] == pnls;
    if i < n {
      EquityIsRunningSum(pnls[..n], i);
      assert pnls[..n][..i + 1] == pnls[..i + 1];
    } else if n > 0 {
      EquityIsRunningSum(pnls[..n], n - 1);
      assert pnls[..n][..n] == pnls[..n];
    } else {
      assert pnls[..0] == [] && SumOf(pnls[..0]) == 0.0;
    }
  }

  /** A first position without a loss makes the missing starting equity harmless. */
  lemma FirstGainHidesNothing(pnls: seq<real>)
    requires pnls != [] && pnls[0] >= 0.0
    ensures Worst([STARTING_EQUITY] + EquityCurve(pnls)) <= Worst(EquityCurve(pnls))
  {
    EquityPoints(pnls);
    var curve := EquityCurve(pnls);
    assert forall j | 0 <= j < |curve| :: !Submerged(curve, j, STARTING_EQUITY) by {
      assert curve[0] >= STARTING_EQUITY;
    }
    StartHidesNothingIff(curve, STARTING_EQUITY);
  }

  ghost predicate Rising(curve: seq<real>) {
    forall i, j | 0 <= i <= j < |curve| :: curve[i] <= curve[j]
  }

  lemma RisingNeverFalls(curve: seq<real>)
    requires Rising(curve)
    ensures Worst(curve) == 0.0
  {
    WorstIsDeepest(curve, 0.0);
    WorstIsAttained(curve);
    forall j | 0 <= j < |curve|
      ensures FallAt(curve, j) <= 0.0
    {
      PeakIsGreatest(curve[..j + 1]);
      NoFall(curve[j]);
      assert curve[..j + 1][j] == curve[j];
      assert Peak(curve[..j + 1]) == curve[j];
    }
  }

  lemma {:induction false} GainsRise(pnls: seq<real>)
    requires forall i | 0 < i < |pnls| :: pnls[i] >= 0.0
    ensures Rising(EquityCurve(pnls))
  {
    if |pnls| > 1 {
      var n := |pnls| - 1;
      var init := EquityCurve(pnls[..n]);
      GainsRise(pnls[..n]);
      EquityPoints(pnls[..n]);
      RisingExtends(init, init[n - 1] + pnls[n]);
    }
  }

  lemma RisingExtends(curve: seq<real>, next: real)
    requires curve != [] && Rising(curve) && curve[|curve| - 1] <= next
    ensures Rising(curve + [next])
  {
  }

  lemma LowerLevelFallsFurther(start: real, a: real, b: real)
    requires start > 0.0 && a <= b
    ensures Drop(start, b) <= Drop(start, a)
  {
    QuotientBound(start - a, start, Drop(start, b));
    assert Drop(start, b) * start == start - b;
  }

  /** A loss on the first position alone is never seen, however large: no drawdown is reported, where
      counted from the starting equity it is the whole loss. */
  lemma FirstLossInvisible(pnls: seq<real>)
    requires pnls != [] && pnls[0] <= 0.0 && forall i | 0 < i < |pnls| :: pnls[i] >= 0.0
    ensures Worst(EquityCurve(pnls)) == 0.0
    ensures Worst([STARTING_EQUITY] + EquityCurve(pnls)) == -pnls[0] / STARTING_EQUITY
  {
    var curve, start := EquityCurve(pnls), STARTING_EQUITY;
    EquityPoints(pnls);
    GainsRise(pnls);
    RisingNeverFalls(curve);
    RisingFromBelow(curve, start);
  }

  lemma RisingFromBelow(curve: seq<real>, start: real)
    requires curve != [] && Rising(curve) && start > 0.0 && curve[0] <= start
    ensures Worst([start] + curve) == Drop(start, curve[0])
  {
    var whole, x := [start] + curve, Drop(start, curve[0]);
    NoFall(start);
    LowerLevelFallsFurther(start, curve[0], start);
    forall j | 0 <= j < |whole|
      ensures FallAt(whole, j) <= x
    {
      if j == 0 {
        assert whole[..1] == [start];
      } else {
        RisingFall(curve, start, j - 1);
      }
    }
    WorstIsDeepest(whole, x);
    WorstIsDeepest(whole, Worst(whole));
    RisingFall(curve, start, 0);
    assert FallAt(whole, 1) <= Worst(whole);
  }

  lemma RisingFall(curve: seq<real>, start: real, j: nat)
    requires Rising(curve) && start > 0.0 && j < |curve| && curve[0] <= start
    ensures FallAt([start] + curve, j + 1) <= Drop(start, curve[0])
    ensures FallAt([start] + curve, 1) == Drop(start, curve[0])
  {
    FallWithStart(curve, start, j);
    FallWithStart(curve, start, 0);
    RisingNeverFalls(curve);
    WorstIsDeepest(curve, 0.0);
    assert FallAt(curve, j) <= 0.0;
    assert curve[..1] == [curve[0]];
    NoFall(curve[0]);
    NoFall(start);
    LowerLevelFallsFurther(start, curve[0], curve[j]);
    LowerLevelFallsFurther(start, curve[0], start);
  }
}
