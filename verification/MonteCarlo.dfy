/** One Monte Carlo iteration with its random draws taken as arbitrary inputs (integration/monte_carlo.py). */
module MonteCarlo {
  import opened Collections
  import opened Numbers
  import opened Drawdown

  datatype SimConfig = SimConfig(initialCapital: real, positionSizePct: real, stopLossPct: real, takeProfitPct: real)

  /** A trade of the (possibly shuffled) iteration and the noisy price drawn for it. */
  datatype Draw = Draw(isBuy: bool, basePrice: real, noisyPrice: real)

  /** `max_drawdown` is the fraction; the source reports it times 100. */
  datatype Metrics = Metrics(totalPnl: real, roiPct: real, maxDrawdown: real, finalCapital: real)

  function PositionSize(cfg: SimConfig, capital: real): real {
    var size := capital * cfg.positionSizePct;
    if size > capital then capital else size
  }

  function PriceChange(d: Draw): real
    requires d.basePrice != 0.0
  {
    if d.isBuy then (d.noisyPrice - d.basePrice) / d.basePrice else (d.basePrice - d.noisyPrice) / d.basePrice
  }

  /** The trade's profit after the stop loss and the take profit. */
  function Clipped(cfg: SimConfig, position: real, pnl: real): real {
    if pnl < -position * cfg.stopLossPct then -position * cfg.stopLossPct
    else if pnl > position * cfg.takeProfitPct then position * cfg.takeProfitPct
    else pnl
  }

  /** Capital after a trade on which the price moved in its favour by the fraction `change`. */
  function After(cfg: SimConfig, capital: real, change: real): real {
    var position := PositionSize(cfg, capital);
    capital + Clipped(cfg, position, Times(position, change))
  }

  /** Capital before the first trade and after each one. */
  function Path(cfg: SimConfig, draws: seq<Draw>): seq<real>
    requires forall d | d in draws :: d.basePrice != 0.0
    ensures |Path(cfg, draws)| == |draws| + 1
  {
    if draws == [] then [cfg.initialCapital]
    else
      var p := Path(cfg, draws[..|draws| - 1]);
      p + [After(cfg, p[|p| - 1], PriceChange(draws[|draws| - 1]))]
  }

  function Roi(initialCapital: real, totalPnl: real): real {
    if initialCapital > 0.0 then totalPnl / initialCapital * 100.0 else 0.0
  }

  /** `run_simulation`'s trade loop; a zero base price is the source's ZeroDivisionError. */
  method RunSimulation(cfg: SimConfig, draws: seq<Draw>) returns (r: Option<Metrics>)
    ensures r == None <==> exists d :: d in draws && d.basePrice == 0.0
    ensures r.Some? ==>
              var p := Path(cfg, draws);
              && r.value.finalCapital == p[|draws|]
              && r.value.totalPnl == p[|draws|] - cfg.initialCapital
              && r.value.roiPct == Roi(cfg.initialCapital, r.value.totalPnl)
              && r.value.maxDrawdown == Worst(p)
  {
    var capital, peakCapital, maxDrawdown := cfg.initialCapital, cfg.initialCapital, 0.0;
    ghost var path := [capital];
    assert path[..0] == [];
    NoFall(capital);
    for i := 0 to |draws|
      invariant forall d | d in draws[..i] :: d.basePrice != 0.0
      invariant path == Path(cfg, draws[..i]) && capital == path[i]
      invariant peakCapital == Peak(path) && maxDrawdown == Worst(path)
    {
      var d := draws[i];
      assert draws[..i + 1] == draws[..i] + [d] && draws[..i + 1][..i] == draws[..i];
      if d.basePrice == 0.0 {
        return None;
      }
      capital := After(cfg, capital, PriceChange(d));
      assert (path + [capital])[..|path|] == path;
      path := path + [capital];
      if capital > peakCapital {
        peakCapital := capital;
      }
      var drawdown := Drop(peakCapital, capital);
      if drawdown > maxDrawdown {
        maxDrawdown := drawdown;
      }
    }
    assert draws[..|draws|] == draws;
    var totalPnl := capital - cfg.initialCapital;
    r := Some(Metrics(totalPnl, Roi(cfg.initialCapital, totalPnl), maxDrawdown, capital));
  }

  // ---- Bounds for every price path ----

  /** A non-negative position fraction and stop and target levels in range. */
  predicate Sensible(cfg: SimConfig) {
    && cfg.initialCapital >= 0.0 && cfg.positionSizePct >= 0.0
    && 0.0 <= cfg.stopLossPct <= 1.0 && cfg.takeProfitPct >= 0.0
  }

  function Fraction(cfg: SimConfig): real {
    if cfg.positionSizePct > 1.0 then 1.0 else cfg.positionSizePct
  }

  /** What survives the worst trade, and what the best one leaves, per unit of capital. */
  function Floor(cfg: SimConfig): real {
    1.0 - Fraction(cfg) * cfg.stopLossPct
  }

  function Ceiling(cfg: SimConfig): real {
    1.0 + Fraction(cfg) * cfg.takeProfitPct
  }

  lemma UnitProduct(f: real, k: real)
    requires 0.0 <= f <= 1.0 && 0.0 <= k <= 1.0
    ensures 0.0 <= f * k <= 1.0
  {
    ProductSign(f, k);
    ProductSign(1.0 - f, k);
    assert (1.0 - f) * k == k - f * k;
  }

  lemma FactorsInRange(cfg: SimConfig)
    requires Sensible(cfg)
    ensures 0.0 <= Floor(cfg) <= 1.0 <= Ceiling(cfg)
  {
    UnitProduct(Fraction(cfg), cfg.stopLossPct);
    ProductSign(Fraction(cfg), cfg.takeProfitPct);
  }

  lemma SizeIsFraction(cfg: SimConfig, capital: real)
    requires Sensible(cfg) && capital >= 0.0
    ensures PositionSize(cfg, capital) == capital * Fraction(cfg) >= 0.0
  {
    ProductSign(capital, Fraction(cfg));
    if cfg.positionSizePct > 1.0 {
      ProductMonotone(1.0, cfg.positionSizePct, capital);
    } else {
      ProductMonotone(cfg.positionSizePct, 1.0, capital);
    }
  }

  lemma ClippedInRange(cfg: SimConfig, position: real, pnl: real)
    requires Sensible(cfg) && position >= 0.0
    ensures -(position * cfg.stopLossPct) <= Clipped(cfg, position, pnl) <= position * cfg.takeProfitPct
  {
    ProductSign(position, cfg.stopLossPct);
    ProductSign(position, cfg.takeProfitPct);
    assert -position * cfg.stopLossPct == -(position * cfg.stopLossPct);
  }

  lemma Regroup(c: real, f: real, k: real)
    ensures c - (c * f) * k == c * (1.0 - f * k)
    ensures c + (c * f) * k == c * (1.0 + f * k)
  {
    assert (c * f) * k == c * (f * k);
  }

  /** Between `a * lo` and `a * hi`. */
  predicate Within(a: real, b: real, lo: real, hi: real) {
    a >= 0.0 && b >= 0.0 && Times(a, lo) <= b <= Times(a, hi)
  }

  /** One trade keeps capital between the floor and the ceiling, whatever price is drawn. */
  lemma StepBounds(cfg: SimConfig, capital: real, change: real)
    requires Sensible(cfg) && capital >= 0.0
    ensures Within(capital, After(cfg, capital, change), Floor(cfg), Ceiling(cfg))
  {
    var position := PositionSize(cfg, capital);
    var gain := After(cfg, capital, change) - capital;
    GainInRange(cfg, capital, change);
    StepArithmetic(capital, Fraction(cfg), cfg.stopLossPct, cfg.takeProfitPct, position, gain,
                   Floor(cfg), Ceiling(cfg), After(cfg, capital, change));
  }

  lemma GainInRange(cfg: SimConfig, capital: real, change: real)
    requires Sensible(cfg) && capital >= 0.0
    ensures var position, gain := PositionSize(cfg, capital), After(cfg, capital, change) - capital;
            && position == capital * Fraction(cfg)
            && -(position * cfg.stopLossPct) <= gain <= position * cfg.takeProfitPct
  {
    var position := PositionSize(cfg, capital);
    SizeIsFraction(cfg, capital);
    ClippedInRange(cfg, position, Times(position, change));
  }

  lemma StepArithmetic(c: real, f: real, sl: real, tp: real, position: real, gain: real, lo: real, hi: real, next: real)
    requires c >= 0.0 && 0.0 <= f <= 1.0 && 0.0 <= sl <= 1.0
    requires position == c * f && -(position * sl) <= gain <= position * tp
    requires lo == 1.0 - f * sl && hi == 1.0 + f * tp && next == c + gain
    ensures Within(c, next, lo, hi)
  {
    Regroup(c, f, sl);
    Regroup(c, f, tp);
    UnitProduct(f, sl);
    ProductSign(c, lo);
  }

  /** A path of non-negative levels, each within the two factors of the one before. */
  ghost predicate Confined(p: seq<real>, lo: real, hi: real) {
    && (forall i | 0 <= i < |p| :: p[i] >= 0.0)
    && (forall i, j {:trigger Within(p[i], p[j], lo, hi)} | 0 <= i < |p| && j == i + 1 < |p| :: Within(p[i], p[j], lo, hi))
  }

  lemma {:induction false} PathConfined(cfg: SimConfig, draws: seq<Draw>)
    requires Sensible(cfg) && forall d | d in draws :: d.basePrice != 0.0
    ensures Confined(Path(cfg, draws), Floor(cfg), Ceiling(cfg))
    ensures Path(cfg, draws)[0] == cfg.initialCapital
  {
    if draws != [] {
      var n := |draws|;
      var init, change := Path(cfg, draws[..n - 1]), PriceChange(draws[n - 1]);
      PathConfined(cfg, draws[..n - 1]);
      StepBounds(cfg, init[n - 1], change);
      ConfinedGrows(init, After(cfg, init[n - 1], change), Floor(cfg), Ceiling(cfg));
    }
  }

  lemma ConfinedGrows(p: seq<real>, next: real, lo: real, hi: real)
    requires p != [] && Confined(p, lo, hi) && Within(p[|p| - 1], next, lo, hi)
    ensures Confined(p + [next], lo, hi)
  {
    var q := p + [next];
    forall i, j | 0 <= i < |q| && j == i + 1 < |q|
      ensures Within(q[i], q[j], lo, hi)
    {
      if j < |p| {
        assert Within(p[i], p[j], lo, hi);
      }
    }
  }

  /** Between any two points of a confined path, the level stays within the powers of the factors. */
  lemma {:induction false} ConfinedBounds(p: seq<real>, lo: real, hi: real, i: nat, j: nat)
    requires Confined(p, lo, hi) && lo >= 0.0 && hi >= 0.0 && i <= j < |p|
    ensures Times(p[i], Pow(lo, j - i)) <= p[j] <= Times(p[i], Pow(hi, j - i))
    decreases j
  {
    if i < j {
      ConfinedBounds(p, lo, hi, i, j - 1);
      assert Within(p[j - 1], p[j], lo, hi);
      PowStretch(p[i], p[j - 1], p[j], lo, hi, j - 1 - i);
    }
  }

  lemma PowStretch(a: real, b: real, c: real, lo: real, hi: real, n: nat)
    requires lo >= 0.0 && hi >= 0.0
    requires Times(a, Pow(lo, n)) <= b <= Times(a, Pow(hi, n))
    requires Times(b, lo) <= c <= Times(b, hi)
    ensures Times(a, Pow(lo, n + 1)) <= c <= Times(a, Pow(hi, n + 1))
  {
    TimesTwice(a, lo, Pow(lo, n), b);
    TimesTwice(a, hi, Pow(hi, n), b);
  }

  lemma TimesTwice(a: real, k: real, x: real, b: real)
    requires k >= 0.0
    ensures Times(a, x) <= b ==> Times(a, k * x) <= Times(b, k)
    ensures b <= Times(a, x) ==> Times(b, k) <= Times(a, k * x)
  {
    assert Times(a, k * x) == Times(Times(a, x), k);
    if Times(a, x) <= b {
      ProductMonotone(Times(a, x), b, k);
    }
    if b <= Times(a, x) {
      ProductMonotone(b, Times(a, x), k);
    }
  }

  /** Capital after `n` trades lies between `initial * (1 - p*sl)^n` and `initial * (1 + p*tp)^n`. */
  lemma CapitalBounds(cfg: SimConfig, draws: seq<Draw>)
    requires Sensible(cfg) && forall d | d in draws :: d.basePrice != 0.0
    ensures var final, n := Path(cfg, draws)[|draws|], |draws|;
            Times(cfg.initialCapital, Pow(Floor(cfg), n)) <= final <= Times(cfg.initialCapital, Pow(Ceiling(cfg), n))
  {
    var p, n := Path(cfg, draws), |draws|;
    PathConfined(cfg, draws);
    FactorsInRange(cfg);
    EndBounds(p, Floor(cfg), Ceiling(cfg), p[0]);
  }

  lemma EndBounds(p: seq<real>, lo: real, hi: real, start: real)
    requires p != [] && start == p[0] && Confined(p, lo, hi) && lo >= 0.0 && hi >= 0.0
    ensures Times(start, Pow(lo, |p| - 1)) <= p[|p| - 1] <= Times(start, Pow(hi, |p| - 1))
  {
    ConfinedBounds(p, lo, hi, 0, |p| - 1);
  }

  lemma {:induction false} PowFalls(x: real, m: nat, n: nat)
    requires 0.0 <= x <= 1.0 && m <= n
    ensures Pow(x, n) <= Pow(x, m)
    decreases n
  {
    if m < n {
      PowFalls(x, m, n - 1);
      PowStep(x, n - 1);
    }
  }

  lemma DropBound(a: real, b: real, f: real)
    requires a >= 0.0 && f <= 1.0 && a * f <= b
    ensures Drop(a, b) <= 1.0 - f
  {
    if a > 0.0 {
      var q := (a - b) / a;
      assert q * a == a - b;
      assert (1.0 - f - q) * a == b - a * f;
      FactorSign(1.0 - f - q, a);
    }
  }

  /** On a confined path no fall is deeper than the floor compounded over all its steps. */
  lemma ConfinedDrop(p: seq<real>, lo: real, hi: real, i: nat, j: nat)
    requires Confined(p, lo, hi) && 0.0 <= lo <= 1.0 && hi >= 0.0 && i <= j < |p|
    ensures Drop(p[i], p[j]) <= 1.0 - Pow(lo, |p| - 1)
  {
    ConfinedBounds(p, lo, hi, i, j);
    PowFalls(lo, 0, j - i);
    PowFalls(lo, j - i, |p| - 1);
    DropBound(p[i], p[j], Pow(lo, j - i));
  }

  /** The reported drawdown is a true all-pairs drawdown and at most `1 - (1 - p*sl)^n`. */
  lemma DrawdownBound(cfg: SimConfig, draws: seq<Draw>)
    requires Sensible(cfg) && forall d | d in draws :: d.basePrice != 0.0
    ensures IsMaxDrawdown(Path(cfg, draws), Worst(Path(cfg, draws)))
    ensures Worst(Path(cfg, draws)) <= 1.0 - Pow(Floor(cfg), |draws|)
  {
    var p, lo, hi := Path(cfg, draws), Floor(cfg), Ceiling(cfg);
    PathConfined(cfg, draws);
    FactorsInRange(cfg);
    WorstIsMaxDrawdown(p);
    PowFalls(lo, 0, |draws|);
    if Worst(p) != 0.0 {
      var i, j :| 0 <= i <= j < |p| && Drop(p[i], p[j]) == Worst(p);
      ConfinedDrop(p, lo, hi, i, j);
    }
  }

  // ---- What one draw does, and which way prices push ----

  function Final(cfg: SimConfig, draws: seq<Draw>): real
    requires forall d | d in draws :: d.basePrice != 0.0
  {
    Path(cfg, draws)[|draws|]
  }

  /** Each point of the path is where a run over that many draws ends. */
  lemma {:induction false} PathIsFinals(cfg: SimConfig, draws: seq<Draw>, i: nat)
    requires i <= |draws| && forall d | d in draws :: d.basePrice != 0.0
    ensures forall d | d in draws[..i] :: d.basePrice != 0.0
    ensures Path(cfg, draws)[i] == Final(cfg, draws[..i]) && Final(cfg, []) == cfg.initialCapital
  {
    if i == |draws| {
      assert draws[..i] == draws;
    } else {
      PathIsFinals(cfg, draws[..|draws| - 1], i);
      assert draws[..|draws| - 1][..i] == draws[..i];
    }
  }

  lemma FinalSnoc(cfg: SimConfig, draws: seq<Draw>, d: Draw)
    requires d.basePrice != 0.0 && forall e | e in draws :: e.basePrice != 0.0
    ensures forall e | e in draws + [d] :: e.basePrice != 0.0
    ensures Final(cfg, draws + [d]) == After(cfg, Final(cfg, draws), PriceChange(d))
  {
    assert (draws + [d])[..|draws|] == draws;
  }

  lemma MoveTimesSize(size: real, noisy: real, base: real)
    requires base != 0.0
    ensures size * ((noisy - base) / base) == Times(size, noisy - base) / base
    ensures size * ((base - noisy) / base) == -(Times(size, noisy - base) / base)
  {
    var q := (noisy - base) / base;
    assert q * base == noisy - base;
    assert (base - noisy) / base == -q;
    assert (size * q) * base == Times(size, noisy - base);
  }

  /** The stake is a share of the capital, all of it at most. */
  predicate IsStake(cfg: SimConfig, c: real, stake: real) {
    stake == if Times(c, cfg.positionSizePct) > c then c else Times(c, cfg.positionSizePct)
  }

  /** A buy earns the price's relative move on the stake, a sell loses it. */
  predicate Earns(d: Draw, stake: real, earned: real)
    requires d.basePrice != 0.0
  {
    var moved := Times(stake, d.noisyPrice - d.basePrice) / d.basePrice;
    earned == if d.isBuy then moved else -moved
  }

  /** The stop caps the loss, the target the gain; between them all that is earned counts. */
  predicate Capped(cfg: SimConfig, stake: real, earned: real, gain: real) {
    var stop, target := Times(stake, cfg.stopLossPct), Times(stake, cfg.takeProfitPct);
    && (-stop <= earned <= target ==> gain == earned)
    && (earned < -stop ==> gain == -stop)
    && (-stop <= earned && target < earned ==> gain == target)
  }

  /** What one more draw does to the capital. */
  lemma DrawIsExact(cfg: SimConfig, draws: seq<Draw>, d: Draw) returns (stake: real, earned: real)
    requires d.basePrice != 0.0 && forall e | e in draws :: e.basePrice != 0.0
    ensures forall e | e in draws + [d] :: e.basePrice != 0.0
    ensures IsStake(cfg, Final(cfg, draws), stake) && Earns(d, stake, earned)
    ensures Capped(cfg, stake, earned, Final(cfg, draws + [d]) - Final(cfg, draws))
  {
    FinalSnoc(cfg, draws, d);
    stake, earned := AfterIsCapped(cfg, Final(cfg, draws), d);
  }

  lemma AfterIsCapped(cfg: SimConfig, c: real, d: Draw) returns (stake: real, earned: real)
    requires d.basePrice != 0.0
    ensures IsStake(cfg, c, stake) && Earns(d, stake, earned)
    ensures Capped(cfg, stake, earned, After(cfg, c, PriceChange(d)) - c)
  {
    stake := PositionIsStake(cfg, c);
    earned := StakeMoves(stake, d);
    var gain := AfterIsClipped(cfg, c, PriceChange(d), stake, earned);
    ClippedIsCapped(cfg, stake, earned);
  }

  lemma PositionIsStake(cfg: SimConfig, c: real) returns (stake: real)
    ensures IsStake(cfg, c, stake) && stake == PositionSize(cfg, c)
  {
    stake := PositionSize(cfg, c);
  }

  lemma AfterIsClipped(cfg: SimConfig, c: real, change: real, stake: real, earned: real) returns (gain: real)
    requires stake == PositionSize(cfg, c) && earned == Times(stake, change)
    ensures gain == Clipped(cfg, stake, earned) && After(cfg, c, change) - c == gain
  {
    gain := Clipped(cfg, stake, earned);
  }

  lemma StakeMoves(stake: real, d: Draw) returns (earned: real)
    requires d.basePrice != 0.0
    ensures earned == Times(stake, PriceChange(d)) && Earns(d, stake, earned)
  {
    earned := Times(stake, PriceChange(d));
    MoveTimesSize(stake, d.noisyPrice, d.basePrice);
  }

  lemma ClippedIsCapped(cfg: SimConfig, stake: real, earned: real)
    ensures Capped(cfg, stake, earned, Clipped(cfg, stake, earned))
  {
    assert -stake * cfg.stopLossPct == -Times(stake, cfg.stopLossPct);
  }

  /** What a unit of capital becomes. */
  function Clip(cfg: SimConfig, change: real): real {
    if change < -cfg.stopLossPct then -cfg.stopLossPct
    else if change > cfg.takeProfitPct then cfg.takeProfitPct
    else change
  }

  lemma ClipScales(cfg: SimConfig, position: real, change: real)
    requires Sensible(cfg) && position >= 0.0
    ensures Clipped(cfg, position, Times(position, change)) == Times(position, Clip(cfg, change))
  {
    var sl, tp := cfg.stopLossPct, cfg.takeProfitPct;
    assert position * (change + sl) == position * change + position * sl;
    assert position * (change - tp) == position * change - position * tp;
    assert -position * sl == -(position * sl);
    if change < -sl {
      ProductSign(position, -sl - change);
      assert position * (-sl - change) == -(position * sl) - position * change;
    } else {
      ProductSign(position, change + sl);
      if change > tp {
        ProductSign(position, change - tp);
      } else {
        ProductSign(position, tp - change);
        assert position * (tp - change) == position * tp - position * change;
      }
    }
  }

  /** After a trade capital is what it was times a factor that is not negative. */
  function Growth(cfg: SimConfig, change: real): real {
    1.0 + Times(Fraction(cfg), Clip(cfg, change))
  }

  lemma AfterIsGrowth(cfg: SimConfig, capital: real, change: real)
    requires Sensible(cfg) && capital >= 0.0
    ensures After(cfg, capital, change) == Times(capital, Growth(cfg, change))
  {
    var f, k := Fraction(cfg), Clip(cfg, change);
    var position := PositionSize(cfg, capital);
    SizeIsFraction(cfg, capital);
    ClipScales(cfg, position, change);
    assert After(cfg, capital, change) == capital + Times(position, k);
    GrowthArithmetic(capital, f, k, position);
  }

  lemma GrowthArithmetic(c: real, f: real, k: real, position: real)
    requires position == c * f
    ensures c + Times(position, k) == Times(c, 1.0 + Times(f, k))
  {
    assert (c * f) * k == c * (f * k);
  }

  lemma GrowthMonotone(cfg: SimConfig, change: real, change': real)
    requires Sensible(cfg) && change <= change'
    ensures 0.0 <= Growth(cfg, change) <= Growth(cfg, change')
  {
    var f, k, k' := Fraction(cfg), Clip(cfg, change), Clip(cfg, change');
    assert -1.0 <= k <= k' && 0.0 <= f <= 1.0;
    ProductMonotone(k, k', f);
    ProductMonotone(-1.0, k, f);
    assert f * -1.0 == -f;
    assert Times(f, k) == f * k && Times(f, k') == f * k';
  }

  lemma AfterMonotone(cfg: SimConfig, c: real, c': real, change: real, change': real)
    requires Sensible(cfg) && 0.0 <= c <= c' && change <= change'
    ensures 0.0 <= After(cfg, c, change) <= After(cfg, c', change')
  {
    AfterIsGrowth(cfg, c, change);
    AfterIsGrowth(cfg, c', change');
    GrowthMonotone(cfg, change, change');
    ProductsGrow(c, c', Growth(cfg, change), Growth(cfg, change'));
  }

  lemma ProductsGrow(c: real, c': real, g: real, g': real)
    requires 0.0 <= c <= c' && 0.0 <= g <= g'
    ensures 0.0 <= Times(c, g) <= Times(c', g')
  {
    ProductSign(c, g);
    TimesMonotone(c, c', g);
    ProductMonotone(g, g', c');
  }

  /** The second draw is of the same trade and its price is no worse for it. */
  predicate NoWorse(d: Draw, e: Draw) {
    && d.basePrice == e.basePrice > 0.0 && d.isBuy == e.isBuy
    && if d.isBuy then d.noisyPrice <= e.noisyPrice else e.noisyPrice <= d.noisyPrice
  }

  lemma NoWorseChange(d: Draw, e: Draw)
    requires NoWorse(d, e)
    ensures PriceChange(d) <= PriceChange(e)
  {
    var base := d.basePrice;
    var gap := if d.isBuy then e.noisyPrice - d.noisyPrice else d.noisyPrice - e.noisyPrice;
    var x, y := PriceChange(d), PriceChange(e);
    assert (y - x) * base == gap;
    FactorSign(y - x, base);
  }

  ghost predicate AllNoWorse(xs: seq<Draw>, ys: seq<Draw>) {
    |xs| == |ys| && forall i | 0 <= i < |xs| :: NoWorse(xs[i], ys[i])
  }

  lemma PositiveBases(xs: seq<Draw>, ys: seq<Draw>)
    requires AllNoWorse(xs, ys)
    ensures (forall d | d in xs :: d.basePrice != 0.0) && (forall d | d in ys :: d.basePrice != 0.0)
  {
    forall d | d in xs
      ensures d.basePrice != 0.0
    {
      var i :| 0 <= i < |xs| && xs[i] == d;
      assert NoWorse(xs[i], ys[i]);
    }
    forall d | d in ys
      ensures d.basePrice != 0.0
    {
      var i :| 0 <= i < |ys| && ys[i] == d;
      assert NoWorse(xs[i], ys[i]);
    }
  }

  /** Raising the prices drawn for buys and lowering those drawn for sells, at any number of trades,
      never lowers the final capital. */
  lemma {:induction false} BetterPricesNeverLowerCapital(cfg: SimConfig, xs: seq<Draw>, ys: seq<Draw>)
    requires Sensible(cfg) && AllNoWorse(xs, ys)
    ensures (forall d | d in xs :: d.basePrice != 0.0) && (forall d | d in ys :: d.basePrice != 0.0)
    ensures 0.0 <= Final(cfg, xs) <= Final(cfg, ys)
  {
    PositiveBases(xs, ys);
    if xs != [] {
      var n := |xs| - 1;
      var x, y := xs[..n], ys[..n];
      assert xs == x + [xs[n]] && ys == y + [ys[n]];
      BetterPricesNeverLowerCapital(cfg, x, y);
      NoWorseChange(xs[n], ys[n]);
      FinalSnoc(cfg, x, xs[n]);
      FinalSnoc(cfg, y, ys[n]);
      AfterMonotone(cfg, Final(cfg, x), Final(cfg, y), PriceChange(xs[n]), PriceChange(ys[n]));
    }
  }

  /** The reported return is the gain in percent of the initial capital. */
  lemma RoiIsGainInPercent(cfg: SimConfig, totalPnl: real)
    ensures cfg.initialCapital > 0.0 ==> Times(Roi(cfg.initialCapital, totalPnl), cfg.initialCapital) == 100.0 * totalPnl
    ensures cfg.initialCapital <= 0.0 ==> Roi(cfg.initialCapital, totalPnl) == 0.0
  {
    if cfg.initialCapital > 0.0 {
      var q := totalPnl / cfg.initialCapital;
      assert q * cfg.initialCapital == totalPnl;
      assert Times(q * 100.0, cfg.initialCapital) == 100.0 * (q * cfg.initialCapital);
    }
  }
}
