/** What the counters of a backtest count, with no reference to how the loop adds them up
    (integration/sim_preflight.py). */
module PreflightCensus {
  import opened Collections
  import opened Numbers
  import opened SimPreflight

  // ---- Counts and sums over the trades ----

  function SumOver(trades: seq<Trade>, f: Trade -> real): real {
    if trades == [] then 0.0 else SumOver(trades[..|trades| - 1], f) + f(trades[|trades| - 1])
  }

  /** The exit of a trade, as the declarative definition has it. */
  ghost predicate ExitsAt(setup: Setup, all: seq<Trade>, t: Trade, x: Exit) {
    t.price.Some? && IsExit(t.price.value, t.ts, GetMode(setup, ModeName(t)), TicksFor(all, t.mint), t.price.value, x)
  }

  function ExitIn(setup: Setup, all: seq<Trade>, t: Trade): Exit
    requires t.price.Some?
  {
    ExitOf(setup, t, t.price.value, TicksFor(all, t.mint))
  }

  lemma ExitInIsExit(setup: Setup, all: seq<Trade>, t: Trade)
    requires t.price.Some?
    ensures ExitsAt(setup, all, t, ExitIn(setup, all, t))
  {
    SortCorrect(RawTicks(all, t.mint), ByTs);
    ScanIsExit(t.price.value, t.ts, GetMode(setup, ModeName(t)), TicksFor(all, t.mint), t.price.value);
  }

  function Enters(setup: Setup, keep: Trade -> bool): Trade -> bool {
    (t: Trade) => Decide(setup, t) == Enter && keep(t)
  }

  /** Entered, and left above the entry price. */
  function Wins(setup: Setup, all: seq<Trade>, keep: Trade -> bool): Trade -> bool {
    (t: Trade) => Decide(setup, t) == Enter && keep(t) && ExitIn(setup, all, t).price > t.price.value
  }

  function LeavesBy(setup: Setup, all: seq<Trade>, reason: Reason, keep: Trade -> bool): Trade -> bool {
    (t: Trade) => Decide(setup, t) == Enter && keep(t) && ExitIn(setup, all, t).reason == reason
  }

  function Gated(setup: Setup, gate: Gate): Trade -> bool {
    (t: Trade) => Decide(setup, t) == gate
  }

  /** The size of the trade if it is positive, else one dollar. */
  function Stake(t: Trade): real {
    match t.notional
    case None => 1.0
    case Some(usd) => if usd <= 0.0 then 1.0 else usd
  }

  function Staked(setup: Setup, keep: Trade -> bool): Trade -> real {
    (t: Trade) => if Decide(setup, t) == Enter && keep(t) then Stake(t) else 0.0
  }

  /** The stake's share of the move from entry to exit. */
  function Profit(stake: real, entry: Price, exit: Price): real {
    Times(stake, exit - entry) / entry
  }

  function Earned(setup: Setup, all: seq<Trade>, keep: Trade -> bool): Trade -> real {
    (t: Trade) =>
      if Decide(setup, t) == Enter && keep(t) then Profit(Stake(t), t.price.value, ExitIn(setup, all, t).price) else 0.0
  }

  /** The bucket counts exactly the entered trades of `part` that `keep` picks, with ticks from `all`. */
  ghost predicate IsCensus(b: Bucket, setup: Setup, all: seq<Trade>, part: seq<Trade>, keep: Trade -> bool) {
    && b.closed == |Filter(part, Enters(setup, keep))|
    && b.wins == |Filter(part, Wins(setup, all, keep))|
    && b.tp == |Filter(part, LeavesBy(setup, all, TP, keep))|
    && b.sl == |Filter(part, LeavesBy(setup, all, SL, keep))|
    && b.time == |Filter(part, LeavesBy(setup, all, TIME, keep))|
    && b.notional == SumOver(part, Staked(setup, keep))
    && b.pnl == SumOver(part, Earned(setup, all, keep))
  }

  lemma SumSnoc(trades: seq<Trade>, t: Trade, f: Trade -> real)
    ensures SumOver(trades + [t], f) == SumOver(trades, f) + f(t)
  {
    assert (trades + [t])[..|trades|] == trades;
  }

  lemma CountSnoc(trades: seq<Trade>, t: Trade, p: Trade -> bool)
    ensures |Filter(trades + [t], p)| == |Filter(trades, p)| + if p(t) then 1 else 0
  {
    FilterConcat(trades, [t], p);
  }

  // ---- One position ----

  lemma ProfitOfMove(stake: real, entry: Price, exit: Price) returns (earned: real)
    requires stake > 0.0
    ensures earned == Times(Move(entry, exit), stake) == Profit(stake, entry, exit)
    ensures earned > 0.0 <==> exit > entry
  {
    earned := Times(Move(entry, exit), stake);
    var q := exit / entry;
    assert q * entry == exit;
    assert Times(stake, exit - entry) == earned * entry;
    if exit > entry {
      QuotientAbove(exit, entry);
      assert (q - 1.0) * stake > 0.0;
    } else {
      QuotientBound(exit, entry, 1.0);
      ProductSign(1.0 - q, stake);
      assert (1.0 - q) * stake == -earned;
    }
    ProfitQuotient(earned, entry, Times(stake, exit - entry));
  }

  lemma QuotientAbove(a: real, b: real)
    requires a > b > 0.0
    ensures a / b > 1.0
  {
    var q := a / b;
    assert q * b == a && (q - 1.0) * b == a - b;
    FactorSign(q - 1.0, b);
  }

  lemma ProfitQuotient(x: real, d: real, a: real)
    requires d > 0.0 && a == x * d
    ensures a / d == x
  {
    var q := a / d;
    assert (q - x) * d == 0.0;
  }

  /** What the verdict on an entered trade says. */
  lemma EnteredPosition(setup: Setup, all: seq<Trade>, t: Trade) returns (p: Position)
    requires Decide(setup, t) == Enter
    ensures Judge(setup, t, TicksFor(all, t.mint)) == Entered(p)
    ensures p.mode == ModeName(t) && p.tier == t.tier && p.notional == Stake(t)
    ensures p.reason == ExitIn(setup, all, t).reason
    ensures p.pnl == Profit(Stake(t), t.price.value, ExitIn(setup, all, t).price)
    ensures p.pnl > 0.0 <==> ExitIn(setup, all, t).price > t.price.value
  {
    p := Settle(t, t.price.value, ExitIn(setup, all, t));
    var earned := ProfitOfMove(Stake(t), t.price.value, ExitIn(setup, all, t).price);
  }

  /** What one position adds to a bucket. */
  lemma OnePosition(p: Position) returns (b: Bucket)
    ensures b == BucketOf(p)
    ensures b.closed == 1 && b.wins == (if p.pnl > 0.0 then 1 else 0) && b.pnl == p.pnl && b.notional == p.notional
    ensures b.tp == (if p.reason == TP then 1 else 0) && b.sl == (if p.reason == SL then 1 else 0)
    ensures b.time == (if p.reason == TIME then 1 else 0)
  {
    b := BucketOf(p);
  }

  lemma CensusSnoc(setup: Setup, all: seq<Trade>, part: seq<Trade>, t: Trade, keep: Trade -> bool)
    ensures |Filter(part + [t], Enters(setup, keep))| == |Filter(part, Enters(setup, keep))| + if Enters(setup, keep)(t) then 1 else 0
    ensures |Filter(part + [t], Wins(setup, all, keep))| == |Filter(part, Wins(setup, all, keep))| + if Wins(setup, all, keep)(t) then 1 else 0
    ensures forall r :: |Filter(part + [t], LeavesBy(setup, all, r, keep))|
                     == |Filter(part, LeavesBy(setup, all, r, keep))| + if LeavesBy(setup, all, r, keep)(t) then 1 else 0
    ensures SumOver(part + [t], Staked(setup, keep)) == SumOver(part, Staked(setup, keep)) + Staked(setup, keep)(t)
    ensures SumOver(part + [t], Earned(setup, all, keep)) == SumOver(part, Earned(setup, all, keep)) + Earned(setup, all, keep)(t)
  {
    CountSnoc(part, t, Enters(setup, keep));
    CountSnoc(part, t, Wins(setup, all, keep));
    forall r
      ensures |Filter(part + [t], LeavesBy(setup, all, r, keep))|
           == |Filter(part, LeavesBy(setup, all, r, keep))| + if LeavesBy(setup, all, r, keep)(t) then 1 else 0
    {
      CountSnoc(part, t, LeavesBy(setup, all, r, keep));
    }
    SumSnoc(part, t, Staked(setup, keep));
    SumSnoc(part, t, Earned(setup, all, keep));
  }

  /** A trade that is not entered, or not picked, leaves a census as it was. */
  lemma CensusSkips(b: Bucket, setup: Setup, all: seq<Trade>, part: seq<Trade>, t: Trade, keep: Trade -> bool)
    requires IsCensus(b, setup, all, part, keep) && !(Decide(setup, t) == Enter && keep(t))
    ensures IsCensus(b, setup, all, part + [t], keep)
  {
    CensusSnoc(setup, all, part, t, keep);
  }

  /** One that is adds its position. */
  lemma CensusAdds(b: Bucket, setup: Setup, all: seq<Trade>, part: seq<Trade>, t: Trade, keep: Trade -> bool, p: Position)
    requires IsCensus(b, setup, all, part, keep) && Decide(setup, t) == Enter && keep(t)
    requires Judge(setup, t, TicksFor(all, t.mint)) == Entered(p)
    ensures IsCensus(Plus(b, BucketOf(p)), setup, all, part + [t], keep)
  {
    var q := EnteredPosition(setup, all, t);
    var one := OnePosition(q);
    CensusSnoc(setup, all, part, t, keep);
  }

  // ---- The whole tally ----

  function Anything(): Trade -> bool {
    (t: Trade) => true
  }

  function OfMode(name: string): Trade -> bool {
    (t: Trade) => ModeName(t) == name
  }

  function OfTier(name: string): Trade -> bool {
    (t: Trade) => t.tier == Named(name)
  }

  function GetBucket(groups: map<string, Bucket>, name: string): Bucket {
    if name in groups then groups[name] else NO_POSITIONS
  }

  lemma EmptyCensus(setup: Setup, all: seq<Trade>, keep: Trade -> bool)
    ensures IsCensus(NO_POSITIONS, setup, all, [], keep)
  {
  }

  lemma JudgedEntered(setup: Setup, all: seq<Trade>, t: Trade)
    ensures Judge(setup, t, TicksFor(all, t.mint)).Entered? <==> Decide(setup, t) == Enter
  {
  }

  /** The state of the loop after `part`, with its last trade taken apart. */
  lemma TallyStep(setup: Setup, all: seq<Trade>, part: seq<Trade>, anyMode: bool, anyTier: bool)
    returns (init: seq<Trade>, t: Trade, v: Verdict, y: Tally, y': Tally)
    requires part != []
    ensures part == init + [t] && |init| < |part| && v == Judge(setup, t, TicksFor(all, t.mint))
    ensures y == TallyOf(Verdicts(setup, all, init), anyMode, anyTier)
    ensures y' == TallyOf(Verdicts(setup, all, part), anyMode, anyTier) == Account(y, v, anyMode, anyTier)
  {
    init, t := part[..|part| - 1], part[|part| - 1];
    v := Judge(setup, t, TicksFor(all, t.mint));
    var vs := Verdicts(setup, all, init);
    assert (vs + [v])[..|vs|] == vs;
    y := TallyOf(vs, anyMode, anyTier);
    y' := Account(y, v, anyMode, anyTier);
  }

  lemma CensusNext(b: Bucket, b': Bucket, setup: Setup, all: seq<Trade>, init: seq<Trade>, t: Trade, keep: Trade -> bool, v: Verdict)
    requires v == Judge(setup, t, TicksFor(all, t.mint)) && IsCensus(b, setup, all, init, keep)
    requires b' == if v.Entered? && keep(t) then Plus(b, BucketOf(v.position)) else b
    ensures IsCensus(b', setup, all, init + [t], keep)
  {
    JudgedEntered(setup, all, t);
    if v.Entered? && keep(t) {
      CensusAdds(b, setup, all, init, t, keep, v.position);
    } else {
      CensusSkips(b, setup, all, init, t, keep);
    }
  }

  lemma {:induction false} TotalCensus(setup: Setup, all: seq<Trade>, part: seq<Trade>, anyMode: bool, anyTier: bool)
    ensures IsCensus(TallyOf(Verdicts(setup, all, part), anyMode, anyTier).total, setup, all, part, Anything())
    decreases |part|
  {
    if part == [] {
      EmptyCensus(setup, all, Anything());
    } else {
      var init, t, v, y, y' := TallyStep(setup, all, part, anyMode, anyTier);
      TotalCensus(setup, all, init, anyMode, anyTier);
      CensusNext(y.total, y'.total, setup, all, init, t, Anything(), v);
    }
  }

  lemma {:induction false} ModeCensus(setup: Setup, all: seq<Trade>, part: seq<Trade>, anyTier: bool, name: string)
    ensures IsCensus(GetBucket(TallyOf(Verdicts(setup, all, part), true, anyTier).byMode, name), setup, all, part, OfMode(name))
    decreases |part|
  {
    if part == [] {
      EmptyCensus(setup, all, OfMode(name));
    } else {
      var init, t, v, y, y' := TallyStep(setup, all, part, true, anyTier);
      ModeCensus(setup, all, init, anyTier, name);
      GroupNext(setup, all, t, v, y, y', true, anyTier, name);
      CensusNext(GetBucket(y.byMode, name), GetBucket(y'.byMode, name), setup, all, init, t, OfMode(name), v);
    }
  }

  lemma {:induction false} TierCensus(setup: Setup, all: seq<Trade>, part: seq<Trade>, anyMode: bool, name: string)
    ensures IsCensus(GetBucket(TallyOf(Verdicts(setup, all, part), anyMode, true).byTier, name), setup, all, part, OfTier(name))
    decreases |part|
  {
    if part == [] {
      EmptyCensus(setup, all, OfTier(name));
    } else {
      var init, t, v, y, y' := TallyStep(setup, all, part, anyMode, true);
      TierCensus(setup, all, init, anyMode, name);
      GroupNext(setup, all, t, v, y, y', anyMode, true, name);
      CensusNext(GetBucket(y.byTier, name), GetBucket(y'.byTier, name), setup, all, init, t, OfTier(name), v);
    }
  }

  /** A position goes to the bucket of its trade's mode, and of its tier if it has one. */
  lemma GroupNext(setup: Setup, all: seq<Trade>, t: Trade, v: Verdict, y: Tally, y': Tally, anyMode: bool, anyTier: bool, name: string)
    requires v == Judge(setup, t, TicksFor(all, t.mint)) && y' == Account(y, v, anyMode, anyTier)
    ensures anyMode ==> GetBucket(y'.byMode, name)
                        == if v.Entered? && OfMode(name)(t) then Plus(GetBucket(y.byMode, name), BucketOf(v.position))
                           else GetBucket(y.byMode, name)
    ensures anyTier ==> GetBucket(y'.byTier, name)
                        == if v.Entered? && OfTier(name)(t) then Plus(GetBucket(y.byTier, name), BucketOf(v.position))
                           else GetBucket(y.byTier, name)
  {
    JudgedEntered(setup, all, t);
    if v.Entered? {
      var p := EnteredPosition(setup, all, t);
      assert v.position == p;
    }
  }

  /** The skip counters, one for each way the gate can refuse a candidate. */
  ghost predicate SkipsCounted(y: Tally, setup: Setup, part: seq<Trade>) {
    && y.entered == |Filter(part, Gated(setup, Enter))|
    && y.missingSnapshot == |Filter(part, Gated(setup, MissingSnapshot))|
    && y.missingProfile == |Filter(part, Gated(setup, MissingProfile))|
    && y.belowThreshold == |Filter(part, Gated(setup, BelowThreshold))|
  }

  lemma JudgedByGate(setup: Setup, all: seq<Trade>, t: Trade)
    ensures var v, gate := Judge(setup, t, TicksFor(all, t.mint)), Decide(setup, t);
            && (v == Ignored <==> gate == NoEntry) && (v == NoSnapshot <==> gate == MissingSnapshot)
            && (v == NoProfile <==> gate == MissingProfile) && (v == NoEdge <==> gate == BelowThreshold)
            && (v.Entered? <==> gate == Enter)
  {
  }

  lemma SkipsNext(setup: Setup, all: seq<Trade>, init: seq<Trade>, t: Trade, v: Verdict, y: Tally, y': Tally, anyMode: bool, anyTier: bool)
    requires v == Judge(setup, t, TicksFor(all, t.mint)) && y' == Account(y, v, anyMode, anyTier) && SkipsCounted(y, setup, init)
    ensures SkipsCounted(y', setup, init + [t])
  {
    JudgedByGate(setup, all, t);
    CountSnoc(init, t, Gated(setup, Enter));
    CountSnoc(init, t, Gated(setup, MissingSnapshot));
    CountSnoc(init, t, Gated(setup, MissingProfile));
    CountSnoc(init, t, Gated(setup, BelowThreshold));
  }

  lemma {:induction false} GateCensus(setup: Setup, all: seq<Trade>, part: seq<Trade>, anyMode: bool, anyTier: bool)
    ensures SkipsCounted(TallyOf(Verdicts(setup, all, part), anyMode, anyTier), setup, part)
    decreases |part|
  {
    if part != [] {
      var init, t, v, y, y' := TallyStep(setup, all, part, anyMode, anyTier);
      GateCensus(setup, all, init, anyMode, anyTier);
      SkipsNext(setup, all, init, t, v, y, y', anyMode, anyTier);
    }
  }

  /** Some trade that counts as a tick carries a mode tag, or a tier tag, blank ones included. */
  ghost predicate Tagged(trades: seq<Trade>, tag: Trade -> Tag) {
    exists i :: 0 <= i < |trades| && trades[i].mint != "" && trades[i].price.Some? && tag(trades[i]) != NoTag
  }

  function ModeTag(): Trade -> Tag {
    (t: Trade) => t.mode
  }

  function TierTag(): Trade -> Tag {
    (t: Trade) => t.tier
  }

  lemma {:induction false} TaggedSnoc(init: seq<Trade>, t: Trade, tag: Trade -> Tag)
    ensures Tagged(init + [t], tag) <==> Tagged(init, tag) || (IsTick(t) && tag(t) != NoTag)
  {
    var trades := init + [t];
    if Tagged(init, tag) {
      var i :| 0 <= i < |init| && init[i].mint != "" && init[i].price.Some? && tag(init[i]) != NoTag;
      assert trades[i] == init[i];
    }
    if IsTick(t) && tag(t) != NoTag {
      assert trades[|init|] == t;
    }
    if Tagged(trades, tag) {
      var i :| 0 <= i < |trades| && trades[i].mint != "" && trades[i].price.Some? && tag(trades[i]) != NoTag;
      assert i < |init| ==> trades[i] == init[i];
    }
  }

  lemma {:induction false} GroupingsAreTagged(trades: seq<Trade>)
    ensures AnyMode(trades) <==> Tagged(trades, ModeTag())
    ensures AnyTier(trades) <==> Tagged(trades, TierTag())
  {
    if trades != [] {
      var init, t := trades[..|trades| - 1], trades[|trades| - 1];
      assert trades == init + [t];
      GroupingsAreTagged(init);
      TaggedSnoc(init, t, ModeTag());
      TaggedSnoc(init, t, TierTag());
    }
  }

  /** Every number of a report: skips by the gate; positions, wins, exits by reason, stakes and profits
      of the entered trades, over all of them and, where some trade is tagged, of each mode and tier. */
  lemma PreflightCounts(setup: Setup, trades: seq<Trade>, name: string)
    ensures SkipsCounted(Preflight(setup, trades), setup, trades)
    ensures IsCensus(Preflight(setup, trades).total, setup, trades, trades, Anything())
    ensures Tagged(trades, ModeTag()) ==> IsCensus(GetBucket(Preflight(setup, trades).byMode, name), setup, trades, trades, OfMode(name))
    ensures Tagged(trades, TierTag()) ==> IsCensus(GetBucket(Preflight(setup, trades).byTier, name), setup, trades, trades, OfTier(name))
  {
    GroupingsAreTagged(trades);
    GateCensus(setup, trades, trades, AnyMode(trades), AnyTier(trades));
    TotalCensus(setup, trades, trades, AnyMode(trades), AnyTier(trades));
    if AnyMode(trades) {
      ModeCensus(setup, trades, trades, AnyTier(trades), name);
    }
    if AnyTier(trades) {
      TierCensus(setup, trades, trades, AnyMode(trades), name);
    }
  }

  lemma {:induction false} GroupsWellFormed(vs: seq<Verdict>, anyMode: bool, anyTier: bool, name: string)
    requires forall v | v in vs && v.Entered? :: v.position.notional > 0.0
    ensures WellFormed(GetBucket(TallyOf(vs, anyMode, anyTier).byMode, name))
    ensures WellFormed(GetBucket(TallyOf(vs, anyMode, anyTier).byTier, name))
  {
    if vs != [] {
      GroupsWellFormed(vs[..|vs| - 1], anyMode, anyTier, name);
      assert vs[|vs| - 1] in vs;
    }
  }

  /** The ratios of every group recover its totals, as those of the whole report do. */
  lemma GroupRatiosAreExact(setup: Setup, trades: seq<Trade>, name: string)
    ensures var y := Preflight(setup, trades);
            && ReportOf(y).byMode.Keys == y.byMode.Keys && ReportOf(y).byTier.Keys == y.byTier.Keys
            && (name in y.byMode ==> IsRatios(ReportOf(y).byMode[name], y.byMode[name]))
            && (name in y.byTier ==> IsRatios(ReportOf(y).byTier[name], y.byTier[name]))
  {
    var y := Preflight(setup, trades);
    VerdictsHaveNotional(setup, trades, trades);
    GroupsWellFormed(Verdicts(setup, trades, trades), AnyMode(trades), AnyTier(trades), name);
    RatiosOf(GetBucket(y.byMode, name));
    RatiosOf(GetBucket(y.byTier, name));
  }

  predicate IsRatios(s: Summary, b: Bucket) {
    && Times(s.winrate, b.closed as real) == b.wins as real
    && Times(s.avgPnl, b.closed as real) == b.pnl
    && Times(s.roi, b.notional) == b.pnl
  }

  // ---- The gate ----

  /** Each way through the gate, first reason first. */
  lemma GateIsExact(setup: Setup, t: Trade)
    ensures Decide(setup, t) == NoEntry <==> !t.isBuy || t.mint == "" || t.wallet == "" || t.price == None
    ensures Decide(setup, t) == MissingSnapshot <==> Candidate(t) && t.mint !in setup.snapshots
    ensures Decide(setup, t) == MissingProfile <==> Candidate(t) && t.mint in setup.snapshots && t.wallet !in setup.profiles
    ensures Candidate(t) && t.mint in setup.snapshots && t.wallet in setup.profiles ==>
              (Decide(setup, t) == BelowThreshold <==> EdgeOf(setup, t) < setup.minEdgeBps)
  {
  }

  /** A model's probability goes before the wallet's win rate, and without either it is zero; what is
      outside the unit interval is brought to its nearer end. */
  lemma WinProbabilityIsExact(profile: Profile, pModel: Option<real>)
    ensures 0.0 <= WinProbability(profile, pModel) <= 1.0
    ensures pModel.Some? && 0.0 <= pModel.value <= 1.0 ==> WinProbability(profile, pModel) == pModel.value
    ensures pModel == None && profile.winrate30d.Some? ==> WinProbability(profile, None) == WinProbability(profile, profile.winrate30d)
    ensures pModel == None && profile.winrate30d == None ==> WinProbability(profile, None) == 0.0
    ensures pModel.Some? && pModel.value < 0.0 ==> WinProbability(profile, pModel) == 0.0
    ensures pModel.Some? && pModel.value > 1.0 ==> WinProbability(profile, pModel) == 1.0
  {
  }

  // ---- Which ticks decide ----

  /** A tick reaches the target, or the stop, if and only if its move from the entry does. */
  lemma HitsIffMove(entry: Price, cfg: ModeCfg, px: Price)
    ensures HitsTp(entry, cfg, px) <==> Move(entry, px) >= cfg.tpPct
    ensures HitsSl(entry, cfg, px) <==> Move(entry, px) <= cfg.slPct
  {
    HitsBoundMove(entry, cfg, px);
    var q: real := px / entry;
    assert q * entry == px;
    if q >= 1.0 + cfg.tpPct {
      ProductMonotone(1.0 + cfg.tpPct, q, entry);
    }
    if q <= 1.0 + cfg.slPct {
      ProductMonotone(q, 1.0 + cfg.slPct, entry);
    }
  }

  function After(ts: real): Tick -> bool {
    (t: Tick) => t.ts > ts
  }

  /** Ticks at or before the entry, the trade's own among them, play no part. */
  lemma {:induction false} EarlierTicksIgnored(entry: Price, entryTs: real, cfg: ModeCfg, ticks: seq<Tick>, last: Price)
    ensures Scan(entry, entryTs, cfg, Filter(ticks, After(entryTs)), last) == Scan(entry, entryTs, cfg, ticks, last)
  {
    if ticks != [] {
      var t, rest := ticks[0], ticks[1..];
      EarlierTicksIgnored(entry, entryTs, cfg, rest, last);
      EarlierTicksIgnored(entry, entryTs, cfg, rest, t.px);
      assert t.ts > entryTs ==> Filter(ticks, After(entryTs))[1..] == Filter(rest, After(entryTs));
    }
  }
}
