/** The deterministic backtest of integration/sim_preflight.py: gate, exit, accounting. */
module SimPreflight {
  import opened Collections
  import opened Numbers

  type Price = x: real | x > 0.0 witness 1.0

  datatype Reason = TP | SL | TIME

  datatype ModeCfg = ModeCfg(tpPct: real, slPct: real, holdSecMax: int)

  /** A string tag in a trade's `extra` mapping: absent, blank after stripping, or a name. */
  datatype Tag = NoTag | BlankTag | Named(name: string)

  /** A normalised trade: `isBuy` is the upper-cased side test, `notional` the first of `qty_usd` and
      `size_usd` that is present. */
  datatype Trade = Trade(isBuy: bool, mint: string, wallet: string, ts: real, price: Option<Price>,
                         mode: Tag, tier: Tag, notional: Option<real>)

  datatype Snapshot = Snapshot(spreadBps: Option<real>)

  datatype Profile = Profile(winrate30d: Option<real>)

  /** The gate's edge formula. What follows holds for any; the program's is `ComputeEdgeBps`. */
  type EdgeFormula = (Snapshot, Profile, ModeCfg) -> int

  datatype Setup = Setup(minEdgeBps: int, modes: map<string, ModeCfg>, edgeBps: EdgeFormula,
                         snapshots: map<string, Snapshot>, profiles: map<string, Profile>)

  datatype Tick = Tick(ts: real, px: Price)

  // ---- Exit simulation ----

  predicate ByTs(a: Tick, b: Tick) {
    a.ts <= b.ts
  }

  predicate HitsTp(entry: Price, cfg: ModeCfg, px: Price) {
    px >= entry * (1.0 + cfg.tpPct)
  }

  predicate HitsSl(entry: Price, cfg: ModeCfg, px: Price) {
    px <= entry * (1.0 + cfg.slPct)
  }

  predicate Held(entryTs: real, cfg: ModeCfg, t: Tick) {
    entryTs < t.ts <= entryTs + cfg.holdSecMax as real
  }

  datatype Exit = Exit(price: Price, reason: Reason)

  /** The scan from some point on, when `last` is the last price seen. */
  function Scan(entry: Price, entryTs: real, cfg: ModeCfg, ticks: seq<Tick>, last: Price): Exit {
    if ticks == [] then Exit(last, TIME)
    else
      var t, rest := ticks[0], ticks[1..];
      if t.ts <= entryTs then Scan(entry, entryTs, cfg, rest, last)
      else if t.ts > entryTs + cfg.holdSecMax as real then Exit(last, TIME)
      else if HitsTp(entry, cfg, t.px) then Exit(t.px, TP)
      else if HitsSl(entry, cfg, t.px) then Exit(t.px, SL)
      else Scan(entry, entryTs, cfg, rest, t.px)
  }

  predicate Decisive(entry: Price, entryTs: real, cfg: ModeCfg, t: Tick) {
    Held(entryTs, cfg, t) && (HitsTp(entry, cfg, t.px) || HitsSl(entry, cfg, t.px))
  }

  ghost predicate FirstDecisive(entry: Price, entryTs: real, cfg: ModeCfg, ticks: seq<Tick>, i: int) {
    && 0 <= i < |ticks| && Decisive(entry, entryTs, cfg, ticks[i])
    && forall j | 0 <= j < i :: !Decisive(entry, entryTs, cfg, ticks[j])
  }

  ghost predicate LastHeld(entryTs: real, cfg: ModeCfg, ticks: seq<Tick>, i: int) {
    && 0 <= i < |ticks| && Held(entryTs, cfg, ticks[i])
    && forall j | i < j < |ticks| :: !Held(entryTs, cfg, ticks[j])
  }

  /** What an exit is, with no reference to a scan: the first tick in the holding window that reaches
      a level decides it, profit before loss; failing that, the last price of the window; failing
      that, `last`. */
  ghost predicate IsExit(entry: Price, entryTs: real, cfg: ModeCfg, ticks: seq<Tick>, last: Price, x: Exit) {
    || (exists i :: FirstDecisive(entry, entryTs, cfg, ticks, i)
                    && x == Exit(ticks[i].px, if HitsTp(entry, cfg, ticks[i].px) then TP else SL))
    || (&& (forall i | 0 <= i < |ticks| :: !Decisive(entry, entryTs, cfg, ticks[i]))
        && exists i :: LastHeld(entryTs, cfg, ticks, i) && x == Exit(ticks[i].px, TIME))
    || ((forall i | 0 <= i < |ticks| :: !Held(entryTs, cfg, ticks[i])) && x == Exit(last, TIME))
  }

  lemma {:induction false} ScanIsExit(entry: Price, entryTs: real, cfg: ModeCfg, ticks: seq<Tick>, last: Price)
    requires Sorted(ticks, ByTs)
    ensures IsExit(entry, entryTs, cfg, ticks, last, Scan(entry, entryTs, cfg, ticks, last))
  {
    if ticks != [] {
      var t, rest := ticks[0], ticks[1..];
      assert forall i | 0 < i < |ticks| :: ticks[i] == rest[i - 1] && ByTs(t, ticks[i]);
      if t.ts <= entryTs || t.ts <= entryTs + cfg.holdSecMax as real {
        if Decisive(entry, entryTs, cfg, t) {
          assert FirstDecisive(entry, entryTs, cfg, ticks, 0);
        } else {
          ScanIsExit(entry, entryTs, cfg, rest, if Held(entryTs, cfg, t) then t.px else last);
          ExitShifts(entry, entryTs, cfg, ticks, last, Scan(entry, entryTs, cfg, ticks, last));
        }
      }
    }
  }

  lemma ExitShifts(entry: Price, entryTs: real, cfg: ModeCfg, ticks: seq<Tick>, last: Price, x: Exit)
    requires ticks != [] && !Decisive(entry, entryTs, cfg, ticks[0])
    requires IsExit(entry, entryTs, cfg, ticks[1..], if Held(entryTs, cfg, ticks[0]) then ticks[0].px else last, x)
    ensures IsExit(entry, entryTs, cfg, ticks, last, x)
  {
    var rest := ticks[1..];
    assert forall i | 0 < i < |ticks| :: ticks[i] == rest[i - 1];
    if i :| FirstDecisive(entry, entryTs, cfg, rest, i)
            && x == Exit(rest[i].px, if HitsTp(entry, cfg, rest[i].px) then TP else SL) {
      assert FirstDecisive(entry, entryTs, cfg, ticks, i + 1);
    } else if i :| LastHeld(entryTs, cfg, rest, i) && x == Exit(rest[i].px, TIME) {
      assert LastHeld(entryTs, cfg, ticks, i + 1);
    } else if Held(entryTs, cfg, ticks[0]) {
      assert LastHeld(entryTs, cfg, ticks, 0);
    }
  }

  /** `_simulate_exit`, on ticks in time order. */
  method SimulateExit(entry: Price, entryTs: real, ticks: seq<Tick>, cfg: ModeCfg) returns (x: Exit)
    ensures x == Scan(entry, entryTs, cfg, ticks, entry)
    ensures Sorted(ticks, ByTs) ==> IsExit(entry, entryTs, cfg, ticks, entry, x)
  {
    if Sorted(ticks, ByTs) {
      ScanIsExit(entry, entryTs, cfg, ticks, entry);
    }
    var windowEnd := entryTs + cfg.holdSecMax as real;
    var lastPrice := entry;
    var sawTick := false;
    for i := 0 to |ticks|
      invariant Scan(entry, entryTs, cfg, ticks[i..], lastPrice) == Scan(entry, entryTs, cfg, ticks, entry)
      invariant !sawTick ==> lastPrice == entry
    {
      var t := ticks[i];
      assert ticks[i..][1..] == ticks[i + 1..];
      if t.ts <= entryTs {
        continue;
      }
      if t.ts > windowEnd {
        break;
      }
      sawTick := true;
      lastPrice := t.px;
      if HitsTp(entry, cfg, t.px) {
        return Exit(t.px, TP);
      }
      if HitsSl(entry, cfg, t.px) {
        return Exit(t.px, SL);
      }
    }
    x := if !sawTick then Exit(entry, TIME) else Exit(lastPrice, TIME);
  }

  // ---- The +EV gate ----

  function Clamp01(x: real): real {
    if x < 0.0 then 0.0 else if x > 1.0 then 1.0 else x
  }

  function Abs(x: real): real {
    if x < 0.0 then -x else x
  }

  function GetMode(setup: Setup, mode: string): ModeCfg {
    if mode in setup.modes then setup.modes[mode] else ModeCfg(0.0, 0.0, 0)
  }

  function WinProbability(profile: Profile, pModel: Option<real>): real {
    Clamp01(if pModel.Some? then pModel.value
            else if profile.winrate30d.Some? then profile.winrate30d.value else 0.0)
  }

  function GrossEdge(winP: real, cfg: ModeCfg): real {
    winP * cfg.tpPct - (1.0 - winP) * Abs(cfg.slPct)
  }

  function ComputeEdgeBps(snap: Snapshot, profile: Profile, cfg: ModeCfg, pModel: Option<real>): int {
    RoundHalfEven(GrossEdge(WinProbability(profile, pModel), cfg) * 10000.0) - SpreadCost(snap)
  }

  /** Whole basis points of spread. */
  function SpreadCost(snap: Snapshot): int {
    if snap.spreadBps.Some? then Truncate(snap.spreadBps.value) else 0
  }

  /** The formula of both runs, which pass no model probability. */
  function ProgramEdge(): EdgeFormula {
    (snap, profile, cfg) => ComputeEdgeBps(snap, profile, cfg, None)
  }

  /** A better wallet never has a worse edge. */
  lemma EdgeMonotone(snap: Snapshot, p: Profile, q: Profile, cfg: ModeCfg, pModel: Option<real>, qModel: Option<real>)
    requires cfg.tpPct >= 0.0 && WinProbability(p, pModel) <= WinProbability(q, qModel)
    ensures ComputeEdgeBps(snap, p, cfg, pModel) <= ComputeEdgeBps(snap, q, cfg, qModel)
  {
    var x, y := WinProbability(p, pModel), WinProbability(q, qModel);
    ProductSign(y - x, cfg.tpPct + Abs(cfg.slPct));
    assert GrossEdge(y, cfg) - GrossEdge(x, cfg) == (y - x) * (cfg.tpPct + Abs(cfg.slPct));
    RoundMonotone(GrossEdge(x, cfg) * 10000.0, GrossEdge(y, cfg) * 10000.0);
  }

  /** Expected profit per unit of notional, as the margin of the win probability over break-even. */
  function Margin(winP: real, cfg: ModeCfg): real {
    Times(winP, cfg.tpPct + Abs(cfg.slPct)) - Abs(cfg.slPct)
  }

  /** The margin, in basis points, comes within half a point of `n`; at exactly half a point ties go
      to the even number. */
  predicate RoundsUpTo(margin: real, n: int) {
    margin > n as real - 0.5 || (margin == n as real - 0.5 && n % 2 == 0)
  }

  /** The edge reaches a number of points if and only if the margin rounds up to the whole points of
      spread plus that number. */
  lemma EdgeReaches(snap: Snapshot, profile: Profile, cfg: ModeCfg, pModel: Option<real>, points: int)
    ensures ComputeEdgeBps(snap, profile, cfg, pModel) >= points
            <==> RoundsUpTo(10000.0 * Margin(WinProbability(profile, pModel), cfg), SpreadCost(snap) + points)
  {
    var winP := WinProbability(profile, pModel);
    assert GrossEdge(winP, cfg) == Margin(winP, cfg);
    RoundReaches(GrossEdge(winP, cfg) * 10000.0, SpreadCost(snap) + points);
  }

  // ---- One trade ----

  /** A BUY with a mint, a wallet and a price. */
  predicate Candidate(t: Trade) {
    t.isBuy && t.mint != "" && t.wallet != "" && t.price.Some?
  }

  function ModeName(t: Trade): string {
    if t.mode.Named? then t.mode.name else "U"
  }

  datatype Gate = NoEntry | MissingSnapshot | MissingProfile | BelowThreshold | Enter

  /** What the gate decides. It looks at no tick. */
  function Decide(setup: Setup, t: Trade): Gate {
    if !Candidate(t) then NoEntry
    else if t.mint !in setup.snapshots then MissingSnapshot
    else if t.wallet !in setup.profiles then MissingProfile
    else if EdgeOf(setup, t) < setup.minEdgeBps then BelowThreshold
    else Enter
  }

  function EdgeOf(setup: Setup, t: Trade): int
    requires t.mint in setup.snapshots && t.wallet in setup.profiles
  {
    setup.edgeBps(setup.snapshots[t.mint], setup.profiles[t.wallet], GetMode(setup, ModeName(t)))
  }

  function Notional(t: Trade): real {
    if t.notional.Some? && t.notional.value > 0.0 then t.notional.value else 1.0
  }

  /** A closed position. */
  datatype Position = Position(mode: string, tier: Tag, pnl: real, notional: real, reason: Reason)

  function Settle(t: Trade, entry: Price, x: Exit): Position {
    Position(ModeName(t), t.tier, Times(Move(entry, x.price), Notional(t)), Notional(t), x.reason)
  }

  function ExitOf(setup: Setup, t: Trade, entry: Price, ticks: seq<Tick>): Exit {
    Scan(entry, t.ts, GetMode(setup, ModeName(t)), ticks, entry)
  }

  /** What one trade contributes to a run. */
  datatype Verdict = Ignored | NoSnapshot | NoProfile | NoEdge | Entered(position: Position)

  function Judge(setup: Setup, t: Trade, ticks: seq<Tick>): Verdict {
    match Decide(setup, t)
    case NoEntry => Ignored
    case MissingSnapshot => NoSnapshot
    case MissingProfile => NoProfile
    case BelowThreshold => NoEdge
    case Enter => Entered(Settle(t, t.price.value, ExitOf(setup, t, t.price.value, ticks)))
  }

  /** A TP exit earns at least the target on its notional, an SL exit at most the stop. */
  lemma LevelsBoundProfit(setup: Setup, t: Trade, ticks: seq<Tick>)
    requires Judge(setup, t, ticks).Entered?
    ensures var p, cfg := Judge(setup, t, ticks).position, GetMode(setup, ModeName(t));
            && (p.reason == TP ==> p.pnl >= Times(cfg.tpPct, p.notional))
            && (p.reason == SL ==> p.pnl <= Times(cfg.slPct, p.notional))
  {
    var entry, cfg := t.price.value, GetMode(setup, ModeName(t));
    var x := ExitOf(setup, t, entry, ticks);
    ExitHitsLevel(entry, t.ts, cfg, ticks, entry);
    HitsBoundMove(entry, cfg, x.price);
    MoveBoundsProfit(t, entry, x, cfg);
  }

  lemma MoveBoundsProfit(t: Trade, entry: Price, x: Exit, cfg: ModeCfg)
    ensures var p, move := Settle(t, entry, x), Move(entry, x.price);
            && (move >= cfg.tpPct ==> p.pnl >= Times(cfg.tpPct, p.notional))
            && (move <= cfg.slPct ==> p.pnl <= Times(cfg.slPct, p.notional))
  {
    var move := Move(entry, x.price);
    assert Notional(t) > 0.0;
    if move >= cfg.tpPct {
      TimesMonotone(cfg.tpPct, move, Notional(t));
    }
    if move <= cfg.slPct {
      TimesMonotone(move, cfg.slPct, Notional(t));
    }
  }

  /** The relative move from the entry. */
  function Move(entry: Price, px: Price): real {
    px / entry - 1.0
  }

  lemma HitsBoundMove(entry: Price, cfg: ModeCfg, px: Price)
    ensures HitsTp(entry, cfg, px) ==> Move(entry, px) >= cfg.tpPct
    ensures HitsSl(entry, cfg, px) ==> Move(entry, px) <= cfg.slPct
  {
    QuotientBound(px, entry, 1.0 + cfg.tpPct);
    QuotientBound(px, entry, 1.0 + cfg.slPct);
  }

  /** A scan that stops for a level stops at a price that reaches it. */
  lemma {:induction false} ExitHitsLevel(entry: Price, entryTs: real, cfg: ModeCfg, ticks: seq<Tick>, last: Price)
    ensures var x := Scan(entry, entryTs, cfg, ticks, last);
            && (x.reason == TP ==> HitsTp(entry, cfg, x.price))
            && (x.reason == SL ==> HitsSl(entry, cfg, x.price))
  {
    if ticks != [] {
      ExitHitsLevel(entry, entryTs, cfg, ticks[1..], if Held(entryTs, cfg, ticks[0]) then ticks[0].px else last);
    }
  }

  /** The win probability's margin over break-even, in basis points, rounds up to the spread plus
      `points`. */
  predicate Clears(snap: Snapshot, profile: Profile, cfg: ModeCfg, points: int) {
    RoundsUpTo(10000.0 * Margin(WinProbability(profile, None), cfg), SpreadCost(snap) + points)
  }

  /** A formula whose edge reaches `points` exactly if the margin clears them. */
  ghost predicate FollowsMargin(f: EdgeFormula, points: int) {
    forall snap, profile, cfg {:trigger Clears(snap, profile, cfg, points)} ::
      f(snap, profile, cfg) >= points <==> Clears(snap, profile, cfg, points)
  }

  lemma ProgramFollowsMargin(points: int)
    ensures FollowsMargin(ProgramEdge(), points)
  {
    forall snap, profile, cfg
      ensures ProgramEdge()(snap, profile, cfg) >= points <==> Clears(snap, profile, cfg, points)
    {
      EdgeReaches(snap, profile, cfg, None, points);
    }
  }

  /** The gate under any such formula. */
  lemma EntryByMargin(setup: Setup, t: Trade)
    requires FollowsMargin(setup.edgeBps, setup.minEdgeBps)
    requires Candidate(t) && t.mint in setup.snapshots && t.wallet in setup.profiles
    ensures Decide(setup, t) == Enter
            <==> Clears(setup.snapshots[t.mint], setup.profiles[t.wallet], GetMode(setup, ModeName(t)), setup.minEdgeBps)
  {
  }

  /** Under the program's own formula a known candidate is entered if and only if its margin clears
      the minimum edge. */
  lemma EntryIffMarginClears(setup: Setup, t: Trade)
    requires setup.edgeBps == ProgramEdge()
    requires Candidate(t) && t.mint in setup.snapshots && t.wallet in setup.profiles
    ensures Decide(setup, t) == Enter
            <==> Clears(setup.snapshots[t.mint], setup.profiles[t.wallet], GetMode(setup, ModeName(t)), setup.minEdgeBps)
  {
    ProgramFollowsMargin(setup.minEdgeBps);
    EntryByMargin(setup, t);
  }

  // ---- The tick index ----

  predicate IsTick(t: Trade) {
    t.mint != "" && t.price.Some?
  }

  function TickOf(t: Trade): seq<Tick> {
    if IsTick(t) then [Tick(t.ts, t.price.value)] else []
  }

  /** The mint's ticks in the order of the trades list. */
  function RawTicks(trades: seq<Trade>, mint: string): seq<Tick> {
    if trades == [] then []
    else RawTicks(trades[..|trades| - 1], mint)
         + if trades[|trades| - 1].mint == mint then TickOf(trades[|trades| - 1]) else []
  }

  function TicksFor(trades: seq<Trade>, mint: string): seq<Tick> {
    Sort(RawTicks(trades, mint), ByTs)
  }

  // ---- Accounting ----

  datatype Bucket = Bucket(closed: int, wins: int, pnl: real, notional: real, tp: int, sl: int, time: int)

  const NO_POSITIONS := Bucket(0, 0, 0.0, 0.0, 0, 0, 0)

  function Plus(a: Bucket, b: Bucket): Bucket {
    Bucket(a.closed + b.closed, a.wins + b.wins, a.pnl + b.pnl, a.notional + b.notional,
           a.tp + b.tp, a.sl + b.sl, a.time + b.time)
  }

  function BucketOf(p: Position): Bucket {
    Bucket(1, if p.pnl > 0.0 then 1 else 0, p.pnl, p.notional,
           if p.reason == TP then 1 else 0, if p.reason == SL then 1 else 0, if p.reason == TIME then 1 else 0)
  }

  function BucketAdd(groups: map<string, Bucket>, name: string, p: Position): map<string, Bucket> {
    groups[name := Plus(if name in groups then groups[name] else NO_POSITIONS, BucketOf(p))]
  }

  /** The counters of one run, as the loop leaves them. */
  datatype Tally = Tally(entered: int, missingSnapshot: int, missingProfile: int, belowThreshold: int,
                         total: Bucket, byMode: map<string, Bucket>, byTier: map<string, Bucket>)

  const EMPTY_TALLY := Tally(0, 0, 0, 0, NO_POSITIONS, map[], map[])

  /** The ratios of a group of positions; an empty group has none. */
  datatype Summary = Summary(winrate: real, roi: real, avgPnl: real)

  function Summarize(b: Bucket): Summary {
    Summary(if b.closed == 0 then 0.0 else b.wins as real / b.closed as real,
            if b.notional == 0.0 then 0.0 else b.pnl / b.notional,
            if b.closed == 0 then 0.0 else b.pnl / b.closed as real)
  }

  /** What a run returns: its counters, and the ratios overall and of each group. */
  datatype Report = Report(tally: Tally, overall: Summary, byMode: map<string, Summary>, byTier: map<string, Summary>)

  function FinalizeGroups(groups: map<string, Bucket>): map<string, Summary> {
    map k | k in groups :: Summarize(groups[k])
  }

  function ReportOf(y: Tally): Report {
    Report(y, Summarize(y.total), FinalizeGroups(y.byMode), FinalizeGroups(y.byTier))
  }

  function Record(y: Tally, p: Position, anyMode: bool, anyTier: bool): Tally {
    y.(entered := y.entered + 1,
       total := Plus(y.total, BucketOf(p)),
       byMode := if anyMode then BucketAdd(y.byMode, p.mode, p) else y.byMode,
       byTier := if anyTier && p.tier.Named? then BucketAdd(y.byTier, p.tier.name, p) else y.byTier)
  }

  /** The first pass over the trades: a tick list for each mint, and which groupings are on. */
  datatype Index = Index(ticks: map<string, seq<Tick>>, anyMode: bool, anyTier: bool)

  function GetTicks(ticks: map<string, seq<Tick>>, mint: string): seq<Tick> {
    if mint in ticks then ticks[mint] else []
  }

  function Account(y: Tally, v: Verdict, anyMode: bool, anyTier: bool): Tally {
    match v
    case Ignored => y
    case NoSnapshot => y.(missingSnapshot := y.missingSnapshot + 1)
    case NoProfile => y.(missingProfile := y.missingProfile + 1)
    case NoEdge => y.(belowThreshold := y.belowThreshold + 1)
    case Entered(p) => Record(y, p, anyMode, anyTier)
  }

  function TallyOf(vs: seq<Verdict>, anyMode: bool, anyTier: bool): Tally {
    if vs == [] then EMPTY_TALLY
    else Account(TallyOf(vs[..|vs| - 1], anyMode, anyTier), vs[|vs| - 1], anyMode, anyTier)
  }

  /** The verdicts on `trades`, with ticks taken from the whole list `all`. */
  function Verdicts(setup: Setup, all: seq<Trade>, trades: seq<Trade>): seq<Verdict> {
    if trades == [] then []
    else
      var t := trades[|trades| - 1];
      Verdicts(setup, all, trades[..|trades| - 1]) + [Judge(setup, t, TicksFor(all, t.mint))]
  }

  /** The counters of a whole run over `trades`. */
  function Preflight(setup: Setup, trades: seq<Trade>): Tally {
    TallyOf(Verdicts(setup, trades, trades), AnyMode(trades), AnyTier(trades))
  }

  predicate AnyMode(trades: seq<Trade>) {
    trades != []
    && (AnyMode(trades[..|trades| - 1]) || (IsTick(trades[|trades| - 1]) && trades[|trades| - 1].mode != NoTag))
  }

  predicate AnyTier(trades: seq<Trade>) {
    trades != []
    && (AnyTier(trades[..|trades| - 1]) || (IsTick(trades[|trades| - 1]) && trades[|trades| - 1].tier != NoTag))
  }

  /** The index is the one the first pass builds from `trades`. */
  ghost predicate Indexes(index: Index, trades: seq<Trade>) {
    && (forall mint | mint != "" :: GetTicks(index.ticks, mint) == TicksFor(trades, mint))
    && index.anyMode == AnyMode(trades)
    && index.anyTier == AnyTier(trades)
  }

  ghost predicate Collected(ticks: map<string, seq<Tick>>, trades: seq<Trade>) {
    forall m | m != "" :: GetTicks(ticks, m) == RawTicks(trades, m)
  }

  function Collect(ticks: map<string, seq<Tick>>, t: Trade): map<string, seq<Tick>> {
    if IsTick(t) then ticks[t.mint := GetTicks(ticks, t.mint) + TickOf(t)] else ticks
  }

  lemma CollectedNext(ticks: map<string, seq<Tick>>, trades: seq<Trade>, t: Trade)
    requires Collected(ticks, trades)
    ensures Collected(Collect(ticks, t), trades + [t])
  {
    assert (trades + [t])[..|trades|] == trades;
    forall m | m != ""
      ensures GetTicks(Collect(ticks, t), m) == RawTicks(trades + [t], m)
    {
      assert GetTicks(ticks, m) == RawTicks(trades, m);
      assert RawTicks(trades, m) + [] == RawTicks(trades, m);
    }
  }

  lemma FlagsNext(trades: seq<Trade>, t: Trade)
    ensures AnyMode(trades + [t]) == (AnyMode(trades) || (IsTick(t) && t.mode != NoTag))
    ensures AnyTier(trades + [t]) == (AnyTier(trades) || (IsTick(t) && t.tier != NoTag))
  {
    assert (trades + [t])[..|trades|] == trades;
  }

  method SortTicks(ticks: map<string, seq<Tick>>) returns (sorted: map<string, seq<Tick>>)
    ensures forall m :: GetTicks(sorted, m) == Sort(GetTicks(ticks, m), ByTs)
  {
    sorted := map m | m in ticks :: Sort(ticks[m], ByTs);
  }

  method BuildIndex(trades: seq<Trade>) returns (index: Index)
    ensures Indexes(index, trades)
  {
    var ticks: map<string, seq<Tick>> := map[];
    var anyMode, anyTier := false, false;
    for i := 0 to |trades|
      invariant Collected(ticks, trades[..i])
      invariant anyMode == AnyMode(trades[..i])
      invariant anyTier == AnyTier(trades[..i])
    {
      var t := trades[i];
      assert trades[..i + 1] == trades[..i] + [t];
      CollectedNext(ticks, trades[..i], t);
      FlagsNext(trades[..i], t);
      if !IsTick(t) {
        continue;
      }
      ticks := ticks[t.mint := GetTicks(ticks, t.mint) + TickOf(t)];
      anyMode := anyMode || t.mode != NoTag;
      anyTier := anyTier || t.tier != NoTag;
    }
    assert trades[..|trades|] == trades;
    var sorted := SortTicks(ticks);
    index := Index(sorted, anyMode, anyTier);
  }

  method JudgeTrade(setup: Setup, t: Trade, ticks: seq<Tick>) returns (v: Verdict)
    ensures v == Judge(setup, t, ticks)
  {
    match Decide(setup, t) {
      case NoEntry => v := Ignored;
      case MissingSnapshot => v := NoSnapshot;
      case MissingProfile => v := NoProfile;
      case BelowThreshold => v := NoEdge;
      case Enter =>
        var x := SimulateExit(t.price.value, t.ts, ticks, GetMode(setup, ModeName(t)));
        v := Entered(Settle(t, t.price.value, x));
    }
  }

  /** A mint whose ticks the index lacks has no candidates. */
  method JudgeIndexed(setup: Setup, trades: seq<Trade>, index: Index, t: Trade) returns (v: Verdict)
    requires Indexes(index, trades)
    ensures v == Judge(setup, t, TicksFor(trades, t.mint))
  {
    if t.mint == "" {
      return Ignored;
    }
    assert GetTicks(index.ticks, t.mint) == TicksFor(trades, t.mint);
    v := JudgeTrade(setup, t, GetTicks(index.ticks, t.mint));
  }

  lemma VerdictsSnoc(setup: Setup, trades: seq<Trade>, i: nat, v: Verdict)
    requires i < |trades| && v == Judge(setup, trades[i], TicksFor(trades, trades[i].mint))
    ensures Verdicts(setup, trades, trades[..i + 1]) == Verdicts(setup, trades, trades[..i]) + [v]
  {
    assert trades[..i + 1][..i] == trades[..i];
  }

  lemma TallySnoc(vs: seq<Verdict>, v: Verdict, anyMode: bool, anyTier: bool)
    ensures TallyOf(vs + [v], anyMode, anyTier) == Account(TallyOf(vs, anyMode, anyTier), v, anyMode, anyTier)
  {
    assert (vs + [v])[..|vs|] == vs;
  }

  /** The second pass. */
  method TallyTrades(setup: Setup, trades: seq<Trade>, index: Index) returns (y: Tally)
    requires Indexes(index, trades)
    ensures y == TallyOf(Verdicts(setup, trades, trades), index.anyMode, index.anyTier)
  {
    y := EMPTY_TALLY;
    ghost var vs: seq<Verdict> := [];
    for i := 0 to |trades|
      invariant vs == Verdicts(setup, trades, trades[..i])
      invariant y == TallyOf(vs, index.anyMode, index.anyTier)
    {
      var v := JudgeIndexed(setup, trades, index, trades[i]);
      VerdictsSnoc(setup, trades, i, v);
      TallySnoc(vs, v, index.anyMode, index.anyTier);
      vs := vs + [v];
      y := Account(y, v, index.anyMode, index.anyTier);
    }
    assert trades[..|trades|] == trades;
  }

  /** `preflight_and_simulate`. */
  method PreflightAndSimulate(setup: Setup, trades: seq<Trade>) returns (r: Report)
    ensures r == ReportOf(Preflight(setup, trades))
  {
    var index := BuildIndex(trades);
    var y := TallyTrades(setup, trades, index);
    r := ReportOf(y);
  }

  // ---- The ratios of a report ----

  lemma QuotientTimes(a: real, b: real)
    requires b > 0.0
    ensures Times(a / b, b) == a
  {
  }

  /** No position, no money: and with one, a positive notional. */
  predicate WellFormed(b: Bucket) {
    && 0 <= b.wins <= b.closed
    && if b.closed == 0 then b.pnl == 0.0 == b.notional else b.notional > 0.0
  }

  lemma {:induction false} TotalsWellFormed(vs: seq<Verdict>, anyMode: bool, anyTier: bool)
    requires forall v | v in vs && v.Entered? :: v.position.notional > 0.0
    ensures WellFormed(TallyOf(vs, anyMode, anyTier).total)
  {
    if vs != [] {
      TotalsWellFormed(vs[..|vs| - 1], anyMode, anyTier);
      assert vs[|vs| - 1] in vs;
    }
  }

  lemma {:induction false} VerdictsHaveNotional(setup: Setup, all: seq<Trade>, trades: seq<Trade>)
    ensures forall v | v in Verdicts(setup, all, trades) && v.Entered? :: v.position.notional > 0.0
  {
    if trades != [] {
      VerdictsHaveNotional(setup, all, trades[..|trades| - 1]);
    }
  }

  /** The reported ratios recover the totals: the win rate is in [0, 1] and times the positions gives
      the wins; mean profit times positions and ROI times notional both give the profit. */
  lemma RatiosAreExact(setup: Setup, trades: seq<Trade>)
    ensures var total, s := Preflight(setup, trades).total, ReportOf(Preflight(setup, trades)).overall;
            && 0.0 <= s.winrate <= 1.0
            && Times(s.winrate, total.closed as real) == total.wins as real
            && Times(s.avgPnl, total.closed as real) == total.pnl
            && Times(s.roi, total.notional) == total.pnl
  {
    VerdictsHaveNotional(setup, trades, trades);
    TotalsWellFormed(Verdicts(setup, trades, trades), AnyMode(trades), AnyTier(trades));
    RatiosOf(Preflight(setup, trades).total);
  }

  lemma RatiosOf(b: Bucket)
    requires WellFormed(b)
    ensures 0.0 <= Summarize(b).winrate <= 1.0
    ensures Times(Summarize(b).winrate, b.closed as real) == b.wins as real
    ensures Times(Summarize(b).avgPnl, b.closed as real) == b.pnl
    ensures Times(Summarize(b).roi, b.notional) == b.pnl
  {
    if b.closed > 0 {
      ShareInUnit(b.wins as real, b.closed as real);
      QuotientTimes(b.wins as real, b.closed as real);
      QuotientTimes(b.pnl, b.closed as real);
      QuotientTimes(b.pnl, b.notional);
    }
  }

  lemma ShareInUnit(part: real, whole: real)
    requires 0.0 <= part <= whole && whole > 0.0
    ensures 0.0 <= part / whole <= 1.0
  {
    QuotientBound(part, whole, 0.0);
    QuotientBound(part, whole, 1.0);
  }

  // ---- Nothing is lost or counted twice ----

  ghost function SumOf(groups: map<string, Bucket>): Bucket
    decreases |groups|
  {
    if groups == map[] then NO_POSITIONS
    else
      var k :| k in groups;
      Plus(groups[k], SumOf(groups - {k}))
  }

  lemma PlusRotates(a: Bucket, b: Bucket, c: Bucket)
    ensures Plus(a, Plus(b, c)) == Plus(b, Plus(a, c))
  {
  }

  lemma {:induction false} SumSplits(groups: map<string, Bucket>, k: string)
    requires k in groups
    ensures SumOf(groups) == Plus(groups[k], SumOf(groups - {k}))
    decreases |groups|
  {
    var j :| j in groups && SumOf(groups) == Plus(groups[j], SumOf(groups - {j}));
    if j != k {
      SumSplits(groups - {j}, k);
      SumSplits(groups - {k}, j);
      var rest := groups - {j} - {k};
      assert rest == groups - {k} - {j};
      PlusRotates(groups[j], groups[k], SumOf(rest));
    }
  }

  lemma SumAfterAdd(groups: map<string, Bucket>, name: string, p: Position)
    ensures SumOf(BucketAdd(groups, name, p)) == Plus(SumOf(groups), BucketOf(p))
  {
    var after := BucketAdd(groups, name, p);
    SumSplits(after, name);
    assert after - {name} == groups - {name};
    if name in groups {
      SumSplits(groups, name);
    } else {
      assert groups - {name} == groups;
    }
  }

  ghost predicate Balanced(y: Tally, candidates: int, anyMode: bool) {
    && y.entered + y.missingSnapshot + y.missingProfile + y.belowThreshold == candidates
    && y.total.closed == y.entered
    && y.total.tp + y.total.sl + y.total.time == y.total.closed
    && 0 <= y.total.wins <= y.total.closed
    && (anyMode ==> SumOf(y.byMode) == y.total)
    && (!anyMode ==> y.byMode == map[])
  }

  lemma {:induction false} VerdictsBalance(setup: Setup, all: seq<Trade>, trades: seq<Trade>, anyMode: bool, anyTier: bool)
    ensures Balanced(TallyOf(Verdicts(setup, all, trades), anyMode, anyTier), |Filter(trades, Candidate)|, anyMode)
  {
    if trades != [] {
      var init, t := trades[..|trades| - 1], trades[|trades| - 1];
      VerdictsBalance(setup, all, init, anyMode, anyTier);
      FilterConcat(init, [t], Candidate);
      assert trades == init + [t];
      var vs, v := Verdicts(setup, all, init), Judge(setup, t, TicksFor(all, t.mint));
      assert (vs + [v])[..|vs|] == vs;
      AccountKeepsBalance(TallyOf(vs, anyMode, anyTier), |Filter(init, Candidate)|, v, anyMode, anyTier);
    }
  }

  lemma AccountKeepsBalance(y: Tally, candidates: int, v: Verdict, anyMode: bool, anyTier: bool)
    requires Balanced(y, candidates, anyMode)
    ensures Balanced(Account(y, v, anyMode, anyTier), candidates + if v == Ignored then 0 else 1, anyMode)
  {
    if v.Entered? {
      SumAfterAdd(y.byMode, v.position.mode, v.position);
    }
  }

  /** Every candidate is entered or skipped for one reason, every position has one exit reason, and
      when modes are tagged the per-mode buckets add up to the totals in every column. */
  lemma PreflightBalances(setup: Setup, trades: seq<Trade>)
    ensures Balanced(Preflight(setup, trades), |Filter(trades, Candidate)|, AnyMode(trades))
  {
    VerdictsBalance(setup, trades, trades, AnyMode(trades), AnyTier(trades));
  }
}
