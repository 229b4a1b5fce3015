/** The threshold sweep of integration/ev_sweep.py and its relation to the preflight it copies. */
module EvSweep {
  import opened Collections
  import opened SimPreflight
  import opened TradeOrder

  // ---- The copied exit scan works on raw trades and skips those without a price ----

  /** The mint's trades in time order, priced or not. */
  function MintTrades(trades: seq<Trade>, mint: string): seq<Trade> {
    Sort(Filter(trades, OnMint(mint)), TradeByTs)
  }

  function RawScan(entry: Price, entryTs: real, cfg: ModeCfg, trades: seq<Trade>, last: Price): Exit {
    if trades == [] then Exit(last, TIME)
    else
      var t, rest := trades[0], trades[1..];
      if t.ts <= entryTs then RawScan(entry, entryTs, cfg, rest, last)
      else if t.ts > entryTs + cfg.holdSecMax as real then Exit(last, TIME)
      else if t.price == None then RawScan(entry, entryTs, cfg, rest, last)
      else if HitsTp(entry, cfg, t.price.value) then Exit(t.price.value, TP)
      else if HitsSl(entry, cfg, t.price.value) then Exit(t.price.value, SL)
      else RawScan(entry, entryTs, cfg, rest, t.price.value)
  }

  method SweepExit(entry: Price, entryTs: real, trades: seq<Trade>, cfg: ModeCfg) returns (x: Exit)
    ensures x == RawScan(entry, entryTs, cfg, trades, entry)
  {
    var windowEnd := entryTs + cfg.holdSecMax as real;
    var lastPrice := entry;
    var sawTick := false;
    for i := 0 to |trades|
      invariant RawScan(entry, entryTs, cfg, trades[i..], lastPrice) == RawScan(entry, entryTs, cfg, trades, entry)
      invariant !sawTick ==> lastPrice == entry
    {
      var t := trades[i];
      assert trades[i..][1..] == trades[i + 1..];
      if t.ts <= entryTs {
        continue;
      }
      if t.ts > windowEnd {
        break;
      }
      if t.price == None {
        continue;
      }
      sawTick := true;
      lastPrice := t.price.value;
      if HitsTp(entry, cfg, t.price.value) {
        return Exit(t.price.value, TP);
      }
      if HitsSl(entry, cfg, t.price.value) {
        return Exit(t.price.value, SL);
      }
    }
    x := if !sawTick then Exit(entry, TIME) else Exit(lastPrice, TIME);
  }

  lemma {:induction false} LateTicksIgnored(entry: Price, entryTs: real, cfg: ModeCfg, trades: seq<Trade>, last: Price)
    requires forall t | t in trades :: t.ts > entryTs && t.ts > entryTs + cfg.holdSecMax as real
    ensures Scan(entry, entryTs, cfg, Prices(trades), last) == Exit(last, TIME)
  {
    if trades != [] && !IsTick(trades[0]) {
      LateTicksIgnored(entry, entryTs, cfg, trades[1..], last);
    }
  }

  lemma {:induction false} RawScanIsScan(entry: Price, entryTs: real, cfg: ModeCfg, trades: seq<Trade>, last: Price)
    requires Sorted(trades, TradeByTs) && forall t | t in trades :: t.mint != ""
    ensures RawScan(entry, entryTs, cfg, trades, last) == Scan(entry, entryTs, cfg, Prices(trades), last)
  {
    if trades != [] {
      var t, rest := trades[0], trades[1..];
      assert t in trades;
      if t.ts > entryTs && t.ts > entryTs + cfg.holdSecMax as real {
        forall u | u in trades
          ensures u.ts > entryTs && u.ts > entryTs + cfg.holdSecMax as real
        {
          var i :| 0 <= i < |trades| && trades[i] == u;
          assert i == 0 || TradeByTs(t, trades[i]);
        }
        LateTicksIgnored(entry, entryTs, cfg, trades, last);
      } else {
        RawScanIsScan(entry, entryTs, cfg, rest, last);
        if t.price.Some? {
          RawScanIsScan(entry, entryTs, cfg, rest, t.price.value);
          assert Prices(trades)[1..] == Prices(rest);
        }
      }
    }
  }

  /** The two copies of the exit simulation agree on every trade. */
  lemma SweepExitIsPreflightExit(trades: seq<Trade>, mint: string, entry: Price, entryTs: real, cfg: ModeCfg)
    requires mint != ""
    ensures RawScan(entry, entryTs, cfg, MintTrades(trades, mint), entry)
            == Scan(entry, entryTs, cfg, TicksFor(trades, mint), entry)
  {
    var mine := Filter(trades, OnMint(mint));
    FilterMembers(trades, OnMint(mint));
    SortCorrect(mine, TradeByTs);
    PricesSort(mine);
    PricesOfMint(trades, mint);
    RawScanIsScan(entry, entryTs, cfg, MintTrades(trades, mint), entry);
  }

  // ---- The sweep ----

  /** The sweep's gate: a threshold of zero or less switches the edge test off. */
  function SweepDecide(setup: Setup, threshold: int, t: Trade): Gate {
    if !Candidate(t) then NoEntry
    else if t.mint !in setup.snapshots then MissingSnapshot
    else if t.wallet !in setup.profiles then MissingProfile
    else
      var edge := EdgeOf(setup, t);
      if threshold > 0 && (edge < 0 || edge < threshold) then BelowThreshold else Enter
  }

  function SweepJudge(setup: Setup, threshold: int, t: Trade, ticks: seq<Tick>): Verdict {
    match SweepDecide(setup, threshold, t)
    case NoEntry => Ignored
    case MissingSnapshot => NoSnapshot
    case MissingProfile => NoProfile
    case BelowThreshold => NoEdge
    case Enter => Entered(Settle(t, t.price.value, ExitOf(setup, t, t.price.value, ticks)))
  }

  function SweepVerdicts(setup: Setup, threshold: int, all: seq<Trade>, trades: seq<Trade>): seq<Verdict> {
    if trades == [] then []
    else
      var t := trades[|trades| - 1];
      SweepVerdicts(setup, threshold, all, trades[..|trades| - 1]) + [SweepJudge(setup, threshold, t, TicksFor(all, t.mint))]
  }

  /** The counters of one sweep row; a sweep has no groupings. */
  function SweepRow(setup: Setup, threshold: int, trades: seq<Trade>): Tally {
    TallyOf(SweepVerdicts(setup, threshold, trades, trades), false, false)
  }

  /** The reported row at a threshold. */
  predicate IsRow(r: Report, setup: Setup, threshold: int, trades: seq<Trade>) {
    r == ReportOf(SweepRow(setup, threshold, trades))
  }

  method SweepTrade(setup: Setup, threshold: int, trades: seq<Trade>, t: Trade) returns (v: Verdict)
    ensures v == SweepJudge(setup, threshold, t, TicksFor(trades, t.mint))
  {
    match SweepDecide(setup, threshold, t) {
      case NoEntry => v := Ignored;
      case MissingSnapshot => v := NoSnapshot;
      case MissingProfile => v := NoProfile;
      case BelowThreshold => v := NoEdge;
      case Enter =>
        var cfg := GetMode(setup, ModeName(t));
        var x := SweepExit(t.price.value, t.ts, MintTrades(trades, t.mint), cfg);
        SweepExitIsPreflightExit(trades, t.mint, t.price.value, t.ts, cfg);
        v := Entered(Settle(t, t.price.value, x));
    }
  }

  method RunEvSweep(setup: Setup, thresholds: seq<int>, trades: seq<Trade>) returns (rows: seq<Report>)
    ensures AreRows(rows, setup, thresholds, trades)
  {
    rows := [];
    for k := 0 to |thresholds|
      invariant AreRows(rows, setup, thresholds[..k], trades)
    {
      var row := RunThreshold(setup, thresholds[k], trades);
      AreRowsSnoc(rows, setup, thresholds[..k], trades, row, thresholds[k]);
      rows := rows + [row];
      assert thresholds[..k + 1] == thresholds[..k] + [thresholds[k]];
    }
    assert thresholds[..|thresholds|] == thresholds;
  }

  ghost predicate AreRows(rows: seq<Report>, setup: Setup, thresholds: seq<int>, trades: seq<Trade>) {
    |rows| == |thresholds| && forall k | 0 <= k < |rows| :: IsRow(rows[k], setup, thresholds[k], trades)
  }

  lemma AreRowsSnoc(rows: seq<Report>, setup: Setup, thresholds: seq<int>, trades: seq<Trade>, row: Report, threshold: int)
    requires AreRows(rows, setup, thresholds, trades) && IsRow(row, setup, threshold, trades)
    ensures AreRows(rows + [row], setup, thresholds + [threshold], trades)
  {
  }

  method RunThreshold(setup: Setup, threshold: int, trades: seq<Trade>) returns (r: Report)
    ensures IsRow(r, setup, threshold, trades)
  {
    var row := EMPTY_TALLY;
    for i := 0 to |trades|
      invariant row == TallyOf(SweepVerdicts(setup, threshold, trades, trades[..i]), false, false)
    {
      var v := SweepTrade(setup, threshold, trades, trades[i]);
      assert trades[..i + 1][..i] == trades[..i];
      ghost var before := SweepVerdicts(setup, threshold, trades, trades[..i]);
      assert (before + [v])[..|before|] == before;
      row := Account(row, v, false, false);
    }
    assert trades[..|trades|] == trades;
    r := ReportOf(row);
  }

  // ---- What a higher threshold changes ----

  /** Raising the threshold only removes entries, trade by trade. */
  lemma HigherThresholdEntersFewer(setup: Setup, low: int, high: int, t: Trade)
    requires low <= high && SweepDecide(setup, high, t) == Enter
    ensures SweepDecide(setup, low, t) == Enter
  {
  }

  predicate RowShrinks(low: Tally, high: Tally) {
    && high.entered <= low.entered
    && high.missingSnapshot == low.missingSnapshot
    && high.missingProfile == low.missingProfile
    && high.entered + high.belowThreshold == low.entered + low.belowThreshold
    && high.total.tp <= low.total.tp && high.total.sl <= low.total.sl && high.total.time <= low.total.time
  }

  lemma ShrinkStep(low: Tally, high: Tally, a: Verdict, b: Verdict)
    requires RowShrinks(low, high)
    requires b == a || (a.Entered? && b == NoEdge)
    ensures RowShrinks(Account(low, a, false, false), Account(high, b, false, false))
  {
  }

  lemma JudgeShrinks(setup: Setup, low: int, high: int, t: Trade, ticks: seq<Tick>)
    requires low <= high
    ensures var a, b := SweepJudge(setup, low, t, ticks), SweepJudge(setup, high, t, ticks);
            b == a || (a.Entered? && b == NoEdge)
  {
  }

  lemma {:induction false} VerdictsShrink(setup: Setup, low: int, high: int, all: seq<Trade>, trades: seq<Trade>)
    requires low <= high
    ensures RowShrinks(TallyOf(SweepVerdicts(setup, low, all, trades), false, false),
                       TallyOf(SweepVerdicts(setup, high, all, trades), false, false))
  {
    if trades != [] {
      var init, t := trades[..|trades| - 1], trades[|trades| - 1];
      var ticks := TicksFor(all, t.mint);
      VerdictsShrink(setup, low, high, all, init);
      JudgeShrinks(setup, low, high, t, ticks);
      var xs, ys := SweepVerdicts(setup, low, all, init), SweepVerdicts(setup, high, all, init);
      var a, b := SweepJudge(setup, low, t, ticks), SweepJudge(setup, high, t, ticks);
      assert (xs + [a])[..|xs|] == xs && (ys + [b])[..|ys|] == ys;
      ShrinkStep(TallyOf(xs, false, false), TallyOf(ys, false, false), a, b);
    }
  }

  /** Across the rows of a sweep, entries and every exit count fall with the threshold, what is no
      longer entered is counted as below the threshold, and the other skips stay put. */
  lemma SweepShrinks(setup: Setup, low: int, high: int, trades: seq<Trade>)
    requires low <= high
    ensures RowShrinks(SweepRow(setup, low, trades), SweepRow(setup, high, trades))
  {
    VerdictsShrink(setup, low, high, trades, trades);
  }

  lemma {:induction false} SweepVerdictsBalance(setup: Setup, threshold: int, all: seq<Trade>, trades: seq<Trade>)
    ensures Balanced(TallyOf(SweepVerdicts(setup, threshold, all, trades), false, false), |Filter(trades, Candidate)|, false)
  {
    if trades != [] {
      var init, t := trades[..|trades| - 1], trades[|trades| - 1];
      SweepVerdictsBalance(setup, threshold, all, init);
      FilterConcat(init, [t], Candidate);
      assert trades == init + [t];
      var vs, v := SweepVerdicts(setup, threshold, all, init), SweepJudge(setup, threshold, t, TicksFor(all, t.mint));
      assert (vs + [v])[..|vs|] == vs;
      AccountKeepsBalance(TallyOf(vs, false, false), |Filter(init, Candidate)|, v, false, false);
    }
  }

  /** Candidates are entered or skipped in every row. */
  lemma SweepRowBalances(setup: Setup, threshold: int, trades: seq<Trade>)
    ensures Balanced(SweepRow(setup, threshold, trades), |Filter(trades, Candidate)|, false)
  {
    SweepVerdictsBalance(setup, threshold, trades, trades);
  }

  // ---- When a sweep row is a preflight ----

  /** A known candidate whose edge the preflight would reject at this threshold. */
  predicate Rejected(setup: Setup, threshold: int, t: Trade) {
    && Candidate(t) && t.mint in setup.snapshots && t.wallet in setup.profiles
    && EdgeOf(setup, t) < threshold
  }

  lemma {:induction false} SameVerdicts(setup: Setup, threshold: int, all: seq<Trade>, trades: seq<Trade>)
    requires threshold > 0 || forall t | t in trades :: !Rejected(setup, threshold, t)
    ensures SweepVerdicts(setup, threshold, all, trades) == Verdicts(setup.(minEdgeBps := threshold), all, trades)
  {
    if trades != [] {
      SameVerdicts(setup, threshold, all, trades[..|trades| - 1]);
      var t := trades[|trades| - 1];
      assert t in trades;
      assert SweepDecide(setup, threshold, t) == Decide(setup.(minEdgeBps := threshold), t);
    }
  }

  function Ungrouped(y: Tally): Tally {
    y.(byMode := map[], byTier := map[])
  }

  lemma AccountAside(y: Tally, z: Tally, v: Verdict, anyMode: bool, anyTier: bool)
    requires Ungrouped(y) == z && z.byMode == map[] && z.byTier == map[]
    ensures Ungrouped(Account(y, v, anyMode, anyTier)) == Account(z, v, false, false)
  {
  }

  lemma {:induction false} GroupsAside(vs: seq<Verdict>, anyMode: bool, anyTier: bool)
    ensures Ungrouped(TallyOf(vs, anyMode, anyTier)) == TallyOf(vs, false, false)
  {
    if vs != [] {
      var init, v := vs[..|vs| - 1], vs[|vs| - 1];
      GroupsAside(init, anyMode, anyTier);
      AccountAside(TallyOf(init, anyMode, anyTier), TallyOf(init, false, false), v, anyMode, anyTier);
    }
  }

  lemma {:induction false} NoEdgeIsCounted(vs: seq<Verdict>, i: int)
    ensures TallyOf(vs, false, false).belowThreshold >= 0
    ensures 0 <= i < |vs| && vs[i] == NoEdge ==> TallyOf(vs, false, false).belowThreshold >= 1
  {
    if vs != [] {
      NoEdgeIsCounted(vs[..|vs| - 1], i);
    }
  }

  lemma {:induction false} NothingToCount(vs: seq<Verdict>)
    requires NoEdge !in vs
    ensures TallyOf(vs, false, false).belowThreshold == 0
  {
    if vs != [] {
      NothingToCount(vs[..|vs| - 1]);
    }
  }

  lemma {:induction false} LowThresholdRejectsNone(setup: Setup, threshold: int, all: seq<Trade>, trades: seq<Trade>)
    requires threshold <= 0
    ensures NoEdge !in SweepVerdicts(setup, threshold, all, trades)
  {
    if trades != [] {
      LowThresholdRejectsNone(setup, threshold, all, trades[..|trades| - 1]);
    }
  }

  lemma JudgeRejected(setup: Setup, t: Trade, ticks: seq<Tick>)
    requires Rejected(setup, setup.minEdgeBps, t)
    ensures Judge(setup, t, ticks) == NoEdge
  {
  }

  lemma {:induction false} RejectedVerdict(setup: Setup, all: seq<Trade>, trades: seq<Trade>, i: nat)
    requires i < |trades| && Rejected(setup, setup.minEdgeBps, trades[i])
    ensures |Verdicts(setup, all, trades)| == |trades| && Verdicts(setup, all, trades)[i] == NoEdge
  {
    var init, t := trades[..|trades| - 1], trades[|trades| - 1];
    VerdictsLength(setup, all, init);
    if i < |init| {
      assert init[i] == trades[i];
      RejectedVerdict(setup, all, init, i);
    } else {
      JudgeRejected(setup, t, TicksFor(all, t.mint));
    }
  }

  lemma {:induction false} VerdictsLength(setup: Setup, all: seq<Trade>, trades: seq<Trade>)
    ensures |Verdicts(setup, all, trades)| == |trades|
  {
    if trades != [] {
      VerdictsLength(setup, all, trades[..|trades| - 1]);
    }
  }

  /** A sweep row equals a preflight with that minimum edge if and only if the threshold is positive
      or no known candidate has an edge below it: at zero and below the sweep never tests the edge. */
  lemma SweepRowIsPreflight(setup: Setup, threshold: int, trades: seq<Trade>)
    ensures SweepRow(setup, threshold, trades)
              == Preflight(setup.(minEdgeBps := threshold), trades).(byMode := map[], byTier := map[])
            <==> threshold > 0 || forall t | t in trades :: !Rejected(setup, threshold, t)
  {
    var setup' := setup.(minEdgeBps := threshold);
    GroupsAside(Verdicts(setup', trades, trades), AnyMode(trades), AnyTier(trades));
    if threshold > 0 || forall t | t in trades :: !Rejected(setup, threshold, t) {
      SameVerdicts(setup, threshold, trades, trades);
    } else {
      var t :| t in trades && Rejected(setup, threshold, t);
      var i :| 0 <= i < |trades| && trades[i] == t;
      assert Rejected(setup', threshold, t);
      RejectedVerdict(setup', trades, trades, i);
      NoEdgeIsCounted(Verdicts(setup', trades, trades), i);
      LowThresholdRejectsNone(setup, threshold, trades, trades);
      NothingToCount(SweepVerdicts(setup, threshold, trades, trades));
    }
  }

  /** A wallet that always loses, on a mint without a known spread. */
  function LosingSetup(mint: string, wallet: string): Setup {
    Setup(0, map["U" := ModeCfg(0.1, -0.1, 60)], ProgramEdge(), map[mint := Snapshot(None)], map[wallet := Profile(Some(0.0))])
  }

  function LosingBuy(mint: string, wallet: string): Trade {
    Trade(true, mint, wallet, 0.0, Some(1.0), NoTag, NoTag, None)
  }

  lemma LoserRejected(mint: string, wallet: string)
    requires mint != "" && wallet != ""
    ensures Rejected(LosingSetup(mint, wallet), 0, LosingBuy(mint, wallet))
  {
    var setup, t := LosingSetup(mint, wallet), LosingBuy(mint, wallet);
    var cfg := GetMode(setup, ModeName(t));
    assert cfg == ModeCfg(0.1, -0.1, 60);
    assert Margin(0.0, cfg) == -0.1;
    ProgramFollowsMargin(0);
    EntryByMargin(setup, t);
    assert !Clears(Snapshot(None), Profile(Some(0.0)), cfg, 0);
  }

  lemma SingleRows(setup: Setup, t: Trade)
    requires setup.minEdgeBps == 0 && Rejected(setup, 0, t)
    ensures SweepRow(setup, 0, [t]).entered == 1 && Preflight(setup, [t]).entered == 0
  {
    SingleVerdicts(setup, t);
    SingleTally(NoEdge, AnyMode([t]), AnyTier([t]));
    SingleTally(SweepJudge(setup, 0, t, TicksFor([t], t.mint)), false, false);
  }

  lemma SingleVerdicts(setup: Setup, t: Trade)
    requires setup.minEdgeBps == 0 && Rejected(setup, 0, t)
    ensures Verdicts(setup, [t], [t]) == [NoEdge]
    ensures var w := SweepJudge(setup, 0, t, TicksFor([t], t.mint));
            w.Entered? && SweepVerdicts(setup, 0, [t], [t]) == [w]
  {
    assert [t][..0] == [];
    assert Judge(setup, t, TicksFor([t], t.mint)) == NoEdge;
    assert SweepVerdicts(setup, 0, [t], []) == [];
  }

  lemma SingleTally(v: Verdict, anyMode: bool, anyTier: bool)
    ensures TallyOf([v], anyMode, anyTier) == Account(EMPTY_TALLY, v, anyMode, anyTier)
  {
    assert [v][..0] == [];
  }

  lemma {:induction false} SweepAsIf(setup: Setup, threshold: int, edge: int, all: seq<Trade>, trades: seq<Trade>)
    requires threshold <= 0 && forall t | t in trades :: !Rejected(setup, edge, t)
    ensures SweepVerdicts(setup, threshold, all, trades) == Verdicts(setup.(minEdgeBps := edge), all, trades)
  {
    if trades != [] {
      var t := trades[|trades| - 1];
      SweepAsIf(setup, threshold, edge, all, trades[..|trades| - 1]);
      assert t in trades;
      JudgeAsIf(setup, threshold, edge, t, TicksFor(all, t.mint));
    }
  }

  lemma JudgeAsIf(setup: Setup, threshold: int, edge: int, t: Trade, ticks: seq<Tick>)
    requires threshold <= 0 && !Rejected(setup, edge, t)
    ensures SweepJudge(setup, threshold, t, ticks) == Judge(setup.(minEdgeBps := edge), t, ticks)
  {
    assert Decide(setup.(minEdgeBps := edge), t) == SweepDecide(setup, threshold, t);
  }

  /** At a threshold of zero or less a row equals the preflight with any minimum edge that no known
      candidate's edge is below. */
  lemma SweepAtZeroTakesAll(setup: Setup, threshold: int, edge: int, trades: seq<Trade>)
    requires threshold <= 0 && forall t | t in trades :: !Rejected(setup, edge, t)
    ensures SweepRow(setup, threshold, trades)
            == Preflight(setup.(minEdgeBps := edge), trades).(byMode := map[], byTier := map[])
  {
    SweepAsIf(setup, threshold, edge, trades, trades);
    GroupsAside(Verdicts(setup.(minEdgeBps := edge), trades, trades), AnyMode(trades), AnyTier(trades));
  }

  /** Such an input: one buy by such a wallet. At threshold zero the sweep enters it, the preflight
      does not. */
  lemma SweepEntersALoser(mint: string, wallet: string)
    requires mint != "" && wallet != ""
    ensures var setup, trades := LosingSetup(mint, wallet), [LosingBuy(mint, wallet)];
            SweepRow(setup, 0, trades).entered == 1 && Preflight(setup, trades).entered == 0
  {
    LoserRejected(mint, wallet);
    SingleRows(LosingSetup(mint, wallet), LosingBuy(mint, wallet));
  }
}
