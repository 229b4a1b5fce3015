/** Walk-forward windows over the backtest (integration/walk_forward.py). */
module WalkForward {
  import opened Collections
  import opened SimPreflight
  import opened Numbers
  import opened TradeOrder

  datatype Window = Window(start: real, end: real)

  const SECONDS_PER_DAY := 86400

  predicate In(w: Window, ts: real) {
    w.start <= ts < w.end
  }

  // ---- Generating the windows ----

  /** Windows of length `size`, one every `step`, from `minTs` until the start passes `maxTs`. */
  ghost predicate Windowing(ws: seq<Window>, minTs: real, maxTs: real, size: real, step: real) {
    && (ws == [] <==> minTs > maxTs)
    && (ws != [] ==> ws[0].start == minTs && ws[|ws| - 1].start <= maxTs < ws[|ws| - 1].start + step)
    && (forall k | 0 <= k < |ws| :: ws[k].end == ws[k].start + size)
    && (forall j, k | 0 <= j < |ws| && k == j + 1 < |ws| :: ws[k].start == ws[j].start + step)
  }

  method GenerateWindows(minTs: real, maxTs: real, windowDays: int, stepDays: int) returns (ws: seq<Window>)
    requires windowDays > 0 && stepDays > 0
    ensures Windowing(ws, minTs, maxTs, (windowDays * 86400) as real, (stepDays * 86400) as real)
  {
    var windowSec := (windowDays * SECONDS_PER_DAY) as real;
    var stepSec := (stepDays * SECONDS_PER_DAY) as real;
    ws := [];
    var currentStart := minTs;
    while currentStart <= maxTs
      invariant currentStart == if ws == [] then minTs else ws[|ws| - 1].start + stepSec
      invariant ws != [] ==> minTs <= maxTs && ws[0].start == minTs && ws[|ws| - 1].start <= maxTs
      invariant forall k | 0 <= k < |ws| :: ws[k].end == ws[k].start + windowSec
      invariant forall j, k | 0 <= j < |ws| && k == j + 1 < |ws| :: ws[k].start == ws[j].start + stepSec
      decreases maxTs - currentStart
    {
      ws := ws + [Window(currentStart, currentStart + windowSec)];
      currentStart := currentStart + stepSec;
    }
  }

  // ---- Which timestamps the windows cover ----

  lemma {:induction false} StartsGrow(ws: seq<Window>, minTs: real, maxTs: real, size: real, step: real, j: int, k: int)
    requires Windowing(ws, minTs, maxTs, size, step) && step > 0.0
    requires 0 <= j < k < |ws|
    ensures ws[j].start + step <= ws[k].start
    decreases k
  {
    if k > j + 1 {
      StartsGrow(ws, minTs, maxTs, size, step, j, k - 1);
    }
    assert ws[k].start == ws[k - 1].start + step;
  }

  ghost predicate CoveredOnce(ws: seq<Window>, ts: real) {
    && (exists k :: 0 <= k < |ws| && In(ws[k], ts))
    && (forall j, k | 0 <= j < |ws| && 0 <= k < |ws| && In(ws[j], ts) && In(ws[k], ts) :: j == k)
  }

  lemma {:induction false} TilesCover(ws: seq<Window>, minTs: real, maxTs: real, step: real, ts: real, n: int) returns (k: int)
    requires Windowing(ws, minTs, maxTs, step, step) && step > 0.0
    requires 0 < n <= |ws| && minTs <= ts < ws[n - 1].end
    ensures 0 <= k < |ws| && In(ws[k], ts)
    decreases n
  {
    if ws[n - 1].start <= ts {
      k := n - 1;
    } else {
      assert n > 1 && ws[n - 1].start == ws[n - 2].start + step;
      k := TilesCover(ws, minTs, maxTs, step, ts, n - 1);
    }
  }

  /** Every instant of the data lies in exactly one window if and only if the step equals the window
      size, or there is a single window and it reaches past the data. */
  lemma CoverageIsExact(ws: seq<Window>, minTs: real, maxTs: real, size: real, step: real)
    requires minTs <= maxTs && size > 0.0 && step > 0.0
    requires Windowing(ws, minTs, maxTs, size, step)
    ensures (forall ts | minTs <= ts <= maxTs :: CoveredOnce(ws, ts))
            <==> step == size || (maxTs < minTs + step && maxTs < minTs + size)
  {
    if step == size {
      forall ts | minTs <= ts <= maxTs
        ensures CoveredOnce(ws, ts)
      {
        var k := TilesCover(ws, minTs, maxTs, step, ts, |ws|);
        ApartWindows(ws, minTs, maxTs, size, step, ts);
      }
    } else if maxTs < minTs + step {
      SingleWindow(ws, minTs, maxTs, size, step);
      assert CoveredOnce(ws, maxTs) <==> maxTs < minTs + size;
      assert maxTs < minTs + size ==> forall ts | minTs <= ts <= maxTs :: In(ws[0], ts);
    } else {
      MisfitWindows(ws, minTs, maxTs, size, step);
    }
  }

  lemma ApartWindows(ws: seq<Window>, minTs: real, maxTs: real, size: real, step: real, ts: real)
    requires step > 0.0 && size <= step && Windowing(ws, minTs, maxTs, size, step)
    ensures forall j, k | 0 <= j < |ws| && 0 <= k < |ws| && In(ws[j], ts) && In(ws[k], ts) :: j == k
  {
    forall j, k | 0 <= j < k < |ws|
      ensures !(In(ws[j], ts) && In(ws[k], ts))
    {
      StartsGrow(ws, minTs, maxTs, size, step, j, k);
    }
  }

  lemma SingleWindow(ws: seq<Window>, minTs: real, maxTs: real, size: real, step: real)
    requires step > 0.0 && minTs <= maxTs < minTs + step && Windowing(ws, minTs, maxTs, size, step)
    ensures |ws| == 1
  {
    if |ws| > 1 {
      StartsGrow(ws, minTs, maxTs, size, step, 0, |ws| - 1);
    }
  }

  lemma MisfitWindows(ws: seq<Window>, minTs: real, maxTs: real, size: real, step: real)
    requires step > 0.0 && size > 0.0 && step != size && minTs + step <= maxTs
    requires Windowing(ws, minTs, maxTs, size, step)
    ensures exists ts :: minTs <= ts <= maxTs && !CoveredOnce(ws, ts)
  {
    assert |ws| > 1 && ws[1].start == ws[0].start + step;
    if step < size {
      var ts := minTs + step;
      assert In(ws[0], ts) && In(ws[1], ts);
      assert !CoveredOnce(ws, ts);
    } else {
      var ts := minTs + size;
      forall k | 0 <= k < |ws|
        ensures !In(ws[k], ts)
      {
        if k > 0 {
          StartsGrow(ws, minTs, maxTs, size, step, 0, k);
        }
      }
      assert !CoveredOnce(ws, ts);
    }
  }

  // ---- Slicing the trades ----

  function InWindow(w: Window): Trade -> bool {
    (t: Trade) => In(w, t.ts)
  }

  function Slice(trades: seq<Trade>, w: Window): seq<Trade> {
    Filter(trades, InWindow(w))
  }

  /** The slices of consecutive windows, laid end to end. */
  function Slices(trades: seq<Trade>, ws: seq<Window>): seq<Trade> {
    if ws == [] then [] else Slices(trades, ws[..|ws| - 1]) + Slice(trades, ws[|ws| - 1])
  }

  lemma {:induction false} SplitByTime(trades: seq<Trade>, a: real, b: real, c: real)
    requires Sorted(trades, TradeByTs) && a <= b <= c
    ensures Slice(trades, Window(a, b)) + Slice(trades, Window(b, c)) == Slice(trades, Window(a, c))
  {
    if trades != [] {
      var t, rest := trades[0], trades[1..];
      SplitByTime(rest, a, b, c);
      if t.ts >= b {
        assert forall u | u in rest :: !InWindow(Window(a, b))(u) by {
          forall u | u in rest
            ensures u.ts >= b
          {
            var i :| 0 <= i < |rest| && rest[i] == u;
            assert TradeByTs(trades[0], trades[i + 1]);
          }
        }
        FilterNone(rest, InWindow(Window(a, b)));
      }
    }
  }

  lemma {:induction false} SlicesTile(trades: seq<Trade>, ws: seq<Window>, minTs: real, maxTs: real, step: real, n: int)
    requires Sorted(trades, TradeByTs) && step > 0.0
    requires Windowing(ws, minTs, maxTs, step, step) && 0 < n <= |ws|
    ensures ws[n - 1].end >= minTs
    ensures Slices(trades, ws[..n]) == Slice(trades, Window(minTs, ws[n - 1].end))
    decreases n
  {
    assert ws[..n][..n - 1] == ws[..n - 1];
    if n > 1 {
      SlicesTile(trades, ws, minTs, maxTs, step, n - 1);
      assert ws[n - 1].start == ws[n - 2].start + step;
      SplitByTime(trades, minTs, ws[n - 2].end, ws[n - 1].end);
      assert ws[n - 1] == Window(ws[n - 2].end, ws[n - 1].end);
    } else {
      assert ws[0] == Window(minTs, ws[0].end);
      assert Slices(trades, ws[..0]) == [];
    }
  }

  /** With the step equal to the window size, the slices laid end to end are the sorted trades:
      nothing is lost, duplicated or reordered. */
  lemma {:induction false} WindowsLoseNothing(trades: seq<Trade>, ws: seq<Window>, minTs: real, maxTs: real, step: real)
    requires Sorted(trades, TradeByTs) && trades != [] && step > 0.0
    requires minTs == trades[0].ts && maxTs == trades[|trades| - 1].ts
    requires Windowing(ws, minTs, maxTs, step, step)
    ensures Slices(trades, ws) == trades
  {
    SlicesTile(trades, ws, minTs, maxTs, step, |ws|);
    assert ws[..|ws|] == ws;
    forall t | t in trades
      ensures InWindow(Window(minTs, ws[|ws| - 1].end))(t)
    {
      var i :| 0 <= i < |trades| && trades[i] == t;
      assert i == 0 || TradeByTs(trades[0], trades[i]);
      assert i == |trades| - 1 || TradeByTs(trades[i], trades[|trades| - 1]);
    }
    FilterAll(trades, InWindow(Window(minTs, ws[|ws| - 1].end)));
  }

  // ---- Truncating the ticks can only alter TIME exits ----

  function TickIn(w: Window): Tick -> bool {
    (t: Tick) => In(w, t.ts)
  }

  lemma {:induction false} RawTicksOfSlice(trades: seq<Trade>, w: Window, mint: string)
    ensures RawTicks(Slice(trades, w), mint) == Filter(RawTicks(trades, mint), TickIn(w))
  {
    if trades != [] {
      var init, t := trades[..|trades| - 1], trades[|trades| - 1];
      RawTicksOfSlice(init, w, mint);
      assert trades == init + [t];
      FilterConcat(init, [t], InWindow(w));
      var added := if t.mint == mint then TickOf(t) else [];
      FilterConcat(RawTicks(init, mint), added, TickIn(w));
      if In(w, t.ts) {
        FilterAll(added, TickIn(w));
        assert (Slice(init, w) + [t])[..|Slice(init, w)|] == Slice(init, w);
      } else {
        FilterNone(added, TickIn(w));
        assert Slice(trades, w) == Slice(init, w);
      }
    }
  }

  /** The ticks a window run sees are the full run's ticks that fall in the window, in the same order. */
  lemma TicksOfSlice(trades: seq<Trade>, w: Window, mint: string)
    ensures TicksFor(Slice(trades, w), mint) == Filter(TicksFor(trades, mint), TickIn(w))
    ensures Sorted(TicksFor(trades, mint), ByTs)
  {
    RawTicksOfSlice(trades, w, mint);
    FilterSort(RawTicks(trades, mint), ByTs, TickIn(w));
    SortCorrect(RawTicks(trades, mint), ByTs);
  }

  lemma {:induction false} ScanTruncated(entry: Price, entryTs: real, cfg: ModeCfg, ticks: seq<Tick>, last: Price, w: Window)
    requires Sorted(ticks, ByTs) && In(w, entryTs)
    ensures var x := Scan(entry, entryTs, cfg, Filter(ticks, TickIn(w)), last);
            x.reason != TIME ==> x == Scan(entry, entryTs, cfg, ticks, last)
  {
    if ticks != [] {
      var t, rest := ticks[0], ticks[1..];
      if t.ts >= w.end {
        forall u | u in rest
          ensures !TickIn(w)(u)
        {
          var i :| 0 <= i < |rest| && rest[i] == u;
          assert ByTs(ticks[0], ticks[i + 1]);
        }
        FilterNone(rest, TickIn(w));
      } else {
        ScanTruncated(entry, entryTs, cfg, rest, last, w);
        ScanTruncated(entry, entryTs, cfg, rest, t.px, w);
      }
    }
  }

  /** The windowed verdict on a trade is the full run's, unless the window closed the trade on time. */
  predicate AgreesUnlessTime(windowed: Verdict, full: Verdict) {
    windowed == full || (windowed.Entered? && full.Entered? && windowed.position.reason == TIME)
  }

  lemma TruncationAltersOnlyTime(setup: Setup, trades: seq<Trade>, w: Window, t: Trade)
    requires In(w, t.ts)
    ensures AgreesUnlessTime(Judge(setup, t, TicksFor(Slice(trades, w), t.mint)), Judge(setup, t, TicksFor(trades, t.mint)))
  {
    TicksOfSlice(trades, w, t.mint);
    if Candidate(t) {
      ScanTruncated(t.price.value, t.ts, GetMode(setup, ModeName(t)), TicksFor(trades, t.mint), t.price.value, w);
    }
  }

  lemma {:induction false} ScanUntruncated(entry: Price, entryTs: real, cfg: ModeCfg, ticks: seq<Tick>, last: Price, w: Window)
    requires Sorted(ticks, ByTs) && In(w, entryTs) && entryTs + cfg.holdSecMax as real < w.end
    ensures Scan(entry, entryTs, cfg, Filter(ticks, TickIn(w)), last) == Scan(entry, entryTs, cfg, ticks, last)
  {
    if ticks != [] {
      var t, rest := ticks[0], ticks[1..];
      if t.ts >= w.end {
        forall u | u in rest
          ensures !TickIn(w)(u)
        {
          var i :| 0 <= i < |rest| && rest[i] == u;
          assert ByTs(ticks[0], ticks[i + 1]);
        }
        FilterNone(rest, TickIn(w));
      } else {
        ScanUntruncated(entry, entryTs, cfg, rest, last, w);
        ScanUntruncated(entry, entryTs, cfg, rest, t.px, w);
      }
    }
  }

  /** A priced trade of the mint at twice the entry, the moment the window ends. */
  function JustOutside(t: Trade, entry: Price, w: Window): Trade {
    t.(ts := w.end, price := Some(Doubled(entry)))
  }

  function Doubled(px: Price): Price {
    2.0 * px
  }

  lemma DoubledPays(t: Trade, entry: Price, reason: Reason, reason': Reason)
    ensures Settle(t, entry, Exit(Doubled(entry), reason)).pnl > Settle(t, entry, Exit(entry, reason')).pnl
  {
    QuotientBound(2.0 * entry, entry, 2.0);
    QuotientBound(entry, entry, 1.0);
    assert Move(entry, Doubled(entry)) == 1.0 && Move(entry, entry) == 0.0;
  }

  lemma OutsideTickIsMissed(setup: Setup, w: Window, t: Trade)
    requires In(w, t.ts) && Decide(setup, t) == Enter
    requires w.end <= t.ts + GetMode(setup, ModeName(t)).holdSecMax as real
    ensures var trades := [JustOutside(t, t.price.value, w)];
            Judge(setup, t, TicksFor(Slice(trades, w), t.mint)) != Judge(setup, t, TicksFor(trades, t.mint))
  {
    var entry, cfg := t.price.value, GetMode(setup, ModeName(t));
    var outside := JustOutside(t, entry, w);
    var trades, tick := [outside], Tick(w.end, Doubled(entry));
    assert trades[..0] == [] && RawTicks(trades, t.mint) == [tick];
    assert TicksFor(trades, t.mint) == [tick];
    FilterNone(trades, InWindow(w));
    assert Slice(trades, w) == [];
    assert [tick][1..] == [] && Scan(entry, t.ts, cfg, [], tick.px) == Exit(tick.px, TIME);
    assert Held(t.ts, cfg, tick);
    var full := Scan(entry, t.ts, cfg, [tick], entry);
    assert full.price == Doubled(entry);
    DoubledPays(t, entry, full.reason, TIME);
  }

  /** Whatever the trades, the window leaves an entered trade its full run's exit if and only if its
      holding time ends before the window does. */
  lemma WindowHarmlessIffHeldInside(setup: Setup, w: Window, t: Trade)
    requires In(w, t.ts) && Decide(setup, t) == Enter
    ensures (forall trades :: Judge(setup, t, TicksFor(Slice(trades, w), t.mint)) == Judge(setup, t, TicksFor(trades, t.mint)))
            <==> t.ts + GetMode(setup, ModeName(t)).holdSecMax as real < w.end
  {
    var cfg := GetMode(setup, ModeName(t));
    if t.ts + cfg.holdSecMax as real < w.end {
      forall trades
        ensures Judge(setup, t, TicksFor(Slice(trades, w), t.mint)) == Judge(setup, t, TicksFor(trades, t.mint))
      {
        TicksOfSlice(trades, w, t.mint);
        ScanUntruncated(t.price.value, t.ts, cfg, TicksFor(trades, t.mint), t.price.value, w);
      }
    } else {
      OutsideTickIsMissed(setup, w, t);
    }
  }

  // ---- Summing the rows ----

  datatype Counts = Counts(entered: int, missingSnapshot: int, missingProfile: int, belowThreshold: int,
                           tp: int, sl: int, time: int)

  const NO_COUNTS := Counts(0, 0, 0, 0, 0, 0, 0)

  function AddCounts(a: Counts, b: Counts): Counts {
    Counts(a.entered + b.entered, a.missingSnapshot + b.missingSnapshot, a.missingProfile + b.missingProfile,
           a.belowThreshold + b.belowThreshold, a.tp + b.tp, a.sl + b.sl, a.time + b.time)
  }

  function CountsOf(y: Tally): Counts {
    Counts(y.entered, y.missingSnapshot, y.missingProfile, y.belowThreshold, y.total.tp, y.total.sl, y.total.time)
  }

  /** A row per window that holds a trade. */
  datatype Row = Row(start: real, report: Report)

  function RowsOf(setup: Setup, trades: seq<Trade>, ws: seq<Window>): seq<Row> {
    if ws == [] then []
    else
      var w := ws[|ws| - 1];
      RowsOf(setup, trades, ws[..|ws| - 1])
      + if Slice(trades, w) == [] then [] else [Row(w.start, ReportOf(Preflight(setup, Slice(trades, w))))]
  }

  function SumRows(rows: seq<Row>): Counts {
    if rows == [] then NO_COUNTS
    else AddCounts(SumRows(rows[..|rows| - 1]), CountsOf(rows[|rows| - 1].report.tally))
  }

  /** `windowed` counts what `full` counts; only exits may have moved, and only to TIME. */
  predicate Conserves(windowed: Counts, full: Counts) {
    && windowed.entered == full.entered
    && windowed.missingSnapshot == full.missingSnapshot
    && windowed.missingProfile == full.missingProfile
    && windowed.belowThreshold == full.belowThreshold
    && windowed.tp <= full.tp && windowed.sl <= full.sl
    && windowed.tp + windowed.sl + windowed.time == full.tp + full.sl + full.time
  }

  function CountVerdict(v: Verdict): Counts {
    CountsOf(Account(EMPTY_TALLY, v, false, false))
  }

  function CountVerdicts(vs: seq<Verdict>): Counts {
    if vs == [] then NO_COUNTS else AddCounts(CountVerdicts(vs[..|vs| - 1]), CountVerdict(vs[|vs| - 1]))
  }

  lemma AccountCounts(y: Tally, v: Verdict, anyMode: bool, anyTier: bool)
    ensures CountsOf(Account(y, v, anyMode, anyTier)) == AddCounts(CountsOf(y), CountVerdict(v))
  {
  }

  lemma {:induction false} TallyCounts(vs: seq<Verdict>, anyMode: bool, anyTier: bool)
    ensures CountsOf(TallyOf(vs, anyMode, anyTier)) == CountVerdicts(vs)
  {
    if vs != [] {
      TallyCounts(vs[..|vs| - 1], anyMode, anyTier);
      AccountCounts(TallyOf(vs[..|vs| - 1], anyMode, anyTier), vs[|vs| - 1], anyMode, anyTier);
    }
  }

  lemma {:induction false} CountConcat(xs: seq<Verdict>, ys: seq<Verdict>)
    ensures CountVerdicts(xs + ys) == AddCounts(CountVerdicts(xs), CountVerdicts(ys))
  {
    if ys == [] {
      assert xs + ys == xs;
    } else {
      assert (xs + ys)[..|xs + ys| - 1] == xs + ys[..|ys| - 1];
      CountConcat(xs, ys[..|ys| - 1]);
    }
  }

  lemma {:induction false} VerdictsConcat(setup: Setup, all: seq<Trade>, xs: seq<Trade>, ys: seq<Trade>)
    ensures Verdicts(setup, all, xs + ys) == Verdicts(setup, all, xs) + Verdicts(setup, all, ys)
  {
    if ys == [] {
      assert xs + ys == xs;
    } else {
      assert (xs + ys)[..|xs + ys| - 1] == xs + ys[..|ys| - 1];
      VerdictsConcat(setup, all, xs, ys[..|ys| - 1]);
    }
  }

  lemma AddConserves(a: Counts, b: Counts, a': Counts, b': Counts)
    requires Conserves(a, a') && Conserves(b, b')
    ensures Conserves(AddCounts(a, b), AddCounts(a', b'))
  {
  }

  lemma TradeConserves(setup: Setup, trades: seq<Trade>, w: Window, t: Trade)
    requires In(w, t.ts)
    ensures Conserves(CountVerdict(Judge(setup, t, TicksFor(Slice(trades, w), t.mint))),
                      CountVerdict(Judge(setup, t, TicksFor(trades, t.mint))))
  {
    TruncationAltersOnlyTime(setup, trades, w, t);
    VerdictConserves(Judge(setup, t, TicksFor(Slice(trades, w), t.mint)), Judge(setup, t, TicksFor(trades, t.mint)));
  }

  lemma VerdictConserves(windowed: Verdict, full: Verdict)
    requires AgreesUnlessTime(windowed, full)
    ensures Conserves(CountVerdict(windowed), CountVerdict(full))
  {
  }

  lemma LastVerdict(setup: Setup, all: seq<Trade>, part: seq<Trade>)
    requires part != []
    ensures var t := part[|part| - 1];
            CountVerdicts(Verdicts(setup, all, part))
            == AddCounts(CountVerdicts(Verdicts(setup, all, part[..|part| - 1])),
                         CountVerdict(Judge(setup, t, TicksFor(all, t.mint))))
  {
    var t := part[|part| - 1];
    var vs, v := Verdicts(setup, all, part[..|part| - 1]), Judge(setup, t, TicksFor(all, t.mint));
    assert (vs + [v])[..|vs|] == vs;
  }

  lemma {:induction false} SliceConserves(setup: Setup, trades: seq<Trade>, w: Window, part: seq<Trade>)
    requires forall t | t in part :: In(w, t.ts)
    ensures Conserves(CountVerdicts(Verdicts(setup, Slice(trades, w), part)),
                      CountVerdicts(Verdicts(setup, trades, part)))
  {
    if part != [] {
      var init, t, slice := part[..|part| - 1], part[|part| - 1], Slice(trades, w);
      SliceConserves(setup, trades, w, init);
      TradeConserves(setup, trades, w, t);
      LastVerdict(setup, slice, part);
      LastVerdict(setup, trades, part);
      AddConserves(CountVerdicts(Verdicts(setup, slice, init)), CountVerdict(Judge(setup, t, TicksFor(slice, t.mint))),
                   CountVerdicts(Verdicts(setup, trades, init)), CountVerdict(Judge(setup, t, TicksFor(trades, t.mint))));
    }
  }

  lemma RowCounts(setup: Setup, slice: seq<Trade>, rows: seq<Row>, start: real)
    ensures CountVerdicts(Verdicts(setup, slice, slice)) == CountsOf(Preflight(setup, slice))
    ensures SumRows(rows + [Row(start, ReportOf(Preflight(setup, slice)))])
            == AddCounts(SumRows(rows), CountsOf(Preflight(setup, slice)))
  {
    TallyCounts(Verdicts(setup, slice, slice), AnyMode(slice), AnyTier(slice));
    assert (rows + [Row(start, ReportOf(Preflight(setup, slice)))])[..|rows|] == rows;
  }

  lemma RowsStep(setup: Setup, trades: seq<Trade>, ws: seq<Window>)
    requires ws != []
    ensures var init, w := ws[..|ws| - 1], ws[|ws| - 1];
            && Slices(trades, ws) == Slices(trades, init) + Slice(trades, w)
            && SumRows(RowsOf(setup, trades, ws))
               == AddCounts(SumRows(RowsOf(setup, trades, init)), CountVerdicts(Verdicts(setup, Slice(trades, w), Slice(trades, w))))
  {
    var init, w := ws[..|ws| - 1], ws[|ws| - 1];
    RowCounts(setup, Slice(trades, w), RowsOf(setup, trades, init), w.start);
    assert Slice(trades, w) == [] ==> RowsOf(setup, trades, ws) == RowsOf(setup, trades, init);
  }

  lemma {:induction false} RowsConserve(setup: Setup, trades: seq<Trade>, ws: seq<Window>)
    ensures Conserves(SumRows(RowsOf(setup, trades, ws)), CountVerdicts(Verdicts(setup, trades, Slices(trades, ws))))
  {
    if ws != [] {
      var init, w := ws[..|ws| - 1], ws[|ws| - 1];
      var slice, before := Slice(trades, w), Slices(trades, init);
      RowsConserve(setup, trades, init);
      RowsStep(setup, trades, ws);
      VerdictsConcat(setup, trades, before, slice);
      CountConcat(Verdicts(setup, trades, before), Verdicts(setup, trades, slice));
      FilterMembers(trades, InWindow(w));
      SliceConserves(setup, trades, w, slice);
      AddConserves(SumRows(RowsOf(setup, trades, init)), CountVerdicts(Verdicts(setup, slice, slice)),
                   CountVerdicts(Verdicts(setup, trades, before)), CountVerdicts(Verdicts(setup, trades, slice)));
    }
  }

  function HoldsTrades(trades: seq<Trade>): Window -> bool {
    (w: Window) => Slice(trades, w) != []
  }

  /** The row of a window: its start, and the preflight of the trades in it. */
  predicate RowFor(row: Row, setup: Setup, trades: seq<Trade>, w: Window) {
    row.start == w.start && row.report == ReportOf(Preflight(setup, Slice(trades, w)))
  }

  ghost predicate RowsFor(rows: seq<Row>, setup: Setup, trades: seq<Trade>, ws: seq<Window>) {
    |rows| == |ws| && forall i | 0 <= i < |rows| :: RowFor(rows[i], setup, trades, ws[i])
  }

  lemma RowsForSnoc(rows: seq<Row>, setup: Setup, trades: seq<Trade>, ws: seq<Window>, row: Row, w: Window)
    requires RowsFor(rows, setup, trades, ws) && RowFor(row, setup, trades, w)
    ensures RowsFor(rows + [row], setup, trades, ws + [w])
  {
  }

  /** There is a row for each window that holds a trade, in order, under the window's own start. */
  lemma {:induction false} RowsFollowWindows(setup: Setup, trades: seq<Trade>, ws: seq<Window>)
    ensures RowsFor(RowsOf(setup, trades, ws), setup, trades, Filter(ws, HoldsTrades(trades)))
  {
    if ws != [] {
      var init, w := ws[..|ws| - 1], ws[|ws| - 1];
      RowsFollowWindows(setup, trades, init);
      assert ws == init + [w];
      FilterConcat(init, [w], HoldsTrades(trades));
      var kept, rows := Filter(init, HoldsTrades(trades)), RowsOf(setup, trades, init);
      if Slice(trades, w) == [] {
        assert Filter(ws, HoldsTrades(trades)) == kept && RowsOf(setup, trades, ws) == rows;
      } else {
        var row := Row(w.start, ReportOf(Preflight(setup, Slice(trades, w))));
        assert Filter(ws, HoldsTrades(trades)) == kept + [w] && RowsOf(setup, trades, ws) == rows + [row];
        RowsForSnoc(rows, setup, trades, kept, row, w);
      }
    }
  }

  // ---- The whole harness ----

  /** `run_walk_forward` on parsed trades; an empty input is the source's ValueError. */
  method RunWalkForward(setup: Setup, input: seq<Trade>, windowDays: int, stepDays: int)
    returns (rows: Option<seq<Row>>, ghost ws: seq<Window>)
    requires windowDays > 0 && stepDays > 0
    ensures rows == None <==> input == []
    ensures var trades, size, step := Sort(input, TradeByTs), (windowDays * SECONDS_PER_DAY) as real, (stepDays * SECONDS_PER_DAY) as real;
            input != [] ==>
              && |trades| == |input|
              && Windowing(ws, trades[0].ts, trades[|trades| - 1].ts, size, step)
              && rows.value == RowsOf(setup, trades, ws)
  {
    ws := [];
    if input == [] {
      return None, ws;
    }
    SortCorrect(input, TradeByTs);
    var trades := Sort(input, TradeByTs);
    var windows := GenerateWindows(trades[0].ts, trades[|trades| - 1].ts, windowDays, stepDays);
    ws := windows;
    var out: seq<Row> := [];
    for i := 0 to |windows|
      invariant out == RowsOf(setup, trades, windows[..i])
    {
      var slice := Slice(trades, windows[i]);
      assert windows[..i + 1][..i] == windows[..i];
      if slice == [] {
        continue;
      }
      var report := PreflightAndSimulate(setup, slice);
      out := out + [Row(windows[i].start, report)];
    }
    assert windows[..|windows|] == windows;
    rows := Some(out);
  }

  // ---- The order of the input does not matter ----

  /** What the trades add to the counts when their ticks come from `all`. */
  function CountOn(setup: Setup, all: seq<Trade>, trades: seq<Trade>): Counts {
    CountVerdicts(Verdicts(setup, all, trades))
  }

  lemma CountCons(setup: Setup, all: seq<Trade>, t: Trade, trades: seq<Trade>)
    ensures CountOn(setup, all, [t] + trades)
            == AddCounts(CountVerdict(Judge(setup, t, TicksFor(all, t.mint))), CountOn(setup, all, trades))
  {
    var v := Judge(setup, t, TicksFor(all, t.mint));
    assert Verdicts(setup, all, [t]) == [v] by {
      assert [t][..0] == [];
    }
    VerdictsConcat(setup, all, [t], trades);
    CountConcat([v], Verdicts(setup, all, trades));
    SingleCount(v);
  }

  lemma SingleCount(v: Verdict)
    ensures CountVerdicts([v]) == CountVerdict(v)
  {
    assert [v][..0] == [];
    AddNothing(CountVerdict(v));
  }

  lemma AddNothing(c: Counts)
    ensures AddCounts(NO_COUNTS, c) == c
  {
  }

  lemma AddRotates(a: Counts, b: Counts, c: Counts)
    ensures AddCounts(a, AddCounts(b, c)) == AddCounts(b, AddCounts(a, c))
  {
  }

  lemma SwapCounts(setup: Setup, all: seq<Trade>, t: Trade, u: Trade, trades: seq<Trade>)
    ensures CountOn(setup, all, [t] + ([u] + trades)) == CountOn(setup, all, [u] + ([t] + trades))
  {
    CountCons(setup, all, t, [u] + trades);
    CountCons(setup, all, u, [t] + trades);
    CountCons(setup, all, t, trades);
    CountCons(setup, all, u, trades);
    AddRotates(CountVerdict(Judge(setup, t, TicksFor(all, t.mint))), CountVerdict(Judge(setup, u, TicksFor(all, u.mint))),
               CountOn(setup, all, trades));
  }

  lemma {:induction false} InsertCounts(setup: Setup, all: seq<Trade>, t: Trade, trades: seq<Trade>)
    ensures CountOn(setup, all, Insert(t, trades, TradeByTs)) == CountOn(setup, all, [t] + trades)
  {
    if trades != [] && !TradeByTs(t, trades[0]) {
      var head, rest := trades[0], trades[1..];
      assert trades == [head] + rest;
      InsertCounts(setup, all, t, rest);
      CountCons(setup, all, head, Insert(t, rest, TradeByTs));
      CountCons(setup, all, head, [t] + rest);
      SwapCounts(setup, all, t, head, rest);
    }
  }

  lemma {:induction false} SortCounts(setup: Setup, all: seq<Trade>, trades: seq<Trade>)
    ensures CountOn(setup, all, Sort(trades, TradeByTs)) == CountOn(setup, all, trades)
  {
    if trades != [] {
      var head, rest := trades[0], trades[1..];
      assert trades == [head] + rest;
      SortCounts(setup, all, rest);
      InsertCounts(setup, all, head, Sort(rest, TradeByTs));
      CountCons(setup, all, head, Sort(rest, TradeByTs));
      CountCons(setup, all, head, rest);
    }
  }

  /** A preflight counts the same whether its trades are sorted first or not. */
  lemma PreflightIgnoresSorting(setup: Setup, trades: seq<Trade>)
    ensures CountsOf(Preflight(setup, Sort(trades, TradeByTs))) == CountsOf(Preflight(setup, trades))
  {
    var sorted := Sort(trades, TradeByTs);
    TallyCounts(Verdicts(setup, sorted, sorted), AnyMode(sorted), AnyTier(sorted));
    TallyCounts(Verdicts(setup, trades, trades), AnyMode(trades), AnyTier(trades));
    VerdictsIgnoreSorting(setup, trades, sorted);
    SortCounts(setup, trades, trades);
  }

  /** With the step equal to the window size, the rows add up to one preflight over the trades as they
      came: the same positions and the same skips, with no TP or SL exit that it does not have. */
  lemma WalkForwardConserves(setup: Setup, input: seq<Trade>, ws: seq<Window>, step: real)
    requires input != [] && step > 0.0
    requires var trades := Sort(input, TradeByTs);
             Windowing(ws, trades[0].ts, trades[|trades| - 1].ts, step, step)
    ensures Conserves(SumRows(RowsOf(setup, Sort(input, TradeByTs), ws)), CountsOf(Preflight(setup, input)))
  {
    var trades := Sort(input, TradeByTs);
    SortCorrect(input, TradeByTs);
    WindowsLoseNothing(trades, ws, trades[0].ts, trades[|trades| - 1].ts, step);
    RowsConserve(setup, trades, ws);
    TallyCounts(Verdicts(setup, trades, trades), AnyMode(trades), AnyTier(trades));
    PreflightIgnoresSorting(setup, input);
  }
}
