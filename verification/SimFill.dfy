/** Exit signals against a simulated trade (execution/sim_fill.py, `process_exit_signal`). */
module SimFill {
  import opened Collections
  import opened Numbers

  datatype ExitType = MARKET_CLOSE | PARTIAL_EXIT | TRAILING_STOP_UPDATE

  datatype ExitSignal = ExitSignal(exitType: ExitType, sizePct: real, trailStopPct: Option<real>, trailActivationPct: Option<real>)

  /** What the signal's own constructor accepts. */
  predicate ValidSignal(s: ExitSignal) {
    && 0.0 < s.sizePct <= 1.0
    && (s.exitType == PARTIAL_EXIT ==> s.sizePct < 1.0)
    && (s.exitType == TRAILING_STOP_UPDATE ==> s.trailStopPct.Some?)
  }

  datatype SimulatedTrade = SimulatedTrade(wallet: string, mint: string, entryPrice: real, sizeRemaining: real, sizeInitial: real,
                                           realizedPnl: real, open: bool, trailStop: Option<real>, trailActivation: Option<real>)

  datatype ExitResult = ExitResult(trade: SimulatedTrade, amountSold: int, pnlRealized: real, isClosed: bool)

  const DUST_THRESHOLD_TOKENS := 1.0

  predicate IsDustRemaining(balance: real) {
    balance < DUST_THRESHOLD_TOKENS
  }

  /** Whole tokens, at least one, never more than there are. */
  function AmountToSell(size: real, pct: real): int {
    var wanted := Truncate(Times(size, pct));
    var atLeastOne := if wanted < 1 then 1 else wanted;
    if atLeastOne as real > size then Truncate(size) else atLeastOne
  }

  function Gain(entryPrice: real, price: real, sold: int): real {
    (price - entryPrice) * sold as real
  }

  /** The trailing levels after a signal; an update still sells `sizePct` like any other signal. */
  function TrailAfter(t: SimulatedTrade, s: ExitSignal, price: real): (Option<real>, Option<real>) {
    if s.exitType != TRAILING_STOP_UPDATE || s.trailStopPct == None then (t.trailStop, t.trailActivation)
    else
      (Some(price * (1.0 - s.trailStopPct.value)),
       if s.trailActivationPct.Some? then Some(price * (1.0 + s.trailActivationPct.value)) else t.trailActivation)
  }

  function ProcessExitSignal(t: SimulatedTrade, s: ExitSignal, price: real): ExitResult {
    var sold := AmountToSell(t.sizeRemaining, s.sizePct);
    var pnl := Gain(t.entryPrice, price, sold);
    var left := t.sizeRemaining - sold as real;
    var closed := IsDustRemaining(left) || s.sizePct >= 1.0;
    var (stop, activation) := TrailAfter(t, s, price);
    var t' := t.(sizeRemaining := if closed then 0.0 else left, realizedPnl := t.realizedPnl + pnl, open := !closed,
                 trailStop := stop, trailActivation := activation);
    ExitResult(t', sold, pnl, closed)
  }

  lemma SellBounds(size: real, pct: real)
    requires size >= 0.0 && 0.0 < pct <= 1.0
    ensures 0.0 <= AmountToSell(size, pct) as real <= size
    ensures size >= 1.0 ==> AmountToSell(size, pct) >= 1
    ensures pct == 1.0 || size < 1.0 ==> AmountToSell(size, pct) == size.Floor
  {
    ProductSign(size, pct);
    ProductMonotone(pct, 1.0, size);
    assert pct == 1.0 ==> size * pct == size;
  }

  /** The whole part of the share asked for, but one token at least as long as there is one. */
  predicate IsSale(sold: int, size: real, pct: real) {
    if size < 1.0 then sold == 0
    else sold >= 1 && Times(size, pct) < sold as real + 1.0 && (sold == 1 || sold as real <= Times(size, pct))
  }

  lemma SaleIsExact(size: real, pct: real)
    requires size >= 0.0 && 0.0 < pct <= 1.0
    ensures IsSale(AmountToSell(size, pct), size, pct)
  {
    SellBounds(size, pct);
    ProductSign(size, pct);
    ProductMonotone(pct, 1.0, size);
    TruncateMonotone(Times(size, pct), size);
  }

  /** An update moves the stop below the price and, if asked, the activation above it. */
  predicate Trails(t: SimulatedTrade, t': SimulatedTrade, s: ExitSignal, price: real) {
    if s.exitType != TRAILING_STOP_UPDATE then t'.trailStop == t.trailStop && t'.trailActivation == t.trailActivation
    else
      && s.trailStopPct.Some? && t'.trailStop.Some? && t'.trailStop.value + Times(price, s.trailStopPct.value) == price
      && (if s.trailActivationPct.Some? then
            t'.trailActivation.Some? && t'.trailActivation.value == price + Times(price, s.trailActivationPct.value)
          else t'.trailActivation == t.trailActivation)
  }

  lemma TrailIsExact(t: SimulatedTrade, s: ExitSignal, price: real)
    requires ValidSignal(s)
    ensures Trails(t, ProcessExitSignal(t, s, price).trade, s, price)
  {
  }

  /** What one signal does: it sells the share asked for at the current price; the trade closes if less
      than a token is left or all was asked for, and otherwise keeps the rest; nothing else moves. */
  lemma SignalIsExact(t: SimulatedTrade, s: ExitSignal, price: real)
    requires t.sizeRemaining >= 0.0 && ValidSignal(s)
    ensures var r := ProcessExitSignal(t, s, price);
            var left := t.sizeRemaining - r.amountSold as real;
            && IsSale(r.amountSold, t.sizeRemaining, s.sizePct) && Trails(t, r.trade, s, price)
            && r.pnlRealized == Times(price - t.entryPrice, r.amountSold as real)
            && r.trade.realizedPnl == t.realizedPnl + r.pnlRealized
            && (r.isClosed <==> left < 1.0 || s.sizePct == 1.0) && r.trade.open == !r.isClosed
            && r.trade.sizeRemaining == (if r.isClosed then 0.0 else left)
            && r.trade == t.(sizeRemaining := r.trade.sizeRemaining, realizedPnl := r.trade.realizedPnl, open := r.trade.open,
                             trailStop := r.trade.trailStop, trailActivation := r.trade.trailActivation)
  {
    SaleIsExact(t.sizeRemaining, s.sizePct);
    TrailIsExact(t, s, price);
    SaleIsSettled(t, s, price);
  }

  lemma SaleIsSettled(t: SimulatedTrade, s: ExitSignal, price: real)
    requires ValidSignal(s)
    ensures var r := ProcessExitSignal(t, s, price);
            var left := t.sizeRemaining - r.amountSold as real;
            && r.amountSold == AmountToSell(t.sizeRemaining, s.sizePct)
            && r.pnlRealized == Times(price - t.entryPrice, r.amountSold as real)
            && r.trade.realizedPnl == t.realizedPnl + r.pnlRealized
            && (r.isClosed <==> left < 1.0 || s.sizePct == 1.0) && r.trade.open == !r.isClosed
            && r.trade.sizeRemaining == (if r.isClosed then 0.0 else left)
            && r.trade == t.(sizeRemaining := r.trade.sizeRemaining, realizedPnl := r.trade.realizedPnl, open := r.trade.open,
                             trailStop := r.trade.trailStop, trailActivation := r.trade.trailActivation)
  {
  }

  // ---- Chains of signals ----

  datatype Exit = Exit(signal: ExitSignal, price: real)

  /** What was sold at which price, signal by signal. */
  datatype FillRecord = FillRecord(price: real, sold: int)

  function ChainResult(t: SimulatedTrade, exits: seq<Exit>): (SimulatedTrade, seq<FillRecord>) {
    if exits == [] then (t, [])
    else
      var (t1, fills) := ChainResult(t, exits[..|exits| - 1]);
      var x := exits[|exits| - 1];
      var r := ProcessExitSignal(t1, x.signal, x.price);
      (r.trade, fills + [FillRecord(x.price, r.amountSold)])
  }

  function TotalSold(fills: seq<FillRecord>): int {
    if fills == [] then 0 else TotalSold(fills[..|fills| - 1]) + fills[|fills| - 1].sold
  }

  function TotalPnl(fills: seq<FillRecord>, entryPrice: real): real {
    if fills == [] then 0.0
    else
      var f := fills[|fills| - 1];
      TotalPnl(fills[..|fills| - 1], entryPrice) + Gain(entryPrice, f.price, f.sold)
  }

  ghost predicate ValidExits(exits: seq<Exit>) {
    forall i | 0 <= i < |exits| :: ValidSignal(exits[i].signal)
  }

  /** What a chain of `n` signals has done to a trade that began with `start` tokens. */
  ghost predicate Accounted(start: real, n: nat, t: SimulatedTrade, sold: int) {
    && 0 <= sold
    && (t.open && n > 0 ==> t.sizeRemaining >= 1.0 && n <= sold)
    && (t.open ==> sold as real + t.sizeRemaining == start)
    && (!t.open ==> t.sizeRemaining == 0.0 && start - 1.0 < sold as real <= start)
  }

  lemma SignalAccounted(start: real, n: nat, t: SimulatedTrade, sold: int, s: ExitSignal, price: real)
    requires Accounted(start, n, t, sold) && t.sizeRemaining >= 0.0 && ValidSignal(s)
    ensures var r := ProcessExitSignal(t, s, price);
            Accounted(start, n + 1, r.trade, sold + r.amountSold) && r.trade.sizeRemaining >= 0.0
    ensures !t.open ==> ProcessExitSignal(t, s, price).amountSold == 0 && !ProcessExitSignal(t, s, price).trade.open
  {
    SellBounds(t.sizeRemaining, s.sizePct);
  }

  /** Along every chain on an open trade: while it is open, tokens sold + remaining = the start; once
      closed it stays closed, sells nothing more, and less than one token is unaccounted for. */
  lemma {:induction false} ChainAccounted(t: SimulatedTrade, exits: seq<Exit>)
    requires t.open && t.sizeRemaining >= 0.0 && ValidExits(exits)
    ensures var (t', fills) := ChainResult(t, exits);
            && t'.sizeRemaining >= 0.0
            && Accounted(t.sizeRemaining, |exits|, t', TotalSold(fills))
  {
    if exits != [] {
      var n := |exits| - 1;
      var (t1, fills) := ChainResult(t, exits[..n]);
      var x := exits[n];
      ChainAccounted(t, exits[..n]);
      SignalAccounted(t.sizeRemaining, n, t1, TotalSold(fills), x.signal, x.price);
      var r := ProcessExitSignal(t1, x.signal, x.price);
      assert (fills + [FillRecord(x.price, r.amountSold)])[..|fills|] == fills;
    }
  }

  /** A trade of at least one token closes within `floor(size)` signals, a smaller one at the first. */
  lemma ChainCloses(t: SimulatedTrade, exits: seq<Exit>)
    requires t.open && t.sizeRemaining >= 0.0 && ValidExits(exits)
    requires |exits| >= 1 && |exits| >= t.sizeRemaining.Floor
    ensures !ChainResult(t, exits).0.open
  {
    ChainAccounted(t, exits);
  }

  /** A fraction so small that a single token goes each time. */
  predicate SellsOneOf(s: ExitSignal, size: nat) {
    0.0 < s.sizePct && Times(size as real, s.sizePct) < 1.0
  }

  lemma SmallExitSellsOne(size: real, whole: real, pct: real)
    requires 1.0 <= size <= whole && 0.0 < pct && Times(whole, pct) < 1.0
    ensures AmountToSell(size, pct) == 1 && pct < 1.0
  {
    assert 0.0 <= Times(size, pct) <= Times(whole, pct) by {
      ProductSign(size, pct);
      ProductMonotone(size, whole, pct);
    }
    assert pct <= Times(size, pct) by {
      ProductMonotone(1.0, size, pct);
    }
  }

  /** The bound is reached: single-token exits keep a whole number of tokens open until the last. */
  lemma {:induction false} SlowestChain(t: SimulatedTrade, exits: seq<Exit>, size: nat)
    requires t.open && t.sizeRemaining == size as real && |exits| < size
    requires forall i | 0 <= i < |exits| :: SellsOneOf(exits[i].signal, size)
    ensures var t' := ChainResult(t, exits).0;
            t'.open && t'.sizeRemaining == (size - |exits|) as real
  {
    if exits != [] {
      var n := |exits| - 1;
      SlowestChain(t, exits[..n], size);
      assert SellsOneOf(exits[n].signal, size);
      SmallExitSellsOne(ChainResult(t, exits[..n]).0.sizeRemaining, size as real, exits[n].signal.sizePct);
    }
  }

  /** Realised profit is the sum of (price - entry) times tokens sold. */
  lemma {:induction false} PnlIsSumOfFills(t: SimulatedTrade, exits: seq<Exit>)
    ensures var (t', fills) := ChainResult(t, exits);
            && t'.realizedPnl == t.realizedPnl + TotalPnl(fills, t.entryPrice)
            && t'.entryPrice == t.entryPrice
  {
    if exits != [] {
      var n := |exits| - 1;
      PnlIsSumOfFills(t, exits[..n]);
      var (t1, fills) := ChainResult(t, exits[..n]);
      var r := ProcessExitSignal(t1, exits[n].signal, exits[n].price);
      assert (fills + [FillRecord(exits[n].price, r.amountSold)])[..|fills|] == fills;
    }
  }
}
