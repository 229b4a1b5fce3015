/** Trades in time order and the ticks they give (shared by integration/sim_preflight.py,
    integration/walk_forward.py and integration/ev_sweep.py). */
module TradeOrder {
  import opened Collections
  import opened SimPreflight

  predicate TradeByTs(a: Trade, b: Trade) {
    a.ts <= b.ts
  }

  function OnMint(mint: string): Trade -> bool {
    (t: Trade) => t.mint == mint && t.mint != ""
  }

  function Prices(trades: seq<Trade>): seq<Tick> {
    if trades == [] then []
    else if IsTick(trades[0]) then [Tick(trades[0].ts, trades[0].price.value)] + Prices(trades[1..])
    else Prices(trades[1..])
  }

  lemma {:induction false} PricesInsert(t: Trade, trades: seq<Trade>)
    requires Sorted(trades, TradeByTs) && IsTick(t) && forall u | u in trades :: u.mint != ""
    ensures Prices(Insert(t, trades, TradeByTs)) == Insert(Tick(t.ts, t.price.value), Prices(trades), ByTs)
  {
    if trades == [] {
    } else if t.ts <= trades[0].ts {
      assert ([t] + trades)[1..] == trades;
      PricesAfter(trades, t.ts);
    } else {
      var u, rest := trades[0], trades[1..];
      PricesInsert(t, rest);
      assert ([u] + Insert(t, rest, TradeByTs))[1..] == Insert(t, rest, TradeByTs);
      if IsTick(u) {
        assert Prices(trades)[1..] == Prices(rest);
      }
    }
  }

  lemma {:induction false} PricesAfter(trades: seq<Trade>, ts: real)
    requires Sorted(trades, TradeByTs) && (trades != [] ==> ts <= trades[0].ts)
    ensures Prices(trades) != [] ==> ts <= Prices(trades)[0].ts
  {
    if trades != [] && !IsTick(trades[0]) {
      assert |trades| > 1 ==> TradeByTs(trades[0], trades[1]);
      PricesAfter(trades[1..], ts);
    }
  }

  lemma {:induction false} PricesInsertNone(t: Trade, trades: seq<Trade>)
    requires !IsTick(t)
    ensures Prices(Insert(t, trades, TradeByTs)) == Prices(trades)
  {
    if trades == [] || t.ts <= trades[0].ts {
      assert ([t] + trades)[1..] == trades;
    } else {
      PricesInsertNone(t, trades[1..]);
      assert ([trades[0]] + Insert(t, trades[1..], TradeByTs))[1..] == Insert(t, trades[1..], TradeByTs);
    }
  }

  lemma {:induction false} PricesSort(trades: seq<Trade>)
    requires forall u | u in trades :: u.mint != ""
    ensures Prices(Sort(trades, TradeByTs)) == Sort(Prices(trades), ByTs)
  {
    if trades != [] {
      var t, rest := trades[0], trades[1..];
      PricesSort(rest);
      SortCorrect(rest, TradeByTs);
      assert t in trades;
      if IsTick(t) {
        PricesInsert(t, Sort(rest, TradeByTs));
        assert Prices(trades)[1..] == Prices(rest);
      } else {
        PricesInsertNone(t, Sort(rest, TradeByTs));
      }
    }
  }

  lemma {:induction false} PricesConcat(xs: seq<Trade>, ys: seq<Trade>)
    ensures Prices(xs + ys) == Prices(xs) + Prices(ys)
  {
    if xs == [] {
      assert xs + ys == ys;
    } else {
      assert (xs + ys)[1..] == xs[1..] + ys;
      PricesConcat(xs[1..], ys);
    }
  }

  lemma {:induction false} PricesOfMint(trades: seq<Trade>, mint: string)
    requires mint != ""
    ensures Prices(Filter(trades, OnMint(mint))) == RawTicks(trades, mint)
  {
    if trades != [] {
      var init, t := trades[..|trades| - 1], trades[|trades| - 1];
      PricesOfMint(init, mint);
      assert trades == init + [t];
      FilterConcat(init, [t], OnMint(mint));
      var one := Filter([t], OnMint(mint));
      PricesConcat(Filter(init, OnMint(mint)), one);
      assert Prices(one) == if t.mint == mint then TickOf(t) else [];
    }
  }

  /** Sorting the trades first changes no mint's tick list. */
  lemma TicksIgnoreSorting(trades: seq<Trade>, mint: string)
    requires mint != ""
    ensures TicksFor(Sort(trades, TradeByTs), mint) == TicksFor(trades, mint)
  {
    var mine := Filter(trades, OnMint(mint));
    FilterMembers(trades, OnMint(mint));
    FilterSort(trades, TradeByTs, OnMint(mint));
    PricesSort(mine);
    PricesOfMint(trades, mint);
    PricesOfMint(Sort(trades, TradeByTs), mint);
    SortCorrect(RawTicks(trades, mint), ByTs);
    SortOfSorted(Sort(RawTicks(trades, mint), ByTs), ByTs);
  }

  lemma JudgeIgnoresSorting(setup: Setup, trades: seq<Trade>, t: Trade)
    ensures Judge(setup, t, TicksFor(Sort(trades, TradeByTs), t.mint)) == Judge(setup, t, TicksFor(trades, t.mint))
  {
    if Candidate(t) {
      TicksIgnoreSorting(trades, t.mint);
    }
  }

  lemma {:induction false} VerdictsIgnoreSorting(setup: Setup, all: seq<Trade>, trades: seq<Trade>)
    ensures Verdicts(setup, Sort(all, TradeByTs), trades) == Verdicts(setup, all, trades)
  {
    if trades != [] {
      VerdictsIgnoreSorting(setup, all, trades[..|trades| - 1]);
      JudgeIgnoresSorting(setup, all, trades[|trades| - 1]);
    }
  }
}
