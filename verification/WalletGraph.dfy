/** Co-trade counting over normalised trades (analysis/wallet_graph.py). */
module CoTrades {
  import opened Collections
  import opened Text

  datatype TradeNorm = TradeNorm(walletAddr: string, mint: string, tsMs: int, side: string, sizeUsd: real)

  type Pair = (string, string)
  type Matrix = map<Pair, int>

  function Key(a: string, b: string): Pair {
    if Le(a, b) then (a, b) else (b, a)
  }

  predicate LargeBuy(t: TradeNorm) {
    t.side == "buy" && !(t.sizeUsd < 2000.0)
  }

  predicate ByTime(s: TradeNorm, t: TradeNorm) {
    s.tsMs <= t.tsMs
  }

  /** What a co-trade is, with no reference to order: two large buys of one mint by two wallets
      (together the key `k`), at most `window` apart. */
  predicate CoTrade(s: TradeNorm, t: TradeNorm, k: Pair, window: int) {
    && LargeBuy(s) && LargeBuy(t)
    && s.mint == t.mint
    && s.walletAddr != t.walletAddr
    && Key(s.walletAddr, t.walletAddr) == k
    && s.tsMs - t.tsMs <= window && t.tsMs - s.tsMs <= window
  }

  /** The all-pairs reference: index pairs of co-trades whose first index is at least `from`. */
  ghost function CoTradePairs(trades: seq<TradeNorm>, from: nat, k: Pair, window: int): set<(int, int)> {
    set i: int, j: int | from <= i < |trades| && i < j < |trades| && CoTrade(trades[i], trades[j], k, window) :: (i, j)
  }

  function Partner(t: TradeNorm, k: Pair, window: int): TradeNorm -> bool {
    u => CoTrade(t, u, k, window)
  }

  /** How many of the later trades co-trade with `t` under key `k`. */
  function CountWith(t: TradeNorm, later: seq<TradeNorm>, k: Pair, window: int): nat {
    |Filter(later, Partner(t, k, window))|
  }

  function Count(trades: seq<TradeNorm>, k: Pair, window: int): nat {
    if trades == [] then 0
    else CountWith(trades[0], trades[1..], k, window) + Count(trades[1..], k, window)
  }

  function Get(m: Matrix, k: Pair): int {
    if k in m then m[k] else 0
  }

  /** `m` is the co-trade matrix of `trades`: exactly the positive counts, under ordered keys. */
  ghost predicate IsMatrix(m: Matrix, trades: seq<TradeNorm>, window: int) {
    && (forall k :: Get(m, k) == |CoTradePairs(trades, 0, k, window)|)
    && WellKeyed(m)
  }

  ghost predicate WellKeyed(m: Matrix) {
    forall k :: k in m ==> m[k] >= 1 && Lt(k.0, k.1)
  }

  // ---- The recursive count is the cardinality of the reference set ----

  lemma {:induction false} CountIsCardinality(trades: seq<TradeNorm>, from: nat, k: Pair, window: int)
    requires from <= |trades|
    ensures |CoTradePairs(trades, from, k, window)| == Count(trades[from..], k, window)
    decreases |trades| - from
  {
    if from < |trades| {
      CountIsCardinality(trades, from + 1, k, window);
      assert trades[from..][1..] == trades[from + 1..];
      var row := Row(trades, from, from + 1, Partner(trades[from], k, window));
      var rest := CoTradePairs(trades, from + 1, k, window);
      RowCardinality(trades, from, from + 1, Partner(trades[from], k, window));
      assert CoTradePairs(trades, from, k, window) == row + rest;
      assert row !! rest;
    } else {
      assert CoTradePairs(trades, from, k, window) == {};
    }
  }

  // ---- The count does not depend on the order of the trades ----

  lemma CountWithConcat(t: TradeNorm, xs: seq<TradeNorm>, ys: seq<TradeNorm>, k: Pair, window: int)
    ensures CountWith(t, xs + ys, k, window) == CountWith(t, xs, k, window) + CountWith(t, ys, k, window)
  {
    FilterConcat(xs, ys, Partner(t, k, window));
  }

  lemma CountWithHead(t: TradeNorm, later: seq<TradeNorm>, k: Pair, window: int)
    requires later != []
    ensures CountWith(t, later, k, window)
            == (if CoTrade(t, later[0], k, window) then 1 else 0) + CountWith(t, later[1..], k, window)
  {
  }

  lemma CoTradeSymmetric(s: TradeNorm, t: TradeNorm, k: Pair, window: int)
    ensures CoTrade(s, t, k, window) == CoTrade(t, s, k, window)
  {
    LeTotal(s.walletAddr, t.walletAddr);
    if Le(s.walletAddr, t.walletAddr) && Le(t.walletAddr, s.walletAddr) {
      LeAntisymmetric(s.walletAddr, t.walletAddr);
    }
  }

  /** Any one trade can be moved to the front. */
  lemma {:induction false} CountPullForward(xs: seq<TradeNorm>, t: TradeNorm, ys: seq<TradeNorm>, k: Pair, window: int)
    ensures Count(xs + [t] + ys, k, window) == CountWith(t, xs + ys, k, window) + Count(xs + ys, k, window)
  {
    if xs == [] {
      assert xs + [t] + ys == [t] + ys;
      assert xs + ys == ys;
    } else {
      var x, rest := xs[0], xs[1..];
      assert (xs + [t] + ys)[1..] == rest + [t] + ys;
      assert (xs + ys)[1..] == rest + ys;
      CountPullForward(rest, t, ys, k, window);
      CountWithConcat(x, rest + [t], ys, k, window);
      CountWithConcat(x, rest, [t], k, window);
      CountWithConcat(x, rest, ys, k, window);
      CountWithHead(x, [t], k, window);
      CountWithHead(t, xs + ys, k, window);
      CoTradeSymmetric(x, t, k, window);
    }
  }

  lemma {:induction false} CountWithPermutation(t: TradeNorm, xs: seq<TradeNorm>, ys: seq<TradeNorm>, k: Pair, window: int)
    requires multiset(xs) == multiset(ys)
    ensures CountWith(t, xs, k, window) == CountWith(t, ys, k, window)
  {
    if xs == [] {
      assert |multiset(ys)| == 0;
    } else {
      var i := PermutationHead(xs, ys);
      CountWithPermutation(t, xs[1..], ys[..i] + ys[i + 1..], k, window);
      CountWithConcat(t, ys[..i], ys[i + 1..], k, window);
      CountWithConcat(t, ys[..i] + [ys[i]], ys[i + 1..], k, window);
      CountWithConcat(t, ys[..i], [ys[i]], k, window);
      CountWithHead(t, [ys[i]], k, window);
      CountWithHead(t, xs, k, window);
    }
  }

  lemma {:induction false} CountPermutation(xs: seq<TradeNorm>, ys: seq<TradeNorm>, k: Pair, window: int)
    requires multiset(xs) == multiset(ys)
    ensures Count(xs, k, window) == Count(ys, k, window)
  {
    if xs == [] {
      assert |multiset(ys)| == 0;
    } else {
      var i := PermutationHead(xs, ys);
      var rest := ys[..i] + ys[i + 1..];
      CountPermutation(xs[1..], rest, k, window);
      CountWithPermutation(xs[0], xs[1..], rest, k, window);
      CountPullForward(ys[..i], ys[i], ys[i + 1..], k, window);
    }
  }

  /** Reordering the input, ties included, does not change the matrix. */
  lemma MatrixIgnoresOrder(xs: seq<TradeNorm>, ys: seq<TradeNorm>, window: int, mx: Matrix, my: Matrix)
    requires multiset(xs) == multiset(ys)
    requires IsMatrix(mx, xs, window) && IsMatrix(my, ys, window)
    ensures mx == my
  {
    forall k: Pair
      ensures Get(mx, k) == Get(my, k)
    {
      CountIsCardinality(xs, 0, k, window);
      CountIsCardinality(ys, 0, k, window);
      assert xs[0..] == xs && ys[0..] == ys;
      CountPermutation(xs, ys, k, window);
    }
    assert forall k :: k in mx <==> Get(mx, k) >= 1;
    assert forall k :: k in my <==> Get(my, k) >= 1;
    assert forall k | k in mx :: mx[k] == Get(mx, k) == Get(my, k) == my[k];
  }

  /** A wider window keeps every co-trade. */
  lemma CountMonotone(trades: seq<TradeNorm>, k: Pair, narrow: int, wide: int)
    requires narrow <= wide
    ensures |CoTradePairs(trades, 0, k, narrow)| <= |CoTradePairs(trades, 0, k, wide)|
  {
    SubsetCardinality(CoTradePairs(trades, 0, k, narrow), CoTradePairs(trades, 0, k, wide));
  }

  // ---- Grouping by mint ----

  function LargeBuyIn(mints: set<string>): TradeNorm -> bool {
    t => LargeBuy(t) && t.mint in mints
  }

  lemma CountWithOnMints(t: TradeNorm, later: seq<TradeNorm>, mints: set<string>, k: Pair, window: int)
    requires LargeBuyIn(mints)(t)
    ensures CountWith(t, Filter(later, LargeBuyIn(mints)), k, window) == CountWith(t, later, k, window)
  {
    FilterFilter(later, LargeBuyIn(mints), Partner(t, k, window), Partner(t, k, window));
  }

  /** Co-trades never cross mints, so the counts of disjoint groups add up. */
  lemma {:induction false} CountAddsOverMints(trades: seq<TradeNorm>, mints: set<string>, m: string, k: Pair, window: int)
    requires m !in mints
    ensures Count(Filter(trades, LargeBuyIn(mints + {m})), k, window)
            == Count(Filter(trades, LargeBuyIn(mints)), k, window) + Count(Filter(trades, LargeBuyIn({m})), k, window)
  {
    if trades != [] {
      var t, rest := trades[0], trades[1..];
      CountAddsOverMints(rest, mints, m, k, window);
      CountOnMintsStep(t, rest, mints + {m}, k, window);
      CountOnMintsStep(t, rest, mints, k, window);
      CountOnMintsStep(t, rest, {m}, k, window);
      assert trades == [t] + rest;
    }
  }

  lemma CountOnMintsStep(t: TradeNorm, rest: seq<TradeNorm>, mints: set<string>, k: Pair, window: int)
    ensures Count(Filter([t] + rest, LargeBuyIn(mints)), k, window)
            == Count(Filter(rest, LargeBuyIn(mints)), k, window)
               + if LargeBuyIn(mints)(t) then CountWith(t, rest, k, window) else 0
  {
    assert ([t] + rest)[1..] == rest;
    var f := Filter(rest, LargeBuyIn(mints));
    if LargeBuyIn(mints)(t) {
      CountWithOnMints(t, rest, mints, k, window);
      assert ([t] + f)[1..] == f;
    }
  }

  lemma {:induction false} CountOnAllMints(trades: seq<TradeNorm>, mints: set<string>, k: Pair, window: int)
    requires forall t :: t in trades && LargeBuy(t) ==> t.mint in mints
    ensures Count(Filter(trades, LargeBuyIn(mints)), k, window) == Count(trades, k, window)
  {
    if trades != [] {
      var t, rest := trades[0], trades[1..];
      CountOnAllMints(rest, mints, k, window);
      CountOnMintsStep(t, rest, mints, k, window);
      assert trades == [t] + rest;
      if !LargeBuy(t) {
        FilterNone(rest, Partner(t, k, window));
      }
    }
  }

  method GroupByMint(trades: seq<TradeNorm>) returns (groups: map<string, seq<TradeNorm>>)
    ensures forall m :: m in groups ==> groups[m] == Filter(trades, LargeBuyIn({m}))
    ensures groups.Keys == set t | t in trades && LargeBuy(t) :: t.mint
  {
    groups := map[];
    for i := 0 to |trades|
      invariant groups.Keys == set t | t in trades[..i] && LargeBuy(t) :: t.mint
      invariant forall m :: m in groups ==> groups[m] == Filter(trades[..i], LargeBuyIn({m}))
    {
      var trade := trades[i];
      assert trades[..i + 1] == trades[..i] + [trade];
      forall m: string
        ensures Filter(trades[..i + 1], LargeBuyIn({m}))
                == Filter(trades[..i], LargeBuyIn({m})) + if LargeBuyIn({m})(trade) then [trade] else []
      {
        FilterConcat(trades[..i], [trade], LargeBuyIn({m}));
      }
      if trade.side != "buy" || trade.sizeUsd < 2000.0 {
        continue;
      }
      if trade.mint !in groups {
        FilterNone(trades[..i], LargeBuyIn({trade.mint}));
        groups := groups[trade.mint := []];
      }
      groups := groups[trade.mint := groups[trade.mint] + [trade]];
    }
    assert trades[..|trades|] == trades;
  }

  /** The inner loop of the pair scan, with its early exit: all partners of `trades[i]` after it. */
  method AddRow(before: Matrix, trades: seq<TradeNorm>, i: nat, window: int) returns (m: Matrix)
    requires OneMint(trades) && WellKeyed(before) && i < |trades|
    ensures WellKeyed(m)
    ensures forall k :: Get(m, k) == Get(before, k) + CountWith(trades[i], trades[i + 1..], k, window)
  {
    m := before;
    var t := trades[i];
    var j := i + 1;
    while j < |trades|
      invariant i < j <= |trades|
      invariant WellKeyed(m)
      invariant forall k :: Get(m, k) + CountWith(t, trades[j..], k, window)
                            == Get(before, k) + CountWith(t, trades[i + 1..], k, window)
    {
      var u := trades[j];
      assert ByTime(t, u);
      if u.tsMs - t.tsMs > window {
        TooFar(t, trades, j, window);
        return;
      }
      StepCounts(m, t, trades, j, window);
      j := j + 1;
      if t.walletAddr == u.walletAddr {
        continue;
      }
      var key := Key(t.walletAddr, u.walletAddr);
      m := m[key := Get(m, key) + 1];
    }
    assert trades[j..] == [];
  }

  /** The outer loop of the pair scan over one mint's trades. */
  method AddMint(before: Matrix, trades: seq<TradeNorm>, window: int) returns (m: Matrix)
    requires OneMint(trades) && WellKeyed(before)
    ensures WellKeyed(m)
    ensures forall k :: Get(m, k) == Get(before, k) + Count(trades, k, window)
  {
    m := before;
    for i := 0 to |trades|
      invariant WellKeyed(m)
      invariant forall k :: Get(m, k) + Count(trades[i..], k, window) == Get(before, k) + Count(trades, k, window)
    {
      assert trades[i..][1..] == trades[i + 1..];
      m := AddRow(m, trades, i, window);
    }
    assert trades[0..] == trades;
  }

  /** One mint's large buys in time order. */
  ghost predicate OneMint(trades: seq<TradeNorm>) {
    && Sorted(trades, ByTime)
    && forall i, j | 0 <= i < |trades| && 0 <= j < |trades| :: LargeBuy(trades[i]) && trades[i].mint == trades[j].mint
  }

  /** Recording the pair `(t, trades[j])` moves one row entry into the matrix, for every key at once. */
  lemma StepCounts(m: Matrix, t: TradeNorm, trades: seq<TradeNorm>, j: nat, window: int)
    requires j < |trades| && WellKeyed(m)
    requires LargeBuy(t) && LargeBuy(trades[j]) && t.mint == trades[j].mint
    requires 0 <= trades[j].tsMs - t.tsMs <= window
    ensures var u, key := trades[j], Key(t.walletAddr, trades[j].walletAddr);
            var m' := if t.walletAddr == u.walletAddr then m else m[key := Get(m, key) + 1];
            && WellKeyed(m')
            && forall k :: Get(m', k) + CountWith(t, trades[j + 1..], k, window)
                           == Get(m, k) + CountWith(t, trades[j..], k, window)
  {
    var u := trades[j];
    LeTotal(t.walletAddr, u.walletAddr);
    assert trades[j..][1..] == trades[j + 1..];
    forall k
      ensures CountWith(t, trades[j..], k, window)
              == (if t.walletAddr != u.walletAddr && k == Key(t.walletAddr, u.walletAddr) then 1 else 0)
                 + CountWith(t, trades[j + 1..], k, window)
    {
      CountWithHead(t, trades[j..], k, window);
    }
  }

  lemma TooFar(t: TradeNorm, trades: seq<TradeNorm>, j: nat, window: int)
    requires Sorted(trades, ByTime)
    requires j < |trades| && trades[j].tsMs - t.tsMs > window
    ensures forall k :: CountWith(t, trades[j..], k, window) == 0
  {
    forall k
      ensures CountWith(t, trades[j..], k, window) == 0
    {
      forall u | u in trades[j..]
        ensures !Partner(t, k, window)(u)
      {
        var i :| 0 <= i < |trades[j..]| && trades[j..][i] == u;
        assert i == 0 || ByTime(trades[j], trades[j + i]);
      }
      FilterNone(trades[j..], Partner(t, k, window));
    }
  }

  lemma SortedGroup(trades: seq<TradeNorm>, mint: string, sorted: seq<TradeNorm>)
    requires sorted == Sort(Filter(trades, LargeBuyIn({mint})), ByTime)
    ensures OneMint(sorted)
    ensures multiset(sorted) == multiset(Filter(trades, LargeBuyIn({mint})))
  {
    SortCorrect(Filter(trades, LargeBuyIn({mint})), ByTime);
    FilterMembers(trades, LargeBuyIn({mint}));
    forall i | 0 <= i < |sorted|
      ensures LargeBuyIn({mint})(sorted[i])
    {
      assert sorted[i] in Filter(trades, LargeBuyIn({mint}));
    }
  }

  lemma AddingAMint(trades: seq<TradeNorm>, done: set<string>, mint: string, sorted: seq<TradeNorm>, window: int)
    requires mint !in done && multiset(sorted) == multiset(Filter(trades, LargeBuyIn({mint})))
    ensures forall k :: Count(Filter(trades, LargeBuyIn(done + {mint})), k, window)
                        == Count(Filter(trades, LargeBuyIn(done)), k, window) + Count(sorted, k, window)
  {
    forall k
      ensures Count(Filter(trades, LargeBuyIn(done + {mint})), k, window)
              == Count(Filter(trades, LargeBuyIn(done)), k, window) + Count(sorted, k, window)
    {
      CountAddsOverMints(trades, done, mint, k, window);
      CountPermutation(sorted, Filter(trades, LargeBuyIn({mint})), k, window);
    }
  }

  lemma AllMintsCounted(trades: seq<TradeNorm>, mints: set<string>, window: int)
    requires forall t :: t in trades && LargeBuy(t) ==> t.mint in mints
    ensures forall k :: Count(Filter(trades, LargeBuyIn(mints)), k, window) == |CoTradePairs(trades, 0, k, window)|
  {
    forall k
      ensures Count(Filter(trades, LargeBuyIn(mints)), k, window) == |CoTradePairs(trades, 0, k, window)|
    {
      CountOnAllMints(trades, mints, k, window);
      CountIsCardinality(trades, 0, k, window);
      assert trades[0..] == trades;
    }
  }

  /** `build_co_trade_matrix`: the windowed loops compute the all-pairs reference, whatever order
      the mints are visited in. */
  method BuildCoTradeMatrix(trades: seq<TradeNorm>, window: int) returns (m: Matrix)
    ensures IsMatrix(m, trades, window)
  {
    var groups := GroupByMint(trades);
    m := map[];
    var pending := groups.Keys;
    ghost var done: set<string> := {};
    FilterNone(trades, LargeBuyIn({}));
    while pending != {}
      invariant pending !! done && pending + done == groups.Keys
      invariant WellKeyed(m)
      invariant forall k :: Get(m, k) == Count(Filter(trades, LargeBuyIn(done)), k, window)
    {
      var mint :| mint in pending;
      var sorted := Sort(groups[mint], ByTime);
      SortedGroup(trades, mint, sorted);
      m := AddMint(m, sorted, window);
      AddingAMint(trades, done, mint, sorted, window);
      pending := pending - {mint};
      done := done + {mint};
    }
    AllMintsCounted(trades, done, window);
  }
}
