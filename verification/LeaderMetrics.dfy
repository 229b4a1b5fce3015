/** Leader and follower metrics inside clusters (analysis/wallet_graph.py). */
module LeaderMetrics {
  import opened Collections
  import opened CoTrades
  import opened Numbers
  import Clusters

  type Labels = map<string, int>

  // ---- What happens on one mint ----

  /** The first clustered buyer of a mint leads it; every further buy follows after some lag. */
  datatype Event = Lead(wallet: string) | Follow(wallet: string, lag: int)

  /** A buy of any size; the co-trade matrix alone asks for large ones. */
  function ClusteredBuy(clusters: Labels, mint: string): TradeNorm -> bool {
    (t: TradeNorm) => t.side == "buy" && t.mint == mint && t.walletAddr in clusters
  }

  function Group(trades: seq<TradeNorm>, clusters: Labels, mint: string): seq<TradeNorm> {
    Sort(Filter(trades, ClusteredBuy(clusters, mint)), ByTime)
  }

  function Follows(sorted: seq<TradeNorm>, start: int): seq<Event> {
    if sorted == [] then []
    else Follows(sorted[..|sorted| - 1], start)
         + [Follow(sorted[|sorted| - 1].walletAddr, sorted[|sorted| - 1].tsMs - start)]
  }

  function EventsOf(sorted: seq<TradeNorm>): seq<Event> {
    if |sorted| < 2 then [] else [Lead(sorted[0].walletAddr)] + Follows(sorted[1..], sorted[0].tsMs)
  }

  /** The events of the mints in `order`, one mint after the other. */
  function EventsIn(trades: seq<TradeNorm>, clusters: Labels, order: seq<string>): seq<Event> {
    if order == [] then []
    else EventsIn(trades, clusters, order[..|order| - 1]) + EventsOf(Group(trades, clusters, order[|order| - 1]))
  }

  function BoughtMints(trades: seq<TradeNorm>): set<string> {
    set t | t in trades && t.side == "buy" :: t.mint
  }

  ghost predicate Distinct<T>(xs: seq<T>) {
    forall i, j | 0 <= i < j < |xs| :: xs[i] != xs[j]
  }

  ghost predicate Visits(order: seq<string>, mints: set<string>) {
    Distinct(order) && forall m :: m in order <==> m in mints
  }

  ghost predicate IsHistory(events: seq<Event>, trades: seq<TradeNorm>, clusters: Labels) {
    exists order :: Visits(order, BoughtMints(trades)) && events == EventsIn(trades, clusters, order)
  }

  // ---- Metrics ----

  function LeadBy(w: string): Event -> bool {
    (e: Event) => e.Lead? && e.wallet == w
  }

  function FollowBy(w: string): Event -> bool {
    (e: Event) => e.Follow? && e.wallet == w
  }

  function LagsOf(events: seq<Event>, w: string): seq<int> {
    if events == [] then []
    else LagsOf(events[..|events| - 1], w)
         + if FollowBy(w)(events[|events| - 1]) then [events[|events| - 1].lag] else []
  }

  function LeadsOf(events: seq<Event>, w: string): nat {
    |Filter(events, LeadBy(w))|
  }

  datatype Metrics = Metrics(clusterLabel: int, leaderScore: real, followerLagMs: Option<int>, coTradeCount: int)

  function Members(clusters: Labels, id: int): set<string> {
    set w | w in clusters && clusters[w] == id
  }

  function LeaderScore(leads: nat, size: nat): real {
    if size > 1 && leads > 0 then
      var score := leads as real / (size as real * 0.5);
      if score < 1.0 then score else 1.0
    else 0.0
  }

  predicate IntLe(a: int, b: int) {
    a <= b
  }

  /** The two middle elements of an odd-length list are one and the same. */
  function Median(lags: seq<int>): int
    requires lags != []
  {
    var s := Sort(lags, IntLe);
    assert |s| == |lags| by { SortCorrect(lags, IntLe); }
    (s[(|s| - 1) / 2] + s[|s| / 2]) / 2
  }

  ghost predicate IsMetrics(m: Metrics, w: string, clusters: Labels, events: seq<Event>) {
    && w in clusters && m.clusterLabel == clusters[w]
    && m.coTradeCount == |Members(clusters, clusters[w])| - 1
    && m.leaderScore == LeaderScore(LeadsOf(events, w), |Members(clusters, clusters[w])|)
    && m.followerLagMs == if LagsOf(events, w) == [] then None else Some(Median(LagsOf(events, w)))
  }

  // ---- The computation ----

  datatype Stats = Stats(leads: nat, lags: seq<int>)

  ghost predicate Tracks(stats: map<string, Stats>, clusters: Labels, events: seq<Event>) {
    && stats.Keys == clusters.Keys
    && forall w | w in stats :: StatsOf(stats[w], w, events)
  }

  ghost predicate StatsOf(s: Stats, w: string, events: seq<Event>) {
    s.leads == LeadsOf(events, w) && s.lags == LagsOf(events, w)
  }

  lemma {:induction false} EventAdded(events: seq<Event>, e: Event, w: string)
    ensures LeadsOf(events + [e], w) == LeadsOf(events, w) + if LeadBy(w)(e) then 1 else 0
    ensures LagsOf(events + [e], w) == LagsOf(events, w) + if FollowBy(w)(e) then [e.lag] else []
  {
    FilterConcat(events, [e], LeadBy(w));
    assert (events + [e])[..|events|] == events;
  }

  method Record(stats: map<string, Stats>, clusters: Labels, ghost events: seq<Event>, e: Event)
    returns (r: map<string, Stats>)
    requires Tracks(stats, clusters, events) && e.wallet in clusters
    ensures Tracks(r, clusters, events + [e])
  {
    var was := stats[e.wallet];
    assert StatsOf(was, e.wallet, events);
    r := stats[e.wallet := match e
                           case Lead(_) => was.(leads := was.leads + 1)
                           case Follow(_, lag) => was.(lags := was.lags + [lag])];
    forall w | w in r
      ensures StatsOf(r[w], w, events + [e])
    {
      EventAdded(events, e, w);
      assert w != e.wallet ==> StatsOf(stats[w], w, events);
    }
  }

  lemma FollowsStep(events: seq<Event>, rest: seq<TradeNorm>, i: nat, start: int)
    requires i < |rest|
    ensures events + Follows(rest[..i], start) + [Follow(rest[i].walletAddr, rest[i].tsMs - start)]
            == events + Follows(rest[..i + 1], start)
  {
    assert rest[..i + 1][..i] == rest[..i];
  }

  lemma EventsStep(events: seq<Event>, sorted: seq<TradeNorm>)
    requires |sorted| >= 2
    ensures events + [Lead(sorted[0].walletAddr)] + Follows(sorted[1..], sorted[0].tsMs) == events + EventsOf(sorted)
  {
  }

  method AddFollows(before: map<string, Stats>, clusters: Labels, ghost events: seq<Event>, rest: seq<TradeNorm>, start: int)
    returns (stats: map<string, Stats>)
    requires Tracks(before, clusters, events)
    requires forall t | t in rest :: t.walletAddr in clusters
    ensures Tracks(stats, clusters, events + Follows(rest, start))
  {
    stats := before;
    assert events + Follows(rest[..0], start) == events;
    for i := 0 to |rest|
      invariant Tracks(stats, clusters, events + Follows(rest[..i], start))
    {
      FollowsStep(events, rest, i, start);
      stats := Record(stats, clusters, events + Follows(rest[..i], start),
                      Follow(rest[i].walletAddr, rest[i].tsMs - start));
    }
    assert rest[..|rest|] == rest;
  }

  /** Records one mint: its leader, then the lag of each later buy. */
  method AddMint(before: map<string, Stats>, clusters: Labels, ghost events: seq<Event>, sorted: seq<TradeNorm>)
    returns (stats: map<string, Stats>)
    requires Tracks(before, clusters, events)
    requires forall t | t in sorted :: t.walletAddr in clusters
    ensures Tracks(stats, clusters, events + EventsOf(sorted))
  {
    if |sorted| < 2 {
      assert events + [] == events;
      stats := before;
      return;
    }
    var leader := sorted[0];
    stats := Record(before, clusters, events, Lead(leader.walletAddr));
    stats := AddFollows(stats, clusters, events + [Lead(leader.walletAddr)], sorted[1..], leader.tsMs);
    EventsStep(events, sorted);
  }

  lemma GroupIsClustered(trades: seq<TradeNorm>, clusters: Labels, mint: string)
    ensures forall t :: t in Group(trades, clusters, mint) <==> t in trades && ClusteredBuy(clusters, mint)(t)
    ensures Sorted(Group(trades, clusters, mint), ByTime)
    ensures |Group(trades, clusters, mint)| == |Filter(trades, ClusteredBuy(clusters, mint))|
  {
    FilterMembers(trades, ClusteredBuy(clusters, mint));
    SortCorrect(Filter(trades, ClusteredBuy(clusters, mint)), ByTime);
  }

  method CollectStats(trades: seq<TradeNorm>, clusters: Labels)
    returns (stats: map<string, Stats>, ghost events: seq<Event>)
    ensures Tracks(stats, clusters, events) && IsHistory(events, trades, clusters)
  {
    stats := map w | w in clusters :: Stats(0, []);
    var pending := BoughtMints(trades);
    ghost var order: seq<string> := [];
    while pending != {}
      invariant pending <= BoughtMints(trades)
      invariant Visits(order, BoughtMints(trades) - pending)
      invariant Tracks(stats, clusters, EventsIn(trades, clusters, order))
    {
      var mint :| mint in pending;
      pending := pending - {mint};
      GroupIsClustered(trades, clusters, mint);
      stats := AddMint(stats, clusters, EventsIn(trades, clusters, order), Group(trades, clusters, mint));
      assert (order + [mint])[..|order|] == order;
      order := order + [mint];
    }
    events := EventsIn(trades, clusters, order);
  }

  /** Metrics of exactly the clustered wallets, all drawn from one history of the trades. */
  ghost predicate AreMetrics(metrics: map<string, Metrics>, trades: seq<TradeNorm>, clusters: Labels, events: seq<Event>) {
    && IsHistory(events, trades, clusters)
    && metrics.Keys == clusters.Keys
    && forall w | w in metrics :: IsMetrics(metrics[w], w, clusters, events)
  }

  function MetricsFor(w: string, clusters: Labels, s: Stats): Metrics
    requires w in clusters
  {
    var size := |Members(clusters, clusters[w])|;
    Metrics(clusters[w], LeaderScore(s.leads, size), if s.lags == [] then None else Some(Median(s.lags)), size - 1)
  }

  lemma MetricsFromStats(w: string, clusters: Labels, s: Stats, events: seq<Event>)
    requires w in clusters && StatsOf(s, w, events)
    ensures IsMetrics(MetricsFor(w, clusters, s), w, clusters, events)
  {
  }

  method ComputeLeaderMetrics(trades: seq<TradeNorm>, clusters: Labels) returns (metrics: map<string, Metrics>)
    ensures exists events :: AreMetrics(metrics, trades, clusters, events)
  {
    var stats, events := CollectStats(trades, clusters);
    metrics := map w | w in clusters :: MetricsFor(w, clusters, stats[w]);
    forall w | w in metrics
      ensures IsMetrics(metrics[w], w, clusters, events)
    {
      assert StatsOf(stats[w], w, events);
      MetricsFromStats(w, clusters, stats[w], events);
    }
    assert AreMetrics(metrics, trades, clusters, events);
  }

  function LabelsOf(metrics: map<string, Metrics>): Labels {
    map w | w in metrics :: metrics[w].clusterLabel
  }

  method BuildClusters(trades: seq<TradeNorm>, minCoTrades: int, window: int) returns (metrics: map<string, Metrics>)
    ensures Clusters.ClustersOf(LabelsOf(metrics), trades, minCoTrades, window)
    ensures exists events :: AreMetrics(metrics, trades, LabelsOf(metrics), events)
  {
    var clusters := Clusters.ClusterTrades(trades, minCoTrades, window);
    metrics := ComputeLeaderMetrics(trades, clusters);
    ghost var events :| AreMetrics(metrics, trades, clusters, events);
    LabelsAreKept(metrics, trades, clusters, events);
  }

  lemma LabelsAreKept(metrics: map<string, Metrics>, trades: seq<TradeNorm>, clusters: Labels, events: seq<Event>)
    requires AreMetrics(metrics, trades, clusters, events)
    ensures LabelsOf(metrics) == clusters
  {
    assert forall w | w in metrics :: IsMetrics(metrics[w], w, clusters, events);
  }

  // ---- Leaders are first, lags are not negative ----

  ghost predicate IsFirst<T>(xs: seq<T>, i: int, le: (T, T) -> bool) {
    && 0 <= i < |xs|
    && (forall j | 0 <= j < |xs| :: le(xs[i], xs[j]))
    && forall j | 0 <= j < i :: !le(xs[j], xs[i])
  }

  lemma {:induction false} SortHead<T(!new)>(xs: seq<T>, le: (T, T) -> bool) returns (i: int)
    requires TotalPreorder(le) && xs != []
    ensures IsFirst(xs, i, le) && Sort(xs, le)[0] == xs[i]
  {
    if |xs| == 1 {
      i := 0;
    } else {
      var k := SortHead(xs[1..], le);
      assert xs[1..][k] == xs[k + 1];
      i := if le(xs[0], xs[k + 1]) then 0 else k + 1;
      forall j | 0 <= j < |xs|
        ensures le(xs[i], xs[j]) && (j < i ==> !le(xs[j], xs[i]))
      {
        if j > 0 {
          assert xs[j] == xs[1..][j - 1];
          assert le(xs[k + 1], xs[j]);
        }
      }
    }
  }

  /** The leader of a mint is its earliest clustered buyer, on equal times the one listed first. */
  lemma LeaderBuysFirst(trades: seq<TradeNorm>, clusters: Labels, mint: string) returns (i: int)
    requires EventsOf(Group(trades, clusters, mint)) != []
    ensures var buys := Filter(trades, ClusteredBuy(clusters, mint));
            IsFirst(buys, i, ByTime) && EventsOf(Group(trades, clusters, mint))[0] == Lead(buys[i].walletAddr)
  {
    GroupIsClustered(trades, clusters, mint);
    i := SortHead(Filter(trades, ClusteredBuy(clusters, mint)), ByTime);
  }

  lemma {:induction false} FollowAt(sorted: seq<TradeNorm>, start: int, i: nat)
    requires i < |sorted|
    ensures |Follows(sorted, start)| == |sorted|
    ensures Follows(sorted, start)[i] == Follow(sorted[i].walletAddr, sorted[i].tsMs - start)
  {
    FollowsCount(sorted, start);
    var n := |sorted| - 1;
    FollowsCount(sorted[..n], start);
    if i < n {
      FollowAt(sorted[..n], start, i);
    }
  }

  /** On a mint with at least two clustered buys, each buy but the first is one event: its wallet followed,
      by the time that had passed since the first. */
  lemma LagIsTimeSinceLeader(sorted: seq<TradeNorm>, i: nat)
    requires 0 < i < |sorted|
    ensures |EventsOf(sorted)| == |sorted| && EventsOf(sorted)[0] == Lead(sorted[0].walletAddr)
    ensures EventsOf(sorted)[i] == Follow(sorted[i].walletAddr, sorted[i].tsMs - sorted[0].tsMs)
  {
    FollowAt(sorted[1..], sorted[0].tsMs, i - 1);
  }

  ghost predicate NoNegativeLag(events: seq<Event>) {
    forall e | e in events && e.Follow? :: e.lag >= 0
  }

  lemma {:induction false} FollowsNotNegative(sorted: seq<TradeNorm>, start: int)
    requires forall t | t in sorted :: start <= t.tsMs
    ensures NoNegativeLag(Follows(sorted, start))
  {
    if sorted != [] {
      assert sorted[|sorted| - 1] in sorted;
      FollowsNotNegative(sorted[..|sorted| - 1], start);
    }
  }

  lemma {:induction false} HistoryNotNegative(trades: seq<TradeNorm>, clusters: Labels, order: seq<string>)
    ensures NoNegativeLag(EventsIn(trades, clusters, order))
  {
    if order != [] {
      HistoryNotNegative(trades, clusters, order[..|order| - 1]);
      var g := Group(trades, clusters, order[|order| - 1]);
      GroupIsClustered(trades, clusters, order[|order| - 1]);
      if |g| >= 2 {
        assert forall i | 1 <= i < |g| :: ByTime(g[0], g[i]);
        FollowsNotNegative(g[1..], g[0].tsMs);
      }
    }
  }

  lemma {:induction false} LagsAreEvents(events: seq<Event>, w: string)
    requires NoNegativeLag(events)
    ensures forall l | l in LagsOf(events, w) :: l >= 0
    ensures |LagsOf(events, w)| == |Filter(events, FollowBy(w))|
  {
    if events != [] {
      var n := |events| - 1;
      LagsAreEvents(events[..n], w);
      assert events == events[..n] + [events[n]];
      assert events[n] in events;
      FilterConcat(events[..n], [events[n]], FollowBy(w));
    }
  }

  // ---- The median ----

  function Below(m: int): int -> bool {
    (x: int) => x < m
  }

  function Above(m: int): int -> bool {
    (x: int) => x > m
  }

  lemma {:induction false} FewPast<T(!new)>(s: seq<T>, k: nat, p: T -> bool)
    requires k <= |s|
    requires (forall i | 0 <= i < k :: !p(s[i])) || (forall i | k <= i < |s| :: !p(s[i]))
    ensures (forall i | 0 <= i < k :: !p(s[i])) ==> |Filter(s, p)| <= |s| - k
    ensures (forall i | k <= i < |s| :: !p(s[i])) ==> |Filter(s, p)| <= k
  {
    assert s == s[..k] + s[k..];
    FilterConcat(s[..k], s[k..], p);
    FilterMembers(s[..k], p);
    FilterMembers(s[k..], p);
    if forall i | 0 <= i < k :: !p(s[i]) {
      FilterNone(s[..k], p);
    }
    if forall i | k <= i < |s| :: !p(s[i]) {
      FilterNone(s[k..], p);
    }
  }

  lemma MedianBetweenMiddles(lags: seq<int>)
    requires lags != []
    ensures var s := Sort(lags, IntLe);
            s[(|s| - 1) / 2] <= Median(lags) <= s[|s| / 2] && Sorted(s, IntLe)
  {
    var s := Sort(lags, IntLe);
    SortCorrect(lags, IntLe);
    var lo, hi := (|s| - 1) / 2, |s| / 2;
    if lo < hi {
      assert IntLe(s[lo], s[hi]);
    }
  }

  lemma FewBelow(s: seq<int>, m: int, hi: nat)
    requires Sorted(s, IntLe) && hi < |s| && m <= s[hi]
    ensures |Filter(s, Below(m))| <= hi
  {
    forall i | hi <= i < |s|
      ensures !Below(m)(s[i])
    {
      assert i == hi || IntLe(s[hi], s[i]);
    }
    FewPast(s, hi, Below(m));
  }

  lemma FewAbove(s: seq<int>, m: int, lo: nat)
    requires Sorted(s, IntLe) && lo < |s| && s[lo] <= m
    ensures |Filter(s, Above(m))| <= |s| - (lo + 1)
  {
    forall i | 0 <= i < lo + 1
      ensures !Above(m)(s[i])
    {
      assert i == lo || IntLe(s[i], s[lo]);
    }
    FewPast(s, lo + 1, Above(m));
  }

  /** At most half of the lags lie below the reported one, and at most half above it. */
  lemma MedianSplits(lags: seq<int>)
    requires lags != []
    ensures 2 * |Filter(lags, Below(Median(lags)))| <= |lags|
    ensures 2 * |Filter(lags, Above(Median(lags)))| <= |lags|
  {
    var s, m := Sort(lags, IntLe), Median(lags);
    MedianBetweenMiddles(lags);
    FewBelow(s, m, |s| / 2);
    FewAbove(s, m, (|s| - 1) / 2);
    SameCount(lags, Below(m));
    SameCount(lags, Above(m));
  }

  lemma SameCount(lags: seq<int>, p: int -> bool)
    ensures |Filter(Sort(lags, IntLe), p)| == |Filter(lags, p)|
  {
    FilterSort(lags, IntLe, p);
    SortCorrect(Filter(lags, p), IntLe);
  }

  lemma MedianNotNegative(lags: seq<int>)
    requires lags != [] && forall l | l in lags :: l >= 0
    ensures Median(lags) >= 0
  {
    var s := Sort(lags, IntLe);
    SortCorrect(lags, IntLe);
    assert s[(|s| - 1) / 2] in lags && s[|s| / 2] in lags;
  }

  // ---- What the metrics of a clustered wallet promise ----

  lemma ClusterHasPeer(m: Matrix, minCoTrades: int, clusters: Labels, w: string)
    requires WellKeyed(m) && Clusters.IsClustering(clusters, Clusters.Edges(m, minCoTrades)) && w in clusters
    ensures |Members(clusters, clusters[w])| >= 2
  {
    var edge := Clusters.Edges(m, minCoTrades);
    assert Clusters.HasEdge(edge, w);
    var v :| edge(w, v);
    assert v != w;
    Clusters.EdgeConnects(edge, w, w, v);
    assert v in clusters && clusters[v] == clusters[w];
    SubsetCardinality({v, w}, Members(clusters, clusters[w]));
  }

  lemma QuotientBelowOne(a: real, d: real)
    requires a >= 0.0 && d > 0.0
    ensures a / d < 1.0 <==> a < d
    ensures a / d >= 0.0 && (a / d == 0.0 <==> a == 0.0)
  {
    var q := a / d;
    assert Times(q, d) == a;
    QuotientAgainstOne(q, d);
  }

  lemma QuotientAgainstOne(q: real, d: real)
    requires d > 0.0
    ensures q < 1.0 <==> Times(q, d) < d
    ensures Times(q, d) == 0.0 <==> q == 0.0
    ensures Times(q, d) >= 0.0 ==> q >= 0.0
  {
    if q < 1.0 {
      ProductMonotone(q, 1.0, d);
    } else {
      ProductMonotone(1.0, q, d);
    }
    if Times(q, d) >= 0.0 {
      FactorSign(q, d);
    }
    if Times(q, d) == d {
      assert (q - 1.0) * d == 0.0;
    }
  }

  lemma ScoreRange(leads: nat, size: nat)
    requires size >= 2
    ensures 0.0 <= LeaderScore(leads, size) <= 1.0
    ensures LeaderScore(leads, size) > 0.0 <==> leads > 0
    ensures LeaderScore(leads, size) == 1.0 <==> 2 * leads >= size
  {
    var a, d := leads as real, size as real * 0.5;
    QuotientBelowOne(a, d);
    assert a < d <==> 2 * leads < size;
  }

  lemma ScoreIsShare(leads: nat, size: nat)
    requires size >= 2
    ensures LeaderScore(leads, size) < 1.0 ==> Times(LeaderScore(leads, size), size as real) == (2 * leads) as real
  {
    var a, d := leads as real, size as real * 0.5;
    var q := a / d;
    assert Times(q, d) == a;
    HalfTimes(q, size as real);
    assert leads == 0 ==> Times(0.0, size as real) == 0.0;
  }

  lemma HalfTimes(q: real, s: real)
    ensures Times(q, s) == 2.0 * Times(q, s * 0.5)
  {
  }

  /** Every clustered wallet has a peer; its score is in [0, 1], positive exactly if it led a mint and
      full exactly if it led at least half as many mints as its cluster has members; below that it is
      twice its leads over the members. */
  lemma ScoresAreSound(trades: seq<TradeNorm>, minCoTrades: int, window: int, clusters: Labels,
                       events: seq<Event>, w: string, r: Metrics)
    requires Clusters.ClustersOf(clusters, trades, minCoTrades, window) && IsMetrics(r, w, clusters, events)
    ensures r.coTradeCount >= 1
    ensures 0.0 <= r.leaderScore <= 1.0
    ensures r.leaderScore > 0.0 <==> LeadsOf(events, w) > 0
    ensures r.leaderScore == 1.0 <==> 2 * LeadsOf(events, w) >= r.coTradeCount + 1
    ensures r.leaderScore < 1.0 ==> Times(r.leaderScore, (r.coTradeCount + 1) as real) == (2 * LeadsOf(events, w)) as real
  {
    var m :| IsMatrix(m, trades, window) && Clusters.IsClustering(clusters, Clusters.Edges(m, minCoTrades));
    ClusterHasPeer(m, minCoTrades, clusters, w);
    ScoreRange(LeadsOf(events, w), |Members(clusters, clusters[w])|);
    ScoreIsShare(LeadsOf(events, w), |Members(clusters, clusters[w])|);
  }

  lemma ShareOrder(x: real, y: real, size: real)
    requires size > 0.0 && Times(x, size) <= Times(y, size)
    ensures x <= y
  {
    assert (y - x) * size == Times(y, size) - Times(x, size);
    FactorSign(y - x, size);
  }

  /** Of two wallets in one cluster, the one that led more mints never scores lower. */
  lemma MoreLeadsRankHigher(trades: seq<TradeNorm>, minCoTrades: int, window: int, clusters: Labels, events: seq<Event>,
                            v: string, w: string, rv: Metrics, rw: Metrics)
    requires Clusters.ClustersOf(clusters, trades, minCoTrades, window)
    requires IsMetrics(rv, v, clusters, events) && IsMetrics(rw, w, clusters, events) && clusters[v] == clusters[w]
    requires LeadsOf(events, v) <= LeadsOf(events, w)
    ensures rv.leaderScore <= rw.leaderScore
  {
    ScoresAreSound(trades, minCoTrades, window, clusters, events, v, rv);
    ScoresAreSound(trades, minCoTrades, window, clusters, events, w, rw);
    if rw.leaderScore < 1.0 {
      ShareOrder(rv.leaderScore, rw.leaderScore, (rv.coTradeCount + 1) as real);
    }
  }

  /** The lag is reported exactly if the wallet ever followed, and is then a non-negative median. */
  lemma LagsAreSound(trades: seq<TradeNorm>, clusters: Labels, events: seq<Event>, w: string, r: Metrics)
    requires IsHistory(events, trades, clusters) && IsMetrics(r, w, clusters, events)
    ensures r.followerLagMs == None <==> Filter(events, FollowBy(w)) == []
    ensures r.followerLagMs.Some? ==>
              && r.followerLagMs.value >= 0
              && 2 * |Filter(LagsOf(events, w), Below(r.followerLagMs.value))| <= |LagsOf(events, w)|
              && 2 * |Filter(LagsOf(events, w), Above(r.followerLagMs.value))| <= |LagsOf(events, w)|
  {
    var order :| Visits(order, BoughtMints(trades)) && events == EventsIn(trades, clusters, order);
    HistoryNotNegative(trades, clusters, order);
    LagsAreEvents(events, w);
    if LagsOf(events, w) != [] {
      MedianSplits(LagsOf(events, w));
      MedianNotNegative(LagsOf(events, w));
    }
  }

  // ---- Every clustered buy on a contested mint is one lead or one lag ----

  lemma {:induction false} FilterSplit<T>(xs: seq<T>, p: T -> bool, q: T -> bool, either: T -> bool)
    requires forall x | x in xs :: (either(x) <==> p(x) || q(x)) && !(p(x) && q(x))
    ensures |Filter(xs, either)| == |Filter(xs, p)| + |Filter(xs, q)|
  {
    if xs != [] {
      FilterSplit(xs[1..], p, q, either);
    }
  }

  function EventOfAny(ws: seq<string>): Event -> bool {
    (e: Event) => e.wallet in ws
  }

  /** Leads and lags, summed over the wallets. */
  function LeadsAndLags(events: seq<Event>, ws: seq<string>): nat {
    if ws == [] then 0 else LeadsOf(events, ws[0]) + |LagsOf(events, ws[0])| + LeadsAndLags(events, ws[1..])
  }

  lemma {:induction false} LeadsAndLagsCount(events: seq<Event>, ws: seq<string>)
    requires Distinct(ws) && NoNegativeLag(events)
    ensures LeadsAndLags(events, ws) == |Filter(events, EventOfAny(ws))|
  {
    if ws == [] {
      FilterNone(events, EventOfAny(ws));
    } else {
      var w := ws[0];
      assert ws == [w] + ws[1..];
      LeadsAndLagsCount(events, ws[1..]);
      LagsAreEvents(events, w);
      FilterSplit(events, LeadBy(w), FollowBy(w), EventOfAny([w]));
      FilterSplit(events, EventOfAny([w]), EventOfAny(ws[1..]), EventOfAny(ws));
    }
  }

  /** At least two clustered buys. */
  predicate Contested(trades: seq<TradeNorm>, clusters: Labels, mint: string) {
    |Filter(trades, ClusteredBuy(clusters, mint))| >= 2
  }

  function ContestedBuy(trades: seq<TradeNorm>, clusters: Labels, mints: seq<string>): TradeNorm -> bool {
    (t: TradeNorm) => ClusteredBuy(clusters, t.mint)(t) && t.mint in mints && Contested(trades, clusters, t.mint)
  }

  lemma {:induction false} FollowsCount(sorted: seq<TradeNorm>, start: int)
    ensures |Follows(sorted, start)| == |sorted|
  {
    if sorted != [] {
      FollowsCount(sorted[..|sorted| - 1], start);
    }
  }

  lemma MintEvents(trades: seq<TradeNorm>, clusters: Labels, mint: string)
    ensures |EventsOf(Group(trades, clusters, mint))| == |Filter(trades, ContestedBuy(trades, clusters, [mint]))|
  {
    var g := Group(trades, clusters, mint);
    GroupIsClustered(trades, clusters, mint);
    if |g| < 2 {
      FilterNone(trades, ContestedBuy(trades, clusters, [mint]));
    } else {
      FollowsCount(g[1..], g[0].tsMs);
      SameFilter(trades, ClusteredBuy(clusters, mint), ContestedBuy(trades, clusters, [mint]));
    }
  }

  lemma {:induction false} SameFilter<T>(xs: seq<T>, p: T -> bool, q: T -> bool)
    requires forall x | x in xs :: p(x) <==> q(x)
    ensures Filter(xs, p) == Filter(xs, q)
  {
    if xs != [] {
      SameFilter(xs[1..], p, q);
    }
  }

  lemma {:induction false} EventsCountBuys(trades: seq<TradeNorm>, clusters: Labels, order: seq<string>)
    requires Distinct(order)
    ensures |EventsIn(trades, clusters, order)| == |Filter(trades, ContestedBuy(trades, clusters, order))|
  {
    if order == [] {
      FilterNone(trades, ContestedBuy(trades, clusters, order));
    } else {
      var n := |order| - 1;
      assert order == order[..n] + [order[n]];
      EventsCountBuys(trades, clusters, order[..n]);
      MintEvents(trades, clusters, order[n]);
      FilterSplit(trades, ContestedBuy(trades, clusters, order[..n]), ContestedBuy(trades, clusters, [order[n]]),
                  ContestedBuy(trades, clusters, order));
    }
  }

  lemma {:induction false} FollowersClustered(sorted: seq<TradeNorm>, start: int, clusters: Labels)
    requires forall t | t in sorted :: t.walletAddr in clusters
    ensures forall e | e in Follows(sorted, start) :: e.wallet in clusters
  {
    if sorted != [] {
      assert sorted[|sorted| - 1] in sorted;
      FollowersClustered(sorted[..|sorted| - 1], start, clusters);
    }
  }

  lemma {:induction false} EventsClustered(trades: seq<TradeNorm>, clusters: Labels, order: seq<string>)
    ensures forall e | e in EventsIn(trades, clusters, order) :: e.wallet in clusters
  {
    if order != [] {
      var n := |order| - 1;
      EventsClustered(trades, clusters, order[..n]);
      GroupIsClustered(trades, clusters, order[n]);
      var g := Group(trades, clusters, order[n]);
      if |g| >= 2 {
        assert forall t | t in g[1..] :: t in g;
        FollowersClustered(g[1..], g[0].tsMs, clusters);
        assert g[0] in g;
      }
    }
  }

  function OnContestedMint(trades: seq<TradeNorm>, clusters: Labels): TradeNorm -> bool {
    (t: TradeNorm) => ClusteredBuy(clusters, t.mint)(t) && Contested(trades, clusters, t.mint)
  }

  /** Conservation: leads and lags over all clustered wallets number the buys by clustered wallets on
      mints with at least two of them. */
  lemma LeadsAndLagsAreConserved(trades: seq<TradeNorm>, clusters: Labels, events: seq<Event>, ws: seq<string>)
    requires IsHistory(events, trades, clusters) && Visits(ws, clusters.Keys)
    ensures LeadsAndLags(events, ws) == |Filter(trades, OnContestedMint(trades, clusters))|
  {
    var order :| Visits(order, BoughtMints(trades)) && events == EventsIn(trades, clusters, order);
    HistoryNotNegative(trades, clusters, order);
    LeadsAndLagsCount(events, ws);
    EventsClustered(trades, clusters, order);
    FilterAll(events, EventOfAny(ws));
    EventsCountBuys(trades, clusters, order);
    assert forall t | t in trades && ClusteredBuy(clusters, t.mint)(t) :: t.mint in BoughtMints(trades);
    SameFilter(trades, ContestedBuy(trades, clusters, order), OnContestedMint(trades, clusters));
  }

  // ---- The order in which mints are visited does not matter ----

  lemma EventsSnoc(trades: seq<TradeNorm>, clusters: Labels, order: seq<string>, m: string)
    ensures EventsIn(trades, clusters, order + [m])
            == EventsIn(trades, clusters, order) + EventsOf(Group(trades, clusters, m))
  {
    assert (order + [m])[..|order|] == order;
  }

  lemma Regroup<T>(a: seq<T>, b: seq<T>, c: seq<T>)
    ensures a + (b + c) == (a + b) + c
  {
  }

  lemma SplitAt<T>(xs: seq<T>, i: nat)
    requires i < |xs|
    ensures xs == xs[..i] + [xs[i]] + xs[i + 1..]
  {
  }

  lemma EventsConcatStep(trades: seq<TradeNorm>, clusters: Labels, xs: seq<string>, init: seq<string>, m: string)
    requires EventsIn(trades, clusters, xs + init) == EventsIn(trades, clusters, xs) + EventsIn(trades, clusters, init)
    ensures EventsIn(trades, clusters, xs + (init + [m]))
            == EventsIn(trades, clusters, xs) + EventsIn(trades, clusters, init + [m])
  {
    EventsSnoc(trades, clusters, xs + init, m);
    EventsSnoc(trades, clusters, init, m);
    Regroup(xs, init, [m]);
    Regroup(EventsIn(trades, clusters, xs), EventsIn(trades, clusters, init), EventsOf(Group(trades, clusters, m)));
  }

  lemma EventsConcatNone(trades: seq<TradeNorm>, clusters: Labels, xs: seq<string>)
    ensures EventsIn(trades, clusters, xs + []) == EventsIn(trades, clusters, xs) + EventsIn(trades, clusters, [])
  {
    assert xs + [] == xs;
  }

  lemma {:induction false} EventsConcat(trades: seq<TradeNorm>, clusters: Labels, xs: seq<string>, ys: seq<string>)
    ensures EventsIn(trades, clusters, xs + ys) == EventsIn(trades, clusters, xs) + EventsIn(trades, clusters, ys)
  {
    if ys == [] {
      EventsConcatNone(trades, clusters, xs);
    } else {
      var init, m := ys[..|ys| - 1], ys[|ys| - 1];
      assert ys == init + [m];
      EventsConcat(trades, clusters, xs, init);
      EventsConcatStep(trades, clusters, xs, init, m);
    }
  }

  /** Moving one mint to the end moves its events to the end. */
  lemma EventsMoveLast(trades: seq<TradeNorm>, clusters: Labels, xs: seq<string>, m: string, ys: seq<string>)
    ensures multiset(EventsIn(trades, clusters, xs + [m] + ys))
            == multiset(EventsIn(trades, clusters, xs + ys)) + multiset(EventsOf(Group(trades, clusters, m)))
  {
    EventsConcat(trades, clusters, xs + [m], ys);
    EventsSnoc(trades, clusters, xs, m);
    EventsConcat(trades, clusters, xs, ys);
  }

  lemma VisitsWithout(order: seq<string>, mints: set<string>, i: nat)
    requires Visits(order, mints) && i < |order|
    ensures Visits(order[..i] + order[i + 1..], mints - {order[i]})
  {
    var rest := order[..i] + order[i + 1..];
    forall m
      ensures m in rest <==> m in mints && m != order[i]
    {
      assert order == order[..i] + [order[i]] + order[i + 1..];
    }
  }

  lemma {:induction false} SameMintsSameEvents(trades: seq<TradeNorm>, clusters: Labels, xs: seq<string>, ys: seq<string>,
                                               mints: set<string>)
    requires Visits(xs, mints) && Visits(ys, mints)
    ensures multiset(EventsIn(trades, clusters, xs)) == multiset(EventsIn(trades, clusters, ys))
  {
    if xs == [] {
      if ys != [] {
        HasMint(ys, mints);
        assert false;
      }
    } else {
      var n := |xs| - 1;
      var m, init := xs[n], xs[..n];
      assert xs == init + [m] && m in ys;
      var i :| 0 <= i < |ys| && ys[i] == m;
      var rest := ys[..i] + ys[i + 1..];
      LastVisitLeft(init, m, mints);
      VisitsWithout(ys, mints, i);
      SameMintsSameEvents(trades, clusters, init, rest, mints - {m});
      EventsSnoc(trades, clusters, init, m);
      SplitAt(ys, i);
      EventsMoveLast(trades, clusters, ys[..i], m, ys[i + 1..]);
    }
  }

  lemma LastVisitLeft(init: seq<string>, m: string, mints: set<string>)
    requires Visits(init + [m], mints)
    ensures Visits(init, mints - {m})
  {
    var order := init + [m];
    VisitsWithout(order, mints, |init|);
    assert order[..|init|] + order[|init| + 1..] == init;
  }

  lemma HasMint(order: seq<string>, mints: set<string>)
    requires Visits(order, mints) && order != []
    ensures mints != {}
  {
    assert order[0] in order;
  }

  lemma {:induction false} LagMultiplicity(events: seq<Event>, w: string, lag: int)
    ensures multiset(LagsOf(events, w))[lag] == multiset(events)[Follow(w, lag)]
  {
    if events != [] {
      var n := |events| - 1;
      LagMultiplicity(events[..n], w, lag);
      assert events == events[..n] + [events[n]];
    }
  }

  lemma SameEventsSameLags(xs: seq<Event>, ys: seq<Event>, w: string)
    requires multiset(xs) == multiset(ys)
    ensures multiset(LagsOf(xs, w)) == multiset(LagsOf(ys, w))
  {
    forall lag
      ensures multiset(LagsOf(xs, w))[lag] == multiset(LagsOf(ys, w))[lag]
    {
      LagMultiplicity(xs, w, lag);
      LagMultiplicity(ys, w, lag);
    }
  }

  lemma LeastInt(a: seq<int>, b: seq<int>)
    requires Sorted(a, IntLe) && Sorted(b, IntLe) && a != [] && b != [] && a[0] in b && b[0] in a
    ensures a[0] == b[0]
  {
    var i :| 0 <= i < |b| && b[i] == a[0];
    var j :| 0 <= j < |a| && a[j] == b[0];
    assert (i == 0 || IntLe(b[0], b[i])) && (j == 0 || IntLe(a[0], a[j]));
  }

  lemma {:induction false} SortedIntsUnique(a: seq<int>, b: seq<int>)
    requires Sorted(a, IntLe) && Sorted(b, IntLe) && multiset(a) == multiset(b)
    ensures a == b
  {
    SameMembers(a, b);
    if a != [] {
      assert a[0] in b && b[0] in a;
      LeastInt(a, b);
      TailsAgree(a[0], a[1..], b[1..], a, b);
      SortedIntsUnique(a[1..], b[1..]);
    }
  }

  lemma TailsAgree(h: int, ta: seq<int>, tb: seq<int>, a: seq<int>, b: seq<int>)
    requires a != [] && a[0] == h && ta == a[1..] && b != [] && b[0] == h && tb == b[1..]
    requires multiset(a) == multiset(b) && Sorted(a, IntLe) && Sorted(b, IntLe)
    ensures multiset(ta) == multiset(tb) && Sorted(ta, IntLe) && Sorted(tb, IntLe) && a == [h] + ta && b == [h] + tb
  {
    assert a == [h] + ta && b == [h] + tb;
    assert multiset(ta) == multiset(a) - multiset{h};
    assert multiset(tb) == multiset(b) - multiset{h};
    HeadPrecedes(h, ta, IntLe);
    HeadPrecedes(h, tb, IntLe);
  }

  lemma SameLagsSameMedian(a: seq<int>, b: seq<int>)
    requires multiset(a) == multiset(b)
    ensures a == [] <==> b == []
    ensures a != [] && b != [] ==> Median(a) == Median(b)
  {
    SameMembers(a, b);
    SortCorrect(a, IntLe);
    SortCorrect(b, IntLe);
    SortedIntsUnique(Sort(a, IntLe), Sort(b, IntLe));
  }

  /** Every history gives a wallet the same metrics, so the order of the mints plays no part. */
  lemma MetricsIgnoreMintOrder(trades: seq<TradeNorm>, clusters: Labels, xs: seq<Event>, ys: seq<Event>, w: string,
                               r: Metrics, r': Metrics)
    requires IsHistory(xs, trades, clusters) && IsHistory(ys, trades, clusters)
    requires IsMetrics(r, w, clusters, xs) && IsMetrics(r', w, clusters, ys)
    ensures r == r'
  {
    var o :| Visits(o, BoughtMints(trades)) && xs == EventsIn(trades, clusters, o);
    var o' :| Visits(o', BoughtMints(trades)) && ys == EventsIn(trades, clusters, o');
    SameMintsSameEvents(trades, clusters, o, o', BoughtMints(trades));
    FilterPermutation(xs, ys, LeadBy(w));
    SameEventsSameLags(xs, ys, w);
    SameLagsSameMedian(LagsOf(xs, w), LagsOf(ys, w));
  }
}
