/** Conflict-resolving merge of wallet profiles (integration/wallet_merge.py). */
module WalletMerge {
  import opened Collections
  import opened Text

  /** The five fields that are always taken together from one profile. */
  datatype Numeric = Numeric(roi30d: Option<real>, winrate30d: Option<real>, medianHoldSec: Option<int>,
                             avgSizeUsd: Option<real>, memecoinRatio: Option<real>)

  datatype Profile = Profile(walletAddr: string, numeric: Numeric, trades30d: Option<int>, preferredDex: Option<string>,
                             kolscanRank: Option<int>, kolscanFlags: Option<seq<string>>, lastActiveTs: Option<int>)

  /** A profile with the name of the source it came from. */
  datatype Sourced = Sourced(source: string, profile: Profile)

  function Priority(source: string): int {
    if source == "dune" then 2 else if source == "flipside" then 1 else 0
  }

  // ---- What a merged profile is ----

  /** `trades_30d or 0`. */
  function Trades(p: Profile): int {
    if p.trades30d.Some? then p.trades30d.value else 0
  }

  ghost predicate IsGreatest(values: seq<Option<int>>, m: Option<int>) {
    match m
    case None => forall i | 0 <= i < |values| :: values[i] == None
    case Some(v) =>
      && Some(v) in values
      && forall i | 0 <= i < |values| && values[i].Some? :: values[i].value <= v
  }

  function TradesOf(ps: seq<Sourced>): seq<Option<int>> {
    seq(|ps|, i requires 0 <= i < |ps| => ps[i].profile.trades30d)
  }

  function LastActiveOf(ps: seq<Sourced>): seq<Option<int>> {
    seq(|ps|, i requires 0 <= i < |ps| => ps[i].profile.lastActiveTs)
  }

  /** The running maximum of trade counts starts from zero. */
  ghost predicate IsTradesMax(ps: seq<Sourced>, m: int) {
    && m >= 0
    && (forall i | 0 <= i < |ps| :: Trades(ps[i].profile) <= m)
    && (m == 0 || exists i :: 0 <= i < |ps| && Trades(ps[i].profile) == m)
  }

  /** The numeric fields come from the last profile with the maximal count; if none has it, which
      takes a negative count throughout, from the first profile. */
  ghost predicate IsPrimary(ps: seq<Sourced>, k: int) {
    exists m :: IsTradesMax(ps, m) && PrimaryFor(ps, m, k)
  }

  ghost predicate PrimaryFor(ps: seq<Sourced>, m: int, k: int) {
    && 0 <= k < |ps|
    && (Trades(ps[k].profile) == m || k == 0)
    && (Trades(ps[k].profile) == m ==> forall j | k < j < |ps| :: Trades(ps[j].profile) != m)
    && (Trades(ps[k].profile) != m ==> forall j | 0 <= j < |ps| :: Trades(ps[j].profile) != m)
  }

  predicate HasDex(s: Sourced) {
    s.profile.preferredDex.Some? && s.profile.preferredDex.value != ""
  }

  /** The DEX of the first profile, among those that have one, of the highest-priority source. */
  ghost predicate IsDex(ps: seq<Sourced>, dex: Option<string>) {
    if forall i | 0 <= i < |ps| :: !HasDex(ps[i]) then dex == None
    else exists k :: BestDex(ps, k) && dex == ps[k].profile.preferredDex
  }

  ghost predicate BestDex(ps: seq<Sourced>, k: int) {
    && 0 <= k < |ps| && HasDex(ps[k])
    && (forall j | 0 <= j < |ps| && HasDex(ps[j]) :: Priority(ps[j].source) <= Priority(ps[k].source))
    && (forall j | 0 <= j < k && HasDex(ps[j]) :: Priority(ps[j].source) < Priority(ps[k].source))
  }

  ghost predicate IsRank(ps: seq<Sourced>, rank: Option<int>) {
    if forall i | 0 <= i < |ps| :: ps[i].profile.kolscanRank == None then rank == None
    else exists k :: FirstRank(ps, k) && rank == ps[k].profile.kolscanRank
  }

  ghost predicate FirstRank(ps: seq<Sourced>, k: int) {
    && 0 <= k < |ps| && ps[k].profile.kolscanRank.Some?
    && forall j | 0 <= j < k :: ps[j].profile.kolscanRank == None
  }

  function FlagsOf(p: Profile): set<string> {
    if p.kolscanFlags.Some? then set f | f in p.kolscanFlags.value else {}
  }

  function FlagSet(ps: seq<Sourced>): set<string> {
    if ps == [] then {} else FlagSet(ps[..|ps| - 1]) + FlagsOf(ps[|ps| - 1].profile)
  }

  ghost predicate Ascending(fs: seq<string>) {
    forall i, j | 0 <= i < j < |fs| :: Lt(fs[i], fs[j])
  }

  /** The sorted union of the flags, or nothing if there are none. */
  ghost predicate IsFlags(ps: seq<Sourced>, flags: Option<seq<string>>) {
    if FlagSet(ps) == {} then flags == None
    else flags.Some? && Ascending(flags.value) && (set f | f in flags.value) == FlagSet(ps)
  }

  ghost predicate IsMerged(m: Profile, addr: string, ps: seq<Sourced>) {
    && m.walletAddr == addr
    && (exists k :: IsPrimary(ps, k) && m.numeric == ps[k].profile.numeric)
    && IsDex(ps, m.preferredDex)
    && IsRank(ps, m.kolscanRank)
    && IsFlags(ps, m.kolscanFlags)
    && IsGreatest(LastActiveOf(ps), m.lastActiveTs)
    && IsGreatest(TradesOf(ps), m.trades30d)
  }

  // ---- Merging one wallet ----

  method Greatest(values: seq<Option<int>>) returns (m: Option<int>)
    ensures IsGreatest(values, m)
  {
    m := None;
    for i := 0 to |values|
      invariant IsGreatest(values[..i], m)
    {
      assert values[..i + 1] == values[..i] + [values[i]];
      if values[i].Some? && (m == None || values[i].value > m.value) {
        m := values[i];
      }
    }
    assert values[..|values|] == values;
  }

  method PrimaryIndex(ps: seq<Sourced>) returns (k: int)
    requires ps != []
    ensures IsPrimary(ps, k)
  {
    var tradesMax := 0;
    for i := 0 to |ps|
      invariant IsTradesMax(ps[..i], tradesMax)
    {
      var p := ps[i].profile;
      assert ps[..i + 1] == ps[..i] + [ps[i]];
      if p.trades30d.Some? && p.trades30d.value > tradesMax {
        tradesMax := p.trades30d.value;
        assert Trades(ps[..i + 1][i].profile) == tradesMax;
      } else if tradesMax != 0 {
        ghost var j :| 0 <= j < i && Trades(ps[..i][j].profile) == tradesMax;
        assert Trades(ps[..i + 1][j].profile) == tradesMax;
      }
    }
    assert ps[..|ps|] == ps;
    k := 0;
    for i := 0 to |ps|
      invariant 0 <= k < |ps| && (k == 0 || k < i)
      invariant Trades(ps[k].profile) == tradesMax || (k == 0 && forall j | 0 <= j < i :: Trades(ps[j].profile) != tradesMax)
      invariant Trades(ps[k].profile) == tradesMax ==> forall j | k < j < i :: Trades(ps[j].profile) != tradesMax
    {
      if Trades(ps[i].profile) == tradesMax {
        k := i;
      }
    }
    assert PrimaryFor(ps, tradesMax, k);
  }

  method BestDexOf(ps: seq<Sourced>) returns (dex: Option<string>)
    ensures IsDex(ps, dex)
  {
    var best := -1;
    for i := 0 to |ps|
      invariant -1 <= best < i
      invariant best == -1 ==> forall j | 0 <= j < i :: !HasDex(ps[j])
      invariant best >= 0 ==> BestDex(ps[..i], best)
    {
      assert ps[..i + 1] == ps[..i] + [ps[i]];
      if HasDex(ps[i]) && (best == -1 || Priority(ps[i].source) > Priority(ps[best].source)) {
        best := i;
      }
    }
    assert ps[..|ps|] == ps;
    dex := if best == -1 then None else ps[best].profile.preferredDex;
  }

  method FirstRankOf(ps: seq<Sourced>) returns (rank: Option<int>)
    ensures IsRank(ps, rank)
  {
    for i := 0 to |ps|
      invariant forall j | 0 <= j < i :: ps[j].profile.kolscanRank == None
    {
      if ps[i].profile.kolscanRank.Some? {
        assert FirstRank(ps, i);
        return ps[i].profile.kolscanRank;
      }
    }
    rank := None;
  }

  ghost predicate Apart<T>(xs: seq<T>, key: T -> string) {
    forall i, j | 0 <= i < j < |xs| :: key(xs[i]) != key(xs[j])
  }

  lemma {:induction false} InsertKeepsApart<T(!new)>(x: T, xs: seq<T>, le: (T, T) -> bool, key: T -> string)
    requires Apart(xs, key) && forall y | y in xs :: key(y) != key(x)
    ensures Apart(Insert(x, xs, le), key)
    ensures forall y :: y in Insert(x, xs, le) <==> y == x || y in xs
  {
    if xs != [] && !le(x, xs[0]) {
      var rest := Insert(x, xs[1..], le);
      InsertKeepsApart(x, xs[1..], le, key);
      assert xs == [xs[0]] + xs[1..];
      forall j | 0 <= j < |rest|
        ensures key(rest[j]) != key(xs[0])
      {
        assert rest[j] in rest;
      }
    }
  }

  lemma {:induction false} SortKeepsApart<T(!new)>(xs: seq<T>, le: (T, T) -> bool, key: T -> string)
    requires Apart(xs, key)
    ensures Apart(Sort(xs, le), key)
    ensures forall y :: y in Sort(xs, le) <==> y in xs
  {
    if xs != [] {
      SortKeepsApart(xs[1..], le, key);
      InsertKeepsApart(xs[0], Sort(xs[1..], le), le, key);
      assert xs == [xs[0]] + xs[1..];
    }
  }

  function Itself(s: string): string {
    s
  }

  /** `sorted(list(all_flags))`: the set is listed in any order, then sorted. */
  method SortFlags(flags: set<string>) returns (fs: seq<string>)
    ensures Ascending(fs) && (set f | f in fs) == flags
  {
    var listed: seq<string> := [];
    var rest := flags;
    while rest != {}
      invariant rest <= flags && forall f :: f in listed <==> f in flags && f !in rest
      invariant Apart(listed, Itself)
    {
      var f :| f in rest;
      rest := rest - {f};
      listed := listed + [f];
    }
    SortKeepsApart(listed, Le, Itself);
    assert TotalPreorder(Le) by { LeTotalOrder(); }
    SortCorrect(listed, Le);
    fs := Sort(listed, Le);
    forall i, j | 0 <= i < j < |fs|
      ensures Lt(fs[i], fs[j])
    {
      assert Itself(fs[i]) != Itself(fs[j]);
    }
  }

  method MergedFlags(ps: seq<Sourced>) returns (flags: Option<seq<string>>)
    ensures IsFlags(ps, flags)
  {
    var all: set<string> := {};
    for i := 0 to |ps|
      invariant all == FlagSet(ps[..i])
    {
      assert ps[..i + 1][..i] == ps[..i];
      all := all + FlagsOf(ps[i].profile);
    }
    assert ps[..|ps|] == ps;
    if all == {} {
      return None;
    }
    var fs := SortFlags(all);
    flags := Some(fs);
  }

  method MergeWallet(addr: string, ps: seq<Sourced>) returns (m: Profile)
    requires ps != []
    ensures IsMerged(m, addr, ps)
  {
    var k := PrimaryIndex(ps);
    var dex := BestDexOf(ps);
    var rank := FirstRankOf(ps);
    var flags := MergedFlags(ps);
    var lastActive := Greatest(LastActiveOf(ps));
    var maxTrades := Greatest(TradesOf(ps));
    m := Profile(addr, ps[k].profile.numeric, maxTrades, dex, rank, flags, lastActive);
  }

  /** The numeric fields come from a profile with the greatest trade count if and only if some count
      is not negative or the first profile has the greatest. */
  lemma PrimaryHasMostTrades(ps: seq<Sourced>, k: int)
    requires IsPrimary(ps, k)
    ensures (forall j | 0 <= j < |ps| :: Trades(ps[j].profile) <= Trades(ps[k].profile))
            <==> (exists i :: 0 <= i < |ps| && Trades(ps[i].profile) >= 0)
                 || (forall j | 0 <= j < |ps| :: Trades(ps[j].profile) <= Trades(ps[0].profile))
  {
    var m :| IsTradesMax(ps, m) && PrimaryFor(ps, m, k);
    if i :| 0 <= i < |ps| && Trades(ps[i].profile) >= 0 {
      if m == 0 {
        assert Trades(ps[i].profile) == m;
      }
      assert Trades(ps[k].profile) == m;
    }
  }

  ghost predicate IsFirstGreatest(ps: seq<Sourced>, k: int) {
    && 0 <= k < |ps|
    && (forall j | 0 <= j < |ps| :: Trades(ps[j].profile) <= Trades(ps[k].profile))
    && (forall j | 0 <= j < k :: Trades(ps[j].profile) < Trades(ps[k].profile))
  }

  ghost predicate IsOnlyGreatest(ps: seq<Sourced>, k: int) {
    0 <= k < |ps| && forall j | 0 <= j < |ps| && j != k :: Trades(ps[j].profile) < Trades(ps[k].profile)
  }

  /** The source's comment promises the first profile with the most trades. That is the one taken if
      and only if one profile alone has the most and its count is not negative, or all counts are
      negative and the first profile has the most. */
  lemma PrimaryIsFirstIffNoTie(ps: seq<Sourced>, k: int)
    requires IsPrimary(ps, k)
    ensures IsFirstGreatest(ps, k)
            <==> (exists i :: IsOnlyGreatest(ps, i) && Trades(ps[i].profile) >= 0)
                 || (forall j | 0 <= j < |ps| :: Trades(ps[j].profile) < 0 && Trades(ps[j].profile) <= Trades(ps[0].profile))
  {
    var m :| IsTradesMax(ps, m) && PrimaryFor(ps, m, k);
    if IsFirstGreatest(ps, k) && Trades(ps[k].profile) >= 0 {
      assert Trades(ps[k].profile) == m;
      assert IsOnlyGreatest(ps, k);
    }
    if i :| IsOnlyGreatest(ps, i) && Trades(ps[i].profile) >= 0 {
      assert Trades(ps[i].profile) == m;
      assert i == k;
    }
  }

  /** On a tie the last profile is taken. */
  lemma TieTakesTheLast(first: Sourced, last: Sourced, k: int)
    requires Trades(first.profile) == Trades(last.profile) >= 0 && IsPrimary([first, last], k)
    ensures k == 1 && !IsFirstGreatest([first, last], k)
  {
    var ps := [first, last];
    var m :| IsTradesMax(ps, m) && PrimaryFor(ps, m, k);
    assert ps[0] == first && ps[1] == last;
    assert m == Trades(first.profile);
  }

  /** The first entry of this source that names a DEX. */
  ghost predicate FirstNamed(ps: seq<Sourced>, k: int, source: string) {
    && 0 <= k < |ps| && ps[k].source == source && HasDex(ps[k])
    && forall j | 0 <= j < k && ps[j].source == source :: !HasDex(ps[j])
  }

  /** The first entry of any source that names a DEX. */
  ghost predicate FirstToName(ps: seq<Sourced>, k: int) {
    0 <= k < |ps| && HasDex(ps[k]) && forall j | 0 <= j < k :: !HasDex(ps[j])
  }

  ghost predicate NamesNone(ps: seq<Sourced>, source: string) {
    forall j | 0 <= j < |ps| && ps[j].source == source :: !HasDex(ps[j])
  }

  /** Dune decides the DEX if it names one, failing that Flipside, failing that the first to name one. */
  lemma DuneThenFlipside(ps: seq<Sourced>, dex: Option<string>, k: int)
    requires IsDex(ps, dex)
    ensures FirstNamed(ps, k, "dune") ==> dex == ps[k].profile.preferredDex
    ensures NamesNone(ps, "dune") && FirstNamed(ps, k, "flipside") ==> dex == ps[k].profile.preferredDex
    ensures NamesNone(ps, "dune") && NamesNone(ps, "flipside") && FirstToName(ps, k) ==> dex == ps[k].profile.preferredDex
  {
    if i :| BestDex(ps, i) && dex == ps[i].profile.preferredDex {
      if FirstNamed(ps, k, "dune") {
        DexFrom(ps, i, k, "dune");
      } else if NamesNone(ps, "dune") && FirstNamed(ps, k, "flipside") {
        DexFrom(ps, i, k, "flipside");
      }
    }
  }

  lemma DexFrom(ps: seq<Sourced>, i: int, k: int, source: string)
    requires BestDex(ps, i) && FirstNamed(ps, k, source)
    requires source == "dune" || (source == "flipside" && NamesNone(ps, "dune"))
    ensures i == k
  {
    assert Priority(ps[k].source) <= Priority(ps[i].source);
  }

  // ---- Merging all wallets ----

  datatype Source = Source(name: string, profiles: seq<Profile>)

  function Tagged(source: Source): seq<Sourced> {
    seq(|source.profiles|, i requires 0 <= i < |source.profiles| => Sourced(source.name, source.profiles[i]))
  }

  function AllEntries(sources: seq<Source>): seq<Sourced> {
    if sources == [] then []
    else AllEntries(sources[..|sources| - 1]) + Tagged(sources[|sources| - 1])
  }

  function At(addr: string): Sourced -> bool {
    (s: Sourced) => s.profile.walletAddr == addr
  }

  function Addresses(entries: seq<Sourced>): set<string> {
    set s | s in entries && s.profile.walletAddr != "" :: s.profile.walletAddr
  }

  function AddressOf(p: Profile): string {
    p.walletAddr
  }

  predicate ByAddress(p: Profile, q: Profile) {
    Le(p.walletAddr, q.walletAddr)
  }

  function AddressesOf(ps: seq<Profile>): seq<string> {
    seq(|ps|, i requires 0 <= i < |ps| => ps[i].walletAddr)
  }

  /** One profile per non-empty address, by increasing address, each merged from exactly the
      entries with that address in their input order. */
  ghost predicate IsMergeOf(merged: seq<Profile>, entries: seq<Sourced>) {
    && Ascending(AddressesOf(merged))
    && Covered(merged) == Addresses(entries)
    && forall p | p in merged :: MergedFrom(p, entries)
  }

  ghost predicate MergedFrom(p: Profile, entries: seq<Sourced>) {
    IsMerged(p, p.walletAddr, Filter(entries, At(p.walletAddr)))
  }

  type Groups = map<string, seq<Sourced>>

  ghost predicate IsGrouping(groups: Groups, entries: seq<Sourced>) {
    && groups.Keys == Addresses(entries)
    && forall a | a in groups :: groups[a] == Filter(entries, At(a)) && groups[a] != []
  }

  method AddEntry(groups: Groups, ghost entries: seq<Sourced>, s: Sourced) returns (r: Groups)
    requires IsGrouping(groups, entries)
    ensures IsGrouping(r, entries + [s])
  {
    var addr := s.profile.walletAddr;
    forall a: string
      ensures Filter(entries + [s], At(a)) == Filter(entries, At(a)) + if a == addr then [s] else []
    {
      FilterConcat(entries, [s], At(a));
    }
    assert Addresses(entries + [s]) == Addresses(entries) + if addr == "" then {} else {addr};
    r := groups;
    if addr == "" {
      return;
    }
    if addr !in r {
      FilterNone(entries, At(addr));
      r := r[addr := []];
    }
    r := r[addr := r[addr] + [s]];
  }

  method GroupByAddress(sources: seq<Source>) returns (groups: Groups)
    ensures IsGrouping(groups, AllEntries(sources))
  {
    groups := map[];
    for i := 0 to |sources|
      invariant IsGrouping(groups, AllEntries(sources[..i]))
    {
      ghost var before := AllEntries(sources[..i]);
      var tagged := Tagged(sources[i]);
      assert before + tagged[..0] == before;
      for j := 0 to |tagged|
        invariant IsGrouping(groups, before + tagged[..j])
      {
        groups := AddEntry(groups, before + tagged[..j], tagged[j]);
        assert before + tagged[..j] + [tagged[j]] == before + tagged[..j + 1];
      }
      assert tagged[..|tagged|] == tagged;
      assert sources[..i + 1][..i] == sources[..i];
    }
    assert sources[..|sources|] == sources;
  }

  lemma SortedByAddress(ps: seq<Profile>)
    requires Apart(ps, AddressOf)
    ensures Ascending(AddressesOf(Sort(ps, ByAddress)))
    ensures forall p :: p in Sort(ps, ByAddress) <==> p in ps
  {
    SortKeepsApart(ps, ByAddress, AddressOf);
    assert TotalPreorder(ByAddress) by { LeTotalOrder(); }
    SortCorrect(ps, ByAddress);
    var r := Sort(ps, ByAddress);
    forall i, j | 0 <= i < j < |r|
      ensures Lt(AddressesOf(r)[i], AddressesOf(r)[j])
    {
      assert AddressOf(r[i]) != AddressOf(r[j]) && ByAddress(r[i], r[j]);
    }
  }

  function Covered(ps: seq<Profile>): set<string> {
    set p | p in ps :: p.walletAddr
  }

  lemma AppendApart(ps: seq<Profile>, m: Profile)
    requires Apart(ps, AddressOf) && m.walletAddr !in Covered(ps)
    ensures Apart(ps + [m], AddressOf)
    ensures Covered(ps + [m]) == Covered(ps) + {m.walletAddr}
  {
    forall i | 0 <= i < |ps|
      ensures ps[i].walletAddr != m.walletAddr
    {
      assert ps[i].walletAddr in Covered(ps);
    }
  }

  method MergeGroups(groups: Groups, ghost entries: seq<Sourced>) returns (merged: seq<Profile>)
    requires IsGrouping(groups, entries)
    ensures Covered(merged) == groups.Keys
    ensures Apart(merged, AddressOf)
    ensures forall p | p in merged :: MergedFrom(p, entries)
  {
    var pending := groups.Keys;
    merged := [];
    while pending != {}
      invariant pending <= groups.Keys
      invariant Covered(merged) == groups.Keys - pending
      invariant Apart(merged, AddressOf)
      invariant forall p | p in merged :: MergedFrom(p, entries)
    {
      var addr :| addr in pending;
      var m := MergeWallet(addr, groups[addr]);
      assert MergedFrom(m, entries);
      AppendApart(merged, m);
      merged := merged + [m];
      pending := pending - {addr};
    }
  }

  method MergeWalletProfiles(sources: seq<Source>) returns (merged: seq<Profile>)
    ensures IsMergeOf(merged, AllEntries(sources))
  {
    var groups := GroupByAddress(sources);
    merged := MergeGroups(groups, AllEntries(sources));
    SortedByAddress(merged);
    merged := Sort(merged, ByAddress);
  }

  // ---- The merge is determined by its input, and merging again changes nothing ----

  lemma {:induction false} AscendingUnique(a: seq<string>, b: seq<string>)
    requires Ascending(a) && Ascending(b) && forall x :: x in a <==> x in b
    ensures a == b
  {
    if a == [] {
      if b != [] {
        HasMember(b);
        assert false;
      }
    } else if b == [] {
      HasMember(a);
      assert false;
    } else {
      assert a[0] == b[0] by { HeadIsLeast(a, b); }
      assert forall x :: x in a[1..] <==> x in a && x != a[0];
      assert forall x :: x in b[1..] <==> x in b && x != b[0];
      AscendingUnique(a[1..], b[1..]);
      assert a == [a[0]] + a[1..] && b == [b[0]] + b[1..];
    }
  }

  lemma HasMember(a: seq<string>)
    requires a != []
    ensures exists x :: x in a
  {
    assert a[0] in a;
  }

  lemma HeadIsLeast(a: seq<string>, b: seq<string>)
    requires Ascending(a) && Ascending(b) && a != [] && b != [] && a[0] in b && b[0] in a
    ensures a[0] == b[0]
  {
    if a[0] != b[0] {
      assert Lt(b[0], a[0]);
      assert Lt(a[0], b[0]);
      LeAntisymmetric(a[0], b[0]);
      assert false;
    }
  }

  lemma GreatestUnique(values: seq<Option<int>>, a: Option<int>, b: Option<int>)
    requires IsGreatest(values, a) && IsGreatest(values, b)
    ensures a == b
  {
  }

  lemma PrimaryUnique(ps: seq<Sourced>, k: int, l: int)
    requires IsPrimary(ps, k) && IsPrimary(ps, l)
    ensures k == l
  {
    var m :| IsTradesMax(ps, m) && PrimaryFor(ps, m, k);
    var n :| IsTradesMax(ps, n) && PrimaryFor(ps, n, l);
    assert m == n;
  }

  lemma DexUnique(ps: seq<Sourced>, a: Option<string>, b: Option<string>)
    requires IsDex(ps, a) && IsDex(ps, b)
    ensures a == b
  {
    if !(forall i | 0 <= i < |ps| :: !HasDex(ps[i])) {
      var k :| BestDex(ps, k) && a == ps[k].profile.preferredDex;
      var l :| BestDex(ps, l) && b == ps[l].profile.preferredDex;
      assert k == l;
    }
  }

  lemma RankUnique(ps: seq<Sourced>, a: Option<int>, b: Option<int>)
    requires IsRank(ps, a) && IsRank(ps, b)
    ensures a == b
  {
    if !(forall i | 0 <= i < |ps| :: ps[i].profile.kolscanRank == None) {
      var k :| FirstRank(ps, k) && a == ps[k].profile.kolscanRank;
      var l :| FirstRank(ps, l) && b == ps[l].profile.kolscanRank;
      assert k == l;
    }
  }

  lemma FlagsUnique(ps: seq<Sourced>, a: Option<seq<string>>, b: Option<seq<string>>)
    requires IsFlags(ps, a) && IsFlags(ps, b)
    ensures a == b
  {
    if FlagSet(ps) != {} {
      assert forall f :: f in a.value <==> f in FlagSet(ps);
      assert forall f :: f in b.value <==> f in FlagSet(ps);
      AscendingUnique(a.value, b.value);
    }
  }

  /** The entries of a wallet determine its merged profile completely. */
  lemma MergedUnique(ps: seq<Sourced>, addr: string, a: Profile, b: Profile)
    requires IsMerged(a, addr, ps) && IsMerged(b, addr, ps)
    ensures a == b
  {
    var k :| IsPrimary(ps, k) && a.numeric == ps[k].profile.numeric;
    var l :| IsPrimary(ps, l) && b.numeric == ps[l].profile.numeric;
    PrimaryUnique(ps, k, l);
    DexUnique(ps, a.preferredDex, b.preferredDex);
    RankUnique(ps, a.kolscanRank, b.kolscanRank);
    FlagsUnique(ps, a.kolscanFlags, b.kolscanFlags);
    GreatestUnique(LastActiveOf(ps), a.lastActiveTs, b.lastActiveTs);
    GreatestUnique(TradesOf(ps), a.trades30d, b.trades30d);
  }

  lemma CoveredIsAddresses(ps: seq<Profile>)
    ensures forall a :: a in AddressesOf(ps) <==> a in Covered(ps)
  {
    forall p | p in ps
      ensures p.walletAddr in AddressesOf(ps)
    {
      var i :| 0 <= i < |ps| && ps[i] == p;
      assert AddressesOf(ps)[i] == p.walletAddr;
    }
  }

  /** The input determines the merged list completely, its order included. */
  lemma MergeUnique(entries: seq<Sourced>, a: seq<Profile>, b: seq<Profile>)
    requires IsMergeOf(a, entries) && IsMergeOf(b, entries)
    ensures a == b
  {
    CoveredIsAddresses(a);
    CoveredIsAddresses(b);
    AscendingUnique(AddressesOf(a), AddressesOf(b));
    assert |AddressesOf(a)| == |a| && |AddressesOf(b)| == |b|;
    forall i | 0 <= i < |a|
      ensures a[i] == b[i]
    {
      assert a[i].walletAddr == AddressesOf(a)[i] == AddressesOf(b)[i] == b[i].walletAddr;
      assert a[i] in a && b[i] in b;
      assert MergedFrom(a[i], entries) && MergedFrom(b[i], entries);
      MergedUnique(Filter(entries, At(a[i].walletAddr)), a[i].walletAddr, a[i], b[i]);
    }
  }

  lemma OwnFlags(m: Profile, ps: seq<Sourced>, source: string)
    requires IsFlags(ps, m.kolscanFlags)
    ensures IsFlags([Sourced(source, m)], m.kolscanFlags)
  {
    var own := [Sourced(source, m)];
    assert own[..0] == [];
    assert FlagSet(own) == FlagsOf(m);
  }

  lemma OwnPrimary(m: Profile, source: string)
    ensures IsPrimary([Sourced(source, m)], 0)
  {
    var own := [Sourced(source, m)];
    var most := if Trades(m) > 0 then Trades(m) else 0;
    assert Trades(own[0].profile) == Trades(m);
    assert IsTradesMax(own, most) && PrimaryFor(own, most, 0);
  }

  lemma OwnDexAndRank(m: Profile, ps: seq<Sourced>, source: string)
    requires IsDex(ps, m.preferredDex) && IsRank(ps, m.kolscanRank)
    ensures IsDex([Sourced(source, m)], m.preferredDex) && IsRank([Sourced(source, m)], m.kolscanRank)
  {
    var own := [Sourced(source, m)];
    assert own[0].profile == m;
    if m.preferredDex.Some? {
      assert HasDex(own[0]) && BestDex(own, 0);
    }
    if m.kolscanRank.Some? {
      assert FirstRank(own, 0);
    }
  }

  lemma OwnMaxima(m: Profile, source: string)
    ensures IsGreatest(LastActiveOf([Sourced(source, m)]), m.lastActiveTs)
    ensures IsGreatest(TradesOf([Sourced(source, m)]), m.trades30d)
  {
    var own := [Sourced(source, m)];
    assert LastActiveOf(own) == [m.lastActiveTs];
    assert TradesOf(own) == [m.trades30d];
  }

  /** A merged profile, under whatever source name, is its own merge. */
  lemma MergedIsOwnMerge(m: Profile, addr: string, ps: seq<Sourced>, source: string)
    requires IsMerged(m, addr, ps)
    ensures IsMerged(m, addr, [Sourced(source, m)])
  {
    var own := [Sourced(source, m)];
    OwnFlags(m, ps, source);
    assert IsPrimary(own, 0) && m.numeric == own[0].profile.numeric by { OwnPrimary(m, source); }
    OwnDexAndRank(m, ps, source);
    assert IsGreatest(LastActiveOf(own), m.lastActiveTs) && IsGreatest(TradesOf(own), m.trades30d) by {
      OwnMaxima(m, source);
    }
  }

  lemma OwnEntry(merged: seq<Profile>, i: nat, source: string)
    requires Ascending(AddressesOf(merged)) && i < |merged|
    ensures Filter(Tagged(Source(source, merged)), At(merged[i].walletAddr)) == [Sourced(source, merged[i])]
  {
    var tagged := Tagged(Source(source, merged));
    var addr := merged[i].walletAddr;
    assert tagged == tagged[..i] + [tagged[i]] + tagged[i + 1..];
    forall j | 0 <= j < |merged| && j != i
      ensures !At(addr)(tagged[j])
    {
      assert AddressesOf(merged)[j] != AddressesOf(merged)[i];
    }
    assert forall s | s in tagged[..i] :: !At(addr)(s);
    assert forall s | s in tagged[i + 1..] :: !At(addr)(s);
    FilterNone(tagged[..i], At(addr));
    FilterNone(tagged[i + 1..], At(addr));
    FilterConcat(tagged[..i], [tagged[i]], At(addr));
    FilterConcat(tagged[..i] + [tagged[i]], tagged[i + 1..], At(addr));
  }

  lemma OwnAddresses(merged: seq<Profile>, source: string)
    requires "" !in Covered(merged)
    ensures Addresses(Tagged(Source(source, merged))) == Covered(merged)
  {
    var tagged := Tagged(Source(source, merged));
    forall p | p in merged
      ensures p.walletAddr in Addresses(tagged)
    {
      assert p.walletAddr in Covered(merged);
      var i :| 0 <= i < |merged| && merged[i] == p;
      assert tagged[i].profile == p && tagged[i] in tagged;
    }
  }

  /** Merging a merged list again, under any source name, returns it unchanged. */
  lemma MergeIsIdempotent(entries: seq<Sourced>, merged: seq<Profile>, source: string, again: seq<Profile>)
    requires IsMergeOf(merged, entries)
    requires IsMergeOf(again, AllEntries([Source(source, merged)]))
    ensures again == merged
  {
    var tagged := Tagged(Source(source, merged));
    assert AllEntries([Source(source, merged)]) == tagged;
    OwnAddresses(merged, source);
    forall p | p in merged
      ensures MergedFrom(p, tagged)
    {
      var i :| 0 <= i < |merged| && merged[i] == p;
      OwnEntry(merged, i, source);
      assert MergedFrom(p, entries);
      MergedIsOwnMerge(p, p.walletAddr, Filter(entries, At(p.walletAddr)), source);
    }
    MergeUnique(tagged, merged, again);
  }
}
