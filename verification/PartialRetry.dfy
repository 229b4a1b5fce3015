/** Retry chains for partially filled orders (execution/partial_retry.py). */
module PartialRetry {
  import opened Collections
  import opened Numbers

  /** The retry part of the runtime configuration. */
  datatype Config = Config(enabled: bool, maxAttempts: int, sizeDecay: real, feeMultiplier: real, ttlSec: int)

  /** What the configuration's own validation admits when retries are enabled. */
  predicate ValidConfig(cfg: Config) {
    cfg.enabled ==>
      && 1 <= cfg.maxAttempts <= 5
      && 0.5 <= cfg.sizeDecay <= 0.9
      && 1.2 <= cfg.feeMultiplier <= 3.0
      && 30 <= cfg.ttlSec <= 300
  }

  /** `client_id`: the root's own, or the root's with `_retry_n` appended. */
  datatype ClientId = Root(id: string) | Retry(id: string, attempt: int)

  /** The swap parameters that a retry copies unchanged. */
  datatype Swap = Swap(inputMint: string, outputMint: string, side: string, slippageBps: int)

  datatype Order = Order(clientId: ClientId, originalClientId: string, retryAttempt: nat, originalSize: int,
                         cumulativeFilled: int, createdAt: real, swap: Swap, amount: int, fee: int)

  datatype Chain = Chain(originalSize: int, cumulativeFilled: int, createdAt: real, baseFee: int)

  // ---- One call, seen from its own chain ----

  function Decayed(cfg: Config, size: int, attempt: nat): int {
    Scaled(size, Pow(cfg.sizeDecay, attempt))
  }

  function Boosted(cfg: Config, baseFee: int, attempt: nat): int {
    Scaled(baseFee, Pow(cfg.feeMultiplier, attempt))
  }

  function AlmostFull(size: int): int {
    Scaled(size, 0.99)
  }

  function MinInt(x: int, y: int): int {
    if x < y then x else y
  }

  function ChainFor(chain: Option<Chain>, o: Order): Chain {
    if chain.Some? then chain.value else Chain(o.originalSize, o.cumulativeFilled, o.createdAt, o.fee)
  }

  function NextOrder(cfg: Config, c: Chain, o: Order): Order {
    var next := o.retryAttempt + 1;
    Order(Retry(o.originalClientId, next), o.originalClientId, next, c.originalSize, c.cumulativeFilled, c.createdAt,
          o.swap, MinInt(Decayed(cfg, c.originalSize, next), c.originalSize - c.cumulativeFilled),
          Boosted(cfg, c.baseFee, next))
  }

  /** The chain that is kept and the retry that is issued; both or neither. */
  function OnFill(cfg: Config, chain: Option<Chain>, o: Order, filled: int, now: real): Option<(Chain, Order)> {
    var c := ChainFor(chain, o);
    var c' := c.(cumulativeFilled := c.cumulativeFilled + filled);
    if c'.cumulativeFilled >= AlmostFull(c'.originalSize) then None
    else if o.retryAttempt >= cfg.maxAttempts then None
    else if now - c'.createdAt > cfg.ttlSec as real then None
    else
      var retry := NextOrder(cfg, c', o);
      if retry.amount <= 0 then None else Some((c', retry))
  }

  // ---- The manager object ----

  class RetryChainState {
    const originalClientId: string
    const originalSize: int
    var cumulativeFilled: int
    const createdAt: real
    const baseFee: int

    constructor (originalClientId: string, c: Chain)
      ensures this.originalClientId == originalClientId && View() == c
    {
      this.originalClientId, originalSize, cumulativeFilled := originalClientId, c.originalSize, c.cumulativeFilled;
      createdAt, baseFee := c.createdAt, c.baseFee;
    }

    ghost function View(): Chain
      reads this
    {
      Chain(originalSize, cumulativeFilled, createdAt, baseFee)
    }
  }

  class PartialFillRetryManager {
    const config: Config
    var chainStates: map<string, RetryChainState>

    ghost predicate Valid()
      reads this
    {
      forall j, k | j in chainStates && k in chainStates && chainStates[j] == chainStates[k] :: j == k
    }

    /** The state kept for one chain, if any. */
    ghost function State(id: string): Option<Chain>
      reads this, chainStates.Values
    {
      if id in chainStates then Some(chainStates[id].View()) else None
    }

    constructor (config: Config)
      ensures Valid() && this.config == config && chainStates == map[]
    {
      this.config, chainStates := config, map[];
    }

    method GetOrCreateChain(o: Order) returns (chain: RetryChainState)
      requires Valid()
      modifies this
      ensures Valid() && o.originalClientId in chainStates && chainStates[o.originalClientId] == chain
      ensures chain.View() == ChainFor(old(State(o.originalClientId)), o)
      ensures forall id | id != o.originalClientId :: State(id) == old(State(id))
      ensures chainStates.Keys == old(chainStates).Keys + {o.originalClientId}
      ensures fresh(chainStates.Values - old(chainStates).Values)
    {
      var id := o.originalClientId;
      if id in chainStates {
        return chainStates[id];
      }
      chain := new RetryChainState(id, Chain(o.originalSize, o.cumulativeFilled, o.createdAt, o.fee));
      chainStates := chainStates[id := chain];
    }

    method CancelChain(id: string)
      requires Valid()
      modifies this
      ensures Valid() && chainStates == old(chainStates) - {id}
    {
      if id in chainStates {
        chainStates := chainStates - {id};
      }
    }

    /** Each call acts on its own chain only; the lock makes it atomic. */
    method OnPartialFill(o: Order, filled: int, now: real) returns (retry: Option<Order>)
      requires Valid()
      modifies this, chainStates.Values
      ensures Valid() && fresh(chainStates.Values - old(chainStates.Values))
      ensures !config.enabled ==> retry == None && forall id :: State(id) == old(State(id))
      ensures config.enabled ==>
                var id := o.originalClientId;
                var next := OnFill(config, old(State(id)), o, filled, now);
                && retry == (if next.Some? then Some(next.value.1) else None)
                && State(id) == (if next.Some? then Some(next.value.0) else None)
                && forall k | k != id :: State(k) == old(State(k))
    {
      if !config.enabled {
        return None;
      }
      var chain := GetOrCreateChain(o);
      chain.cumulativeFilled := chain.cumulativeFilled + filled;
      if chain.cumulativeFilled >= AlmostFull(chain.originalSize) {
        CancelChain(o.originalClientId);
        return None;
      }
      if o.retryAttempt >= config.maxAttempts {
        CancelChain(o.originalClientId);
        return None;
      }
      if now - chain.createdAt > config.ttlSec as real {
        CancelChain(o.originalClientId);
        return None;
      }
      var nextAttempt := o.retryAttempt + 1;
      var targetSize := Decayed(config, chain.originalSize, nextAttempt);
      var remaining := chain.originalSize - chain.cumulativeFilled;
      var attemptSize := MinInt(targetSize, remaining);
      if attemptSize <= 0 {
        CancelChain(o.originalClientId);
        return None;
      }
      var newFee := Boosted(config, chain.baseFee, nextAttempt);
      retry := Some(Order(Retry(o.originalClientId, nextAttempt), o.originalClientId, nextAttempt, chain.originalSize,
                          chain.cumulativeFilled, chain.createdAt, o.swap, attemptSize, newFee));
    }

    method OnFullFill(id: string)
      requires Valid()
      modifies this
      ensures Valid() && State(id) == None && chainStates.Values <= old(chainStates.Values)
      ensures forall k | k != id :: State(k) == old(State(k))
    {
      CancelChain(id);
    }
  }

  // ---- Many chains in a disciplined environment ----

  /** The environment submits a root order, or reports on the order in flight: one fill between zero
      and its amount, or a complete fill. The next order in flight is the one the manager returned.
      `at` is the creation time that the order ends up with: the clock's, if none was given. */
  datatype Event =
    | Submit(id: string, swap: Swap, size: int, amount: int, fee: int, at: real)
    | Report(id: string, filled: int, now: real)
    | FullFill(id: string)

  /** One chain: the manager's state for it, the order in flight, and what has happened since its
      last submission: the root's terms, the total filled, the retries issued and when. */
  datatype Local = Local(chain: Option<Chain>, live: Option<Order>, size: int, rootAmount: int, baseFee: int,
                         swap: Swap, rootAt: real, filled: int, issued: seq<Order>, times: seq<real>)

  const IDLE := Local(None, None, 0, 0, 0, Swap("", "", "", 0), 0.0, 0, [], [])

  predicate Acceptable(size: int, amount: int, fee: int) {
    0 <= amount <= size && fee >= 0
  }

  function RootOrder(id: string, swap: Swap, size: int, amount: int, fee: int, at: real): Order {
    Order(Root(id), id, 0, size, 0, at, swap, amount, fee)
  }

  predicate Fits(live: Option<Order>, filled: int) {
    live.Some? && 0 <= filled <= live.value.amount
  }

  function LocalStep(cfg: Config, l: Local, ev: Event): Local {
    match ev
    case Submit(id, swap, size, amount, fee, at) =>
      if l.live.Some? || !Acceptable(size, amount, fee) then l
      else Local(l.chain, Some(RootOrder(id, swap, size, amount, fee, at)), size, amount, fee, swap, at, 0, [], [])
    case Report(_, filled, now) =>
      if !Fits(l.live, filled) then l
      else
        var l' := l.(filled := l.filled + filled, live := None);
        if !cfg.enabled then l'
        else (match OnFill(cfg, l.chain, l.live.value, filled, now)
              case None => l'.(chain := None)
              case Some((c, retry)) =>
                l'.(chain := Some(c), live := Some(retry), issued := l.issued + [retry], times := l.times + [now]))
    case FullFill(_) =>
      if l.live == None then l
      else l.(filled := l.filled + l.live.value.amount, chain := None, live := None)
  }

  type World = map<string, Local>

  function At(w: World, id: string): Local {
    if id in w then w[id] else IDLE
  }

  function Run(cfg: Config, evs: seq<Event>): World {
    if evs == [] then map[]
    else
      var w, ev := Run(cfg, evs[..|evs| - 1]), evs[|evs| - 1];
      w[ev.id := LocalStep(cfg, At(w, ev.id), ev)]
  }

  function LocalRun(cfg: Config, evs: seq<Event>): Local {
    if evs == [] then IDLE else LocalStep(cfg, LocalRun(cfg, evs[..|evs| - 1]), evs[|evs| - 1])
  }

  function About(id: string): Event -> bool {
    (ev: Event) => ev.id == id
  }

  /** Chains do not interfere: however the events are interleaved, each chain ends as if its own
      events had happened alone. */
  lemma {:induction false} ChainsDoNotInterfere(cfg: Config, evs: seq<Event>, id: string)
    ensures At(Run(cfg, evs), id) == LocalRun(cfg, Filter(evs, About(id)))
  {
    if evs != [] {
      var init, ev := evs[..|evs| - 1], evs[|evs| - 1];
      ChainsDoNotInterfere(cfg, init, id);
      assert evs == init + [ev];
      FilterConcat(init, [ev], About(id));
      var f := Filter(init, About(id));
      if ev.id == id {
        assert (f + [ev])[..|f|] == f;
      } else {
        assert Filter(evs, About(id)) == f;
      }
    }
  }

  // ---- The manager in that environment ----

  /** What the environment knows of each chain: the order it has in flight. */
  type Flights = map<string, Order>

  function InFlight(flights: Flights, id: string): Option<Order> {
    if id in flights then Some(flights[id]) else None
  }

  function WithFlight(flights: Flights, id: string, o: Option<Order>): Flights {
    if o.Some? then flights[id := o.value] else flights - {id}
  }

  /** The manager's state and the order in flight of one chain are those of `l`. */
  ghost predicate Mirrors(state: Option<Chain>, live: Option<Order>, l: Local) {
    state == l.chain && live == l.live
  }

  lemma IdsOfFlights(cfg: Config, evs: seq<Event>, id: string)
    ensures At(Run(cfg, evs), id).live.Some? ==> At(Run(cfg, evs), id).live.value.originalClientId == id
  {
    if evs != [] {
      IdsOfFlights(cfg, evs[..|evs| - 1], id);
    }
  }

  /** One event, applied to the shared manager: its chain takes the step, every other chain keeps its
      state and its order in flight. */
  method Apply(manager: PartialFillRetryManager, flights: Flights, ev: Event, ghost l: Local) returns (flights': Flights)
    requires manager.Valid() && Mirrors(manager.State(ev.id), InFlight(flights, ev.id), l)
    requires l.live.Some? ==> l.live.value.originalClientId == ev.id
    modifies manager, manager.chainStates.Values
    ensures manager.Valid() && fresh(manager.chainStates.Values - old(manager.chainStates.Values))
    ensures Mirrors(manager.State(ev.id), InFlight(flights', ev.id), LocalStep(manager.config, l, ev))
    ensures forall k | k != ev.id :: manager.State(k) == old(manager.State(k)) && InFlight(flights', k) == InFlight(flights, k)
  {
    flights' := flights;
    var live := InFlight(flights, ev.id);
    match ev {
      case Submit(id, swap, size, amount, fee, at) =>
        if live == None && Acceptable(size, amount, fee) {
          flights' := flights[id := RootOrder(id, swap, size, amount, fee, at)];
        }
      case Report(id, filled, now) =>
        if Fits(live, filled) {
          var retry := manager.OnPartialFill(live.value, filled, now);
          flights' := WithFlight(flights, id, retry);
        }
      case FullFill(id) =>
        if live.Some? {
          manager.OnFullFill(id);
          flights' := flights - {id};
        }
    }
  }

  /** Chains do not interfere: after any interleaving, the one shared manager and the orders it has
      returned are, for each chain, as if that chain's own events had happened alone. */
  method Drive(cfg: Config, evs: seq<Event>) returns (manager: PartialFillRetryManager, flights: Flights)
    ensures fresh(manager) && manager.Valid()
    ensures forall id {:trigger manager.State(id)} :: Mirrors(manager.State(id), InFlight(flights, id), At(Run(cfg, evs), id))
    ensures forall id {:trigger manager.State(id)} ::
              Mirrors(manager.State(id), InFlight(flights, id), LocalRun(cfg, Filter(evs, About(id))))
  {
    manager := new PartialFillRetryManager(cfg);
    flights := map[];
    for i := 0 to |evs|
      invariant fresh(manager) && manager.Valid() && manager.config == cfg
      invariant fresh(manager.chainStates.Values)
      invariant forall id :: Mirrors(manager.State(id), InFlight(flights, id), At(Run(cfg, evs[..i]), id))
    {
      ghost var l := At(Run(cfg, evs[..i]), evs[i].id);
      IdsOfFlights(cfg, evs[..i], evs[i].id);
      assert evs[..i + 1][..i] == evs[..i];
      flights := Apply(manager, flights, evs[i], l);
    }
    assert evs[..|evs|] == evs;
    forall id
      ensures At(Run(cfg, evs), id) == LocalRun(cfg, Filter(evs, About(id)))
    {
      ChainsDoNotInterfere(cfg, evs, id);
    }
  }

  /** The `k`th retry ever issued on a chain of this size and base fee. */
  ghost predicate GoodRetry(cfg: Config, o: Order, k: nat, size: int, baseFee: int) {
    && o.retryAttempt == k + 1
    && o.originalSize == size
    && o.amount >= 1
    && 0 <= o.cumulativeFilled && o.cumulativeFilled + o.amount <= size
    && o.amount == MinInt(Decayed(cfg, size, k + 1), size - o.cumulativeFilled)
    && o.fee == Boosted(cfg, baseFee, k + 1)
  }

  ghost predicate GoodRetries(cfg: Config, issued: seq<Order>, size: int, baseFee: int) {
    && (forall k | 0 <= k < |issued| :: GoodRetry(cfg, issued[k], k, size, baseFee))
    && (forall j, k | 0 <= j < |issued| && k == j + 1 < |issued| ::
          issued[j].cumulativeFilled <= issued[k].cumulativeFilled)
  }

  ghost predicate GoodLive(l: Local) {
    l.live.Some? ==>
      var o := l.live.value;
      && o.originalSize == l.size
      && 0 <= o.amount && l.filled + o.amount <= l.size
      && o.retryAttempt == |l.issued|
      && o.cumulativeFilled == l.filled
      && (l.issued == [] ==> l.chain == None && o.fee == l.baseFee)
      && (l.issued != [] ==> o == l.issued[|l.issued| - 1]
                             && l.chain == Some(Chain(l.size, l.filled, o.createdAt, l.baseFee)))
  }

  /** What holds of every chain at every moment. */
  ghost predicate Disciplined(cfg: Config, l: Local) {
    && 0 <= l.filled <= l.size && l.baseFee >= 0
    && GoodRetries(cfg, l.issued, l.size, l.baseFee)
    && (l.issued != [] ==> cfg.enabled && |l.issued| <= cfg.maxAttempts)
    && (l.live == None ==> l.chain == None)
    && GoodLive(l)
  }

  lemma StepKeepsDiscipline(cfg: Config, l: Local, ev: Event)
    requires Disciplined(cfg, l)
    ensures Disciplined(cfg, LocalStep(cfg, l, ev))
  {
    if ev.Report? && l.live.Some? && 0 <= ev.filled <= l.live.value.amount && cfg.enabled {
      var next := OnFill(cfg, l.chain, l.live.value, ev.filled, ev.now);
      if next.Some? {
        RetryIsGood(cfg, l, ev.filled, ev.now, next.value.0, next.value.1);
      }
    }
  }

  lemma RetryIsGood(cfg: Config, l: Local, filled: int, now: real, c: Chain, retry: Order)
    requires Disciplined(cfg, l) && l.live.Some? && 0 <= filled <= l.live.value.amount
    requires OnFill(cfg, l.chain, l.live.value, filled, now) == Some((c, retry))
    ensures GoodRetry(cfg, retry, |l.issued|, l.size, l.baseFee)
    ensures c == Chain(l.size, l.filled + filled, retry.createdAt, l.baseFee)
    ensures retry.cumulativeFilled == l.filled + filled && |l.issued| < cfg.maxAttempts
    ensures GoodRetries(cfg, l.issued + [retry], l.size, l.baseFee)
  {
  }

  /** Over every interleaving: no chain fills more than its size, every retry fits the budget, at
      most `maxAttempts` are issued, and a chain with no order in flight has no state left. */
  lemma {:induction false} EveryChainDisciplined(cfg: Config, evs: seq<Event>, id: string)
    ensures Disciplined(cfg, At(Run(cfg, evs), id))
  {
    if evs != [] {
      EveryChainDisciplined(cfg, evs[..|evs| - 1], id);
      StepKeepsDiscipline(cfg, At(Run(cfg, evs[..|evs| - 1]), id), evs[|evs| - 1]);
    }
  }

  /** From retry to retry amounts never increase, and fees never decrease from the base fee on. The
      first retry is no larger than the root order exactly if the root's amount reaches the decayed
      size or the size left to fill. */
  lemma AmountsFallFeesRise(cfg: Config, evs: seq<Event>, id: string, k: nat)
    requires ValidConfig(cfg) && k < |At(Run(cfg, evs), id).issued|
    ensures var l := At(Run(cfg, evs), id);
            && l.baseFee <= l.issued[k].fee
            && (k > 0 ==> l.issued[k].amount <= l.issued[k - 1].amount && l.issued[k - 1].fee <= l.issued[k].fee)
            && (k == 0 ==> (l.issued[0].amount <= l.rootAmount
                            <==> Decayed(cfg, l.size, 1) <= l.rootAmount || l.size - l.issued[0].cumulativeFilled <= l.rootAmount))
  {
    EveryChainDisciplined(cfg, evs, id);
    var l := At(Run(cfg, evs), id);
    assert GoodRetry(cfg, l.issued[k], k, l.size, l.baseFee);
    FeesRise(cfg, l.baseFee, k);
    if k > 0 {
      assert GoodRetry(cfg, l.issued[k - 1], k - 1, l.size, l.baseFee);
      AmountsFall(cfg, l.size, k);
    }
  }

  /** A root order for the whole size is never outgrown. */
  lemma WholeRootNeverOutgrown(cfg: Config, evs: seq<Event>, id: string, k: nat)
    requires ValidConfig(cfg) && k < |At(Run(cfg, evs), id).issued|
    requires At(Run(cfg, evs), id).rootAmount == At(Run(cfg, evs), id).size
    ensures var l := At(Run(cfg, evs), id);
            l.issued[k].amount <= if k == 0 then l.rootAmount else l.issued[k - 1].amount
  {
    EveryChainDisciplined(cfg, evs, id);
    AmountsFallFeesRise(cfg, evs, id, k);
    var l := At(Run(cfg, evs), id);
    assert GoodRetry(cfg, l.issued[k], k, l.size, l.baseFee);
  }

  predicate Outgrows(next: Option<(Chain, Order)>, amount: int) {
    next.Some? && next.value.1.amount > amount
  }

  /** Seen when the root order is submitted: no fill of it can lead to a larger retry if and only if
      its amount reaches the first decayed size. */
  lemma RootNeverOutgrownIff(cfg: Config, id: string, swap: Swap, size: int, amount: int, fee: int, at: real)
    requires ValidConfig(cfg) && cfg.enabled && Acceptable(size, amount, fee)
    ensures (forall filled, now | 0 <= filled <= amount ::
               !Outgrows(OnFill(cfg, None, RootOrder(id, swap, size, amount, fee, at), filled, now), amount))
            <==> Decayed(cfg, size, 1) <= amount
  {
    var root := RootOrder(id, swap, size, amount, fee, at);
    FirstDecay(cfg, size);
    if size >= 2 {
      assert OnFill(cfg, None, root, 0, at).Some?;
      assert OnFill(cfg, None, root, 0, at).value.1.amount == Decayed(cfg, size, 1);
    }
  }

  lemma FirstDecay(cfg: Config, size: int)
    requires 0.5 <= cfg.sizeDecay <= 0.9 && size >= 0
    ensures 0 <= Decayed(cfg, size, 1) <= size
    ensures if size >= 2 then Decayed(cfg, size, 1) >= 1 && AlmostFull(size) >= 1 else Decayed(cfg, size, 1) == 0
  {
    assert Pow(cfg.sizeDecay, 1) == cfg.sizeDecay * Pow(cfg.sizeDecay, 0) == cfg.sizeDecay;
    ScaledMonotone(size, 0.5, cfg.sizeDecay);
    ScaledMonotone(size, cfg.sizeDecay, 0.9);
    ScaledBounds(size);
  }

  lemma ScaledBounds(size: int)
    requires size >= 0
    ensures Scaled(size, 0.9) <= size && Scaled(size, 0.5) >= 0
    ensures if size >= 2 then Scaled(size, 0.5) >= 1 && Scaled(size, 0.99) >= 1 else Scaled(size, 0.9) == 0
  {
  }

  /** A smaller root order can be outgrown: 10 of 100 ordered, 5 filled, 80 ordered next. */
  lemma SmallRootOutgrown(swap: Swap)
    ensures var cfg := Config(true, 3, 0.8, 1.5, 60);
            var l := At(Run(cfg, [Submit("a", swap, 100, 10, 1, 1.0), Report("a", 5, 2.0)]), "a");
            ValidConfig(cfg) && l.rootAmount == 10 && |l.issued| == 1 && l.issued[0].amount == 80
  {
    var cfg := Config(true, 3, 0.8, 1.5, 60);
    var evs := [Submit("a", swap, 100, 10, 1, 1.0), Report("a", 5, 2.0)];
    assert evs[..1] == [evs[0]] && evs[..1][..0] == [];
    var root := RootOrder("a", swap, 100, 10, 1, 1.0);
    assert At(Run(cfg, evs[..1]), "a") == Local(None, Some(root), 100, 10, 1, swap, 1.0, 0, [], []);
    assert Pow(0.8, 1) == 0.8 * Pow(0.8, 0) == 0.8;
    assert Decayed(cfg, 100, 1) == 80 && AlmostFull(100) == 99;
    assert OnFill(cfg, None, root, 5, 2.0).value.1.amount == 80;
  }

  lemma AmountsFall(cfg: Config, size: int, attempt: nat)
    requires 0.0 <= cfg.sizeDecay <= 1.0 && size >= 0
    ensures Decayed(cfg, size, attempt + 1) <= Decayed(cfg, size, attempt)
  {
    PowStep(cfg.sizeDecay, attempt);
    ScaledMonotone(size, Pow(cfg.sizeDecay, attempt + 1), Pow(cfg.sizeDecay, attempt));
  }

  lemma {:induction false} FeesRise(cfg: Config, baseFee: int, attempt: nat)
    requires cfg.feeMultiplier >= 1.0 && baseFee >= 0
    ensures baseFee <= Boosted(cfg, baseFee, attempt) <= Boosted(cfg, baseFee, attempt + 1)
  {
    if attempt > 0 {
      FeesRise(cfg, baseFee, attempt - 1);
    } else {
      ScaledByOne(baseFee);
    }
    PowStep(cfg.feeMultiplier, attempt);
    ScaledMonotone(baseFee, Pow(cfg.feeMultiplier, attempt), Pow(cfg.feeMultiplier, attempt + 1));
  }

  // ---- Time, identity, and exactly when a retry follows ----

  /** The `k`th retry carries the root's identity, swap and creation time. */
  predicate Carries(o: Order, k: nat, l: Local, id: string) {
    && o.clientId == Retry(id, k + 1) && o.originalClientId == id
    && o.swap == l.swap && o.createdAt == l.rootAt
  }

  ghost predicate InTime(cfg: Config, l: Local) {
    |l.times| == |l.issued| && forall k | 0 <= k < |l.times| :: l.times[k] - l.rootAt <= cfg.ttlSec as real
  }

  ghost predicate Faithful(cfg: Config, l: Local, id: string) {
    && InTime(cfg, l)
    && (forall k | 0 <= k < |l.issued| :: Carries(l.issued[k], k, l, id))
    && (l.live.Some? ==> l.live.value.originalClientId == id && l.live.value.swap == l.swap && l.live.value.createdAt == l.rootAt)
    && (l.chain.Some? ==> l.chain.value.createdAt == l.rootAt)
  }

  lemma StepKeepsFaith(cfg: Config, l: Local, ev: Event)
    requires Disciplined(cfg, l) && Faithful(cfg, l, ev.id)
    ensures Faithful(cfg, LocalStep(cfg, l, ev), ev.id)
  {
    var l' := LocalStep(cfg, l, ev);
    if ev.Report? && |l'.issued| > |l.issued| {
      var retry := l'.issued[|l.issued|];
      assert Carries(retry, |l.issued|, l', ev.id);
    }
  }

  /** Over every interleaving: each retry was issued by a report no later than the ttl after its root's
      creation, and carries the root's identity, swap and creation time. */
  lemma {:induction false} EveryRetryInTime(cfg: Config, evs: seq<Event>, id: string)
    ensures Faithful(cfg, At(Run(cfg, evs), id), id)
  {
    if evs != [] {
      EveryRetryInTime(cfg, evs[..|evs| - 1], id);
      EveryChainDisciplined(cfg, evs[..|evs| - 1], id);
      if evs[|evs| - 1].id == id {
        StepKeepsFaith(cfg, At(Run(cfg, evs[..|evs| - 1]), id), evs[|evs| - 1]);
      }
    }
  }

  lemma AlmostFullIff(size: int, total: int)
    requires size >= 0
    ensures total >= AlmostFull(size) <==> 100 * (total + 1) > 99 * size
  {
    TruncateBounds(size as real * 0.99);
  }

  /** `n` is the whole part of `base * factor^k`. */
  predicate IsScaled(n: int, base: int, factor: real, k: nat) {
    n as real <= Times(base as real, Pow(factor, k)) < n as real + 1.0
  }

  lemma ScaledIsWhole(base: int, factor: real, k: nat)
    requires base >= 0 && factor >= 0.0
    ensures IsScaled(Scaled(base, Pow(factor, k)), base, factor, k)
  {
    PowPositive(factor, k);
    ProductSign(base as real, Pow(factor, k));
    TruncateBounds(base as real * Pow(factor, k));
  }

  lemma TruncateBounds(x: real)
    requires x >= 0.0
    ensures Truncate(x) as real <= x < Truncate(x) as real + 1.0
  {
  }

  /** A report leads to another order: the total filled is more than one per cent short, attempts are
      left, the root's time is not up, and there is at least one unit to order, of the decayed size and
      of what is left. */
  predicate RetryDue(cfg: Config, l: Local, total: int, decayed: int, now: real) {
    && 100 * (total + 1) <= 99 * l.size && |l.issued| < cfg.maxAttempts
    && now - l.rootAt <= cfg.ttlSec as real && decayed >= 1 && l.size - total >= 1
  }

  lemma ReportDecides(cfg: Config, l: Local, id: string, filled: int, now: real) returns (decayed: int, fee: int)
    requires ValidConfig(cfg) && cfg.enabled && Disciplined(cfg, l) && Faithful(cfg, l, id) && Fits(l.live, filled)
    ensures IsScaled(decayed, l.size, cfg.sizeDecay, |l.issued| + 1)
    ensures IsScaled(fee, l.baseFee, cfg.feeMultiplier, |l.issued| + 1)
    ensures var l', total := LocalStep(cfg, l, Report(id, filled, now)), l.filled + filled;
            && l'.filled == total
            && (if RetryDue(cfg, l, total, decayed, now) then
                  l'.live == Some(Order(Retry(id, |l.issued| + 1), id, |l.issued| + 1, l.size, total, l.rootAt, l.swap,
                                        MinInt(decayed, l.size - total), fee))
                  && l'.chain == Some(Chain(l.size, total, l.rootAt, l.baseFee))
                else l'.live == None && l'.chain == None)
  {
    decayed, fee := Decayed(cfg, l.size, |l.issued| + 1), Boosted(cfg, l.baseFee, |l.issued| + 1);
    ScaledIsWhole(l.size, cfg.sizeDecay, |l.issued| + 1);
    ScaledIsWhole(l.baseFee, cfg.feeMultiplier, |l.issued| + 1);
    AlmostFullIff(l.size, l.filled + filled);
  }

  /** The exact decision on a report, over every interleaving before it, and the order that follows. */
  lemma RetryFollowsIff(cfg: Config, evs: seq<Event>, id: string, filled: int, now: real) returns (decayed: int, fee: int)
    requires ValidConfig(cfg) && cfg.enabled && Fits(At(Run(cfg, evs), id).live, filled)
    ensures IsScaled(decayed, At(Run(cfg, evs), id).size, cfg.sizeDecay, |At(Run(cfg, evs), id).issued| + 1)
    ensures IsScaled(fee, At(Run(cfg, evs), id).baseFee, cfg.feeMultiplier, |At(Run(cfg, evs), id).issued| + 1)
    ensures var l, l' := At(Run(cfg, evs), id), At(Run(cfg, evs + [Report(id, filled, now)]), id);
            var total := l.filled + filled;
            && l'.filled == total
            && (if RetryDue(cfg, l, total, decayed, now) then
                  l'.live == Some(Order(Retry(id, |l.issued| + 1), id, |l.issued| + 1, l.size, total, l.rootAt, l.swap,
                                        MinInt(decayed, l.size - total), fee))
                  && l'.chain == Some(Chain(l.size, total, l.rootAt, l.baseFee))
                else l'.live == None && l'.chain == None)
  {
    EveryChainDisciplined(cfg, evs, id);
    EveryRetryInTime(cfg, evs, id);
    var ev := Report(id, filled, now);
    assert (evs + [ev])[..|evs|] == evs;
    decayed, fee := ReportDecides(cfg, At(Run(cfg, evs), id), id, filled, now);
  }
}
