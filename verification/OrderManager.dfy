/** Positions and their exit conditions (execution/order_state_machine.py). */
module OrderStateMachine {
  import opened Collections

  datatype Status = PENDING | ACTIVE | PARTIAL | CLOSED | EXPIRED

  /** The value of a position object at one moment. */
  datatype Position = Position(signalId: string, mint: string, entryPrice: real, sizeUsd: real, expiresAt: real,
                               tpPrice: Option<real>, slPrice: Option<real>, status: Status, remaining: real,
                               closeReason: Option<string>, closePrice: Option<real>)
  {
    predicate IsActive() {
      status == ACTIVE || status == PENDING
    }

    predicate CheckTtl(ts: real) {
      ts >= expiresAt
    }

    predicate CheckTp(price: real, side: string) {
      tpPrice.Some? && if side == "BUY" then price >= tpPrice.value else price <= tpPrice.value
    }

    predicate CheckSl(price: real, side: string) {
      slPrice.Some? && if side == "BUY" then price <= slPrice.value else price >= slPrice.value
    }
  }

  datatype Tick = Tick(mint: string, price: real, ts: real, side: string)

  /** The reason, if any, for which a tick closes an active position of its mint. */
  function Trigger(p: Position, tick: Tick): Option<string> {
    if p.mint != tick.mint || !p.IsActive() then None
    else if p.CheckTtl(tick.ts) then Some("ttl_expired")
    else if p.CheckTp(tick.price, tick.side) then Some("tp_hit")
    else if p.CheckSl(tick.price, tick.side) then Some("sl_hit")
    else None
  }

  class PositionState {
    const signalId: string
    const mint: string
    const entryPrice: real
    const sizeUsd: real
    const expiresAt: real
    const tpPrice: Option<real>
    const slPrice: Option<real>
    var status: Status
    var remaining: real
    var closeReason: Option<string>
    var closePrice: Option<real>

    constructor (p: Position)
      ensures View() == p
    {
      signalId, mint, entryPrice, sizeUsd := p.signalId, p.mint, p.entryPrice, p.sizeUsd;
      expiresAt, tpPrice, slPrice := p.expiresAt, p.tpPrice, p.slPrice;
      status, remaining, closeReason, closePrice := p.status, p.remaining, p.closeReason, p.closePrice;
    }

    function View(): Position
      reads this
    {
      Position(signalId, mint, entryPrice, sizeUsd, expiresAt, tpPrice, slPrice, status, remaining, closeReason, closePrice)
    }
  }
}

/** The position book of the order manager (execution/order_manager.py). */
module OrderManagement {
  import opened Collections
  import opened OrderStateMachine

  datatype ActionType = CLOSE | PARTIAL_CLOSE

  datatype HistoryEntry = HistoryEntry(signalId: string, action: ActionType, reason: string, price: real, sizeUsd: real)

  datatype CloseAction = CloseAction(signalId: string, action: ActionType, reason: string, price: real, sizeUsd: real)

  /** The open positions, the order in which they were opened, and the history. */
  datatype Book = Book(held: map<string, Position>, order: seq<string>, history: seq<HistoryEntry>)

  const EMPTY_BOOK := Book(map[], [], [])

  datatype FillResult = Opened | AlreadyHeld | MaxPositionsReached

  // ---- Specification: what each call does to the book ----

  function NewPosition(signalId: string, mint: string, entryPrice: real, sizeUsd: real, entryTs: real, ttlSeconds: int,
                       tpPrice: Option<real>, slPrice: Option<real>): Position {
    Position(signalId, mint, entryPrice, sizeUsd, entryTs + ttlSeconds as real, tpPrice, slPrice, ACTIVE, sizeUsd, None, None)
  }

  function Fill(b: Book, maxPositions: int, p: Position): (Book, FillResult) {
    if p.signalId in b.held then (b, AlreadyHeld)
    else if |b.held| >= maxPositions then (b, MaxPositionsReached)
    else (b.(held := b.held[p.signalId := p], order := b.order + [p.signalId]), Opened)
  }

  function Without(ids: seq<string>, id: string): seq<string> {
    if ids == [] then []
    else if ids[0] == id then Without(ids[1..], id)
    else [ids[0]] + Without(ids[1..], id)
  }

  predicate IsPartial(p: Position, size: Option<real>) {
    size.Some? && size.value < p.remaining
  }

  /** A size of zero counts as absent, as in the source's `size_usd or position.size_usd`. */
  function SizeLogged(p: Position, size: Option<real>): real {
    if size.Some? && size.value != 0.0 then size.value else p.sizeUsd
  }

  function Close(b: Book, id: string, reason: string, price: real, size: Option<real>): (Book, CloseAction)
    requires id in b.held
  {
    var p := b.held[id];
    var action := if IsPartial(p, size) then PARTIAL_CLOSE else CLOSE;
    var entry := HistoryEntry(id, action, reason, price, SizeLogged(p, size));
    var held := if IsPartial(p, size) then
                  b.held[id := p.(status := PARTIAL, remaining := p.remaining - size.value,
                                  closeReason := Some(reason), closePrice := Some(price))]
                else b.held - {id};
    var order := if IsPartial(p, size) then b.order else Without(b.order, id);
    (Book(held, order, b.history + [entry]),
     CloseAction(id, action, reason, price, if size.Some? then size.value else 0.0))
  }

  /** One position's turn in a tick. */
  function TickOne(b: Book, id: string, tick: Tick): (Book, seq<CloseAction>) {
    if id !in b.held || Trigger(b.held[id], tick) == None then (b, [])
    else
      var (b', action) := Close(b, id, Trigger(b.held[id], tick).value, tick.price, None);
      (b', [action])
  }

  function TickEach(b: Book, ids: seq<string>, tick: Tick): (Book, seq<CloseAction>) {
    if ids == [] then (b, [])
    else
      var (b1, done) := TickEach(b, ids[..|ids| - 1], tick);
      var (b2, more) := TickOne(b1, ids[|ids| - 1], tick);
      (b2, done + more)
  }

  /** A missing or zero price falls back to the entry price. */
  function ClosePrice(p: Position, price: Option<real>): real {
    if price.Some? && price.value != 0.0 then price.value else p.entryPrice
  }

  function Force(b: Book, id: string, reason: string, price: Option<real>, size: Option<real>): (Book, Option<CloseAction>) {
    if id !in b.held || !b.held[id].IsActive() then (b, None)
    else
      var (b', action) := Close(b, id, reason, ClosePrice(b.held[id], price), size);
      (b', Some(action))
  }

  // ---- The manager object ----

  class OrderManager {
    const maxPositions: int
    var positions: map<string, PositionState>
    /** The insertion order that the source's dict keeps. */
    var order: seq<string>
    var history: seq<HistoryEntry>

    ghost predicate Valid()
      reads this, positions.Values
    {
      && (forall k {:trigger positions[k]} | k in positions :: positions[k].signalId == k)
      && (forall k :: k in order <==> k in positions)
    }

    ghost function Contents(): Book
      reads this, positions.Values
    {
      Book(map k | k in positions :: positions[k].View(), order, history)
    }

    constructor (maxPositions: int)
      requires maxPositions >= 1
      ensures Valid() && Contents() == EMPTY_BOOK && this.maxPositions == maxPositions
    {
      this.maxPositions, positions, order, history := maxPositions, map[], [], [];
    }

    method OnFill(signalId: string, mint: string, entryPrice: real, sizeUsd: real, entryTs: real, ttlSeconds: int,
                  tpPrice: Option<real>, slPrice: Option<real>)
      returns (r: FillResult)
      requires Valid()
      modifies this
      ensures Valid() && fresh(positions.Values - old(positions.Values))
      ensures (Contents(), r)
              == Fill(old(Contents()), maxPositions,
                      NewPosition(signalId, mint, entryPrice, sizeUsd, entryTs, ttlSeconds, tpPrice, slPrice))
    {
      if signalId in positions {
        return AlreadyHeld;
      }
      ContentsSize();
      if |positions| >= maxPositions {
        return MaxPositionsReached;
      }
      AddPosition(NewPosition(signalId, mint, entryPrice, sizeUsd, entryTs, ttlSeconds, tpPrice, slPrice));
      return Opened;
    }

    method AddPosition(p: Position)
      requires Valid() && p.signalId !in positions
      modifies this
      ensures Valid() && fresh(positions.Values - old(positions.Values))
      ensures Contents() == old(Contents()).(held := old(Contents()).held[p.signalId := p], order := old(order) + [p.signalId])
    {
      var position := new PositionState(p);
      positions := positions[p.signalId := position];
      order := order + [p.signalId];
      assert Contents().held == old(Contents()).held[p.signalId := p];
    }

    lemma ContentsSize()
      ensures |Contents().held| == |positions|
    {
      assert Contents().held.Keys == positions.Keys;
    }

    /** The partial branch of `_create_close_action`. */
    method ReducePosition(position: PositionState, reason: string, price: real, size: real)
      requires Valid() && position.signalId in positions && positions[position.signalId] == position
      modifies position
      ensures Valid()
      ensures var p := old(position.View());
              Contents() == old(Contents()).(held := old(Contents()).held[position.signalId :=
                p.(status := PARTIAL, remaining := p.remaining - size, closeReason := Some(reason), closePrice := Some(price))])
    {
      position.status := PARTIAL;
      position.remaining := position.remaining - size;
      position.closeReason := Some(reason);
      position.closePrice := Some(price);
      assert Contents().held == old(Contents()).held[position.signalId := position.View()];
    }

    /** The full branch of `_create_close_action`. */
    method RemovePosition(position: PositionState, reason: string, price: real)
      requires Valid() && position.signalId in positions && positions[position.signalId] == position
      modifies this, position
      ensures Valid() && positions.Values <= old(positions.Values) && history == old(history)
      ensures Contents() == old(Contents()).(held := old(Contents()).held - {position.signalId},
                                             order := Without(old(order), position.signalId))
    {
      position.status := CLOSED;
      position.closeReason := Some(reason);
      position.closePrice := Some(price);
      positions := positions - {position.signalId};
      WithoutMembers(order, position.signalId);
      order := Without(order, position.signalId);
      assert Contents().held == old(Contents()).held - {position.signalId};
    }

    method AppendHistory(entry: HistoryEntry)
      requires Valid()
      modifies this`history
      ensures Valid() && Contents() == old(Contents()).(history := old(history) + [entry])
    {
      history := history + [entry];
      assert Contents().held == old(Contents()).held;
    }

    method CreateCloseAction(position: PositionState, reason: string, price: real, size: Option<real>)
      returns (action: CloseAction)
      requires Valid() && position.signalId in positions && positions[position.signalId] == position
      modifies this, position
      ensures Valid() && positions.Values <= old(positions.Values)
      ensures (Contents(), action) == Close(old(Contents()), position.signalId, reason, price, size)
    {
      var isPartial := size.Some? && size.value < position.remaining;
      var actionType := if isPartial then PARTIAL_CLOSE else CLOSE;
      var logged := if size.Some? && size.value != 0.0 then size.value else position.sizeUsd;
      if isPartial {
        ReducePosition(position, reason, price, size.value);
      } else {
        RemovePosition(position, reason, price);
      }
      AppendHistory(HistoryEntry(position.signalId, actionType, reason, price, logged));
      return CloseAction(position.signalId, actionType, reason, price, if size.Some? then size.value else 0.0);
    }

    method TickPosition(id: string, tick: Tick) returns (actions: seq<CloseAction>)
      requires Valid()
      modifies this, positions.Values
      ensures Valid() && positions.Values <= old(positions.Values)
      ensures (Contents(), actions) == TickOne(old(Contents()), id, tick)
    {
      actions := [];
      if id in positions {
        var position := positions[id];
        var reason := Trigger(position.View(), tick);
        if reason.Some? {
          var action := CreateCloseAction(position, reason.value, tick.price, None);
          actions := [action];
        }
      }
    }

    method OnTick(tick: Tick) returns (actions: seq<CloseAction>)
      requires Valid()
      modifies this, positions.Values
      ensures Valid() && positions.Values <= old(positions.Values)
      ensures (Contents(), actions) == TickEach(old(Contents()), old(order), tick)
    {
      actions := [];
      var snapshot := order;
      for i := 0 to |snapshot|
        invariant Valid() && positions.Values <= old(positions.Values)
        invariant (Contents(), actions) == TickEach(old(Contents()), snapshot[..i], tick)
      {
        assert snapshot[..i + 1][..i] == snapshot[..i];
        var more := TickPosition(snapshot[i], tick);
        actions := actions + more;
      }
      assert snapshot[..|snapshot|] == snapshot;
    }

    method ForceClose(signalId: string, reason: string, price: Option<real>, size: Option<real>)
      returns (action: Option<CloseAction>)
      requires Valid()
      modifies this, positions.Values
      ensures Valid() && positions.Values <= old(positions.Values)
      ensures (Contents(), action) == Force(old(Contents()), signalId, reason, price, size)
    {
      if signalId !in positions || !positions[signalId].View().IsActive() {
        return None;
      }
      var position := positions[signalId];
      var a := CreateCloseAction(position, reason, ClosePrice(position.View(), price), size);
      return Some(a);
    }
  }

  lemma {:induction false} WithoutMembers(ids: seq<string>, id: string)
    ensures forall k :: k in Without(ids, id) <==> k in ids && k != id
  {
    if ids != [] {
      WithoutMembers(ids[1..], id);
      assert ids == [ids[0]] + ids[1..];
    }
  }

  // ---- A tick settles its mint ----

  /** Nothing held is due at this tick. */
  ghost predicate Settled(b: Book, tick: Tick) {
    forall id {:trigger id in b.held} | id in b.held :: Trigger(b.held[id], tick) == None
  }

  lemma {:induction false} TickSettles(b: Book, ids: seq<string>, tick: Tick)
    ensures var b' := TickEach(b, ids, tick).0;
            && b'.held.Keys <= b.held.Keys
            && (forall id | id in b'.held :: b'.held[id] == b.held[id])
            && (forall id | id in ids && id in b'.held :: Trigger(b'.held[id], tick) == None)
  {
    if ids != [] {
      TickSettles(b, ids[..|ids| - 1], tick);
    }
  }

  lemma {:induction false} SettledTickDoesNothing(b: Book, ids: seq<string>, tick: Tick)
    requires Settled(b, tick)
    ensures TickEach(b, ids, tick) == (b, [])
  {
    if ids != [] {
      SettledTickDoesNothing(b, ids[..|ids| - 1], tick);
      var none: seq<CloseAction> := [];
      assert none + [] == none;
    }
  }

  /** After a tick no active position of its mint is due, and repeating the tick changes nothing. */
  lemma TickIsIdempotent(b: Book, tick: Tick)
    requires forall k :: k in b.order <==> k in b.held
    ensures var b' := TickEach(b, b.order, tick).0;
            Settled(b', tick) && TickEach(b', b'.order, tick) == (b', [])
  {
    TickSettles(b, b.order, tick);
    SettledTickDoesNothing(TickEach(b, b.order, tick).0, TickEach(b, b.order, tick).0.order, tick);
  }

  // ---- Exactly what a fill opens ----

  /** Active, whole, and with nothing said yet about its end. */
  predicate JustOpened(p: Position) {
    p.status == ACTIVE && p.remaining == p.sizeUsd && p.closeReason == None && p.closePrice == None
  }

  /** A fill opens a position, last in line, unless its signal is held or the book is full. */
  lemma FillIsExact(b: Book, maxPositions: int, id: string, mint: string, entryPrice: real, sizeUsd: real, entryTs: real,
                    ttl: int, tp: Option<real>, sl: Option<real>)
    ensures var (b', r) := Fill(b, maxPositions, NewPosition(id, mint, entryPrice, sizeUsd, entryTs, ttl, tp, sl));
            && (r == AlreadyHeld <==> id in b.held) && (r == MaxPositionsReached <==> id !in b.held && maxPositions <= |b.held|)
            && (r != Opened ==> b' == b)
            && (r == Opened ==>
                  && id in b'.held && b'.held == b.held[id := b'.held[id]]
                  && b'.order == b.order + [id] && b'.history == b.history
                  && var p := b'.held[id];
                     && JustOpened(p) && p.signalId == id && p.mint == mint && p.entryPrice == entryPrice
                     && p.sizeUsd == sizeUsd && p.expiresAt - entryTs == ttl as real && p.tpPrice == tp && p.slPrice == sl)
  {
  }

  // ---- Exactly which positions a tick closes, and what it records ----

  /** At or past the level, in the direction in which the price would reach it. */
  predicate Reached(level: Option<real>, price: real, upward: bool) {
    level.Some? && if upward then level.value <= price else price <= level.value
  }

  /** Why a tick closes a position of its mint that is open: its time is up; failing that the price is at
      or beyond the target, above for a BUY tick and below for any other; failing that it is at or
      beyond the stop, on the other side. */
  predicate ClosesFor(p: Position, tick: Tick, reason: string) {
    var buy := tick.side == "BUY";
    && (p.status == ACTIVE || p.status == PENDING) && p.mint == tick.mint
    && if p.expiresAt <= tick.ts then reason == "ttl_expired"
       else if Reached(p.tpPrice, tick.price, buy) then reason == "tp_hit"
       else Reached(p.slPrice, tick.price, !buy) && reason == "sl_hit"
  }

  ghost predicate IsDue(p: Position, tick: Tick) {
    exists reason :: ClosesFor(p, tick, reason)
  }

  lemma TriggerIsExact(p: Position, tick: Tick)
    ensures Trigger(p, tick) == None <==> !IsDue(p, tick)
    ensures forall reason :: ClosesFor(p, tick, reason) <==> Trigger(p, tick) == Some(reason)
  {
    if Trigger(p, tick).Some? {
      assert ClosesFor(p, tick, Trigger(p, tick).value);
    }
  }

  /** A tick takes from the book exactly the due positions among those it visits, and leaves every
      other one as it was. */
  lemma {:induction false} TickTakesTheDue(b: Book, ids: seq<string>, tick: Tick, k: string)
    requires k in b.held
    ensures var b' := TickEach(b, ids, tick).0;
            && (k !in b'.held <==> k in ids && IsDue(b.held[k], tick))
            && (k in b'.held ==> b'.held[k] == b.held[k])
  {
    if ids != [] {
      var init, id := ids[..|ids| - 1], ids[|ids| - 1];
      TickTakesTheDue(b, init, tick, k);
      assert ids == init + [id];
      TriggerIsExact(b.held[k], tick);
    }
  }

  /** The record of closing `p` wholly on a tick. */
  predicate Records(entry: HistoryEntry, action: CloseAction, p: Position, tick: Tick) {
    && entry == HistoryEntry(p.signalId, CLOSE, entry.reason, tick.price, p.sizeUsd)
    && action == CloseAction(p.signalId, CLOSE, entry.reason, tick.price, 0.0)
    && ClosesFor(p, tick, entry.reason)
  }

  ghost predicate RecordsOf(b: Book, tick: Tick, entries: seq<HistoryEntry>, actions: seq<CloseAction>) {
    && |entries| == |actions|
    && forall i | 0 <= i < |entries| ::
         entries[i].signalId in b.held && Records(entries[i], actions[i], b.held[entries[i].signalId], tick)
  }

  ghost predicate KnowsItself(b: Book) {
    forall id | id in b.held :: b.held[id].signalId == id
  }

  lemma TickOneRecords(b: Book, b1: Book, id: string, tick: Tick, entries: seq<HistoryEntry>, actions: seq<CloseAction>)
    requires KnowsItself(b) && b1.history == b.history + entries && RecordsOf(b, tick, entries, actions)
    requires forall k | k in b1.held :: k in b.held && b1.held[k] == b.held[k]
    ensures var (b2, more) := TickOne(b1, id, tick);
            && |b2.held| + |more| == |b1.held|
            && b.history <= b2.history && RecordsOf(b, tick, b2.history[|b.history|..], actions + more)
  {
    var (b2, more) := TickOne(b1, id, tick);
    if more == [] {
      assert b2.history[|b.history|..] == entries && actions + more == actions;
    } else {
      TriggerIsExact(b1.held[id], tick);
      var last := b2.history[|b2.history| - 1];
      assert b2.history[|b.history|..] == entries + [last];
      assert Records(last, more[0], b.held[id], tick);
      assert (b1.held - {id}).Keys == b1.held.Keys - {id};
    }
  }

  /** The history grows by one entry, and the tick returns one action, for each position that leaves;
      each says which, at the tick's price, and why. */
  lemma {:induction false} TickRecordsEachClose(b: Book, ids: seq<string>, tick: Tick)
    requires KnowsItself(b)
    ensures var (b', actions) := TickEach(b, ids, tick);
            && |b'.held| + |actions| == |b.held|
            && b.history <= b'.history && RecordsOf(b, tick, b'.history[|b.history|..], actions)
  {
    if ids == [] {
      assert b.history[|b.history|..] == [];
    } else {
      var init := ids[..|ids| - 1];
      TickRecordsEachClose(b, init, tick);
      TickSettles(b, init, tick);
      var (b1, done) := TickEach(b, init, tick);
      TickOneRecords(b, b1, ids[|ids| - 1], tick, b1.history[|b.history|..], done);
    }
  }

  /** From a fill to a tick: a position just opened leaves on a tick of its mint if and only if the tick
      is at least `ttl` seconds after the entry, or its price is at or beyond the target or the stop. */
  lemma FilledPositionLeavesIff(b: Book, maxPositions: int, id: string, mint: string, entryPrice: real, sizeUsd: real,
                                entryTs: real, ttl: int, tp: Option<real>, sl: Option<real>, tick: Tick)
    requires (forall k :: k in b.order <==> k in b.held) && id !in b.held && |b.held| < maxPositions
    requires tick.mint == mint
    ensures var b1 := Fill(b, maxPositions, NewPosition(id, mint, entryPrice, sizeUsd, entryTs, ttl, tp, sl)).0;
            var b2 := TickEach(b1, b1.order, tick).0;
            id !in b2.held
            <==> || tick.ts >= entryTs + ttl as real
                 || (tp.Some? && (if tick.side == "BUY" then tick.price >= tp.value else tick.price <= tp.value))
                 || (sl.Some? && (if tick.side == "BUY" then tick.price <= sl.value else tick.price >= sl.value))
  {
    var b1 := OpenedBook(b, maxPositions, id, mint, entryPrice, sizeUsd, entryTs, ttl, tp, sl);
    TickTakesTheDue(b1, b1.order, tick, id);
    DueIff(b1.held[id], tick);
  }

  lemma OpenedBook(b: Book, maxPositions: int, id: string, mint: string, entryPrice: real, sizeUsd: real,
                   entryTs: real, ttl: int, tp: Option<real>, sl: Option<real>) returns (b1: Book)
    requires id !in b.held && |b.held| < maxPositions
    ensures b1 == Fill(b, maxPositions, NewPosition(id, mint, entryPrice, sizeUsd, entryTs, ttl, tp, sl)).0
    ensures id in b1.held && id in b1.order
    ensures var p := b1.held[id];
            p.status == ACTIVE && p.mint == mint && p.expiresAt == entryTs + ttl as real && p.tpPrice == tp && p.slPrice == sl
  {
    b1 := Fill(b, maxPositions, NewPosition(id, mint, entryPrice, sizeUsd, entryTs, ttl, tp, sl)).0;
    assert b1.order[|b1.order| - 1] == id;
  }

  lemma DueIff(p: Position, tick: Tick)
    ensures IsDue(p, tick)
            <==> && (p.status == ACTIVE || p.status == PENDING) && p.mint == tick.mint
                 && (p.expiresAt <= tick.ts || Reached(p.tpPrice, tick.price, tick.side == "BUY")
                     || Reached(p.slPrice, tick.price, tick.side != "BUY"))
  {
    TriggerIsExact(p, tick);
  }

  /** A BUY tick between stop and target, before the time is up, changes nothing. */
  lemma QuietTickLeavesPosition(b: Book, tick: Tick, id: string)
    requires id in b.held && tick.side == "BUY" && tick.ts < b.held[id].expiresAt
    requires b.held[id].tpPrice.Some? ==> tick.price < b.held[id].tpPrice.value
    requires b.held[id].slPrice.Some? ==> b.held[id].slPrice.value < tick.price
    ensures var b' := TickEach(b, b.order, tick).0;
            id in b'.held && b'.held[id] == b.held[id]
  {
    TickTakesTheDue(b, b.order, tick, id);
  }

  // ---- Exactly what a forced close does ----

  function Other(id: string): string -> bool {
    (k: string) => k != id
  }

  lemma {:induction false} WithoutIsFilter(ids: seq<string>, id: string)
    ensures Without(ids, id) == Filter(ids, Other(id))
  {
    if ids != [] {
      WithoutIsFilter(ids[1..], id);
    }
  }

  /** Whole: the position leaves, the others keep their order, and one entry says so. */
  predicate ClosedWhole(b: Book, b': Book, id: string, entry: HistoryEntry) {
    && b'.held == b.held - {id} && b'.order == Filter(b.order, Other(id))
    && b'.history == b.history + [entry] && entry.action == CLOSE
  }

  /** In part: the position stays, less what was closed, and one entry says so. */
  predicate ClosedInPart(b: Book, b': Book, id: string, size: real, entry: HistoryEntry) {
    && id in b.held && id in b'.held && b'.held[id].status == PARTIAL
    && b'.held[id].remaining + size == b.held[id].remaining
    && b'.held[id] == b.held[id].(status := PARTIAL, remaining := b'.held[id].remaining,
                                  closeReason := Some(entry.reason), closePrice := Some(entry.price))
    && b'.held == b.held[id := b'.held[id]] && b'.order == b.order
    && b'.history == b.history + [entry] && entry.action == PARTIAL_CLOSE
  }

  /** A given value counts unless it is zero. */
  predicate Chosen(given: Option<real>, fallback: real, v: real) {
    v == if given.None? || given.value == 0.0 then fallback else given.value
  }

  /** A forced close does nothing unless the position is held and open. A size below what remains closes
      that part, anything else the whole; the price given, or else the entry price, is recorded. */
  lemma ForceIsExact(b: Book, id: string, reason: string, price: Option<real>, size: Option<real>)
    ensures var (b', action) := Force(b, id, reason, price, size);
            if id !in b.held || (b.held[id].status != ACTIVE && b.held[id].status != PENDING) then b' == b && action == None
            else
              && |b'.history| == |b.history| + 1 && action.Some?
              && var entry := b'.history[|b.history|];
                 && entry.signalId == id && entry.reason == reason
                 && Chosen(price, b.held[id].entryPrice, entry.price) && Chosen(size, b.held[id].sizeUsd, entry.sizeUsd)
                 && action.value == CloseAction(id, entry.action, reason, entry.price, if size.Some? then size.value else 0.0)
                 && if size.Some? && size.value < b.held[id].remaining then ClosedInPart(b, b', id, size.value, entry)
                    else ClosedWhole(b, b', id, entry)
  {
    WithoutIsFilter(b.order, id);
  }

  /** A second forced close of the same position does nothing. */
  lemma ForceCloseIsIdempotent(b: Book, id: string, reason: string, price: Option<real>, size: Option<real>,
                               reason': string, price': Option<real>, size': Option<real>)
    ensures var b' := Force(b, id, reason, price, size).0;
            Force(b', id, reason', price', size') == (b', None)
  {
  }

  // ---- Every run of fills, ticks and forced closes ----

  datatype Event =
    | Filled(signalId: string, mint: string, entryPrice: real, sizeUsd: real, entryTs: real, ttlSeconds: int,
             tpPrice: Option<real>, slPrice: Option<real>)
    | Ticked(tick: Tick)
    | Forced(id: string, reason: string, price: Option<real>, size: Option<real>)

  /** The book together with the signals of all positions ever opened. */
  datatype Story = Story(book: Book, openings: seq<string>)

  function Next(maxPositions: int, s: Story, ev: Event): Story {
    match ev
    case Filled(id, mint, entryPrice, sizeUsd, entryTs, ttl, tp, sl) =>
      var (b, r) := Fill(s.book, maxPositions, NewPosition(id, mint, entryPrice, sizeUsd, entryTs, ttl, tp, sl));
      Story(b, if r == Opened then s.openings + [id] else s.openings)
    case Ticked(tick) => s.(book := TickEach(s.book, s.book.order, tick).0)
    case Forced(id, reason, price, size) => s.(book := Force(s.book, id, reason, price, size).0)
  }

  function Run(maxPositions: int, evs: seq<Event>): Story {
    if evs == [] then Story(EMPTY_BOOK, [])
    else Next(maxPositions, Run(maxPositions, evs[..|evs| - 1]), evs[|evs| - 1])
  }

  function Times(ids: seq<string>, id: string): nat {
    if ids == [] then 0 else Times(ids[..|ids| - 1], id) + if ids[|ids| - 1] == id then 1 else 0
  }

  /** How often the history records this action on this signal. */
  function Actions(history: seq<HistoryEntry>, id: string, action: ActionType): nat {
    if history == [] then 0
    else
      var h := history[|history| - 1];
      Actions(history[..|history| - 1], id, action) + if h.signalId == id && h.action == action then 1 else 0
  }

  function Total(history: seq<HistoryEntry>, action: ActionType): nat {
    if history == [] then 0
    else Total(history[..|history| - 1], action) + if history[|history| - 1].action == action then 1 else 0
  }

  ghost function Partials(held: map<string, Position>): set<string> {
    set id | id in held && held[id].status == PARTIAL
  }

  predicate IsHeld(b: Book, id: string) {
    id in b.held
  }

  /** In every run each position is held under its own signal. */
  lemma {:induction false} RunKnowsItself(maxPositions: int, evs: seq<Event>)
    ensures KnowsItself(Run(maxPositions, evs).book)
  {
    if evs != [] {
      var s, ev := Run(maxPositions, evs[..|evs| - 1]), evs[|evs| - 1];
      RunKnowsItself(maxPositions, evs[..|evs| - 1]);
      if ev.Ticked? {
        TickSettles(s.book, s.book.order, ev.tick);
      }
    }
  }

  /** Openings, actions and the held position of one signal agree. */
  ghost predicate Tallies(s: Story, id: string) {
    && Times(s.openings, id) == Actions(s.book.history, id, CLOSE) + (if IsHeld(s.book, id) then 1 else 0)
    && Actions(s.book.history, id, PARTIAL_CLOSE)
       == (if IsHeld(s.book, id) && s.book.held[id].status == PARTIAL then 1 else 0)
    && (IsHeld(s.book, id) ==> s.book.held[id].status == ACTIVE || s.book.held[id].status == PARTIAL)
  }

  /** The same bookkeeping over all signals together. */
  ghost predicate Conserves(maxPositions: int, s: Story) {
    && (forall k :: k in s.book.order <==> k in s.book.held)
    && |s.book.held| <= maxPositions
    && |s.openings| == |s.book.held| + Total(s.book.history, CLOSE)
    && |Partials(s.book.held)| == Total(s.book.history, PARTIAL_CLOSE)
  }

  lemma CloseKeepsTallies(s: Story, id: string, reason: string, price: real, size: Option<real>, k: string)
    requires id in s.book.held && s.book.held[id].status == ACTIVE && Tallies(s, k)
    ensures Tallies(s.(book := Close(s.book, id, reason, price, size).0), k)
  {
    var b' := Close(s.book, id, reason, price, size).0;
    assert b'.history[..|b'.history| - 1] == s.book.history;
  }

  lemma FillKeepsTallies(maxPositions: int, s: Story, p: Position, k: string)
    requires Tallies(s, k) && p.status == ACTIVE
    ensures var (b, r) := Fill(s.book, maxPositions, p);
            Tallies(Story(b, if r == Opened then s.openings + [p.signalId] else s.openings), k)
  {
    assert (s.openings + [p.signalId])[..|s.openings|] == s.openings;
  }

  lemma PartialCloseCounts(b: Book, id: string, p: Position)
    requires id in b.held && b.held[id].status == ACTIVE && p.status == PARTIAL
    ensures b.held[id := p].Keys == b.held.Keys
    ensures |Partials(b.held[id := p])| == |Partials(b.held)| + 1
  {
    assert Partials(b.held[id := p]) == Partials(b.held) + {id};
  }

  lemma FullCloseCounts(b: Book, id: string)
    requires id in b.held && b.held[id].status == ACTIVE
    ensures |b.held - {id}| == |b.held| - 1
    ensures Partials(b.held - {id}) == Partials(b.held)
    ensures forall k :: k in Without(b.order, id) <==> k in b.order && k != id
  {
    WithoutMembers(b.order, id);
    assert (b.held - {id}).Keys == b.held.Keys - {id};
  }

  lemma CloseConserves(maxPositions: int, s: Story, id: string, reason: string, price: real, size: Option<real>)
    requires id in s.book.held && s.book.held[id].status == ACTIVE && Conserves(maxPositions, s)
    ensures Conserves(maxPositions, s.(book := Close(s.book, id, reason, price, size).0))
  {
    var b, b' := s.book, Close(s.book, id, reason, price, size).0;
    assert b'.history[..|b'.history| - 1] == b.history;
    if IsPartial(b.held[id], size) {
      PartialCloseCounts(b, id, b'.held[id]);
    } else {
      FullCloseCounts(b, id);
    }
  }

  lemma {:induction false} TickKeepsTallies(s: Story, ids: seq<string>, tick: Tick, k: string)
    requires forall id {:trigger Tallies(s, id)} :: Tallies(s, id)
    ensures Tallies(s.(book := TickEach(s.book, ids, tick).0), k)
  {
    if ids == [] {
      assert Tallies(s, k);
    } else {
      var init, id := ids[..|ids| - 1], ids[|ids| - 1];
      TickKeepsTallies(s, init, tick, k);
      TickKeepsTallies(s, init, tick, id);
      var s1 := s.(book := TickEach(s.book, init, tick).0);
      if id in s1.book.held && Trigger(s1.book.held[id], tick).Some? {
        CloseKeepsTallies(s1, id, Trigger(s1.book.held[id], tick).value, tick.price, None, k);
      }
    }
  }

  lemma {:induction false} TickConserves(maxPositions: int, s: Story, ids: seq<string>, tick: Tick)
    requires Conserves(maxPositions, s)
    requires forall id {:trigger Tallies(s, id)} :: Tallies(s, id)
    ensures Conserves(maxPositions, s.(book := TickEach(s.book, ids, tick).0))
  {
    if ids != [] {
      var init, id := ids[..|ids| - 1], ids[|ids| - 1];
      TickConserves(maxPositions, s, init, tick);
      TickKeepsTallies(s, init, tick, id);
      var s1 := s.(book := TickEach(s.book, init, tick).0);
      if id in s1.book.held && Trigger(s1.book.held[id], tick).Some? {
        CloseConserves(maxPositions, s1, id, Trigger(s1.book.held[id], tick).value, tick.price, None);
      }
    }
  }

  /** For every signal: openings = closes + the position still held; a partial close is recorded
      exactly while the position is held half-closed. So each opening gets at most one action. */
  lemma {:induction false} EverySignalTallies(maxPositions: int, evs: seq<Event>, k: string)
    ensures Tallies(Run(maxPositions, evs), k)
    decreases evs
  {
    if evs != [] {
      var s, ev := Run(maxPositions, evs[..|evs| - 1]), evs[|evs| - 1];
      EverySignalTallies(maxPositions, evs[..|evs| - 1], k);
      match ev
      case Filled(id, mint, entryPrice, sizeUsd, entryTs, ttl, tp, sl) =>
        FillKeepsTallies(maxPositions, s, NewPosition(id, mint, entryPrice, sizeUsd, entryTs, ttl, tp, sl), k);
      case Ticked(tick) =>
        forall id
          ensures Tallies(s, id)
        {
          EverySignalTallies(maxPositions, evs[..|evs| - 1], id);
        }
        TickKeepsTallies(s, s.book.order, tick, k);
      case Forced(id, reason, price, size) =>
        EverySignalTallies(maxPositions, evs[..|evs| - 1], id);
        if id in s.book.held && s.book.held[id].IsActive() {
          CloseKeepsTallies(s, id, reason, ClosePrice(s.book.held[id], price), size, k);
        }
    }
  }

  /** Positions opened = positions held + closes in the history; half-closed positions held = partial
      closes in the history; and never more than `maxPositions` are held. */
  lemma {:induction false} RunConserves(maxPositions: int, evs: seq<Event>)
    requires maxPositions >= 1
    ensures Conserves(maxPositions, Run(maxPositions, evs))
  {
    if evs != [] {
      var s, ev := Run(maxPositions, evs[..|evs| - 1]), evs[|evs| - 1];
      RunConserves(maxPositions, evs[..|evs| - 1]);
      match ev
      case Filled(id, mint, entryPrice, sizeUsd, entryTs, ttl, tp, sl) =>
        FillConserves(maxPositions, s, NewPosition(id, mint, entryPrice, sizeUsd, entryTs, ttl, tp, sl));
      case Ticked(tick) =>
        forall id
          ensures Tallies(s, id)
        {
          EverySignalTallies(maxPositions, evs[..|evs| - 1], id);
        }
        TickConserves(maxPositions, s, s.book.order, tick);
      case Forced(id, reason, price, size) =>
        EverySignalTallies(maxPositions, evs[..|evs| - 1], id);
        if id in s.book.held && s.book.held[id].IsActive() {
          CloseConserves(maxPositions, s, id, reason, ClosePrice(s.book.held[id], price), size);
        }
    }
  }

  lemma FillConserves(maxPositions: int, s: Story, p: Position)
    requires Conserves(maxPositions, s) && p.status == ACTIVE
    ensures var (b, r) := Fill(s.book, maxPositions, p);
            Conserves(maxPositions, Story(b, if r == Opened then s.openings + [p.signalId] else s.openings))
  {
    var (b, r) := Fill(s.book, maxPositions, p);
    if r == Opened {
      assert b.held.Keys == s.book.held.Keys + {p.signalId};
      assert Partials(b.held) == Partials(s.book.held);
    }
  }

  /** No opening is acted on twice. */
  lemma AtMostOneActionPerOpening(maxPositions: int, evs: seq<Event>, id: string)
    ensures var s := Run(maxPositions, evs);
            Actions(s.book.history, id, CLOSE) + Actions(s.book.history, id, PARTIAL_CLOSE) <= Times(s.openings, id)
  {
    EverySignalTallies(maxPositions, evs, id);
  }

  /** A half-closed position keeps its slot for ever: no later event changes it. */
  lemma {:induction false} PartialIsStuck(maxPositions: int, s: Story, ev: Event, id: string)
    requires id in s.book.held && s.book.held[id].status == PARTIAL
    ensures id in Next(maxPositions, s, ev).book.held
    ensures Next(maxPositions, s, ev).book.held[id] == s.book.held[id]
  {
    if ev.Ticked? {
      PartialSurvivesTick(s.book, s.book.order, ev.tick, id);
    }
  }

  ghost predicate HeldPartial(s: Story, id: string) {
    id in s.book.held && s.book.held[id].status == PARTIAL
  }

  /** Over whole runs: a position once half-closed is still held, unchanged, after any further events. */
  lemma {:induction false} PartialIsStuckForever(maxPositions: int, evs: seq<Event>, more: seq<Event>, id: string)
    requires HeldPartial(Run(maxPositions, evs), id)
    ensures HeldPartial(Run(maxPositions, evs + more), id)
    ensures Run(maxPositions, evs + more).book.held[id] == Run(maxPositions, evs).book.held[id]
  {
    if more == [] {
      assert evs + more == evs;
    } else {
      var init, ev := more[..|more| - 1], more[|more| - 1];
      PartialIsStuckForever(maxPositions, evs, init, id);
      RunSnoc(maxPositions, evs + init, ev);
      assert evs + more == evs + init + [ev];
      PartialIsStuck(maxPositions, Run(maxPositions, evs + init), ev, id);
    }
  }

  lemma RunSnoc(maxPositions: int, evs: seq<Event>, ev: Event)
    ensures Run(maxPositions, evs + [ev]) == Next(maxPositions, Run(maxPositions, evs), ev)
  {
    assert (evs + [ev])[..|evs|] == evs;
  }

  lemma {:induction false} FullOfHalfClosedStaysFull(maxPositions: int, evs: seq<Event>, more: seq<Event>)
    requires |Partials(Run(maxPositions, evs).book.held)| >= maxPositions
    ensures Run(maxPositions, evs + more).openings == Run(maxPositions, evs).openings
  {
    if more == [] {
      assert evs + more == evs;
    } else {
      var init, ev := more[..|more| - 1], more[|more| - 1];
      FullOfHalfClosedStaysFull(maxPositions, evs, init);
      BookStaysFull(maxPositions, evs, init);
      FullBookOpensNothing(maxPositions, Run(maxPositions, evs + init), ev);
      RunSnoc(maxPositions, evs + init, ev);
      assert evs + more == evs + init + [ev];
    }
  }

  lemma FullBookOpensNothing(maxPositions: int, s: Story, ev: Event)
    requires |s.book.held| >= maxPositions
    ensures Next(maxPositions, s, ev).openings == s.openings
  {
  }

  lemma BookStaysFull(maxPositions: int, evs: seq<Event>, more: seq<Event>)
    requires |Partials(Run(maxPositions, evs).book.held)| >= maxPositions
    ensures |Run(maxPositions, evs + more).book.held| >= maxPositions
  {
    var b, b' := Run(maxPositions, evs).book, Run(maxPositions, evs + more).book;
    forall id | id in Partials(b.held)
      ensures id in b'.held.Keys
    {
      PartialIsStuckForever(maxPositions, evs, more, id);
    }
    SubsetCardinality(Partials(b.held), b'.held.Keys);
    assert |b'.held| == |b'.held.Keys|;
  }

  // ---- Exactly when a position can still leave, and another one still open ----

  lemma LeavesByForce(maxPositions: int, evs: seq<Event>, id: string)
    requires IsHeld(Run(maxPositions, evs).book, id) && Run(maxPositions, evs).book.held[id].status == ACTIVE
    ensures var b, b' := Run(maxPositions, evs).book, Run(maxPositions, evs + [Forced(id, "manual_close", None, None)]).book;
            b'.held == b.held - {id}
    ensures Run(maxPositions, evs + [Forced(id, "manual_close", None, None)]).openings == Run(maxPositions, evs).openings
  {
    RunSnoc(maxPositions, evs, Forced(id, "manual_close", None, None));
  }

  /** A held position can still leave the book if and only if it is not half-closed. */
  lemma LeavesIffNotHalfClosed(maxPositions: int, evs: seq<Event>, id: string)
    requires IsHeld(Run(maxPositions, evs).book, id)
    ensures (exists more :: !IsHeld(Run(maxPositions, evs + more).book, id))
            <==> Run(maxPositions, evs).book.held[id].status != PARTIAL
  {
    EverySignalTallies(maxPositions, evs, id);
    if HeldPartial(Run(maxPositions, evs), id) {
      forall more
        ensures IsHeld(Run(maxPositions, evs + more).book, id)
      {
        PartialIsStuckForever(maxPositions, evs, more, id);
      }
    } else {
      LeavesByForce(maxPositions, evs, id);
      assert !IsHeld(Run(maxPositions, evs + [Forced(id, "manual_close", None, None)]).book, id);
    }
  }

  /** Some signal that the book does not hold. */
  lemma {:induction false} FreshSignal(ids: set<string>) returns (other: string)
    ensures forall id | id in ids :: |id| < |other|
  {
    if ids == {} {
      other := "";
    } else {
      var id :| id in ids;
      var rest := FreshSignal(ids - {id});
      other := rest + id + "x";
      assert |rest| < |other| && |id| < |other|;
    }
  }

  function AnyFill(id: string): Event {
    Filled(id, "", 1.0, 1.0, 0.0, 60, None, None)
  }

  lemma RoomOpens(maxPositions: int, evs: seq<Event>, id: string)
    requires !IsHeld(Run(maxPositions, evs).book, id) && |Run(maxPositions, evs).book.held| < maxPositions
    ensures Run(maxPositions, evs + [AnyFill(id)]).openings == Run(maxPositions, evs).openings + [id]
  {
    RunSnoc(maxPositions, evs, AnyFill(id));
  }

  lemma SomeActive(maxPositions: int, evs: seq<Event>) returns (id: string)
    requires |Partials(Run(maxPositions, evs).book.held)| < |Run(maxPositions, evs).book.held|
    ensures IsHeld(Run(maxPositions, evs).book, id) && Run(maxPositions, evs).book.held[id].status == ACTIVE
  {
    var held := Run(maxPositions, evs).book.held;
    assert |held| == |held.Keys|;
    if held.Keys <= Partials(held) {
      SubsetCardinality(held.Keys, Partials(held));
      assert false;
    }
    id :| id in held && id !in Partials(held);
    EverySignalTallies(maxPositions, evs, id);
  }

  lemma SlotLeftOpens(maxPositions: int, evs: seq<Event>) returns (more: seq<Event>)
    requires maxPositions >= 1 && |Partials(Run(maxPositions, evs).book.held)| < maxPositions
    ensures Run(maxPositions, evs + more).openings != Run(maxPositions, evs).openings
  {
    RunConserves(maxPositions, evs);
    var held := Run(maxPositions, evs).book.held;
    if |held| < maxPositions {
      var id := FreshSignal(held.Keys);
      more := [AnyFill(id)];
      RoomOpens(maxPositions, evs, id);
    } else {
      var id := SomeActive(maxPositions, evs);
      var close := Forced(id, "manual_close", None, None);
      more := [close, AnyFill(id)];
      LeavesByForce(maxPositions, evs, id);
      FullCloseCounts(Run(maxPositions, evs).book, id);
      RoomOpens(maxPositions, evs + [close], id);
      assert evs + more == evs + [close] + [AnyFill(id)];
    }
  }

  /** No position is ever opened again if and only if half-closed positions take every slot. */
  lemma HalfClosedBlockTheBook(maxPositions: int, evs: seq<Event>)
    requires maxPositions >= 1
    ensures (forall more :: Run(maxPositions, evs + more).openings == Run(maxPositions, evs).openings)
            <==> |Partials(Run(maxPositions, evs).book.held)| >= maxPositions
  {
    if |Partials(Run(maxPositions, evs).book.held)| >= maxPositions {
      forall more
        ensures Run(maxPositions, evs + more).openings == Run(maxPositions, evs).openings
      {
        FullOfHalfClosedStaysFull(maxPositions, evs, more);
      }
    } else {
      var more := SlotLeftOpens(maxPositions, evs);
      assert Run(maxPositions, evs + more).openings != Run(maxPositions, evs).openings;
    }
  }

  /** Such a run exists: one fill and one forced close of part of it. With one slot, the book is
      blocked from then on. */
  lemma OneHalfCloseBlocksTheBook(id: string, mint: string, more: seq<Event>)
    ensures var evs := [Filled(id, mint, 1.0, 100.0, 0.0, 60, None, None), Forced(id, "manual_close", None, Some(40.0))];
            && HeldPartial(Run(1, evs), id) && Run(1, evs).book.held[id].remaining == 60.0
            && Run(1, evs + more).openings == [id]
  {
    var fill, force := Filled(id, mint, 1.0, 100.0, 0.0, 60, None, None), Forced(id, "manual_close", None, Some(40.0));
    RunSnoc(1, [], fill);
    assert [] + [fill] == [fill];
    RunSnoc(1, [fill], force);
    assert [fill] + [force] == [fill, force];
    var held := Run(1, [fill, force]).book.held;
    assert Partials(held) == {id};
    FullOfHalfClosedStaysFull(1, [fill, force], more);
  }

  lemma {:induction false} PartialSurvivesTick(b: Book, ids: seq<string>, tick: Tick, id: string)
    requires id in b.held && b.held[id].status == PARTIAL
    ensures id in TickEach(b, ids, tick).0.held && TickEach(b, ids, tick).0.held[id] == b.held[id]
  {
    if ids != [] {
      PartialSurvivesTick(b, ids[..|ids| - 1], tick, id);
    }
  }
}
