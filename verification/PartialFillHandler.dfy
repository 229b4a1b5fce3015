/** Records of partially filled orders and their resolution (execution/partial_fill_handler.py). */
module PartialFillHandling {
  import opened Collections

  datatype Status = PENDING | COMPLETED | CLOSED

  /** The token and the transaction a record stems from; a missing trace id is generated by the caller. */
  datatype Origin = Origin(mint: string, txSig: string, traceId: string)

  /** The value of a record at one moment. */
  datatype Record = Record(signalId: string, origin: Origin, expected: real, filled: real, entryPrice: real,
                           createdAt: real, lastUpdate: real, status: Status)

  datatype Kind = PARTIAL_FILL | FORCE_CLOSE | CANCEL

  datatype Adjustment = Adjustment(signalId: string, origin: Origin, kind: Kind, filled: real, remaining: real,
                                   price: real, reason: string, at: real)

  /** A resolution has no transaction of its own; it names the fill's with a prefix. */
  function Derived(origin: Origin, prefix: string): Origin {
    origin.(txSig := prefix + origin.txSig)
  }

  function FillReceived(id: string, origin: Origin, expected: real, filled: real, price: real, now: real): Adjustment {
    Adjustment(id, origin, PARTIAL_FILL, filled, expected - filled, price, "Partial fill received", now)
  }

  function Closing(id: string, r: Record, price: real, reason: string, now: real): Adjustment {
    Adjustment(id, Derived(r.origin, "close_"), FORCE_CLOSE, r.filled, 0.0, price, reason, now)
  }

  function Cancellation(id: string, r: Record, reason: string, now: real): Adjustment {
    Adjustment(id, Derived(r.origin, "cancel_"), CANCEL, r.filled, Remaining(r), r.entryPrice, reason, now)
  }

  /** The records, the order in which they were created, and the adjustment history. */
  datatype Ledger = Ledger(records: map<string, Record>, order: seq<string>, adjustments: seq<Adjustment>)

  const EMPTY_LEDGER := Ledger(map[], [], [])

  // ---- Specification of each operation on the ledger ----

  function Remaining(r: Record): real {
    if r.expected - r.filled > 0.0 then r.expected - r.filled else 0.0
  }

  /** A fill on a known signal is added whatever the record's status; completion is judged against
      the amount expected by this call, not the one on record. */
  function AddFill(r: Record, expected: real, filled: real, now: real): Record {
    var total := r.filled + filled;
    r.(filled := total, lastUpdate := now, status := if total >= expected then COMPLETED else r.status)
  }

  function Receive(s: Ledger, id: string, origin: Origin, expected: real, filled: real, price: real, now: real): Ledger {
    if id in s.records then s.(records := s.records[id := AddFill(s.records[id], expected, filled, now)])
    else
      Ledger(s.records[id := Record(id, origin, expected, filled, price, now, now, PENDING)], s.order + [id],
             s.adjustments + [FillReceived(id, origin, expected, filled, price, now)])
  }

  function ForceClose(s: Ledger, id: string, price: real, reason: string, now: real): (Ledger, Option<Adjustment>) {
    if id !in s.records || s.records[id].status != PENDING then (s, None)
    else
      var r := s.records[id];
      if Remaining(r) <= 0.0 then (s.(records := s.records[id := r.(status := COMPLETED)]), None)
      else
        var a := Closing(id, r, price, reason, now);
        (s.(records := s.records[id := r.(status := CLOSED)], adjustments := s.adjustments + [a]), Some(a))
  }

  function Cancel(s: Ledger, id: string, reason: string, now: real): (Ledger, Option<Adjustment>) {
    if id !in s.records || s.records[id].status != PENDING then (s, None)
    else
      var r := s.records[id];
      var a := Cancellation(id, r, reason, now);
      (s.(records := s.records[id := r.(status := CLOSED)], adjustments := s.adjustments + [a]), Some(a))
  }

  predicate Expired(r: Record, now: real, timeoutSec: int) {
    r.status == PENDING && now - r.createdAt > timeoutSec as real
  }

  function TimeoutOne(s: Ledger, id: string, now: real, timeoutSec: int): (Ledger, seq<Adjustment>) {
    if id !in s.records || !Expired(s.records[id], now, timeoutSec) then (s, [])
    else
      var (s', a) := ForceClose(s, id, s.records[id].entryPrice, "partial_timeout", now);
      (s', if a.Some? then [a.value] else [])
  }

  function TimeoutEach(s: Ledger, ids: seq<string>, now: real, timeoutSec: int): (Ledger, seq<Adjustment>) {
    if ids == [] then (s, [])
    else
      var (s1, done) := TimeoutEach(s, ids[..|ids| - 1], now, timeoutSec);
      var (s2, more) := TimeoutOne(s1, ids[|ids| - 1], now, timeoutSec);
      (s2, done + more)
  }

  // ---- What each operation does, field by field ----

  predicate SameTerms(r: Record, r': Record) {
    && r'.signalId == r.signalId && r'.origin == r.origin && r'.expected == r.expected
    && r'.entryPrice == r.entryPrice && r'.createdAt == r.createdAt
  }

  /** A fill on a known signal adds to it and stamps it, and completes it once the total reaches the amount
      this call expects; the first fill of a signal opens a pending record and is logged. */
  lemma ReceiveIsExact(s: Ledger, id: string, origin: Origin, expected: real, filled: real, price: real, now: real)
    ensures var s' := Receive(s, id, origin, expected, filled, price, now);
            && id in s'.records && s'.records == s.records[id := s'.records[id]]
            && var r' := s'.records[id];
               if id in s.records then
                 && SameTerms(s.records[id], r') && r'.filled == s.records[id].filled + filled && r'.lastUpdate == now
                 && (r'.status == COMPLETED <==> s.records[id].status == COMPLETED || s.records[id].filled + filled >= expected)
                 && (r'.status != COMPLETED ==> r'.status == s.records[id].status)
                 && s'.order == s.order && s'.adjustments == s.adjustments
               else
                 && r' == Record(id, origin, expected, filled, price, now, now, PENDING)
                 && s'.order == s.order + [id]
                 && |s'.adjustments| == |s.adjustments| + 1 && s.adjustments <= s'.adjustments
                 && var a := s'.adjustments[|s.adjustments|];
                    && a.signalId == id && a.origin == origin && a.kind == PARTIAL_FILL
                    && a.filled == filled && a.filled + a.remaining == expected && a.price == price && a.at == now
  {
  }

  /** The adjustment names the fill's transaction under a prefix, and what had been filled. */
  predicate Resolves(a: Adjustment, r: Record, id: string, kind: Kind, prefix: string, remaining: real, price: real,
                     reason: string, now: real) {
    && a.signalId == id && a.kind == kind && a.origin == Origin(r.origin.mint, prefix + r.origin.txSig, r.origin.traceId)
    && a.filled == r.filled && a.remaining == remaining && a.price == price && a.reason == reason && a.at == now
  }

  predicate OnlyStatus(s: Ledger, s': Ledger, id: string, status: Status) {
    id in s.records && s'.records == s.records[id := s.records[id].(status := status)] && s'.order == s.order
  }

  /** A pending record that lacks something is closed at the given price, with nothing left; one that
      lacks nothing is completed without a word; any other is left alone. */
  lemma ForceCloseIsExact(s: Ledger, id: string, price: real, reason: string, now: real)
    ensures var (s', a) := ForceClose(s, id, price, reason, now);
            if id !in s.records || s.records[id].status != PENDING then s' == s && a == None
            else if s.records[id].expected <= s.records[id].filled then
              OnlyStatus(s, s', id, COMPLETED) && s'.adjustments == s.adjustments && a == None
            else
              && OnlyStatus(s, s', id, CLOSED) && a.Some? && s'.adjustments == s.adjustments + [a.value]
              && Resolves(a.value, s.records[id], id, FORCE_CLOSE, "close_", 0.0, price, reason, now)
  {
  }

  /** A pending record is closed at its entry price, and what it still lacked is named. */
  lemma CancelIsExact(s: Ledger, id: string, reason: string, now: real)
    ensures var (s', a) := Cancel(s, id, reason, now);
            if id !in s.records || s.records[id].status != PENDING then s' == s && a == None
            else
              var r := s.records[id];
              && OnlyStatus(s, s', id, CLOSED) && a.Some? && s'.adjustments == s.adjustments + [a.value]
              && Resolves(a.value, r, id, CANCEL, "cancel_", if r.filled < r.expected then r.expected - r.filled else 0.0,
                          r.entryPrice, reason, now)
  {
  }

  /** Pending for longer than the timeout. */
  predicate Overdue(r: Record, now: real, timeoutSec: int) {
    r.status == PENDING && r.createdAt + timeoutSec as real < now
  }

  /** A timeout check closes the overdue records among those it visits that lack something, completes
      those that lack nothing, and leaves every other one as it was. */
  lemma {:induction false} TimeoutsAreExact(s: Ledger, ids: seq<string>, now: real, timeoutSec: int, k: string)
    requires k in s.records
    ensures var s', r := TimeoutEach(s, ids, now, timeoutSec).0, s.records[k];
            && k in s'.records
            && s'.records[k] == (if k in ids && Overdue(r, now, timeoutSec) then
                                   r.(status := if r.filled < r.expected then CLOSED else COMPLETED)
                                 else r)
  {
    if ids != [] {
      var init, id := ids[..|ids| - 1], ids[|ids| - 1];
      TimeoutsAreExact(s, init, now, timeoutSec, k);
      assert ids == init + [id];
    }
  }

  // ---- The handler object ----

  class PartialFill {
    const signalId: string
    const origin: Origin
    const expected: real
    var filled: real
    const entryPrice: real
    const createdAt: real
    var lastUpdate: real
    var status: Status

    constructor (r: Record)
      ensures View() == r
    {
      signalId, origin, expected, filled, entryPrice := r.signalId, r.origin, r.expected, r.filled, r.entryPrice;
      createdAt, lastUpdate, status := r.createdAt, r.lastUpdate, r.status;
    }

    function View(): Record
      reads this
    {
      Record(signalId, origin, expected, filled, entryPrice, createdAt, lastUpdate, status)
    }
  }

  class PartialFillHandler {
    const timeoutSec: int
    var partials: map<string, PartialFill>
    /** The insertion order that the source's dict keeps. */
    var order: seq<string>
    var adjustments: seq<Adjustment>

    ghost predicate Valid()
      reads this, partials.Values
    {
      && (forall k {:trigger partials[k]} | k in partials :: partials[k].signalId == k)
      && (forall k :: k in order <==> k in partials)
    }

    ghost function Contents(): Ledger
      reads this, partials.Values
    {
      Ledger(map k | k in partials :: partials[k].View(), order, adjustments)
    }

    constructor (timeoutSec: int)
      ensures Valid() && Contents() == EMPTY_LEDGER && this.timeoutSec == timeoutSec
    {
      this.timeoutSec, partials, order, adjustments := timeoutSec, map[], [], [];
    }

    method SetRecord(p: PartialFill, filled: real, lastUpdate: real, status: Status)
      requires Valid() && p.signalId in partials && partials[p.signalId] == p
      modifies p
      ensures Valid()
      ensures Contents() == old(Contents()).(records := old(Contents()).records[p.signalId :=
                old(p.View()).(filled := filled, lastUpdate := lastUpdate, status := status)])
    {
      p.filled := filled;
      p.lastUpdate := lastUpdate;
      p.status := status;
      assert Contents().records == old(Contents()).records[p.signalId := p.View()];
    }

    method LogAdjustment(a: Adjustment)
      requires Valid()
      modifies this`adjustments
      ensures Valid() && Contents() == old(Contents()).(adjustments := old(adjustments) + [a])
    {
      adjustments := adjustments + [a];
      assert Contents().records == old(Contents()).records;
    }

    method AddRecord(r: Record)
      requires Valid() && r.signalId !in partials
      modifies this
      ensures Valid() && fresh(partials.Values - old(partials.Values))
      ensures Contents() == old(Contents()).(records := old(Contents()).records[r.signalId := r], order := old(order) + [r.signalId])
    {
      var p := new PartialFill(r);
      partials := partials[r.signalId := p];
      order := order + [r.signalId];
      assert Contents().records == old(Contents()).records[r.signalId := r];
    }

    method OnPartialFill(id: string, origin: Origin, expected: real, filled: real, price: real, now: real)
      returns (partial: PartialFill)
      requires Valid()
      modifies this, partials.Values
      ensures Valid() && fresh(partials.Values - old(partials.Values))
      ensures Contents() == Receive(old(Contents()), id, origin, expected, filled, price, now)
      ensures id in partials && partial == partials[id]
    {
      if id in partials {
        var existing := partials[id];
        var total := existing.filled + filled;
        SetRecord(existing, total, now, if total >= expected then COMPLETED else existing.status);
        return existing;
      }
      AddRecord(Record(id, origin, expected, filled, price, now, now, PENDING));
      LogAdjustment(FillReceived(id, origin, expected, filled, price, now));
      return partials[id];
    }

    method ForceCloseRemaining(id: string, price: real, reason: string, now: real) returns (a: Option<Adjustment>)
      requires Valid()
      modifies this`adjustments, partials.Values
      ensures Valid()
      ensures (Contents(), a) == ForceClose(old(Contents()), id, price, reason, now)
    {
      if id !in partials || partials[id].status != PENDING {
        return None;
      }
      var partial := partials[id];
      var remaining := Remaining(partial.View());
      if remaining <= 0.0 {
        SetRecord(partial, partial.filled, partial.lastUpdate, COMPLETED);
        return None;
      }
      var adjustment := Closing(id, partial.View(), price, reason, now);
      SetRecord(partial, partial.filled, partial.lastUpdate, CLOSED);
      LogAdjustment(adjustment);
      return Some(adjustment);
    }

    method CancelRemaining(id: string, reason: string, now: real) returns (a: Option<Adjustment>)
      requires Valid()
      modifies this`adjustments, partials.Values
      ensures Valid()
      ensures (Contents(), a) == Cancel(old(Contents()), id, reason, now)
    {
      if id !in partials || partials[id].status != PENDING {
        return None;
      }
      var partial := partials[id];
      var adjustment := Cancellation(id, partial.View(), reason, now);
      SetRecord(partial, partial.filled, partial.lastUpdate, CLOSED);
      LogAdjustment(adjustment);
      return Some(adjustment);
    }

    /** One record's turn in a timeout check. */
    method CheckTimeout(id: string, now: real) returns (done: seq<Adjustment>)
      requires Valid() && id in partials
      modifies this`adjustments, partials.Values
      ensures Valid()
      ensures (Contents(), done) == TimeoutOne(old(Contents()), id, now, timeoutSec)
    {
      done := [];
      var partial := partials[id];
      if Expired(partial.View(), now, timeoutSec) {
        var a := ForceCloseRemaining(id, partial.entryPrice, "partial_timeout", now);
        if a.Some? {
          done := [a.value];
        }
      }
    }

    method CheckTimeouts(now: real) returns (done: seq<Adjustment>)
      requires Valid()
      modifies this`adjustments, partials.Values
      ensures Valid()
      ensures (Contents(), done) == TimeoutEach(old(Contents()), order, now, timeoutSec)
    {
      done := [];
      for i := 0 to |order|
        invariant Valid()
        invariant (Contents(), done) == TimeoutEach(old(Contents()), order[..i], now, timeoutSec)
      {
        assert order[..i + 1][..i] == order[..i];
        var more := CheckTimeout(order[i], now);
        done := done + more;
      }
      assert order[..|order|] == order;
    }
  }

  // ---- Every run ----

  datatype Event =
    | Received(id: string, origin: Origin, expected: real, filled: real, price: real, now: real)
    | ForceClosed(id: string, price: real, reason: string, now: real)
    | Cancelled(id: string, reason: string, now: real)
    | TimeoutsChecked(now: real)

  function Next(timeoutSec: int, s: Ledger, ev: Event): Ledger {
    match ev
    case Received(id, origin, expected, filled, price, now) => Receive(s, id, origin, expected, filled, price, now)
    case ForceClosed(id, price, reason, now) => ForceClose(s, id, price, reason, now).0
    case Cancelled(id, reason, now) => Cancel(s, id, reason, now).0
    case TimeoutsChecked(now) => TimeoutEach(s, s.order, now, timeoutSec).0
  }

  function Run(timeoutSec: int, evs: seq<Event>): Ledger {
    if evs == [] then EMPTY_LEDGER else Next(timeoutSec, Run(timeoutSec, evs[..|evs| - 1]), evs[|evs| - 1])
  }

  /** How often a signal has been force-closed or cancelled. */
  function Closings(adjustments: seq<Adjustment>, id: string): nat {
    if adjustments == [] then 0
    else
      var a := adjustments[|adjustments| - 1];
      Closings(adjustments[..|adjustments| - 1], id) + if a.signalId == id && a.kind != PARTIAL_FILL then 1 else 0
  }

  function TotalFilled(evs: seq<Event>, id: string): real {
    if evs == [] then 0.0
    else
      var ev := evs[|evs| - 1];
      TotalFilled(evs[..|evs| - 1], id) + if ev.Received? && ev.id == id then ev.filled else 0.0
  }

  /** At most one closing, and only of a record that is no longer pending. */
  ghost predicate ClosedOnce(s: Ledger, id: string) {
    && Closings(s.adjustments, id) <= 1
    && (Closings(s.adjustments, id) == 1 ==> id in s.records && s.records[id].status != PENDING)
  }

  lemma OneMoreAdjustment(adjustments: seq<Adjustment>, a: Adjustment, id: string)
    ensures Closings(adjustments + [a], id)
            == Closings(adjustments, id) + if a.signalId == id && a.kind != PARTIAL_FILL then 1 else 0
  {
    assert (adjustments + [a])[..|adjustments|] == adjustments;
  }

  lemma ForceCloseClosesOnce(s: Ledger, id: string, price: real, reason: string, now: real, k: string)
    requires ClosedOnce(s, k)
    ensures ClosedOnce(ForceClose(s, id, price, reason, now).0, k)
  {
    if id in s.records {
      OneMoreAdjustment(s.adjustments, Closing(id, s.records[id], price, reason, now), k);
    }
  }

  lemma CancelClosesOnce(s: Ledger, id: string, reason: string, now: real, k: string)
    requires ClosedOnce(s, k)
    ensures ClosedOnce(Cancel(s, id, reason, now).0, k)
  {
    if id in s.records {
      OneMoreAdjustment(s.adjustments, Cancellation(id, s.records[id], reason, now), k);
    }
  }

  lemma {:induction false} TimeoutsCloseOnce(s: Ledger, ids: seq<string>, now: real, timeoutSec: int, k: string)
    requires ClosedOnce(s, k)
    ensures ClosedOnce(TimeoutEach(s, ids, now, timeoutSec).0, k)
  {
    if ids != [] {
      TimeoutsCloseOnce(s, ids[..|ids| - 1], now, timeoutSec, k);
      var s1, id := TimeoutEach(s, ids[..|ids| - 1], now, timeoutSec).0, ids[|ids| - 1];
      if id in s1.records {
        ForceCloseClosesOnce(s1, id, s1.records[id].entryPrice, "partial_timeout", now, k);
      }
    }
  }

  /** In every run each signal is force-closed or cancelled at most once. */
  lemma {:induction false} EverySignalClosedOnce(timeoutSec: int, evs: seq<Event>, k: string)
    ensures ClosedOnce(Run(timeoutSec, evs), k)
  {
    if evs != [] {
      EverySignalClosedOnce(timeoutSec, evs[..|evs| - 1], k);
      var s := Run(timeoutSec, evs[..|evs| - 1]);
      match evs[|evs| - 1]
      case Received(id, origin, expected, filled, price, now) =>
        OneMoreAdjustment(s.adjustments, FillReceived(id, origin, expected, filled, price, now), k);
      case ForceClosed(id, price, reason, now) =>
        ForceCloseClosesOnce(s, id, price, reason, now, k);
      case Cancelled(id, reason, now) =>
        CancelClosesOnce(s, id, reason, now, k);
      case TimeoutsChecked(now) =>
        TimeoutsCloseOnce(s, s.order, now, timeoutSec, k);
    }
  }

  /** What one event may do to a record: it never disappears, never becomes pending again, and gains
      exactly the fills reported on it. */
  predicate Evolves(before: Record, after: Record, gained: real) {
    && after == before.(filled := before.filled + gained, lastUpdate := after.lastUpdate, status := after.status)
    && (after.status == PENDING ==> before.status == PENDING)
  }

  lemma {:induction false} TimeoutsEvolve(s: Ledger, ids: seq<string>, now: real, timeoutSec: int, k: string)
    ensures var s' := TimeoutEach(s, ids, now, timeoutSec).0;
            && s'.records.Keys == s.records.Keys && s'.order == s.order
            && (k in s.records ==> Evolves(s.records[k], s'.records[k], 0.0))
            && (k in ids && k in s.records ==> !Expired(s'.records[k], now, timeoutSec))
  {
    if ids != [] {
      TimeoutsEvolve(s, ids[..|ids| - 1], now, timeoutSec, k);
    }
  }

  /** After `check_timeouts` no expired record is pending. */
  lemma TimeoutsLeaveNoneExpired(s: Ledger, now: real, timeoutSec: int, k: string)
    requires forall id :: id in s.order <==> id in s.records
    ensures var s' := TimeoutEach(s, s.order, now, timeoutSec).0;
            k in s'.records ==> !Expired(s'.records[k], now, timeoutSec)
  {
    TimeoutsEvolve(s, s.order, now, timeoutSec, k);
  }

  /** No record is lost or reopened, closed ones included; each holds the sum of the fills reported. */
  lemma {:induction false} FillsConserved(timeoutSec: int, evs: seq<Event>, k: string)
    ensures var s := Run(timeoutSec, evs);
            && (k in s.records ==> s.records[k].filled == TotalFilled(evs, k))
            && (k !in s.records ==> TotalFilled(evs, k) == 0.0)
  {
    if evs != [] {
      var s, ev := Run(timeoutSec, evs[..|evs| - 1]), evs[|evs| - 1];
      FillsConserved(timeoutSec, evs[..|evs| - 1], k);
      if ev.TimeoutsChecked? {
        TimeoutsEvolve(s, s.order, ev.now, timeoutSec, k);
      }
    }
  }

  lemma EventEvolves(timeoutSec: int, s: Ledger, ev: Event, k: string)
    requires k in s.records
    ensures var s' := Next(timeoutSec, s, ev);
            k in s'.records && Evolves(s.records[k], s'.records[k], if ev.Received? && ev.id == k then ev.filled else 0.0)
  {
    if ev.TimeoutsChecked? {
      TimeoutsEvolve(s, s.order, ev.now, timeoutSec, k);
    }
  }

  /** Closed is not final: a later fill turns a closed record into a completed one exactly when the
      total reaches the amount that call expects. */
  lemma ClosedCanComplete(s: Ledger, id: string, origin: Origin, expected: real, filled: real, price: real, now: real)
    requires id in s.records && s.records[id].status == CLOSED
    ensures var r := Receive(s, id, origin, expected, filled, price, now).records[id];
            r.status == COMPLETED <==> s.records[id].filled + filled >= expected
  {
  }

  lemma RunSnoc(timeoutSec: int, evs: seq<Event>, ev: Event)
    ensures Run(timeoutSec, evs + [ev]) == Next(timeoutSec, Run(timeoutSec, evs), ev)
  {
    assert (evs + [ev])[..|evs|] == evs;
  }

  /** Such a run: 40 of 100 filled, the rest cancelled, then 60 more. The record ends completed, with
      its cancellation in the history. */
  lemma CancelledThenCompleted(id: string, origin: Origin)
    ensures var evs := [Received(id, origin, 100.0, 40.0, 1.0, 0.0), Cancelled(id, "cancel_requested", 1.0),
                        Received(id, origin, 100.0, 60.0, 1.0, 2.0)];
            var s := Run(30, evs);
            id in s.records && s.records[id].status == COMPLETED && Closings(s.adjustments, id) == 1
  {
    var first, cancel := Received(id, origin, 100.0, 40.0, 1.0, 0.0), Cancelled(id, "cancel_requested", 1.0);
    var last := Received(id, origin, 100.0, 60.0, 1.0, 2.0);
    FilledThenCancelled(id, origin);
    RunSnoc(30, [first, cancel], last);
    assert [first, cancel] + [last] == [first, cancel, last];
  }

  lemma FilledThenCancelled(id: string, origin: Origin)
    ensures var s := Run(30, [Received(id, origin, 100.0, 40.0, 1.0, 0.0), Cancelled(id, "cancel_requested", 1.0)]);
            && id in s.records && s.records[id].status == CLOSED && s.records[id].filled == 40.0
            && Closings(s.adjustments, id) == 1
  {
    var first, cancel := Received(id, origin, 100.0, 40.0, 1.0, 0.0), Cancelled(id, "cancel_requested", 1.0);
    RunSnoc(30, [], first);
    RunSnoc(30, [first], cancel);
    assert [] + [first] == [first] && [first] + [cancel] == [first, cancel];
    var s1 := Run(30, [first]);
    OneMoreAdjustment([], FillReceived(id, origin, 100.0, 40.0, 1.0, 0.0), id);
    OneMoreAdjustment(s1.adjustments, Cancellation(id, s1.records[id], "cancel_requested", 1.0), id);
  }
}
