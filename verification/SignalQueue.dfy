/** The binary heap behind the priority queue: a sequence in which no entry precedes its parent. */
module SignalHeap {

  /** A queued signal: lower priority numbers leave first, and the counter breaks ties. */
  datatype Entry<+S> = Entry(priority: int, counter: nat, signal: S)

  predicate Before<S>(x: Entry<S>, y: Entry<S>) {
    x.priority < y.priority || (x.priority == y.priority && x.counter < y.counter)
  }

  function Parent(i: nat): nat
    requires i > 0
  {
    (i - 1) / 2
  }

  ghost predicate IsHeap<S>(h: seq<Entry<S>>) {
    forall i {:trigger Parent(i)} | 0 < i < |h| :: !Before(h[i], h[Parent(i)])
  }

  /** A heap apart from the entry at `hole`, which may precede its parent. */
  ghost predicate HeapAbove<S>(h: seq<Entry<S>>, hole: nat) {
    && (forall i {:trigger Parent(i)} | 0 < i < |h| && i != hole :: !Before(h[i], h[Parent(i)]))
    && (forall i {:trigger Parent(i)} | 0 < i < |h| && Parent(i) == hole > 0 :: !Before(h[i], h[Parent(hole)]))
  }

  /** A heap apart from the entry at `hole`, which may follow its children. */
  ghost predicate HeapBelow<S>(h: seq<Entry<S>>, hole: nat) {
    && (forall i {:trigger Parent(i)} | 0 < i < |h| && Parent(i) != hole :: !Before(h[i], h[Parent(i)]))
    && (forall i {:trigger Parent(i)} | 0 < i < |h| && Parent(i) == hole > 0 :: !Before(h[i], h[Parent(hole)]))
  }

  function Swap<S>(h: seq<S>, i: nat, j: nat): (r: seq<S>)
    requires i < |h| && j < |h|
    ensures multiset(r) == multiset(h)
  {
    h[i := h[j]][j := h[i]]
  }

  lemma SwapUp<S>(h: seq<Entry<S>>, i: nat)
    requires 0 < i < |h| && HeapAbove(h, i) && Before(h[i], h[Parent(i)])
    ensures HeapAbove(Swap(h, i, Parent(i)), Parent(i))
  {
  }

  method HeapPush<S>(h: seq<Entry<S>>, e: Entry<S>) returns (r: seq<Entry<S>>)
    requires IsHeap(h)
    ensures IsHeap(r) && multiset(r) == multiset(h) + multiset{e}
  {
    r := h + [e];
    var i: nat := |h|;
    while i > 0 && Before(r[i], r[Parent(i)])
      invariant i < |r| && HeapAbove(r, i)
      invariant multiset(r) == multiset(h) + multiset{e}
    {
      SwapUp(r, i);
      r := Swap(r, i, Parent(i));
      i := Parent(i);
    }
  }

  /** `child` is the one of `i`'s children that the other does not precede. */
  ghost predicate LesserChild<S>(h: seq<Entry<S>>, i: nat, child: nat) {
    && 0 < child < |h| && Parent(child) == i
    && forall k {:trigger Parent(k)} | 0 < k < |h| && Parent(k) == i :: !Before(h[k], h[child])
  }

  function LeastChild<S>(h: seq<Entry<S>>, i: nat): (child: nat)
    requires 2 * i + 1 < |h|
    ensures LesserChild(h, i, child)
  {
    var left := 2 * i + 1;
    assert forall k: nat | k > 0 && Parent(k) == i :: k == left || k == left + 1;
    if left + 1 < |h| && Before(h[left + 1], h[left]) then left + 1 else left
  }

  lemma LeafEndsDescent<S>(h: seq<Entry<S>>, i: nat)
    requires HeapBelow(h, i) && 2 * i + 1 >= |h|
    ensures IsHeap(h)
  {
    assert forall k: nat | k > 0 && Parent(k) == i :: k >= 2 * i + 1;
  }

  lemma SwapDown<S>(h: seq<Entry<S>>, i: nat, child: nat)
    requires HeapBelow(h, i) && LesserChild(h, i, child) && Before(h[child], h[i])
    ensures HeapBelow(Swap(h, i, child), child)
  {
    var r := Swap(h, i, child);
    forall k | 0 < k < |r| && Parent(k) != child
      ensures !Before(r[k], r[Parent(k)])
    {
      if k == i {
        assert !Before(h[child], h[Parent(i)]);
      } else if k != child && Parent(k) == i {
        assert r[k] == h[k] && r[i] == h[child];
      }
    }
    forall k | 0 < k < |r| && Parent(k) == child
      ensures !Before(r[k], r[i])
    {
      assert r[k] == h[k] && r[i] == h[child];
    }
  }

  method SiftDown<S>(h: seq<Entry<S>>) returns (r: seq<Entry<S>>)
    requires h != [] ==> HeapBelow(h, 0)
    ensures IsHeap(r) && multiset(r) == multiset(h)
  {
    r := h;
    var i: nat := 0;
    while 2 * i + 1 < |r|
      invariant multiset(r) == multiset(h) && |r| == |h|
      invariant h != [] ==> i < |r| && HeapBelow(r, i)
    {
      var child := LeastChild(r, i);
      if !Before(r[child], r[i]) {
        return;
      }
      SwapDown(r, i, child);
      r := Swap(r, i, child);
      i := child;
    }
    if r != [] {
      LeafEndsDescent(r, i);
    }
  }

  lemma {:induction false} RootIsLeast<S>(h: seq<Entry<S>>, i: nat)
    requires IsHeap(h) && i < |h|
    ensures !Before(h[i], h[0])
  {
    if i > 0 {
      RootIsLeast(h, Parent(i));
    }
  }

  method HeapPop<S>(h: seq<Entry<S>>) returns (least: Entry<S>, r: seq<Entry<S>>)
    requires IsHeap(h) && h != []
    ensures least == h[0] && forall i | 0 <= i < |h| :: !Before(h[i], least)
    ensures IsHeap(r) && multiset(r) + multiset{least} == multiset(h)
  {
    least := h[0];
    EveryEntryAboveRoot(h);
    var last := h[|h| - 1];
    r := h[..|h| - 1];
    assert h == r + [last];
    if r != [] {
      LastReplacesRoot(h);
      r := SiftDown(r[0 := last]);
    }
  }

  lemma EveryEntryAboveRoot<S>(h: seq<Entry<S>>)
    requires IsHeap(h) && h != []
    ensures forall i | 0 <= i < |h| :: !Before(h[i], h[0])
  {
    forall i | 0 <= i < |h|
      ensures !Before(h[i], h[0])
    {
      RootIsLeast(h, i);
    }
  }

  lemma LastReplacesRoot<S>(h: seq<Entry<S>>)
    requires IsHeap(h) && |h| > 1
    ensures var r := h[..|h| - 1][0 := h[|h| - 1]];
            HeapBelow(r, 0) && multiset(r) + multiset{h[0]} == multiset(h)
  {
    assert h == h[..|h| - 1] + [h[|h| - 1]];
  }
}

/** The priority queue of trading signals (execution/queues.py). */
module SignalQueues {
  import opened Collections
  import opened SignalHeap
  import RateLimiting

  // ---- Specification: the queue as the list of signals in leaving order ----

  /** Joins the line behind everything of the same or a more urgent priority. */
  function Enqueue<S>(waiting: seq<Entry<S>>, e: Entry<S>): seq<Entry<S>> {
    if waiting == [] || e.priority < waiting[0].priority then [e] + waiting
    else [waiting[0]] + Enqueue(waiting[1..], e)
  }

  ghost predicate InLine<S>(waiting: seq<Entry<S>>) {
    forall i, j | 0 <= i < j < |waiting| :: Before(waiting[i], waiting[j])
  }

  function Signals<S>(es: seq<Entry<S>>): seq<S> {
    if es == [] then [] else [es[0].signal] + Signals(es[1..])
  }

  /** Room for one more: no limit, or fewer than `max_size` queued. */
  predicate HasRoom(maxSize: Option<int>, size: nat) {
    maxSize.Some? ==> size < maxSize.value
  }

  lemma {:induction false} EnqueueContents<S(!new)>(waiting: seq<Entry<S>>, e: Entry<S>)
    ensures multiset(Enqueue(waiting, e)) == multiset(waiting) + multiset{e}
    ensures |Enqueue(waiting, e)| == |waiting| + 1
    ensures forall x :: x in Enqueue(waiting, e) <==> x in waiting || x == e
  {
    if waiting != [] && e.priority >= waiting[0].priority {
      EnqueueContents(waiting[1..], e);
      assert waiting == [waiting[0]] + waiting[1..];
    }
  }

  lemma {:induction false} EnqueueCorrect<S(!new)>(waiting: seq<Entry<S>>, e: Entry<S>)
    requires InLine(waiting)
    requires forall x | x in waiting :: x.counter < e.counter
    ensures InLine(Enqueue(waiting, e))
    ensures multiset(Enqueue(waiting, e)) == multiset(waiting) + multiset{e}
    ensures |Enqueue(waiting, e)| == |waiting| + 1
    ensures forall x :: x in Enqueue(waiting, e) <==> x in waiting || x == e
  {
    EnqueueContents(waiting, e);
    if waiting != [] && e.priority >= waiting[0].priority {
      var rest := waiting[1..];
      EnqueueCorrect(rest, e);
      forall x | x in Enqueue(rest, e)
        ensures Before(waiting[0], x)
      {
        assert x == e || x in rest;
      }
    }
  }

  // ---- Every interleaving of pushes and pops ----

  datatype Op<+S> = Push(signal: S, priority: int) | Pop

  /** What has happened so far: the line, the push counter, and the entries ever accepted and popped. */
  datatype Story<S> = Story(waiting: seq<Entry<S>>, counter: nat, accepted: seq<Entry<S>>, popped: seq<Entry<S>>)

  function Next<S>(maxSize: Option<int>, s: Story<S>, op: Op<S>): Story<S> {
    match op
    case Push(signal, priority) =>
      if !HasRoom(maxSize, |s.waiting|) then s
      else
        var e := Entry(priority, s.counter + 1, signal);
        Story(Enqueue(s.waiting, e), s.counter + 1, s.accepted + [e], s.popped)
    case Pop =>
      if s.waiting == [] then s
      else s.(waiting := s.waiting[1..], popped := s.popped + [s.waiting[0]])
  }

  function Run<S>(maxSize: Option<int>, ops: seq<Op<S>>): Story<S> {
    if ops == [] then Story([], 0, [], [])
    else Next(maxSize, Run(maxSize, ops[..|ops| - 1]), ops[|ops| - 1])
  }

  /** Equal priorities leave in the order they came, across the whole run. */
  ghost predicate FifoWithin<S>(s: Story<S>) {
    && (forall i, j | 0 <= i < j < |s.popped| && s.popped[i].priority == s.popped[j].priority ::
          s.popped[i].counter < s.popped[j].counter)
    && (forall i, j | 0 <= i < |s.popped| && 0 <= j < |s.waiting| && s.popped[i].priority == s.waiting[j].priority ::
          s.popped[i].counter < s.waiting[j].counter)
  }

  ghost predicate Consistent<S>(maxSize: Option<int>, s: Story<S>) {
    && InLine(s.waiting)
    && multiset(s.accepted) == multiset(s.popped) + multiset(s.waiting)
    && s.counter == |s.accepted|
    && (forall i | 0 <= i < |s.accepted| :: s.accepted[i].counter == i + 1)
    && FifoWithin(s)
    && (maxSize.Some? && s.waiting != [] ==> |s.waiting| <= maxSize.value)
  }

  lemma AcceptedCounters<S(!new)>(maxSize: Option<int>, s: Story<S>)
    requires Consistent(maxSize, s)
    ensures forall x | x in s.waiting || x in s.popped :: x.counter <= s.counter
  {
    forall x | x in s.waiting || x in s.popped
      ensures x.counter <= s.counter
    {
      assert x in multiset(s.accepted);
      var i :| 0 <= i < |s.accepted| && s.accepted[i] == x;
    }
  }

  lemma PushKeepsFifo<S(!new)>(s: Story<S>, s': Story<S>, e: Entry<S>)
    requires FifoWithin(s) && s'.popped == s.popped
    requires forall y | y in s'.waiting :: y in s.waiting || y == e
    requires forall x | x in s.popped :: x.counter < e.counter
    ensures FifoWithin(s')
  {
    forall i, j | 0 <= i < |s.popped| && 0 <= j < |s'.waiting| && s.popped[i].priority == s'.waiting[j].priority
      ensures s.popped[i].counter < s'.waiting[j].counter
    {
      var y := s'.waiting[j];
      assert y in s'.waiting && s.popped[i] in s.popped;
      if y != e {
        var k :| 0 <= k < |s.waiting| && s.waiting[k] == y;
      }
    }
  }

  lemma PushKeepsConsistent<S(!new)>(maxSize: Option<int>, s: Story<S>, signal: S, priority: int)
    requires Consistent(maxSize, s) && HasRoom(maxSize, |s.waiting|)
    ensures Consistent(maxSize, Next(maxSize, s, Push(signal, priority)))
  {
    var s' := Next(maxSize, s, Push(signal, priority));
    var e := Entry(priority, s.counter + 1, signal);
    assert FifoWithin(s') && InLine(s'.waiting) && |s'.waiting| == |s.waiting| + 1
        && multiset(s'.waiting) == multiset(s.waiting) + multiset{e} by {
      AcceptedCounters(maxSize, s);
      EnqueueCorrect(s.waiting, e);
      PushKeepsFifo(s, s', e);
    }
  }

  lemma PopKeepsFifo<S>(s: Story<S>)
    requires FifoWithin(s) && InLine(s.waiting) && s.waiting != []
    ensures FifoWithin(s.(waiting := s.waiting[1..], popped := s.popped + [s.waiting[0]]))
  {
    var head, rest := s.waiting[0], s.waiting[1..];
    forall i, j | 0 <= i < |s.popped| + 1 && 0 <= j < |rest| && (s.popped + [head])[i].priority == rest[j].priority
      ensures (s.popped + [head])[i].counter < rest[j].counter
    {
      assert rest[j] == s.waiting[j + 1];
      assert Before(head, s.waiting[j + 1]);
    }
  }

  lemma PopKeepsConsistent<S(!new)>(maxSize: Option<int>, s: Story<S>)
    requires Consistent(maxSize, s) && s.waiting != []
    ensures Consistent(maxSize, Next(maxSize, s, Pop))
  {
    var s', head, rest := Next(maxSize, s, Pop), s.waiting[0], s.waiting[1..];
    assert multiset(s'.popped) + multiset(s'.waiting) == multiset(s.popped) + multiset(s.waiting) by {
      assert s.waiting == [head] + rest;
    }
    PopKeepsFifo(s);
  }

  /** Conservation, push-order fairness and the size bound hold after every run. */
  lemma {:induction false} RunConsistent<S(!new)>(maxSize: Option<int>, ops: seq<Op<S>>)
    ensures Consistent(maxSize, Run(maxSize, ops))
  {
    if ops != [] {
      RunConsistent(maxSize, ops[..|ops| - 1]);
      var s := Run(maxSize, ops[..|ops| - 1]);
      match ops[|ops| - 1]
      case Push(signal, priority) =>
        if HasRoom(maxSize, |s.waiting|) {
          PushKeepsConsistent(maxSize, s, signal, priority);
        }
      case Pop =>
        if s.waiting != [] {
          PopKeepsConsistent(maxSize, s);
        }
    }
  }

  // ---- The line is the stable sort of the queued signals ----

  predicate ByPriority<S>(x: Entry<S>, y: Entry<S>) {
    x.priority <= y.priority
  }

  lemma {:induction false} InLineUnique<S(!new)>(xs: seq<Entry<S>>, ys: seq<Entry<S>>)
    requires InLine(xs) && InLine(ys) && multiset(xs) == multiset(ys)
    ensures xs == ys
  {
    if xs == [] {
      assert |multiset(ys)| == 0;
    } else {
      HeadsAgree(xs, ys);
      assert xs == [xs[0]] + xs[1..] && ys == [ys[0]] + ys[1..];
      assert multiset(xs[1..]) == multiset(xs) - multiset{xs[0]};
      assert multiset(ys[1..]) == multiset(ys) - multiset{ys[0]};
      InLineUnique(xs[1..], ys[1..]);
    }
  }

  lemma HeadsAgree<S(!new)>(xs: seq<Entry<S>>, ys: seq<Entry<S>>)
    requires InLine(xs) && InLine(ys) && multiset(xs) == multiset(ys) && xs != []
    ensures ys != [] && xs[0] == ys[0]
  {
    var i := PermutationHead(xs, ys);
    var j := PermutationHead(ys, xs);
    assert i > 0 ==> Before(ys[0], ys[i]);
    assert j > 0 ==> Before(xs[0], xs[j]);
  }

  lemma {:induction false} StableSortInLine<S(!new)>(arrivals: seq<Entry<S>>)
    requires forall i, j | 0 <= i < j < |arrivals| :: arrivals[i].counter < arrivals[j].counter
    ensures InLine(Sort(arrivals, ByPriority)) && multiset(Sort(arrivals, ByPriority)) == multiset(arrivals)
  {
    SortCorrect(arrivals, ByPriority);
    if arrivals != [] {
      var x, rest := arrivals[0], arrivals[1..];
      StableSortInLine(rest);
      SortCorrect(rest, ByPriority);
      forall y | y in Sort(rest, ByPriority)
        ensures x.counter < y.counter
      {
        var j :| 0 <= j < |rest| && rest[j] == y;
        assert arrivals[j + 1] == y;
      }
      InsertInLine(x, Sort(rest, ByPriority));
    }
  }

  lemma {:induction false} InsertInLine<S(!new)>(x: Entry<S>, line: seq<Entry<S>>)
    requires InLine(line) && forall y | y in line :: x.counter < y.counter
    ensures InLine(Insert(x, line, ByPriority))
  {
    if line != [] {
      var head, rest := line[0], line[1..];
      assert line == [head] + rest;
      HeadPrecedes(head, rest, Before);
      if head.priority < x.priority {
        var after := Insert(x, rest, ByPriority);
        InsertInLine(x, rest);
        InsertContents(x, rest, ByPriority);
        SameMembers(after, rest + [x]);
        SortedCons(head, after, Before);
      } else {
        SortedCons(x, line, Before);
      }
    }
  }

  /** Draining yields the stable sort, by priority, of the queued signals in push order. */
  lemma LineIsStableSort<S(!new)>(line: seq<Entry<S>>, arrivals: seq<Entry<S>>)
    requires InLine(line) && multiset(arrivals) == multiset(line)
    requires forall i, j | 0 <= i < j < |arrivals| :: arrivals[i].counter < arrivals[j].counter
    ensures line == Sort(arrivals, ByPriority)
  {
    StableSortInLine(arrivals);
    InLineUnique(line, Sort(arrivals, ByPriority));
  }

  // ---- After every run the line is the stable sort of what was accepted and not yet popped ----

  predicate Earlier<S>(x: Entry<S>, y: Entry<S>) {
    x.counter < y.counter
  }

  function NotIn<S(==)>(popped: seq<Entry<S>>): Entry<S> -> bool {
    (e: Entry<S>) => e !in popped
  }

  lemma {:induction false} OnceOnly<S(!new)>(xs: seq<Entry<S>>, x: Entry<S>)
    requires Sorted(xs, Earlier)
    ensures multiset(xs)[x] <= 1
  {
    if xs != [] {
      var rest := xs[1..];
      OnceOnly(rest, x);
      assert xs == [xs[0]] + rest;
      if x == xs[0] {
        forall i | 0 <= i < |rest|
          ensures rest[i] != x
        {
          assert Earlier(xs[0], xs[i + 1]);
        }
        assert x !in multiset(rest);
      }
    }
  }

  lemma UnpoppedAreWaiting<S(!new)>(maxSize: Option<int>, s: Story<S>)
    requires Consistent(maxSize, s)
    ensures Sorted(s.accepted, Earlier)
    ensures multiset(Filter(s.accepted, NotIn(s.popped))) == multiset(s.waiting)
  {
    var left := Filter(s.accepted, NotIn(s.popped));
    forall x
      ensures multiset(left)[x] == multiset(s.waiting)[x]
    {
      OnceOnly(s.accepted, x);
      FilterMultiplicity(s.accepted, NotIn(s.popped), x);
      assert multiset(s.accepted)[x] == multiset(s.popped)[x] + multiset(s.waiting)[x];
      assert x in s.popped <==> multiset(s.popped)[x] > 0;
    }
  }

  /** After every run of pushes and pops, draining the queue yields the stable sort, by priority, of
      the entries accepted and not yet popped, in push order. */
  lemma RunLeavesStableSort<S(!new)>(maxSize: Option<int>, ops: seq<Op<S>>)
    ensures var s := Run(maxSize, ops);
            s.waiting == Sort(Filter(s.accepted, NotIn(s.popped)), ByPriority)
  {
    var s := Run(maxSize, ops);
    RunConsistent(maxSize, ops);
    UnpoppedAreWaiting(maxSize, s);
    var arrivals := Filter(s.accepted, NotIn(s.popped));
    FilterSubsequenceSorted(s.accepted, Earlier, NotIn(s.popped));
    assert forall i, j | 0 <= i < j < |arrivals| :: Earlier(arrivals[i], arrivals[j]);
    LineIsStableSort(s.waiting, arrivals);
  }

  // ---- The queue object ----

  lemma LineMovesUp<S(!new)>(heap: seq<Entry<S>>, waiting: seq<Entry<S>>, least: Entry<S>, rest: seq<Entry<S>>)
    requires waiting != [] && waiting[0] == least && InLine(waiting)
    requires multiset(heap) == multiset(waiting) && multiset(rest) + multiset{least} == multiset(heap)
    ensures multiset(rest) == multiset(waiting[1..]) && InLine(waiting[1..])
    ensures forall e | e in waiting[1..] :: e in waiting
  {
    assert waiting == [least] + waiting[1..];
    assert multiset(waiting[1..]) == multiset(waiting) - multiset{least};
    assert multiset(rest) == multiset(heap) - multiset{least};
  }

  class SignalQueue<S(!new)> {
    const maxSize: Option<int>
    var heap: seq<Entry<S>>
    var counter: nat
    /** The queued entries in leaving order. */
    ghost var waiting: seq<Entry<S>>

    ghost predicate Valid()
      reads this
    {
      && IsHeap(heap)
      && InLine(waiting)
      && multiset(heap) == multiset(waiting)
      && forall e | e in waiting :: e.counter <= counter
    }

    constructor (maxSize: Option<int>)
      ensures Valid() && this.maxSize == maxSize && waiting == [] && counter == 0
    {
      this.maxSize, heap, counter, waiting := maxSize, [], 0, [];
    }

    lemma HeapHoldsLine()
      requires Valid()
      ensures |heap| == |waiting|
      ensures heap != [] ==> heap[0] == waiting[0]
    {
      assert |multiset(heap)| == |multiset(waiting)|;
      if heap != [] {
        EveryEntryAboveRoot(heap);
        assert heap[0] in multiset(waiting) && waiting[0] in multiset(heap);
        var i :| 0 <= i < |waiting| && waiting[i] == heap[0];
        var j :| 0 <= j < |heap| && heap[j] == waiting[0];
        assert i == 0 || Before(waiting[0], waiting[i]);
      }
    }

    method Push(signal: S, priority: int) returns (ok: bool)
      requires Valid()
      modifies this
      ensures Valid()
      ensures ok <==> HasRoom(maxSize, |old(waiting)|)
      ensures ok ==> counter == old(counter) + 1
                     && waiting == Enqueue(old(waiting), Entry(priority, counter, signal))
      ensures !ok ==> counter == old(counter) && waiting == old(waiting)
    {
      HeapHoldsLine();
      if maxSize.Some? && |heap| >= maxSize.value {
        return false;
      }
      var e := Entry(priority, counter + 1, signal);
      EnqueueCorrect(waiting, e);
      counter := counter + 1;
      heap := HeapPush(heap, e);
      waiting := Enqueue(waiting, e);
      return true;
    }

    method Pop() returns (r: Option<S>)
      requires Valid()
      modifies this
      ensures Valid() && counter == old(counter)
      ensures old(waiting) == [] ==> r == None && waiting == []
      ensures old(waiting) != [] ==> r == Some(old(waiting)[0].signal) && waiting == old(waiting)[1..]
    {
      HeapHoldsLine();
      if heap == [] {
        return None;
      }
      var least, rest := HeapPop(heap);
      LineMovesUp(heap, waiting, least, rest);
      heap, waiting := rest, waiting[1..];
      return Some(least.signal);
    }

    method Peek() returns (r: Option<S>)
      requires Valid()
      ensures r == if waiting == [] then None else Some(waiting[0].signal)
    {
      HeapHoldsLine();
      if heap == [] {
        return None;
      }
      return Some(heap[0].signal);
    }

    /** Drains the queue in leaving order. */
    method GetAll() returns (signals: seq<S>)
      requires Valid()
      modifies this
      ensures Valid() && counter == old(counter) && waiting == []
      ensures signals == Signals(old(waiting))
    {
      signals := [];
      HeapHoldsLine();
      while heap != []
        invariant Valid() && counter == old(counter) && |heap| == |waiting|
        invariant signals + Signals(waiting) == Signals(old(waiting))
        decreases |heap|
      {
        var r := Pop();
        HeapHoldsLine();
        signals := signals + [r.value];
      }
    }
  }

  /** The queue behind a rate limiter. */
  class RateLimitedSignalQueue<S(!new)> {
    const queue: SignalQueue<S>
    const limiter: RateLimiting.RateLimiter

    ghost predicate Valid()
      reads this, queue, limiter
    {
      queue.Valid() && limiter.Valid()
    }

    constructor (maxQueueSize: Option<int>, rateLimit: int, rateWindow: real)
      requires rateLimit >= 0 && rateWindow > 0.0
      ensures Valid() && fresh(queue) && fresh(limiter)
      ensures queue.maxSize == maxQueueSize && queue.waiting == []
      ensures limiter.limit == rateLimit && limiter.windowSec == rateWindow && limiter.calls == map[]
    {
      queue := new SignalQueue(maxQueueSize);
      limiter := new RateLimiting.RateLimiter(rateLimit, rateWindow);
    }

    /** A permitted push spends its token even when the queue then turns out to be full. */
    method Push(signal: S, priority: int, providerKey: string, now: real) returns (ok: bool)
      requires Valid() && (providerKey in limiter.lastRefill ==> limiter.lastRefill[providerKey] <= now)
      modifies queue, limiter
      ensures Valid()
      ensures ok <==> old(limiter.Permits(providerKey, now)) && HasRoom(queue.maxSize, |old(queue.waiting)|)
      ensures limiter.Granted(providerKey) == old(limiter.Granted(providerKey))
              + if old(limiter.Permits(providerKey, now)) then [RateLimiting.TokenTime(limiter.rate, now)] else []
      ensures ok ==> queue.waiting == Enqueue(old(queue.waiting), Entry(priority, queue.counter, signal))
      ensures !ok ==> queue.waiting == old(queue.waiting)
    {
      ok := limiter.CanProceed(providerKey, now);
      if ok {
        ok := queue.Push(signal, priority);
      }
    }

    method PushBypass(signal: S, priority: int) returns (ok: bool)
      requires Valid()
      modifies queue
      ensures Valid()
      ensures ok <==> HasRoom(queue.maxSize, |old(queue.waiting)|)
      ensures ok ==> queue.waiting == Enqueue(old(queue.waiting), Entry(priority, queue.counter, signal))
      ensures !ok ==> queue.waiting == old(queue.waiting)
    {
      ok := queue.Push(signal, priority);
    }
  }
}
