/** The token-bucket limiter of execution/queues.py, against a specification that mentions no tokens. */
module RateLimiting {
  import opened Collections

  // ---- Specification: grant whenever the bound still holds ----
  //
  // Times in the specification are in token time: the clock reading in seconds times the rate
  // `limit / windowSec`, so that one unit of time earns one token.

  /** The time of the `i`th grant; naming it keeps the bounds below from multiplying in proofs. */
  ghost function GrantAt(g: seq<real>, i: int): real
    requires 0 <= i < |g|
  {
    g[i]
  }

  /** One more grant at `t`, after grants at the times `g`, keeps every run of grants that ends here
      within `limit` plus what was earned since the run began. */
  ghost predicate Permitted(limit: int, g: seq<real>, t: real) {
    && limit >= 1
    && forall i {:trigger GrantAt(g, i)} | 0 <= i < |g| :: (|g| - i + 1) as real <= limit as real + t - GrantAt(g, i)
  }

  /** The calls that a limiter granting exactly the permitted ones lets through. */
  ghost function Greedy(limit: int, times: seq<real>): seq<real> {
    if times == [] then []
    else
      var g, t := Greedy(limit, times[..|times| - 1]), times[|times| - 1];
      if Permitted(limit, g, t) then g + [t] else g
  }

  ghost predicate NonDecreasing(ts: seq<real>) {
    forall i, j | 0 <= i < j < |ts| :: ts[i] <= ts[j]
  }

  /** Each grant was permitted by the ones before it. */
  ghost predicate WithinRate(limit: int, g: seq<real>) {
    forall n | 0 <= n < |g| :: Permitted(limit, g[..n], g[n])
  }

  // ---- The bucket decides exactly what the specification permits ----

  function MinReal(x: real, y: real): real {
    if y < x then y else x
  }

  /** Tokens in the bucket at time `t` after grants at the times `g`. */
  ghost function Level(limit: int, g: seq<real>, t: real): real {
    if g == [] then limit as real
    else
      var last := g[|g| - 1];
      MinReal(limit as real, Level(limit, g[..|g| - 1], last) - 1.0 + t - last)
  }

  /** The level is the tightest of the bounds that the individual past grants impose. */
  lemma {:induction false} LevelIsTightestBound(limit: int, g: seq<real>, t: real, x: real)
    ensures Level(limit, g, t) >= x <==>
            && limit as real >= x
            && forall i {:trigger GrantAt(g, i)} | 0 <= i < |g| :: (|g| - i) as real + x <= limit as real + t - GrantAt(g, i)
  {
    if g != [] {
      var init, last := g[..|g| - 1], g[|g| - 1];
      var x' := x + 1.0 - t + last;
      LevelIsTightestBound(limit, init, last, x');
      forall i | 0 <= i < |init|
        ensures (|init| - i) as real + x' <= limit as real + last - GrantAt(init, i)
                <==> (|g| - i) as real + x <= limit as real + t - GrantAt(g, i)
      {
        assert GrantAt(init, i) == GrantAt(g, i);
      }
      assert GrantAt(g, |g| - 1) == last;
    }
  }

  lemma LevelDecides(limit: int, g: seq<real>, t: real)
    ensures Level(limit, g, t) >= 1.0 <==> Permitted(limit, g, t)
  {
    LevelIsTightestBound(limit, g, t, 1.0);
  }

  /** Refilling in two steps is refilling once, so a denied call leaves no trace. */
  lemma LevelRefills(limit: int, g: seq<real>, t: real, t': real)
    requires t <= t'
    ensures Level(limit, g, t') == MinReal(limit as real, Level(limit, g, t) + t' - t)
  {
  }

  lemma LevelAfterGrant(limit: int, g: seq<real>, t: real)
    ensures Level(limit, g + [t], t) == Level(limit, g, t) - 1.0
  {
    assert (g + [t])[..|g|] == g;
  }

  // ---- Properties of every run ----

  lemma {:induction false} GreedyWithinRate(limit: int, times: seq<real>)
    ensures WithinRate(limit, Greedy(limit, times))
    ensures forall t :: t in Greedy(limit, times) ==> t in times
    ensures NonDecreasing(times) ==> NonDecreasing(Greedy(limit, times))
  {
    if times != [] {
      var init, t := times[..|times| - 1], times[|times| - 1];
      GreedyWithinRate(limit, init);
      var g := Greedy(limit, init);
      if Permitted(limit, g, t) {
        forall n | 0 <= n < |g + [t]|
          ensures Permitted(limit, (g + [t])[..n], (g + [t])[n])
        {
          assert (g + [t])[..n] == if n < |g| then g[..n] else g;
        }
        forall i | 0 <= i < |g|
          ensures NonDecreasing(times) ==> g[i] <= t
        {
          assert g[i] in init;
        }
      }
    }
  }

  /** The grants numbered `i` to `j` fit the bound of the stretch of time they span. */
  lemma RunOfGrants(limit: int, g: seq<real>, i: int, j: int)
    requires WithinRate(limit, g) && 0 <= i <= j < |g|
    ensures (j - i + 1) as real <= limit as real + g[j] - g[i]
  {
    assert Permitted(limit, g[..j], g[j]);
    if i < j {
      assert GrantAt(g[..j], i) == g[i];
    }
  }

  /** No stretch of `to - from` seconds carries more than `limit + (to - from) * rate` grants. */
  lemma IntervalBound(limit: int, rate: real, times: seq<real>, from: real, to: real)
    requires limit >= 0 && rate >= 0.0
    requires NonDecreasing(times) && from <= to
    ensures var g := Greedy(limit, times);
            |set i: int | 0 <= i < |g| && from * rate <= g[i] <= to * rate| as real
            <= limit as real + (to - from) * rate
  {
    var g := Greedy(limit, times);
    GreedyWithinRate(limit, times);
    assert (to - from) * rate == to * rate - from * rate >= 0.0;
    GrantsBetween(limit, g, from * rate, to * rate);
  }

  lemma GrantsBetween(limit: int, g: seq<real>, from: real, to: real)
    requires limit >= 0 && WithinRate(limit, g) && from <= to
    ensures |set i: int | 0 <= i < |g| && from <= g[i] <= to| as real <= limit as real + to - from
  {
    var inside := set i: int | 0 <= i < |g| && from <= g[i] <= to;
    if inside != {} {
      var lo, hi := ExtremesOf(inside);
      SpanCardinality(inside, lo, hi);
      RunOfGrants(limit, g, lo, hi);
    }
  }

  lemma {:induction false} ExtremesOf(s: set<int>) returns (lo: int, hi: int)
    requires s != {}
    ensures lo in s && hi in s && forall x | x in s :: lo <= x <= hi
    decreases |s|
  {
    var y := Pick(s);
    if s == {y} {
      lo, hi := y, y;
    } else {
      assert s == {y} + (s - {y});
      lo, hi := ExtremesOf(s - {y});
      lo, hi := if y < lo then y else lo, if y > hi then y else hi;
    }
  }

  lemma {:induction false} SpanCardinality(s: set<int>, lo: int, hi: int)
    requires lo <= hi + 1 && forall x | x in s :: lo <= x <= hi
    ensures |s| <= hi - lo + 1
    decreases hi - lo
  {
    if hi < lo {
      if s != {} {
        var x := Pick(s);
      }
    } else {
      SpanCardinality(s - {hi}, lo, hi - 1);
    }
  }

  /** Deleting the denied calls from a run changes no decision: the granted calls alone are all
      granted again, and every later call is decided alike. */
  lemma {:induction false} DeniedCallsUnobservable(limit: int, times: seq<real>, later: seq<real>)
    ensures Greedy(limit, Greedy(limit, times)) == Greedy(limit, times)
    ensures Greedy(limit, Greedy(limit, times) + later) == Greedy(limit, times + later)
    decreases |times|, |later|
  {
    if later != [] {
      var init, t := later[..|later| - 1], later[|later| - 1];
      DeniedCallsUnobservable(limit, times, init);
      var granted := Greedy(limit, times);
      assert (times + later)[..|times + later| - 1] == times + init;
      assert (granted + later)[..|granted + later| - 1] == granted + init;
    } else {
      assert times + later == times && Greedy(limit, times) + later == Greedy(limit, times);
      if times != [] {
        var init, t := times[..|times| - 1], times[|times| - 1];
        DeniedCallsUnobservable(limit, init, []);
        var g := Greedy(limit, init);
        assert (g + [t])[..|g|] == g;
      }
    }
  }

  /** The calls that a rival limiter, deciding by `mask`, would have granted. */
  function Chosen(times: seq<real>, mask: seq<bool>): seq<real>
    requires |times| == |mask|
  {
    if times == [] then []
    else
      var n := |times| - 1;
      Chosen(times[..n], mask[..n]) + if mask[n] then [times[n]] else []
  }

  /** Among all limiters whose grants keep the bound, this one never falls behind: on every run it
      has let through at least as many calls. */
  lemma GreedyIsOptimal(limit: int, times: seq<real>, mask: seq<bool>)
    requires NonDecreasing(times) && |mask| == |times|
    requires WithinRate(limit, Chosen(times, mask))
    ensures |Chosen(times, mask)| <= |Greedy(limit, times)|
  {
    if times != [] {
      GreedyStaysAhead(limit, times, mask, times[|times| - 1]);
    }
  }

  lemma {:induction false} GreedyStaysAhead(limit: int, times: seq<real>, mask: seq<bool>, t': real)
    requires NonDecreasing(times) && |mask| == |times|
    requires WithinRate(limit, Chosen(times, mask))
    requires times != [] ==> times[|times| - 1] <= t'
    ensures |Chosen(times, mask)| <= |Greedy(limit, times)|
    ensures Level(limit, Chosen(times, mask), t') + |Chosen(times, mask)| as real
            <= Level(limit, Greedy(limit, times), t') + |Greedy(limit, times)| as real
  {
    if times != [] {
      var n := |times| - 1;
      var t := times[n];
      var o, g := Chosen(times[..n], mask[..n]), Greedy(limit, times[..n]);
      var o', g' := Chosen(times, mask), Greedy(limit, times);
      ChosenStep(limit, times, mask);
      GreedyStaysAhead(limit, times[..n], mask[..n], t);
      LevelAfterCall(limit, o, t, mask[n], o');
      LevelAfterCall(limit, g, t, Permitted(limit, g, t), g');
      LevelRefills(limit, o', t, t');
      LevelRefills(limit, g', t, t');
    }
  }

  lemma ChosenStep(limit: int, times: seq<real>, mask: seq<bool>)
    requires times != [] && |mask| == |times| && WithinRate(limit, Chosen(times, mask))
    ensures var n := |times| - 1;
            var o := Chosen(times[..n], mask[..n]);
            && Chosen(times, mask) == (if mask[n] then o + [times[n]] else o)
            && WithinRate(limit, o)
            && (mask[n] ==> Permitted(limit, o, times[n]))
  {
    var n := |times| - 1;
    var o, o' := Chosen(times[..n], mask[..n]), Chosen(times, mask);
    WithinRatePrefix(limit, o, o');
    if mask[n] {
      assert o'[..|o|] == o && Permitted(limit, o'[..|o|], o'[|o|]);
    } else {
      assert o' == o;
    }
  }

  lemma LevelAfterCall(limit: int, g: seq<real>, t: real, granted: bool, g': seq<real>)
    requires granted ==> Permitted(limit, g, t)
    requires g' == if granted then g + [t] else g
    ensures Level(limit, g', t) + |g'| as real == Level(limit, g, t) + |g| as real
    ensures granted ==> Level(limit, g, t) >= 1.0
    ensures !granted && !Permitted(limit, g, t) ==> Level(limit, g, t) < 1.0
  {
    LevelDecides(limit, g, t);
    LevelAfterGrant(limit, g, t);
  }

  lemma WithinRatePrefix(limit: int, o: seq<real>, o': seq<real>)
    requires WithinRate(limit, o') && o <= o'
    ensures WithinRate(limit, o)
  {
    forall k | 0 <= k < |o|
      ensures Permitted(limit, o[..k], o[k])
    {
      assert o'[..k] == o[..k] && Permitted(limit, o'[..k], o'[k]);
    }
  }

  // ---- The limiter object ----

  function Refill(limit: int, rate: real, tokens: real, elapsed: real): real {
    MinReal(limit as real, tokens + elapsed * rate)
  }

  /** A clock reading in token time. */
  ghost function TokenTime(rate: real, seconds: real): real {
    seconds * rate
  }

  /** A key's stored pair is the bucket left behind by the calls at the times `ts`. */
  ghost predicate Tracks(limit: int, ts: seq<real>, tokens: real, lastRefill: real) {
    && ts != [] && NonDecreasing(ts)
    && lastRefill == ts[|ts| - 1]
    && tokens == Level(limit, Greedy(limit, ts), lastRefill)
  }

  lemma GreedySnoc(limit: int, ts: seq<real>, now: real)
    ensures Greedy(limit, ts + [now])
            == Greedy(limit, ts) + if Permitted(limit, Greedy(limit, ts), now) then [now] else []
  {
    assert (ts + [now])[..|ts|] == ts;
  }

  lemma NonDecreasingSnoc(ts: seq<real>, now: real)
    requires NonDecreasing(ts) && (ts != [] ==> ts[|ts| - 1] <= now)
    ensures NonDecreasing(ts + [now])
  {
  }

  lemma LevelAfterDecision(limit: int, g: seq<real>, available: real, now: real)
    requires available == Level(limit, g, now)
    ensures var ok := Permitted(limit, g, now);
            && (available >= 1.0 <==> ok)
            && Level(limit, g + (if ok then [now] else []), now) == if ok then available - 1.0 else available
  {
    LevelDecides(limit, g, now);
    LevelAfterGrant(limit, g, now);
    assert g + [] == g;
  }

  /** One call: the stored pair moves on, and the decision is the specification's. */
  lemma CallTracks(limit: int, ts: seq<real>, available: real, now: real)
    requires NonDecreasing(ts) && (ts != [] ==> ts[|ts| - 1] <= now)
    requires available == Level(limit, Greedy(limit, ts), now)
    ensures var ok := Permitted(limit, Greedy(limit, ts), now);
            && (available >= 1.0 <==> ok)
            && Greedy(limit, ts + [now]) == Greedy(limit, ts) + (if ok then [now] else [])
            && Tracks(limit, ts + [now], if ok then available - 1.0 else available, now)
  {
    LevelAfterDecision(limit, Greedy(limit, ts), available, now);
    GreedySnoc(limit, ts, now);
    NonDecreasingSnoc(ts, now);
  }

  class RateLimiter {
    const limit: int
    const windowSec: real
    /** `limit / windowSec`, the tokens earned each second. */
    const rate: real
    var tokens: map<string, real>
    var lastRefill: map<string, real>
    /** The token times of all calls on each key since its last reset, granted or not. */
    ghost var calls: map<string, seq<real>>

    ghost predicate Valid()
      reads this
    {
      && limit >= 0 && rate >= 0.0
      && tokens.Keys == lastRefill.Keys == calls.Keys
      && forall k {:trigger InStep(k)} | k in calls :: InStep(k)
    }

    /** The stored pair of `k` is in step with the calls made on it. */
    ghost predicate InStep(k: string)
      reads this
    {
      && k in calls && k in tokens && k in lastRefill
      && Tracks(limit, calls[k], tokens[k], TokenTime(rate, lastRefill[k]))
    }

    ghost function History(key: string): seq<real>
      reads this
    {
      if key in calls then calls[key] else []
    }

    /** The calls on `key` granted so far. */
    ghost function Granted(key: string): seq<real>
      reads this
    {
      Greedy(limit, History(key))
    }

    /** The specification's decision on a call on `key` now. */
    ghost predicate Permits(key: string, now: real)
      reads this
    {
      Permitted(limit, Granted(key), TokenTime(rate, now))
    }

    constructor (limit: int, windowSec: real)
      requires limit >= 0 && windowSec > 0.0
      ensures Valid() && this.limit == limit && this.windowSec == windowSec
      ensures rate == limit as real / windowSec && calls == map[]
    {
      this.limit, this.windowSec, rate := limit, windowSec, limit as real / windowSec;
      tokens, lastRefill, calls := map[], map[], map[];
    }

    /** The refill computation shared by the two queries. */
    method Available(key: string, now: real) returns (available: real)
      requires Valid() && (key in lastRefill ==> lastRefill[key] <= now)
      ensures available == Level(limit, Granted(key), TokenTime(rate, now))
      ensures History(key) != [] ==> History(key)[|History(key)| - 1] <= TokenTime(rate, now)
      ensures NonDecreasing(History(key))
    {
      assert key in calls ==> InStep(key);
      available := if key in tokens then tokens[key] else limit as real;
      var last := if key in lastRefill then lastRefill[key] else now;
      var elapsed := now - last;
      available := Refill(limit, rate, available, elapsed);
      RefillIsLevel(limit, rate, Granted(key), last, now);
    }

    /** `now` is the clock reading, which never runs backwards on a key. A call is granted exactly
        when the earlier grants on its key permit it; other keys play no part. */
    method CanProceed(key: string, now: real) returns (ok: bool)
      requires Valid() && (key in lastRefill ==> lastRefill[key] <= now)
      modifies this
      ensures Valid()
      ensures ok <==> old(Permits(key, now))
      ensures Granted(key) == old(Granted(key)) + if ok then [TokenTime(rate, now)] else []
      ensures calls == old(calls)[key := old(History(key)) + [TokenTime(rate, now)]]
      ensures lastRefill == old(lastRefill)[key := now]
    {
      var available := Available(key, now);
      CallTracks(limit, History(key), available, TokenTime(rate, now));
      calls := calls[key := History(key) + [TokenTime(rate, now)]];
      lastRefill := lastRefill[key := now];
      ok := available >= 1.0;
      tokens := tokens[key := if ok then available - 1.0 else available];
      forall k | k in calls && k != key
        ensures InStep(k)
      {
        assert old(InStep(k));
        assert calls[k] == old(calls[k]) && tokens[k] == old(tokens[k]) && lastRefill[k] == old(lastRefill[k]);
      }
    }

    /** The wait is exact: with no call on the key in between, a call succeeds from `now + w` on and
        at no earlier moment. */
    method GetWaitTime(key: string, now: real) returns (w: real)
      requires Valid() && rate > 0.0 && limit >= 1 && (key in lastRefill ==> lastRefill[key] <= now)
      ensures w >= 0.0
      ensures forall t | now <= t :: Permits(key, t) <==> now + w <= t
    {
      var available := Available(key, now);
      if available >= 1.0 {
        w := 0.0;
      } else {
        var deficit := 1.0 - available;
        w := deficit / rate;
      }
      WaitIsExact(limit, rate, Granted(key), now, available, w);
    }

    method Reset(key: string)
      requires Valid()
      modifies this
      ensures Valid() && calls == old(calls) - {key} && Granted(key) == []
    {
      tokens := tokens - {key};
      lastRefill := lastRefill - {key};
      calls := calls - {key};
      assert forall k | k in calls :: old(InStep(k)) ==> InStep(k);
    }
  }

  lemma ScaledDifference(s: real, t: real, rate: real)
    requires rate >= 0.0 && s <= t
    ensures TokenTime(rate, t) - TokenTime(rate, s) == (t - s) * rate >= 0.0
  {
  }

  lemma RefillIsLevel(limit: int, rate: real, g: seq<real>, last: real, now: real)
    requires rate >= 0.0 && last <= now
    ensures TokenTime(rate, last) <= TokenTime(rate, now)
    ensures Level(limit, g, TokenTime(rate, now))
            == Refill(limit, rate, Level(limit, g, TokenTime(rate, last)), now - last)
  {
    ScaledDifference(last, now, rate);
    LevelRefills(limit, g, TokenTime(rate, last), TokenTime(rate, now));
  }

  lemma WaitIsExact(limit: int, rate: real, g: seq<real>, now: real, available: real, w: real)
    requires limit >= 1 && rate > 0.0 && available == Level(limit, g, TokenTime(rate, now))
    requires w == if available >= 1.0 then 0.0 else (1.0 - available) / rate
    ensures w >= 0.0
    ensures forall t | now <= t :: Permitted(limit, g, TokenTime(rate, t)) <==> now + w <= t
  {
    WaitThreshold(available, rate, 0.0);
    forall t | now <= t
      ensures Permitted(limit, g, TokenTime(rate, t)) <==> now + w <= t
    {
      RefillIsLevel(limit, rate, g, now, t);
      LevelDecides(limit, g, TokenTime(rate, t));
      WaitThreshold(available, rate, t - now);
    }
  }

  lemma WaitThreshold(available: real, rate: real, dt: real)
    requires rate > 0.0 && dt >= 0.0
    ensures var w := if available >= 1.0 then 0.0 else (1.0 - available) / rate;
            w >= 0.0 && (available + dt * rate >= 1.0 <==> w <= dt)
  {
    if available < 1.0 {
      var w := (1.0 - available) / rate;
      assert w * rate == 1.0 - available;
      if w <= dt {
        assert (dt - w) * rate >= 0.0;
      } else {
        assert (w - dt) * rate > 0.0;
      }
    } else {
      assert dt * rate >= 0.0;
    }
  }
}
