/** The Redis-backed OTP limiter: a counter per key that is incremented on every call and whose
    expiry is set by the call that creates it.  Times are integer milliseconds. */
module FixedWindow {
  import opened Basics
  import opened SlidingWindowRuns
  import opened Text

  // ---------------------------------------------------------------------------
  // The counter in the server
  // ---------------------------------------------------------------------------

  datatype Counter = Missing | Counting(count: nat, deadline: int)

  /** A key is gone after its deadline.  Whether it is already gone at that very tick is left to
      the server: `dropped` says so. */
  predicate Expired(c: Counter, now: int, dropped: bool) {
    c.Counting? && (now > c.deadline || (now == c.deadline && dropped))
  }

  /** The script: INCR, then EXPIRE when the new count is 1. */
  function Bump(c: Counter, now: int, dropped: bool, ttl: int): (after: Counter)
    ensures after.Counting? && after.count > 0
  {
    var before := if c.Missing? || Expired(c, now, dropped) then 0 else c.count;
    Counting(before + 1, if before == 0 then now + ttl else c.deadline)
  }

  type Counters = map<string, Counter>

  function CounterOf(counters: Counters, key: string): Counter {
    if key in counters then counters[key] else Missing
  }

  /** The expiry passed to the script, in milliseconds: whole seconds, one minute if that is none. */
  function ExpiryOf(window: int): int {
    1000 * (if window / SECOND <= 0 then 60 else window / SECOND)
  }

  /** The counter lives as long as the configured window, cut to whole seconds; a window without a whole second
      makes it live for a minute. */
  lemma ExpiryIsWindow(window: int)
    ensures window >= SECOND ==>
              ExpiryOf(window) * MILLISECOND <= window < ExpiryOf(window) * MILLISECOND + SECOND && ExpiryOf(window) % 1000 == 0
    ensures window >= SECOND ==> (ExpiryOf(window) * MILLISECOND == window <==> window % SECOND == 0)
    ensures window < SECOND ==> ExpiryOf(window) * MILLISECOND == MINUTE
  {
  }

  const KEY_PREFIX: string := "otp:rl:"

  /** The limiter, holding the part of the server's keyspace it uses. */
  class RedisOtpRateLimiter {
    const window: int  // nanoseconds
    const max: int
    const prefix: string
    var counters: Counters

    predicate Valid() { window > 0 && max > 0 && prefix == KEY_PREFIX }

    constructor (window: int, max: int)
      ensures this.window == if window <= 0 then MINUTE else window
      ensures this.max == if max <= 0 then 1 else max
      ensures Valid() && counters == map[]
    {
      this.window := if window <= 0 then MINUTE else window;
      this.max := if max <= 0 then 1 else max;
      this.prefix := KEY_PREFIX;
      counters := map[];
    }

    function Ttl(): int { ExpiryOf(window) }

    method Eval(key: string, ttl: int, now: int, dropped: bool) returns (current: nat)
      modifies this
      ensures var c := Bump(old(CounterOf(counters, key)), now, dropped, ttl);
              counters == old(counters)[key := c] && current == c.count
    {
      current := 1;
      var deadline := 0;
      if key in counters && counters[key].Counting? && !Expired(counters[key], now, dropped) {
        current := counters[key].count + 1;
        deadline := counters[key].deadline;
      }
      if current == 1 {
        deadline := now + ttl;
      }
      counters := counters[key := Counting(current, deadline)];
    }

    /** A blank key is refused without a call; an unreachable server admits. */
    method Allow(key: string, now: int, reachable: bool, dropped: bool) returns (ok: bool)
      modifies this
      ensures var name := ToLower(TrimSpace(key));
              var c := Bump(old(CounterOf(counters, prefix + name)), now, dropped, Ttl());
              if name == "" then !ok && counters == old(counters)
              else if !reachable then ok && counters == old(counters)
              else ok == (c.count <= max) && counters == old(counters)[prefix + name := c]
    {
      var name := ToLower(TrimSpace(key));
      if name == "" {
        return false;
      }
      if !reachable {
        return true;
      }
      var count := Eval(prefix + name, Ttl(), now, dropped);
      return count <= max;
    }
  }

  // ---------------------------------------------------------------------------
  // Runs on one key
  // ---------------------------------------------------------------------------

  datatype Call = Call(at: int, dropped: bool)

  function CounterAfter(calls: seq<Call>, ttl: int): Counter {
    if calls == [] then Missing
    else Bump(CounterAfter(Front(calls), ttl), Last(calls).at, Last(calls).dropped, ttl)
  }

  function Answers(calls: seq<Call>, ttl: int, max: int): (a: seq<bool>)
    ensures |a| == |calls|
  {
    if calls == [] then []
    else
      var c := CounterAfter(calls, ttl);
      Answers(Front(calls), ttl, max) + [c.Counting? && c.count <= max]
  }

  function Times(calls: seq<Call>): (t: seq<int>)
    ensures |t| == |calls|
  { seq(|calls|, i requires 0 <= i < |calls| => calls[i].at) }

  /** Grants in (lo, hi]. */
  function Grants(calls: seq<Call>, ttl: int, max: int, lo: int, hi: int): nat {
    CountIn(Times(calls), Answers(calls, ttl, max), lo, hi)
  }

  ghost predicate Clocked(calls: seq<Call>) {
    forall i, j :: 0 <= i <= j < |calls| ==> calls[i].at <= calls[j].at
  }

  function Min(a: int, b: int): int { if a < b then a else b }

  lemma GrantsStep(calls: seq<Call>, ttl: int, max: int, lo: int, hi: int)
    requires calls != []
    ensures Grants(calls, ttl, max, lo, hi) == Grants(Front(calls), ttl, max, lo, hi)
            + if Last(Answers(calls, ttl, max)) && lo < Last(calls).at <= hi then 1 else 0
  {
    assert Front(Times(calls)) == Times(Front(calls));
    assert Front(Answers(calls, ttl, max)) == Answers(Front(calls), ttl, max);
  }

  /** What an epoch and its predecessor can have granted, in terms of the live counter: after a bound
      not before the epoch's start the creating grant is excluded; after a bound at most one
      TTL earlier at most the rest of the previous epoch is added. */
  lemma {:induction false} EpochBudget(calls: seq<Call>, ttl: int, max: int, lo: int, hi: int)
    requires Clocked(calls) && calls != [] && ttl > 0 && max > 0
    requires Last(calls).at <= hi
    ensures var c := CounterAfter(calls, ttl);
            && c.Counting? && c.count > 0 && Last(calls).at <= c.deadline && Last(calls).at >= c.deadline - ttl
            && (lo >= c.deadline - ttl ==> Grants(calls, ttl, max, lo, hi) <= Min(c.count, max) - 1)
            && (lo >= c.deadline - 2 * ttl ==> Grants(calls, ttl, max, lo, hi) <= Min(c.count, max) - 1 + max)
  {
    var past := Front(calls);
    GrantsStep(calls, ttl, max, lo, hi);
    if past != [] {
      EpochBudget(past, ttl, max, lo, hi);
      if lo >= Last(calls).at {
        NoGrantsAfter(past, ttl, max, lo, hi);
      }
    }
  }

  lemma {:induction false} NoGrantsAfter(calls: seq<Call>, ttl: int, max: int, lo: int, hi: int)
    requires forall i :: 0 <= i < |calls| ==> calls[i].at <= lo
    ensures Grants(calls, ttl, max, lo, hi) == 0
  {
    if calls != [] {
      GrantsStep(calls, ttl, max, lo, hi);
      NoGrantsAfter(Front(calls), ttl, max, lo, hi);
    }
  }

  /** In any run, every half-open interval as long as the expiry holds at most 2 * max - 1 grants,
      although denied calls are counted too. */
  lemma {:induction false} FixedWindowBound(calls: seq<Call>, ttl: int, max: int, t: int)
    requires Clocked(calls) && ttl > 0 && max > 0
    ensures Grants(calls, ttl, max, t - ttl, t) <= 2 * max - 1
  {
    if calls != [] {
      if t < Last(calls).at {
        GrantsStep(calls, ttl, max, t - ttl, t);
        FixedWindowBound(Front(calls), ttl, max, t);
      } else {
        EpochBudget(calls, ttl, max, t - ttl, t);
      }
    }
  }

  // ---------------------------------------------------------------------------
  // One tick more than the expiry
  // ---------------------------------------------------------------------------

  /** The server drops a key at its deadline tick for all calls of that tick or for none. */
  ghost predicate Decisive(calls: seq<Call>) {
    forall i, j :: 0 <= i < |calls| && 0 <= j < |calls| && calls[i].at == calls[j].at ==> calls[i].dropped == calls[j].dropped
  }

  /** The server never drops a key at its deadline tick. */
  ghost predicate Steady(calls: seq<Call>) { forall i :: 0 <= i < |calls| ==> !calls[i].dropped }

  /** A counter that grew out of calls has them all behind it and in reach of its deadline. */
  lemma {:induction false} CounterIsCurrent(calls: seq<Call>, ttl: int)
    requires Clocked(calls) && calls != [] && ttl > 0
    ensures var c := CounterAfter(calls, ttl);
            c.Counting? && c.count > 0 && c.deadline - ttl <= Last(calls).at <= c.deadline
  {
    if Front(calls) != [] {
      CounterIsCurrent(Front(calls), ttl);
    }
  }

  /** Three epochs can share a span of ttl + 1 ticks: the last calls of one at its deadline tick, a whole one
      that starts there, and one that starts a TTL later. */
  lemma {:induction false} WideBudget(calls: seq<Call>, ttl: int, max: int, lo: int, hi: int)
    requires Clocked(calls) && calls != [] && ttl > 0 && max > 0
    requires Last(calls).at <= hi
    ensures var c := CounterAfter(calls, ttl);
            c.Counting? && (lo >= c.deadline - 2 * ttl - 1 ==> Grants(calls, ttl, max, lo, hi) <= Min(c.count, max) + 2 * max - 1)
  {
    hide Clocked, Grants;
    var past := Front(calls);
    CounterIsCurrent(calls, ttl);
    GrantsStep(calls, ttl, max, lo, hi);
    if past == [] {
      NoGrantsAfter(past, ttl, max, lo, hi);
    } else {
      FrontIsClocked(calls);
      WideBudget(past, ttl, max, lo, hi);
      EpochBudget(past, ttl, max, lo, hi);
    }
  }

  /** With one decision for each tick, no epoch's last calls meet the first of the next in one tick. */
  lemma {:induction false} DecisiveBudget(calls: seq<Call>, ttl: int, max: int, lo: int, hi: int)
    requires Clocked(calls) && Decisive(calls) && calls != [] && ttl > 0 && max > 0
    requires Last(calls).at <= hi
    ensures var c := CounterAfter(calls, ttl);
            && c.Counting?
            && (lo >= c.deadline - ttl - 1 ==> Grants(calls, ttl, max, lo, hi) <= Min(c.count, max))
            && (lo >= c.deadline - 2 * ttl - 1 ==> Grants(calls, ttl, max, lo, hi) <= Min(c.count, max) + max)
  {
    hide Clocked, Grants;
    var past := Front(calls);
    CounterIsCurrent(calls, ttl);
    GrantsStep(calls, ttl, max, lo, hi);
    if past == [] {
      NoGrantsAfter(past, ttl, max, lo, hi);
    } else {
      FrontIsClocked(calls);
      assert forall i :: 0 <= i < |past| ==> past[i] == calls[i];
      DecisiveBudget(past, ttl, max, lo, hi);
      SameTickSameEpoch(calls, ttl);
      if lo >= Last(past).at {
        ClockedBefore(past, lo);
        NoGrantsAfter(past, ttl, max, lo, hi);
      }
    }
  }

  lemma ClockedBefore(calls: seq<Call>, lo: int)
    requires Clocked(calls) && (calls != [] ==> Last(calls).at <= lo)
    ensures forall i :: 0 <= i < |calls| ==> calls[i].at <= lo
  {
  }

  lemma FrontIsClocked(calls: seq<Call>)
    requires Clocked(calls) && calls != []
    ensures Clocked(Front(calls)) && (Front(calls) != [] ==> Last(Front(calls)).at <= Last(calls).at)
  {
  }

  /** A decisive server starts no epoch at a tick at which it has already served a call. */
  lemma SameTickSameEpoch(calls: seq<Call>, ttl: int)
    requires Clocked(calls) && Decisive(calls) && ttl > 0 && |calls| > 1
    ensures var c, last := CounterAfter(Front(calls), ttl), Last(calls);
            Expired(c, last.at, last.dropped) ==> Last(Front(calls)).at < last.at
  {
    var past, last := Front(calls), Last(calls);
    assert calls[|past| - 1] == Last(past) && calls[|past|] == last;
    CounterIsCurrent(past, ttl);
    if Front(past) != [] {
      FrontIsClocked(calls);
      CounterIsCurrent(Front(past), ttl);
    }
  }

  /** A steady server's epochs start more than a TTL apart. */
  lemma {:induction false} SteadyBudget(calls: seq<Call>, ttl: int, max: int, lo: int, hi: int)
    requires Clocked(calls) && Steady(calls) && calls != [] && ttl > 0 && max > 0
    requires Last(calls).at <= hi
    ensures var c := CounterAfter(calls, ttl);
            c.Counting? && (lo >= c.deadline - 2 * ttl - 1 ==> Grants(calls, ttl, max, lo, hi) <= Min(c.count, max) - 1 + max)
  {
    hide Clocked, Grants;
    var past := Front(calls);
    CounterIsCurrent(calls, ttl);
    GrantsStep(calls, ttl, max, lo, hi);
    if past == [] {
      NoGrantsAfter(past, ttl, max, lo, hi);
    } else {
      FrontIsClocked(calls);
      assert forall i :: 0 <= i < |past| ==> past[i] == calls[i];
      SteadyBudget(past, ttl, max, lo, hi);
      EpochBudget(past, ttl, max, lo, hi);
    }
  }

  /** In any run every span of ttl + 1 ticks holds at most 3 * max - 1 grants; at most 2 * max if the
      server decides once for each tick; at most 2 * max - 1 if it never drops a key at its tick. */
  lemma {:induction false} WideWindowBound(calls: seq<Call>, ttl: int, max: int, t: int)
    requires Clocked(calls) && ttl > 0 && max > 0
    ensures Grants(calls, ttl, max, t - ttl - 1, t) <= 3 * max - 1
    ensures Decisive(calls) ==> Grants(calls, ttl, max, t - ttl - 1, t) <= 2 * max
    ensures Steady(calls) ==> Grants(calls, ttl, max, t - ttl - 1, t) <= 2 * max - 1
  {
    hide Clocked, Grants;
    var lo := t - ttl - 1;
    if calls == [] {
      NoGrantsAfter(calls, ttl, max, lo, t);
    } else if t < Last(calls).at {
      FrontIsClocked(calls);
      assert forall i :: 0 <= i < |Front(calls)| ==> Front(calls)[i] == calls[i];
      GrantsStep(calls, ttl, max, lo, t);
      WideWindowBound(Front(calls), ttl, max, t);
    } else {
      CounterIsCurrent(calls, ttl);
      WideBudget(calls, ttl, max, lo, t);
      if Decisive(calls) {
        DecisiveBudget(calls, ttl, max, lo, t);
      }
      if Steady(calls) {
        SteadyBudget(calls, ttl, max, lo, t);
      }
    }
  }

  // ---------------------------------------------------------------------------
  // Denied calls
  // ---------------------------------------------------------------------------

  /** The calls that were granted, in order. */
  function GrantedCalls(calls: seq<Call>, ttl: int, max: int): seq<Call> {
    if calls == [] then []
    else
      var front := GrantedCalls(Front(calls), ttl, max);
      if Last(Answers(calls, ttl, max)) then front + [Last(calls)] else front
  }

  /** Without the denied calls the counter would have the same deadline, and the same count up to the limit. */
  lemma {:induction false} CounterOfGranted(calls: seq<Call>, ttl: int, max: int)
    requires max > 0
    ensures var c := CounterAfter(calls, ttl);
            CounterAfter(GrantedCalls(calls, ttl, max), ttl) == if c.Missing? then Missing else Counting(Min(c.count, max), c.deadline)
  {
    if calls != [] {
      CounterOfGranted(Front(calls), ttl, max);
      var granted := GrantedCalls(Front(calls), ttl, max);
      assert Front(granted + [Last(calls)]) == granted;
    }
  }

  /** Hence every later call is answered as if the denied ones had not been made. */
  lemma DenialsChangeNoAnswer(calls: seq<Call>, next: Call, ttl: int, max: int)
    requires max > 0
    ensures Last(Answers(GrantedCalls(calls, ttl, max) + [next], ttl, max)) == Last(Answers(calls + [next], ttl, max))
  {
    var granted := GrantedCalls(calls, ttl, max);
    CounterOfGranted(calls, ttl, max);
    assert Front(calls + [next]) == calls && Front(granted + [next]) == granted;
  }

  // ---------------------------------------------------------------------------
  // Reaching the bound
  // ---------------------------------------------------------------------------

  lemma Extended(calls: seq<Call>, next: Call, ttl: int, max: int, lo: int, hi: int)
    requires Clocked(calls) && (calls != [] ==> Last(calls).at <= next.at)
    ensures Clocked(calls + [next])
    ensures CounterAfter(calls + [next], ttl) == Bump(CounterAfter(calls, ttl), next.at, next.dropped, ttl)
    ensures Grants(calls + [next], ttl, max, lo, hi) == Grants(calls, ttl, max, lo, hi)
            + if CounterAfter(calls + [next], ttl).count <= max && lo < next.at <= hi then 1 else 0
  {
    assert Front(calls + [next]) == calls;
    GrantsStep(calls + [next], ttl, max, lo, hi);
  }

  /** One call at time 0 and then `n - 1` calls one tick before the deadline. */
  lemma {:induction false} LateInEpoch(n: nat, max: int, ttl: int, dropped: bool) returns (calls: seq<Call>)
    requires 0 < n <= max && ttl > 2
    ensures Clocked(calls) && calls != [] && Last(calls).at < ttl
    ensures CounterAfter(calls, ttl) == Counting(n, ttl)
    ensures Grants(calls, ttl, max, 1, ttl + 1) == n - 1
  {
    if n == 1 {
      calls := [Call(0, dropped)];
      Extended([], calls[0], ttl, max, 1, ttl + 1);
      assert [] + calls == calls;
    } else {
      var before := LateInEpoch(n - 1, max, ttl, dropped);
      calls := before + [Call(ttl - 1, dropped)];
      Extended(before, Last(calls), ttl, max, 1, ttl + 1);
    }
  }

  /** The bound is reached for every `max`, whatever the server does at the deadline tick. */
  lemma BoundIsReached(max: int, ttl: int, dropped: bool) returns (calls: seq<Call>)
    requires max > 0 && ttl > 2
    ensures Clocked(calls) && Grants(calls, ttl, max, (ttl + 1) - ttl, ttl + 1) == 2 * max - 1
  {
    calls := EarlyInNext(max, max, ttl, dropped);
  }

  /** No rolling window of this run holds more than `max` grants. */
  ghost predicate RollingSafe(calls: seq<Call>, ttl: int, max: int) {
    forall t :: Rolling(calls, ttl, max, t) <= max
  }

  function Rolling(calls: seq<Call>, ttl: int, max: int, t: int): nat { Grants(calls, ttl, max, t - ttl, t) }

  /** The limiter keeps its limit in every rolling window of every run exactly when the limit is one. */
  lemma RollingSafeIffOne(max: int, ttl: int)
    requires max > 0 && ttl > 2
    ensures (forall calls :: Clocked(calls) ==> RollingSafe(calls, ttl, max)) <==> max == 1
  {
    hide Clocked, Grants;
    if max == 1 {
      forall calls, t | Clocked(calls) ensures Rolling(calls, ttl, max, t) <= max {
        FixedWindowBound(calls, ttl, max, t);
      }
    } else {
      var calls := BoundIsReached(max, ttl, false);
      assert Rolling(calls, ttl, max, ttl + 1) > max;
    }
  }

  lemma {:induction false} EarlyInNext(n: nat, max: int, ttl: int, dropped: bool) returns (calls: seq<Call>)
    requires 0 <= n <= max && max > 0 && ttl > 2
    ensures Clocked(calls) && calls != [] && Last(calls).at <= ttl + 1
    ensures CounterAfter(calls, ttl) == if n == 0 then Counting(max, ttl) else Counting(n, 2 * ttl + 1)
    ensures Grants(calls, ttl, max, 1, ttl + 1) == max - 1 + n
  {
    if n == 0 {
      calls := LateInEpoch(max, max, ttl, dropped);
    } else {
      var before := EarlyInNext(n - 1, max, ttl, dropped);
      calls := before + [Call(ttl + 1, dropped)];
      Extended(before, Last(calls), ttl, max, 1, ttl + 1);
    }
  }
}
