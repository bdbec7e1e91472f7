/** Whole runs of the sliding-log limiter.  Requests arrive with a non-decreasing clock;
    the theorems compare the limiter with the full, never compacted history. */
module SlidingWindowRuns {
  import opened Basics
  import opened SlidingWindow

  ghost predicate Sorted(times: seq<int>) {
    forall i, j :: 0 <= i <= j < |times| ==> times[i] <= times[j]
  }

  // ---------------------------------------------------------------------------
  // Runs on one key
  // ---------------------------------------------------------------------------

  /** The stored log after requests at the given times. */
  function LogAfter(times: seq<int>, window: int, max: int): seq<int> {
    if times == [] then []
    else Decide(LogAfter(Front(times), window, max), window, max, Last(times)).entries
  }

  /** The answers given to those requests. */
  function Decisions(times: seq<int>, window: int, max: int): (d: seq<bool>)
    ensures |d| == |times|
  {
    if times == [] then []
    else Decisions(Front(times), window, max)
         + [Decide(LogAfter(Front(times), window, max), window, max, Last(times)).granted]
  }

  /** The chosen times later than `lo`, in order. */
  function Chosen(times: seq<int>, picks: seq<bool>, lo: int): seq<int>
    requires |picks| == |times|
  {
    if times == [] then []
    else
      var front := Chosen(Front(times), Front(picks), lo);
      if Last(picks) && Last(times) > lo then front + [Last(times)] else front
  }

  /** How many chosen times lie in the half-open interval (lo, hi]. */
  function CountIn(times: seq<int>, picks: seq<bool>, lo: int, hi: int): nat
    requires |picks| == |times|
  {
    if times == [] then 0
    else CountIn(Front(times), Front(picks), lo, hi)
         + if Last(picks) && lo < Last(times) <= hi then 1 else 0
  }

  function Total(picks: seq<bool>): nat {
    if picks == [] then 0 else Total(Front(picks)) + if Last(picks) then 1 else 0
  }

  /** A choice of grants that keeps every window of the given length within the bound. */
  ghost predicate Feasible(times: seq<int>, picks: seq<bool>, window: int, max: int)
    requires |picks| == |times|
  {
    forall t :: CountAt(times, picks, window, t) <= max
  }

  /** How many chosen times lie in the window that ends at `t`. */
  function CountAt(times: seq<int>, picks: seq<bool>, window: int, t: int): nat
    requires |picks| == |times|
  { CountIn(times, picks, t - window, t) }

  lemma {:induction false} RecentOfAppend(s: seq<int>, x: int, cutoff: int)
    ensures Recent(s + [x], cutoff) == Recent(s, cutoff) + if x > cutoff then [x] else []
  {
    assert (s + [x])[..|s|] == s;
  }

  lemma {:induction false} RecentOfChosen(times: seq<int>, picks: seq<bool>, lo: int, cutoff: int)
    requires |picks| == |times| && lo <= cutoff
    ensures Recent(Chosen(times, picks, lo), cutoff) == Chosen(times, picks, cutoff)
  {
    if times != [] {
      RecentOfChosen(Front(times), Front(picks), lo, cutoff);
      RecentOfAppend(Chosen(Front(times), Front(picks), lo), Last(times), cutoff);
    }
  }

  lemma {:induction false} ChosenCounts(times: seq<int>, picks: seq<bool>, lo: int, hi: int)
    requires |picks| == |times|
    requires forall i :: 0 <= i < |times| ==> times[i] <= hi
    ensures |Chosen(times, picks, lo)| == CountIn(times, picks, lo, hi)
  {
    if times != [] {
      ChosenCounts(Front(times), Front(picks), lo, hi);
    }
  }

  /** The compacted log loses nothing the limiter will ever need: it is exactly the part of the
      full grant history younger than the window. */
  lemma {:induction false} LogIsRecentHistory(times: seq<int>, window: int, max: int)
    requires Sorted(times) && times != [] && window > 0
    ensures LogAfter(times, window, max)
            == Chosen(times, Decisions(times, window, max), Last(times) - window)
  {
    hide Recent;
    var past, now := Front(times), Last(times);
    var d := Decisions(past, window, max);
    assert Front(Decisions(times, window, max)) == d;
    if past == [] {
      assert Recent([], now - window) == [];
    } else {
      LogIsRecentHistory(past, window, max);
      RecentOfChosen(past, d, Last(past) - window, now - window);
    }
    HistoryStep(times, window, max);
  }

  /** If the kept entries are the recent history of the past, they still are after one more request. */
  lemma HistoryStep(times: seq<int>, window: int, max: int)
    requires times != [] && window > 0
    requires var past := Front(times);
             Recent(LogAfter(past, window, max), Last(times) - window)
             == Chosen(past, Decisions(past, window, max), Last(times) - window)
    ensures LogAfter(times, window, max) == Chosen(times, Decisions(times, window, max), Last(times) - window)
  {
    hide Recent;
    assert Front(Decisions(times, window, max)) == Decisions(Front(times), window, max);
  }

  /** What the admission test counts is the number of grants of the full history in the window. */
  lemma {:induction false} KeptCountsHistory(times: seq<int>, now: int, window: int, max: int)
    requires Sorted(times) && window > 0
    requires forall i :: 0 <= i < |times| ==> times[i] <= now
    ensures |Recent(LogAfter(times, window, max), now - window)|
            == CountAt(times, Decisions(times, window, max), window, now)
  {
    if times != [] {
      var d := Decisions(times, window, max);
      ChosenCounts(times, d, now - window, now);
      LogIsRecentHistory(times, window, max);
      RecentOfChosen(times, d, Last(times) - window, now - window);
    }
  }

  /** Exactness: a request is denied exactly when `max` grants of the full history lie in the
      window that ends at it, and there are never more than `max`. */
  lemma DenialIsExact(times: seq<int>, now: int, window: int, max: int)
    requires Sorted(times) && window > 0 && max > 0
    requires forall i :: 0 <= i < |times| ==> times[i] <= now
    ensures var inWindow := CountAt(times, Decisions(times, window, max), window, now);
            inWindow <= max && (Last(Decisions(times + [now], window, max)) <==> inWindow < max)
  {
    assert Front(times + [now]) == times;
    KeptCountsHistory(times, now, window, max);
    LogWithinMax(times, window, max);
  }

  lemma {:induction false} LogWithinMax(times: seq<int>, window: int, max: int)
    requires max > 0
    ensures |LogAfter(times, window, max)| <= max
  {
    if times != [] {
      LogWithinMax(Front(times), window, max);
    }
  }

  lemma {:induction false} CountShrinks(times: seq<int>, picks: seq<bool>, lo: int, hi: int, lo': int, hi': int)
    requires |picks| == |times|
    requires forall i :: 0 <= i < |times| && lo < times[i] <= hi ==> lo' < times[i] <= hi'
    ensures CountIn(times, picks, lo, hi) <= CountIn(times, picks, lo', hi')
  {
    if times != [] {
      assert forall i :: 0 <= i < |times| - 1 ==> Front(times)[i] == times[i];
      CountShrinks(Front(times), Front(picks), lo, hi, lo', hi');
    }
  }

  /** Safety: over a whole run no half-open interval of window length holds more than `max` grants. */
  lemma {:induction false} WindowSafety(times: seq<int>, window: int, max: int)
    requires Sorted(times) && window > 0 && max > 0
    ensures Feasible(times, Decisions(times, window, max), window, max)
  {
    forall t ensures CountAt(times, Decisions(times, window, max), window, t) <= max {
      WindowSafetyAt(times, window, max, t);
    }
  }

  lemma {:induction false} WindowSafetyAt(times: seq<int>, window: int, max: int, t: int)
    requires Sorted(times) && window > 0 && max > 0
    ensures CountAt(times, Decisions(times, window, max), window, t) <= max
  {
    if times != [] {
      var d, now := Decisions(times, window, max), Last(times);
      assert Front(d) == Decisions(Front(times), window, max);
      if t < now {
        WindowSafetyAt(Front(times), window, max, t);
      } else {
        CountShrinks(times, d, t - window, t, now - window, now);
        LogIsRecentHistory(times, window, max);
        ChosenCounts(times, d, now - window, now);
        LogWithinMax(times, window, max);
      }
    }
  }

  // ---------------------------------------------------------------------------
  // Greedy optimality
  // ---------------------------------------------------------------------------

  /** Splitting a history at the window's edge. */
  lemma {:induction false} TotalSplits(times: seq<int>, picks: seq<bool>, lo: int, hi: int, p: nat)
    requires |picks| == |times| && p <= |times|
    requires forall i :: 0 <= i < p ==> times[i] <= lo
    requires forall i :: p <= i < |times| ==> lo < times[i] <= hi
    ensures Total(picks) == Total(picks[..p]) + CountIn(times, picks, lo, hi)
  {
    if times == [] {
      assert picks[..p] == picks;
    } else if p == |times| {
      assert picks[..p] == picks;
      NoneCounted(times, picks, lo, hi);
    } else {
      assert forall i :: 0 <= i < |times| - 1 ==> Front(times)[i] == times[i];
      TotalSplits(Front(times), Front(picks), lo, hi, p);
      assert Front(picks)[..p] == picks[..p];
    }
  }

  lemma {:induction false} NoneCounted(times: seq<int>, picks: seq<bool>, lo: int, hi: int)
    requires |picks| == |times|
    requires forall i :: 0 <= i < |times| ==> times[i] <= lo
    ensures CountIn(times, picks, lo, hi) == 0
  {
    if times != [] {
      assert forall i :: 0 <= i < |times| - 1 ==> Front(times)[i] == times[i];
      NoneCounted(Front(times), Front(picks), lo, hi);
    }
  }

  lemma {:induction false} PrefixCounts(times: seq<int>, picks: seq<bool>, n: nat, lo: int, hi: int)
    requires |picks| == |times| && n <= |times|
    ensures CountIn(times[..n], picks[..n], lo, hi) <= CountIn(times, picks, lo, hi)
  {
    if n == |times| {
      assert times[..n] == times && picks[..n] == picks;
    } else {
      assert Front(times)[..n] == times[..n] && Front(picks)[..n] == picks[..n];
      PrefixCounts(Front(times), Front(picks), n, lo, hi);
    }
  }

  lemma {:induction false} DecisionsOfPrefix(times: seq<int>, n: nat, window: int, max: int)
    requires n <= |times|
    ensures Decisions(times[..n], window, max) == Decisions(times, window, max)[..n]
  {
    if n == |times| {
      assert times[..n] == times;
    } else {
      assert Front(times)[..n] == times[..n];
      DecisionsOfPrefix(Front(times), n, window, max);
    }
  }

  /** Greedy optimality: no other way of answering the same requests that respects the bound
      in every window has granted more after any prefix of them. */
  lemma {:induction false} GreedyIsOptimal(times: seq<int>, other: seq<bool>, window: int, max: int, n: nat)
    requires Sorted(times) && window > 0 && max > 0
    requires |other| == |times| && Feasible(times, other, window, max)
    requires n <= |times|
    ensures Total(other[..n]) <= Total(Decisions(times, window, max)[..n])
  {
    hide Decisions, CountIn;
    if n == 0 {
      return;
    }
    var mine := Decisions(times, window, max);
    var now := times[n - 1];
    assert Front(other[..n]) == other[..n - 1] && Front(mine[..n]) == mine[..n - 1];
    GreedyIsOptimal(times, other, window, max, n - 1);
    if !mine[n - 1] && other[n - 1] {
      var p := WindowStart(times, n, window);
      GreedyIsOptimal(times, other, window, max, p);
      DeniedWindowIsFull(times, window, max, n);
      SplitAt(times, mine, n - 1, now - window, now, p);
      SplitAt(times, other, n, now - window, now, p);
      PrefixCounts(times, other, n, now - window, now);
      assert CountAt(times, other, window, now) <= max;
    }
  }

  /** The index where the window of request `n - 1` begins. */
  lemma WindowStart(times: seq<int>, n: nat, window: int) returns (p: nat)
    requires Sorted(times) && window > 0 && 0 < n <= |times|
    ensures p < n
    ensures forall i :: 0 <= i < p ==> times[i] <= times[n - 1] - window
    ensures forall i :: p <= i < n ==> times[n - 1] - window < times[i] <= times[n - 1]
  {
    p := 0;
    while times[p] <= times[n - 1] - window
      invariant p < n
      invariant forall i :: 0 <= i < p ==> times[i] <= times[n - 1] - window
      decreases n - p
    {
      p := p + 1;
    }
  }

  lemma SplitAt(times: seq<int>, picks: seq<bool>, n: nat, lo: int, hi: int, p: nat)
    requires |picks| == |times| && p <= n <= |times|
    requires forall i :: 0 <= i < p ==> times[i] <= lo
    requires forall i :: p <= i < n ==> lo < times[i] <= hi
    ensures Total(picks[..n]) == Total(picks[..p]) + CountIn(times[..n], picks[..n], lo, hi)
  {
    TotalSplits(times[..n], picks[..n], lo, hi, p);
    assert picks[..n][..p] == picks[..p];
  }

  lemma DeniedWindowIsFull(times: seq<int>, window: int, max: int, n: nat)
    requires Sorted(times) && window > 0 && max > 0 && 0 < n <= |times|
    requires !Decisions(times, window, max)[n - 1]
    ensures CountAt(times[..n - 1], Decisions(times, window, max)[..n - 1], window, times[n - 1]) == max
  {
    hide Decisions, CountAt;
    var past, now := times[..n - 1], times[n - 1];
    assert past + [now] == times[..n];
    assert forall i :: 0 <= i < n - 1 ==> past[i] == times[i];
    DecisionsOfPrefix(times, n, window, max);
    DecisionsOfPrefix(times, n - 1, window, max);
    DenialIsExact(past, now, window, max);
  }

  // ---------------------------------------------------------------------------
  // Denials leave no trace
  // ---------------------------------------------------------------------------

  /** The granted requests of a run, in order. */
  function Granted(times: seq<int>, picks: seq<bool>): seq<int>
    requires |picks| == |times|
  {
    if times == [] then []
    else Granted(Front(times), Front(picks)) + if Last(picks) then [Last(times)] else []
  }

  /** Without the denied requests the limiter would have stored the same grants and would answer
      any later request the same way: a denial never extends a lockout. */
  lemma {:induction false} DenialsLeaveNoTrace(times: seq<int>, window: int, max: int, now: int)
    requires Sorted(times) && window > 0 && max > 0
    requires times != [] ==> Last(times) <= now
    ensures var granted := Granted(times, Decisions(times, window, max));
            Decide(LogAfter(granted, window, max), window, max, now)
            == Decide(LogAfter(times, window, max), window, max, now)
  {
    if times != [] {
      var past, last := Front(times), Last(times);
      var granted := Granted(times, Decisions(times, window, max));
      var pastGranted := Granted(past, Decisions(past, window, max));
      assert Front(Decisions(times, window, max)) == Decisions(past, window, max);
      assert granted == if Decide(LogAfter(past, window, max), window, max, last).granted
                        then pastGranted + [last] else pastGranted;
      if granted == pastGranted {
        DenialsLeaveNoTrace(past, window, max, now);
        DeniedLog(LogAfter(past, window, max), window, max, last, now);
      } else {
        DenialsLeaveNoTrace(past, window, max, last);
        LogAfterNext(pastGranted, last, window, max);
        assert LogAfter(granted, window, max) == LogAfter(times, window, max);
      }
    }
  }

  lemma DeniedLog(entries: seq<int>, window: int, max: int, at: int, now: int)
    requires at <= now && !Decide(entries, window, max, at).granted
    ensures Decide(Decide(entries, window, max, at).entries, window, max, now) == Decide(entries, window, max, now)
  {
    RecentTwice(entries, at - window, now - window);
  }

  lemma {:induction false} RecentTwice(s: seq<int>, early: int, late: int)
    requires early <= late
    ensures Recent(Recent(s, early), late) == Recent(s, late)
  {
    if s != [] {
      RecentTwice(Front(s), early, late);
      RecentOfAppend(Recent(Front(s), early), Last(s), late);
    }
  }

  // ---------------------------------------------------------------------------
  // Many keys
  // ---------------------------------------------------------------------------

  datatype Request = Request(key: string, at: int)

  /** The limiter's whole map after a run over any keys. */
  function LogsAfter(run: seq<Request>, window: int, max: int): Log {
    if run == [] then map[]
    else
      var before, r := LogsAfter(Front(run), window, max), Last(run);
      before[r.key := Decide(EntriesOf(before, r.key), window, max, r.at).entries]
  }

  function TimesOf(run: seq<Request>, key: string): seq<int> {
    if run == [] then []
    else
      var front := TimesOf(Front(run), key);
      if Last(run).key == key then front + [Last(run).at] else front
  }

  /** Keys do not interfere: in any interleaving each key sees only its own requests. */
  lemma {:induction false} KeysAreIndependent(run: seq<Request>, window: int, max: int, key: string)
    ensures EntriesOf(LogsAfter(run, window, max), key) == LogAfter(TimesOf(run, key), window, max)
  {
    if run != [] {
      KeysAreIndependent(Front(run), window, max, key);
      var mine, r := TimesOf(Front(run), key), Last(run);
      if r.key == key {
        LogAfterNext(mine, r.at, window, max);
      }
    }
  }

  lemma LogAfterNext(times: seq<int>, now: int, window: int, max: int)
    ensures LogAfter(times + [now], window, max) == Decide(LogAfter(times, window, max), window, max, now).entries
  {
    assert Front(times + [now]) == times;
  }
}
