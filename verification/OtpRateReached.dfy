/** The rate bound on verifications is reached: max + 1 of them do fit into one window. */
module OtpRateReached {
  import opened Basics
  import opened OtpGuarantees
  import opened OtpRounds
  import opened SlidingWindow
  import opened SlidingWindowRuns
  import opened UserRuns
  import opened Users

  /** What a run has built up, with the limiter's entries for the address. */
  ghost predicate Logged(svc: Service, run: seq<Event>, entries: seq<int>) {
    svc.limits.InMemory? && Ready(svc, run) && EntriesOf(After(svc, run).gate.log, WHO) == entries
  }

  lemma LoggedRound(svc: Service, run: seq<Event>, entries: seq<int>, askAt: int, answerAt: int, lo: int, hi: int)
      returns (next: seq<Event>)
    requires Logged(svc, run, entries) && Sound(svc.digest)
    requires (run != [] ==> Last(run).at <= askAt) && askAt <= answerAt <= askAt + OTP_TTL
    requires Decide(entries, svc.limits.window, svc.limits.max, askAt).granted
    ensures Logged(svc, next, Decide(entries, svc.limits.window, svc.limits.max, askAt).entries)
    ensures next != [] && Last(next).at == answerAt
    ensures Verifications(svc, next, WHO, lo, hi) == Verifications(svc, run, WHO, lo, hi) + if lo < answerAt <= hi then 1 else 0
  {
    hide Decide, Ready, Sound, Verifications, After;
    next := Round(svc, run, askAt, answerAt, false, lo, hi);
  }

  /** `n` requests: one at time 0, answered at time 1, and the others made and answered at time 1. */
  lemma {:induction false} EarlyRounds(svc: Service, n: nat) returns (run: seq<Event>, entries: seq<int>)
    requires Sound(svc.digest) && svc.limits.InMemory? && svc.limits.window > 1 && 0 < n <= svc.limits.max
    ensures Logged(svc, run, entries) && run != [] && Last(run).at == 1
    ensures |Recent(entries, 1 - svc.limits.window)| == n && |Recent(entries, 0)| == n - 1
    ensures Verifications(svc, run, WHO, 0, svc.limits.window) == n
  {
    hide Logged, Sound, Verifications, Recent, Decide;
    if n == 1 {
      EmptyIsLogged(svc);
      FirstGrant(svc);
      run := LoggedRound(svc, [], [], 0, 1, 0, svc.limits.window);
      entries := [0];
    } else {
      var before, past := EarlyRounds(svc, n - 1);
      NextGrant(past, svc.limits.window, svc.limits.max);
      run := LoggedRound(svc, before, past, 1, 1, 0, svc.limits.window);
      entries := Decide(past, svc.limits.window, svc.limits.max, 1).entries;
    }
  }

  lemma FirstGrant(svc: Service)
    requires svc.limits.InMemory? && svc.limits.window > 1 && svc.limits.max > 0
    ensures Decide([], svc.limits.window, svc.limits.max, 0) == Verdict(true, [0])
    ensures |Recent([0], 1 - svc.limits.window)| == 1 && |Recent([0], 0)| == 0
  {
    RecentOfAppend([], 0, 1 - svc.limits.window);
    RecentOfAppend([], 0, 0);
    assert [] + [0] == [0];
  }

  lemma NextGrant(past: seq<int>, window: int, max: int)
    requires window > 1 && |Recent(past, 1 - window)| < max
    ensures var d := Decide(past, window, max, 1);
            && d.granted
            && |Recent(d.entries, 1 - window)| == |Recent(past, 1 - window)| + 1
            && |Recent(d.entries, 0)| == |Recent(past, 0)| + 1
  {
    hide Recent;
    var kept := Recent(past, 1 - window);
    RecentOfAppend(kept, 1, 1 - window);
    RecentOfAppend(kept, 1, 0);
    RecentTwice(past, 1 - window, 1 - window);
    RecentTwice(past, 1 - window, 0);
  }

  lemma EmptyIsLogged(svc: Service)
    requires svc.limits.InMemory?
    ensures Logged(svc, [], []) && Verifications(svc, [], WHO, 0, svc.limits.window) == 0
  {
  }

  /** For every limiter with a window of at least two ticks some run verifies one address max + 1
      times within one window. */
  lemma RateIsReached(svc: Service) returns (run: seq<Event>)
    requires Sound(svc.digest) && svc.limits.InMemory? && svc.limits.window > 1 && svc.limits.max > 0
    ensures Clocked(run) && SaltsAreBase64(run)
    ensures Verifications(svc, run, WHO, svc.limits.window - svc.limits.window, svc.limits.window) == svc.limits.max + 1
  {
    hide Sound, Verifications, Clocked, SaltsAreBase64, Recent;
    var before, entries := EarlyRounds(svc, svc.limits.max);
    run := LoggedRound(svc, before, entries, svc.limits.window, svc.limits.window, 0, svc.limits.window);
  }
}
