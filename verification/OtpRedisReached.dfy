/** The bounds on verifications behind the Redis limiter are reached, each under its own conditions. */
module OtpRedisReached {
  import opened Basics
  import FixedWindow
  import opened Limiters
  import opened OtpGuarantees
  import opened OtpRedisRate
  import opened OtpRounds
  import opened UserRuns
  import opened Users

  /** What a run has built up, with the address's counter. */
  ghost predicate Counted(svc: Service, run: seq<Event>, c: FixedWindow.Counter) {
    svc.limits.InRedis? && Ready(svc, run) && Reached(run) && CounterAt(After(svc, run), WHO) == c
  }

  /** Every request came with this decision of the server. */
  ghost predicate AllDrop(run: seq<Event>, dropped: bool) {
    forall i :: 0 <= i < |run| && run[i].Asked? ==> run[i].d.server.dropped == dropped
  }

  lemma CountedRound(svc: Service, run: seq<Event>, c: FixedWindow.Counter, askAt: int, answerAt: int, dropped: bool, lo: int, hi: int)
      returns (next: seq<Event>)
    requires Counted(svc, run, c) && Sound(svc.digest)
    requires (run != [] ==> Last(run).at <= askAt) && askAt <= answerAt <= askAt + OTP_TTL
    requires FixedWindow.Bump(c, askAt / MILLISECOND, dropped, svc.limits.ttl).count <= svc.limits.max
    ensures Counted(svc, next, FixedWindow.Bump(c, askAt / MILLISECOND, dropped, svc.limits.ttl))
    ensures next != [] && Last(next).at == answerAt && (AllDrop(run, dropped) ==> AllDrop(next, dropped))
    ensures Verifications(svc, next, WHO, lo, hi) == Verifications(svc, run, WHO, lo, hi) + if lo < answerAt <= hi then 1 else 0
  {
    hide FixedWindow.Bump, Ready, Sound, Verifications, After, Limits.Admit, NormalizeEmail;
    WhoIsNormal();
    AdmitIsBump(svc, After(svc, run), WHO, WHO, askAt, Server(true, dropped));
    next := Round(svc, run, askAt, answerAt, dropped, lo, hi);
  }

  /** The counter that a call finds, or the one that it starts. */
  function Found(c: FixedWindow.Counter, at: int, dropped: bool, ttl: int): (found: FixedWindow.Counter)
    ensures found.Counting?
  {
    var tick := at / MILLISECOND;
    if c.Missing? || FixedWindow.Expired(c, tick, dropped) then FixedWindow.Counting(0, tick + ttl) else c
  }

  /** `k` rounds at one time. */
  lemma {:induction false} Burst(svc: Service, run: seq<Event>, c: FixedWindow.Counter, k: nat, at: int, dropped: bool, lo: int, hi: int)
      returns (next: seq<Event>)
    requires Counted(svc, run, c) && Sound(svc.digest) && svc.limits.InRedis? && svc.limits.ttl > 0 && lo < at <= hi
    requires (run != [] ==> Last(run).at <= at) && (c.Counting? ==> c.count > 0)
    requires Found(c, at, dropped, svc.limits.ttl).count + k <= svc.limits.max
    ensures k == 0 ==> next == run
    ensures k > 0 ==> next != [] && Last(next).at == at && (AllDrop(run, dropped) ==> AllDrop(next, dropped))
    ensures var found := Found(c, at, dropped, svc.limits.ttl);
            Counted(svc, next, if k == 0 then c else FixedWindow.Counting(found.count + k, found.deadline))
    ensures Verifications(svc, next, WHO, lo, hi) == Verifications(svc, run, WHO, lo, hi) + k
  {
    hide Counted, Sound, Verifications, AllDrop;
    if k == 0 {
      next := run;
    } else {
      var found := Found(c, at, dropped, svc.limits.ttl);
      var before := Burst(svc, run, c, k - 1, at, dropped, lo, hi);
      var now := if k == 1 then c else FixedWindow.Counting(found.count + k - 1, found.deadline);
      assert FixedWindow.Bump(now, at / MILLISECOND, dropped, svc.limits.ttl) == FixedWindow.Counting(found.count + k, found.deadline);
      next := CountedRound(svc, before, now, at, at, dropped, lo, hi);
    }
  }

  lemma NothingIsCounted(svc: Service, lo: int, hi: int)
    requires svc.limits.InRedis?
    ensures Counted(svc, [], FixedWindow.Missing) && Verifications(svc, [], WHO, lo, hi) == 0
    ensures AllDrop([], true) && AllDrop([], false)
  {
    NothingIsReady(svc, lo, hi);
  }

  lemma CountedIsRun(svc: Service, run: seq<Event>, c: FixedWindow.Counter)
    requires Counted(svc, run, c)
    ensures Clocked(run) && SaltsAreBase64(run) && Reached(run)
  {
  }

  /** The first code of an epoch redeemed just after the window opens, the rest of that epoch, and a whole next
      one: 2 * max verifications in a window that ends with one of the server's milliseconds. */
  lemma AlignedRateIsReached(svc: Service, dropped: bool) returns (run: seq<Event>)
    requires Sound(svc.digest) && svc.limits.InRedis? && svc.limits.ttl > 2 && svc.limits.max > 0
    ensures Clocked(run) && SaltsAreBase64(run) && Reached(run) && (!dropped ==> Steady(run))
    ensures var end := svc.limits.ttl + 1;
            Verifications(svc, run, WHO, Edge(end - svc.limits.ttl), Edge(end)) == 2 * svc.limits.max
  {
    hide Counted, Sound, Verifications, Clocked, SaltsAreBase64, Reached;
    var ttl, max := svc.limits.ttl, svc.limits.max;
    var lo, hi := Edge(1), Edge(ttl + 1);
    NothingIsCounted(svc, lo, hi);
    run := CountedRound(svc, [], FixedWindow.Missing, 0, 2 * MILLISECOND, dropped, lo, hi);
    run := Burst(svc, run, FixedWindow.Counting(1, ttl), max - 1, 2 * MILLISECOND, dropped, lo, hi);
    run := Burst(svc, run, FixedWindow.Counting(max, ttl), max, (ttl + 1) * MILLISECOND, dropped, lo, hi);
    CountedIsRun(svc, run, FixedWindow.Counting(max, 2 * ttl + 1));
  }

  /** The code that starts an epoch redeemed at its deadline tick, at will (`late`) the rest of that epoch in the same
      tick, then a whole epoch started by a drop in that tick, and another started by a drop at its end. */
  lemma RateIsReached(svc: Service, late: bool) returns (run: seq<Event>)
    requires Sound(svc.digest) && svc.limits.InRedis? && svc.limits.max > 0
    requires 0 < svc.limits.ttl * MILLISECOND <= OTP_TTL
    ensures Clocked(run) && SaltsAreBase64(run) && Reached(run) && (!late ==> Decisive(run))
    ensures var span := svc.limits.ttl * MILLISECOND;
            Verifications(svc, run, WHO, span, span + span) == if late then 3 * svc.limits.max else 2 * svc.limits.max + 1
  {
    hide Counted, Sound, Verifications, Clocked, SaltsAreBase64, Reached, Decisive, AllDrop;
    var ttl, max := svc.limits.ttl, svc.limits.max;
    var span := ttl * MILLISECOND;
    var extra := if late then max - 1 else 0;
    NothingIsCounted(svc, span, 2 * span);
    run := CountedRound(svc, [], FixedWindow.Missing, 1, span + 1, true, span, 2 * span);
    run := Burst(svc, run, FixedWindow.Counting(1, ttl), extra, span + 1, false, span, 2 * span);
    run := Burst(svc, run, FixedWindow.Counting(1 + extra, ttl), max, span + 1, true, span, 2 * span);
    run := Burst(svc, run, FixedWindow.Counting(max, 2 * ttl), max, 2 * span, true, span, 2 * span);
    CountedIsRun(svc, run, FixedWindow.Counting(max, 3 * ttl));
    if !late {
      AllDropIsDecisive(run, true);
    }
  }

  lemma AllDropIsDecisive(run: seq<Event>, dropped: bool)
    requires AllDrop(run, dropped)
    ensures Decisive(run)
  {
  }
}
