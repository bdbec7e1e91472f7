/** The rate of codes and verifications when the limiter is the one in Redis.  The service's clock counts
    nanoseconds and the server's milliseconds, so a window of the service need not be one of the server. */
module OtpRedisRate {
  import opened Basics
  import FixedWindow
  import opened Limiters
  import opened OtpGuarantees
  import opened Text
  import opened UserRuns
  import opened Users

  /** A service with the limiter in Redis. */
  predicate SharedLimiter(svc: Service) { svc.limits.InRedis? && svc.limits.ttl > 0 && svc.limits.max > 0 }

  /** The server answered every code request. */
  predicate Reached(run: seq<Event>) {
    forall i :: 0 <= i < |run| && run[i].Asked? ==> run[i].d.server.reachable
  }

  function CallOf(e: Event): FixedWindow.Call
    requires e.Asked?
  { FixedWindow.Call(e.at / MILLISECOND, e.d.server.dropped) }

  /** The calls on an address's counter. */
  function CallsOf(run: seq<Event>, email: string): seq<FixedWindow.Call> {
    if run == [] then []
    else
      var front := CallsOf(Front(run), email);
      if AsksFor(Last(run), email) then front + [CallOf(Last(run))] else front
  }

  function CounterAt(s: State, email: string): FixedWindow.Counter {
    FixedWindow.CounterOf(s.gate.counters, FixedWindow.KEY_PREFIX + email)
  }

  lemma OtherKey(a: string, b: string)
    ensures FixedWindow.KEY_PREFIX + a == FixedWindow.KEY_PREFIX + b ==> a == b
  {
    var p := FixedWindow.KEY_PREFIX;
    assert (p + a)[|p|..] == a && (p + b)[|p|..] == b;
  }

  /** One call moves its own counter and no other, and grants exactly when the counter allows it. */
  lemma AdmitIsBump(svc: Service, s: State, asked: string, email: string, now: int, server: Server)
    requires svc.limits.InRedis? && server.reachable
    ensures var (granted, gate) := svc.limits.Admit(s.gate, NormalizeEmail(asked), now, server);
            var after := FixedWindow.CounterOf(gate.counters, FixedWindow.KEY_PREFIX + email);
            if NormalizeEmail(asked) == email && email != "" then
              && after == FixedWindow.Bump(CounterAt(s, email), now / MILLISECOND, server.dropped, svc.limits.ttl)
              && (granted <==> after.count <= svc.limits.max)
            else after == CounterAt(s, email)
  {
    hide TrimSpace, ToLower, FixedWindow.Bump;
    LowerTrimTwice(asked);
    OtherKey(NormalizeEmail(asked), email);
  }

  lemma {:induction false} CounterIsRun(svc: Service, run: seq<Event>, email: string)
    requires svc.limits.InRedis? && Reached(run)
    ensures CounterAt(After(svc, run), email) == FixedWindow.CounterAfter(CallsOf(run, email), svc.limits.ttl)
  {
    if run != [] {
      hide NormalizeEmail, FixedWindow.Bump, Step, Limits.Admit;
      var front, e := Front(run), Last(run);
      var s := After(svc, front);
      assert forall i :: 0 <= i < |front| ==> front[i] == run[i];
      CounterIsRun(svc, front, email);
      GateStep(svc, s, e);
      if e.Asked? {
        AdmitIsBump(svc, s, e.email, email, e.at, e.d.server);
        if AsksFor(e, email) {
          assert Front(CallsOf(run, email)) == CallsOf(front, email);
        }
      }
    }
  }

  /** The interval of nanoseconds that holds the server's milliseconds lo + 1 to hi. */
  function Edge(ms: int): int { (ms + 1) * MILLISECOND - 1 }

  lemma EdgeOrder(at: int, ms: int)
    ensures at <= Edge(ms) <==> at / MILLISECOND <= ms
  {
  }

  /** Every code stored for an address was a grant of its counter. */
  lemma {:induction false} CodesAreCounted(svc: Service, run: seq<Event>, email: string, lo: int, hi: int)
    requires svc.limits.InRedis? && Reached(run)
    ensures CodesStored(svc, run, email, Edge(lo), Edge(hi))
            <= FixedWindow.Grants(CallsOf(run, email), svc.limits.ttl, svc.limits.max, lo, hi)
  {
    if run != [] {
      hide EffectOf, After, AsksFor, CodesStored, FixedWindow.Grants, FixedWindow.Bump, Edge, NormalizeEmail, Limits.Admit;
      var front, e := Front(run), Last(run);
      var calls := CallsOf(run, email);
      CallsStep(run, email);
      assert forall i :: 0 <= i < |front| ==> front[i] == run[i];
      CodesAreCounted(svc, front, email, lo, hi);
      CodesStep(svc, run, email, Edge(lo), Edge(hi));
      EdgeOrder(e.at, lo);
      EdgeOrder(e.at, hi);
      if EffectOf(svc, After(svc, front), e, email) == Stored {
        StoredIsCounted(svc, front, e, email);
      }
      if AsksFor(e, email) {
        assert Front(calls) == CallsOf(front, email);
        FixedWindow.GrantsStep(calls, svc.limits.ttl, svc.limits.max, lo, hi);
      }
    }
  }

  lemma StoredIsCounted(svc: Service, front: seq<Event>, e: Event, email: string)
    requires svc.limits.InRedis? && Reached(front) && (e.Asked? ==> e.d.server.reachable)
    requires EffectOf(svc, After(svc, front), e, email) == Stored
    ensures AsksFor(e, email)
    ensures Last(FixedWindow.Answers(CallsOf(front, email) + [CallOf(e)], svc.limits.ttl, svc.limits.max))
  {
    hide NormalizeEmail, FixedWindow.Bump, Limits.Admit, EffectOf, After, CallsOf, Reached;
    var s := After(svc, front);
    var calls := CallsOf(front, email);
    StoredIsGranted(svc, s, e, email);
    CounterIsRun(svc, front, email);
    AdmitIsBump(svc, s, e.email, email, e.at, e.d.server);
    assert Front(calls + [CallOf(e)]) == calls;
  }

  lemma CallsStep(run: seq<Event>, email: string)
    requires run != []
    ensures AsksFor(Last(run), email) ==> CallsOf(run, email) == CallsOf(Front(run), email) + [CallOf(Last(run))]
    ensures !AsksFor(Last(run), email) ==> CallsOf(run, email) == CallsOf(Front(run), email)
  {
    hide AsksFor;
  }

  lemma {:induction false} CallsAreClocked(run: seq<Event>, email: string)
    requires Clocked(run)
    ensures FixedWindow.Clocked(CallsOf(run, email))
    ensures forall i :: 0 <= i < |CallsOf(run, email)| ==> run != [] && CallsOf(run, email)[i].at <= Last(run).at / MILLISECOND
  {
    if run != [] {
      hide Clocked, AsksFor, CallsOf, FixedWindow.Clocked;
      FrontIsClocked(run);
      CallsAreClocked(Front(run), email);
      CallsStep(run, email);
      if AsksFor(Last(run), email) {
        ClockedSnoc(CallsOf(Front(run), email), CallOf(Last(run)));
      }
    } else {
      assert CallsOf(run, email) == [];
    }
  }

  lemma ClockedSnoc(calls: seq<FixedWindow.Call>, c: FixedWindow.Call)
    requires FixedWindow.Clocked(calls) && forall i :: 0 <= i < |calls| ==> calls[i].at <= c.at
    ensures FixedWindow.Clocked(calls + [c])
  {
  }

  /** The server decides once for each of its milliseconds whether keys are dropped at their deadline. */
  ghost predicate Decisive(run: seq<Event>) {
    forall i, j :: 0 <= i < |run| && 0 <= j < |run| && SameTick(run[i], run[j])
      ==> run[i].d.server.dropped == run[j].d.server.dropped
  }

  predicate SameTick(a: Event, b: Event) { a.Asked? && b.Asked? && a.at / MILLISECOND == b.at / MILLISECOND }

  /** The server never drops a key at its deadline tick. */
  ghost predicate Steady(run: seq<Event>) {
    forall i :: 0 <= i < |run| && run[i].Asked? ==> !run[i].d.server.dropped
  }

  lemma {:induction false} CallsAreAsked(run: seq<Event>, email: string, k: nat) returns (i: nat)
    requires k < |CallsOf(run, email)|
    ensures i < |run| && run[i].Asked? && CallOf(run[i]) == CallsOf(run, email)[k]
  {
    hide AsksFor;
    CallsStep(run, email);
    if k < |CallsOf(Front(run), email)| {
      i := CallsAreAsked(Front(run), email, k);
    } else {
      AskerIsAsked(Last(run), email);
      i := |run| - 1;
    }
  }

  lemma AskerIsAsked(e: Event, email: string)
    ensures AsksFor(e, email) ==> e.Asked?
  {
  }

  lemma CallsKeepDecisions(run: seq<Event>, email: string)
    ensures Decisive(run) ==> FixedWindow.Decisive(CallsOf(run, email))
    ensures Steady(run) ==> FixedWindow.Steady(CallsOf(run, email))
  {
    hide CallsOf;
    var calls := CallsOf(run, email);
    forall k | 0 <= k < |calls| ensures exists i :: 0 <= i < |run| && run[i].Asked? && CallOf(run[i]) == calls[k] {
      var i := CallsAreAsked(run, email, k);
    }
  }

  /** A window as long as the expiry reaches into one millisecond more than the expiry has. */
  lemma WindowInTicks(t: int, ttl: int)
    ensures Edge(t / MILLISECOND - ttl - 1) <= t - ttl * MILLISECOND && t <= Edge(t / MILLISECOND)
  {
  }

  /** In every window as long as the expiry at most 3 * max - 1 codes are stored for an address; at most 2 * max
      if the server decides once for each tick; at most 2 * max - 1 if it never drops a key at its tick. */
  lemma CodesRate(svc: Service, run: seq<Event>, email: string, t: int)
    requires SharedLimiter(svc) && Reached(run) && Clocked(run)
    ensures var codes, max := CodesStored(svc, run, email, t - svc.limits.ttl * MILLISECOND, t), svc.limits.max;
            && codes <= 3 * max - 1
            && (Decisive(run) ==> codes <= 2 * max)
            && (Steady(run) ==> codes <= 2 * max - 1)
  {
    hide Reached, Clocked, Edge, Effects, Count, Decisive, Steady, CallsOf;
    var u, ttl := t / MILLISECOND, svc.limits.ttl;
    WindowInTicks(t, ttl);
    CountWidens(Effects(svc, run, email), Times(run), Stored, t - ttl * MILLISECOND, t, Edge(u - ttl - 1), Edge(u));
    CodesAreCounted(svc, run, email, u - ttl - 1, u);
    CallsAreClocked(run, email);
    CallsKeepDecisions(run, email);
    FixedWindow.WideWindowBound(CallsOf(run, email), ttl, svc.limits.max, u);
  }

  /** However requests and verifications are interleaved, one more verification than codes fits into a window. */
  lemma {:induction false} VerificationRate(svc: Service, run: seq<Event>, email: string, t: int)
    requires SaltsAreBase64(run) && Clocked(run) && SharedLimiter(svc) && Reached(run)
    ensures var verified, max := Verifications(svc, run, email, t - svc.limits.ttl * MILLISECOND, t), svc.limits.max;
            && verified <= 3 * max
            && (Decisive(run) ==> verified <= 2 * max + 1)
            && (Steady(run) ==> verified <= 2 * max)
  {
    hide Verifications, CodesStored, Lacks;
    var lo := t - svc.limits.ttl * MILLISECOND;
    if run != [] && t < Last(run).at {
      FrontIsClocked(run);
      FrontKeepsDecisions(run);
      VerificationRate(svc, Front(run), email, t);
      VerificationsStep(svc, run, email, lo, t);
    } else {
      CodesPlusOne(svc, run, email, lo, t);
      CodesRate(svc, run, email, t);
    }
  }

  lemma FrontKeepsDecisions(run: seq<Event>)
    requires run != []
    ensures Decisive(run) ==> Decisive(Front(run))
    ensures Steady(run) ==> Steady(Front(run))
  {
    assert forall i :: 0 <= i < |run| - 1 ==> Front(run)[i] == run[i];
  }

  // ---------------------------------------------------------------------------
  // In terms of the configured window
  // ---------------------------------------------------------------------------

  /** The bounds on codes in one window, `n` expiries long. */
  predicate CodesBounded(codes: nat, max: int, n: nat, decisive: bool, steady: bool) {
    && codes <= n * (3 * max - 1)
    && (decisive ==> codes <= n * (2 * max))
    && (steady ==> codes <= n * (2 * max - 1))
  }

  /** The service behind the limiter as it is configured stores at most 3 * max - 1 codes for an address in any
      window of the configured length (2 * max and 2 * max - 1 for the better servers), if that is whole seconds or less
      than one; twice as many otherwise, because the expiry drops the fraction. */
  lemma ConfiguredCodesRate(limiter: Limiter, digest: Digest, run: seq<Event>, email: string, t: int)
    requires limiter.Shared? && limiter.redis.Valid() && Reached(run) && Clocked(run)
    ensures var window, svc := limiter.redis.window, Service(limiter.Limits(), digest);
            CodesBounded(CodesStored(svc, run, email, t - window, t), limiter.redis.max,
                         if window < SECOND || window % SECOND == 0 then 1 else 2, Decisive(run), Steady(run))
  {
    hide Reached, Clocked, Effects, Count, Decisive, Steady;
    var svc := Service(limiter.Limits(), digest);
    var window, span := limiter.redis.window, svc.limits.ttl * MILLISECOND;
    var effects, times := Effects(svc, run, email), Times(run);
    FixedWindow.ExpiryIsWindow(window);
    CodesRate(svc, run, email, t);
    if window < SECOND || window % SECOND == 0 {
      CountWidens(effects, times, Stored, t - window, t, t - span, t);
    } else {
      CodesRate(svc, run, email, t - span);
      CountSplits(effects, times, Stored, t - 2 * span, t - span, t);
      CountWidens(effects, times, Stored, t - window, t, t - 2 * span, t);
    }
  }

  /** And at most one more verification succeeds in each of those. */
  lemma ConfiguredVerificationRate(limiter: Limiter, digest: Digest, run: seq<Event>, email: string, t: int)
    requires limiter.Shared? && limiter.redis.Valid() && Reached(run) && Clocked(run) && SaltsAreBase64(run)
    ensures var window, svc := limiter.redis.window, Service(limiter.Limits(), digest);
            var n := if window < SECOND || window % SECOND == 0 then 1 else 2;
            var verified, max := Verifications(svc, run, email, t - window, t), limiter.redis.max;
            && verified <= n * (3 * max)
            && (Decisive(run) ==> verified <= n * (2 * max + 1))
            && (Steady(run) ==> verified <= n * (2 * max))
  {
    hide Reached, Clocked, Effects, Count, Decisive, Steady, SaltsAreBase64;
    var svc := Service(limiter.Limits(), digest);
    var window, span := limiter.redis.window, svc.limits.ttl * MILLISECOND;
    var effects, times := Effects(svc, run, email), Times(run);
    FixedWindow.ExpiryIsWindow(window);
    VerificationRate(svc, run, email, t);
    if window < SECOND || window % SECOND == 0 {
      CountWidens(effects, times, Redeemed, t - window, t, t - span, t);
    } else {
      VerificationRate(svc, run, email, t - span);
      CountSplits(effects, times, Redeemed, t - 2 * span, t - span, t);
      CountWidens(effects, times, Redeemed, t - window, t, t - 2 * span, t);
    }
  }

  // ---------------------------------------------------------------------------
  // Windows that end where one of the server's milliseconds does
  // ---------------------------------------------------------------------------

  /** Such a window stores at most 2 * max - 1 codes, whatever the server does at the deadline tick. */
  lemma AlignedCodesRate(svc: Service, run: seq<Event>, email: string, t: int)
    requires SharedLimiter(svc) && Reached(run) && Clocked(run)
    ensures CodesStored(svc, run, email, Edge(t - svc.limits.ttl), Edge(t)) <= 2 * svc.limits.max - 1
  {
    hide Reached, Clocked, CodesStored, Edge;
    CodesAreCounted(svc, run, email, t - svc.limits.ttl, t);
    CallsAreClocked(run, email);
    FixedWindow.FixedWindowBound(CallsOf(run, email), svc.limits.ttl, svc.limits.max, t);
  }

  /** And no address is verified more than 2 * max times in it. */
  lemma {:induction false} AlignedVerificationRate(svc: Service, run: seq<Event>, email: string, t: int)
    requires SaltsAreBase64(run) && Clocked(run) && SharedLimiter(svc) && Reached(run)
    ensures Verifications(svc, run, email, Edge(t - svc.limits.ttl), Edge(t)) <= 2 * svc.limits.max
  {
    hide Verifications, CodesStored, Lacks, Edge;
    var lo, hi := Edge(t - svc.limits.ttl), Edge(t);
    if run != [] && hi < Last(run).at {
      FrontIsClocked(run);
      AlignedVerificationRate(svc, Front(run), email, t);
      VerificationsStep(svc, run, email, lo, hi);
    } else {
      CodesPlusOne(svc, run, email, lo, hi);
      AlignedCodesRate(svc, run, email, t);
    }
  }
}
