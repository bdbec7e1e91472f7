/** What one-time codes guarantee over whole runs: exactness, single use, and rate. */
module OtpGuarantees {
  import opened Basics
  import opened Limiters
  import opened SlidingWindow
  import opened SlidingWindowRuns
  import opened Text
  import opened UserRuns
  import opened Users

  // ---------------------------------------------------------------------------
  // The stored hash
  // ---------------------------------------------------------------------------

  /** The digest separates its inputs, and Base64 text has no colon. */
  ghost predicate Sound(digest: Digest) {
    && (forall a, b :: digest(a) == digest(b) ==> a == b)
    && (forall a :: Lacks(digest(a), ':'))
  }

  lemma {:induction false} SplitOnOne(a: string, b: string)
    requires Lacks(a, ':') && Lacks(b, ':')
    ensures SplitOn(a + ":" + b, ':') == [a, b]
  {
    var s := a + ":" + b;
    if a == "" {
      assert s[1..] == b;
      SplitOnNone(b);
    } else {
      assert s[1..] == a[1..] + ":" + b;
      SplitOnOne(a[1..], b);
      assert [a[0]] + a[1..] == a;
    }
  }

  lemma {:induction false} SplitOnNone(b: string)
    requires Lacks(b, ':')
    ensures SplitOn(b, ':') == [b]
  {
    if b != "" {
      SplitOnNone(b[1..]);
      assert [b[0]] + b[1..] == b;
    }
  }

  /** The stored form verifies the code it was made from and no other text. */
  lemma HashVerifiesOnlyItsCode(digest: Digest, salt: string, code: string, given: string)
    requires Sound(digest) && Lacks(salt, ':')
    ensures VerifyOtp(digest, given, HashOtp(digest, salt, code)) <==> given == code
  {
    SplitOnOne(salt, digest(salt + ":" + code));
    if digest(salt + ":" + given) == digest(salt + ":" + code) {
      assert (salt + ":" + given)[|salt| + 1..] == given;
      assert (salt + ":" + code)[|salt| + 1..] == code;
    }
  }

  // ---------------------------------------------------------------------------
  // Exactness
  // ---------------------------------------------------------------------------

  /** After any run a verification succeeds exactly with the code of the address's latest request that
      stored one, if that request is at most the code's lifetime old and no verification or OAuth
      link has come since. */
  lemma VerifyIsExact(svc: Service, run: seq<Event>, emailAddr: string, code: string, now: int)
    requires SaltsAreBase64(run) && Sound(svc.digest)
    ensures var r := svc.VerifyOtpCode(After(svc, run), emailAddr, code, now).0;
            var email, given, tickets := NormalizeEmail(emailAddr), TrimSpace(code), TicketsAfter(svc, run);
            && (r.Ok? <==> email in tickets && given == tickets[email].code && now <= tickets[email].at + OTP_TTL)
            && (r == Err(OtpExpired) <==> email in tickets && IsValidOtpCode(given) && now > tickets[email].at + OTP_TTL)
  {
    TableMatchesTickets(svc, run);
    VerifyAgainst(svc, After(svc, run), TicketsAfter(svc, run), emailAddr, code, now);
  }

  lemma VerifyAgainst(svc: Service, s: State, tickets: Tickets, emailAddr: string, code: string, now: int)
    requires Matches(svc, s.users, tickets) && Sound(svc.digest)
    ensures var r := svc.VerifyOtpCode(s, emailAddr, code, now).0;
            var email, given := NormalizeEmail(emailAddr), TrimSpace(code);
            && (r.Ok? <==> email in tickets && given == tickets[email].code && now <= tickets[email].at + OTP_TTL)
            && (r == Err(OtpExpired) <==> email in tickets && IsValidOtpCode(given) && now > tickets[email].at + OTP_TTL)
  {
    var email, given := NormalizeEmail(emailAddr), TrimSpace(code);
    var row := ByEmail(s.users, email);
    if row.Some? {
      assert RowMatches(svc, s.users[row.value], tickets);
    }
    if email in tickets {
      assert row.Some? && email != "" && TicketOk(tickets[email]);
      HashVerifiesOnlyItsCode(svc.digest, tickets[email].salt, tickets[email].code, given);
    }
  }

  // ---------------------------------------------------------------------------
  // What each event does to one address's ticket
  // ---------------------------------------------------------------------------

  datatype Effect = Stored | Redeemed | Unlinked | Nothing

  function EffectOf(svc: Service, s: State, e: Event, email: string): Effect {
    if Issues(svc, s, e, email) then Stored
    else if Redeems(svc, s, e, email) then Redeemed
    else if Links(s, e, email) then Unlinked
    else Nothing
  }

  function Effects(svc: Service, run: seq<Event>, email: string): (r: seq<Effect>)
    ensures |r| == |run|
  {
    if run == [] then []
    else Effects(svc, Front(run), email) + [EffectOf(svc, After(svc, Front(run)), Last(run), email)]
  }

  function Times(run: seq<Event>): (r: seq<int>)
    ensures |r| == |run|
  { seq(|run|, i requires 0 <= i < |run| => run[i].at) }

  /** A ticket is held: the last event that touched it stored it. */
  predicate Held(effects: seq<Effect>) {
    effects != [] && (Last(effects) == Stored || (Last(effects) == Nothing && Held(Front(effects))))
  }

  /** Only a held ticket is redeemed. */
  predicate Lawful(effects: seq<Effect>) {
    effects != [] ==> Lawful(Front(effects)) && (Last(effects) == Redeemed ==> Held(Front(effects)))
  }

  lemma PunchIsEffect(svc: Service, s: State, tickets: Tickets, e: Event, email: string)
    ensures var after := Punch(svc, s, tickets, e);
            match EffectOf(svc, s, e, email)
            case Stored => e.Asked? && email in after && after[email] == Ticket(SixDigits(e.d.code), e.d.salt, e.at)
            case Redeemed => email !in after
            case Unlinked => email !in after
            case Nothing => (email in after <==> email in tickets) && (email in tickets ==> after[email] == tickets[email])
  {
    hide Step, NormalizeEmail, TrimSpace, ToLower, ByEmail, ByAuth, SixDigits;
  }

  lemma RedeemedRedeems(svc: Service, s: State, e: Event, email: string)
    requires EffectOf(svc, s, e, email) == Redeemed
    ensures Redeems(svc, s, e, email)
  {
  }

  lemma RedeemNeedsTicket(svc: Service, s: State, tickets: Tickets, e: Event, email: string)
    requires Matches(svc, s.users, tickets) && Redeems(svc, s, e, email)
    ensures email in tickets
  {
    assert RowMatches(svc, s.users[ByEmail(s.users, email).value], tickets);
  }

  lemma {:induction false} EffectsAreLawful(svc: Service, run: seq<Event>, email: string)
    requires SaltsAreBase64(run)
    ensures Lawful(Effects(svc, run, email))
    ensures Held(Effects(svc, run, email)) <==> email in TicketsAfter(svc, run)
  {
    hide EffectOf, Punch, After;
    if run != [] {
      var front, e := Front(run), Last(run);
      var s, tickets := After(svc, front), TicketsAfter(svc, front);
      assert SaltsAreBase64(front) by {
        assert forall i :: 0 <= i < |front| ==> front[i] == run[i];
      }
      EffectsAreLawful(svc, front, email);
      assert Front(Effects(svc, run, email)) == Effects(svc, front, email);
      PunchIsEffect(svc, s, tickets, e, email);
      if EffectOf(svc, s, e, email) == Redeemed {
        RedeemedRedeems(svc, s, e, email);
        TableMatchesTickets(svc, front);
        RedeemNeedsTicket(svc, s, tickets, e, email);
      }
    }
  }

  /** The event that stored a held ticket. */
  lemma {:induction false} LastStored(effects: seq<Effect>) returns (i: nat)
    requires Held(effects)
    ensures i < |effects| && effects[i] == Stored && forall j :: i < j < |effects| ==> effects[j] == Nothing
  {
    if Last(effects) == Stored {
      i := |effects| - 1;
    } else {
      i := LastStored(Front(effects));
    }
  }

  /** Where a ticket comes from: the latest request that stored a code, and nothing that touched the
      ticket after it. */
  lemma TicketOrigin(svc: Service, run: seq<Event>, email: string) returns (i: nat)
    requires SaltsAreBase64(run)
    ensures email in TicketsAfter(svc, run) ==>
              && i < |run| && Effects(svc, run, email)[i] == Stored && run[i].Asked?
              && TicketsAfter(svc, run)[email] == Ticket(SixDigits(run[i].d.code), run[i].d.salt, run[i].at)
              && forall j :: i < j < |run| ==> Effects(svc, run, email)[j] == Nothing
  {
    hide Effects, Held, TicketsAfter, SixDigits;
    i := 0;
    EffectsAreLawful(svc, run, email);
    if email in TicketsAfter(svc, run) {
      i := LastStored(Effects(svc, run, email));
      TicketValue(svc, run, email, i);
    }
  }

  lemma {:induction false} TicketValue(svc: Service, run: seq<Event>, email: string, i: nat)
    requires i < |run| && Effects(svc, run, email)[i] == Stored
    requires forall j :: i < j < |run| ==> Effects(svc, run, email)[j] == Nothing
    ensures run[i].Asked? && email in TicketsAfter(svc, run)
    ensures TicketsAfter(svc, run)[email] == Ticket(SixDigits(run[i].d.code), run[i].d.salt, run[i].at)
  {
    hide Effects, After, SixDigits;
    EffectsStep(svc, run, email);
    if i < |run| - 1 {
      var effects, before := Effects(svc, run, email), Effects(svc, Front(run), email);
      assert forall j :: 0 <= j < |before| ==> before[j] == effects[j];
      assert Last(effects) == Nothing && Front(run)[i] == run[i];
      TicketValue(svc, Front(run), email, i);
    }
  }

  lemma EffectsStep(svc: Service, run: seq<Event>, email: string)
    requires run != []
    ensures var front, e := Front(run), Last(run);
            var effects, after := Effects(svc, run, email), TicketsAfter(svc, run);
            && Front(effects) == Effects(svc, front, email)
            && (Last(effects) == Stored ==> e.Asked? && email in after &&
                                            after[email] == Ticket(SixDigits(e.d.code), e.d.salt, e.at))
            && (Last(effects) in {Redeemed, Unlinked} ==> email !in after)
            && (Last(effects) == Nothing && email in TicketsAfter(svc, front) ==>
                  email in after && after[email] == TicketsAfter(svc, front)[email])
  {
    hide Punch, EffectOf, After, SixDigits;
    PunchIsEffect(svc, After(svc, Front(run)), TicketsAfter(svc, Front(run)), Last(run), email);
  }

  // ---------------------------------------------------------------------------
  // Counting
  // ---------------------------------------------------------------------------

  /** How often an effect happened in (lo, hi]. */
  function Count(effects: seq<Effect>, times: seq<int>, k: Effect, lo: int, hi: int): nat
    requires |effects| == |times|
  {
    if effects == [] then 0
    else Count(Front(effects), Front(times), k, lo, hi) + if Last(effects) == k && lo < Last(times) <= hi then 1 else 0
  }

  lemma {:induction false} CountWidens(effects: seq<Effect>, times: seq<int>, k: Effect, lo: int, hi: int, lo': int, hi': int)
    requires |effects| == |times| && lo' <= lo && hi <= hi'
    ensures Count(effects, times, k, lo, hi) <= Count(effects, times, k, lo', hi')
  {
    if effects != [] {
      CountWidens(Front(effects), Front(times), k, lo, hi, lo', hi');
    }
  }

  lemma {:induction false} CountSplits(effects: seq<Effect>, times: seq<int>, k: Effect, lo: int, mid: int, hi: int)
    requires |effects| == |times| && lo <= mid <= hi
    ensures Count(effects, times, k, lo, hi) == Count(effects, times, k, lo, mid) + Count(effects, times, k, mid, hi)
  {
    if effects != [] {
      CountSplits(Front(effects), Front(times), k, lo, mid, hi);
    }
  }

  /** Conservation: over any interval, redemptions plus the ticket held at its end are at most the
      codes stored plus one carried in; from the beginning of time nothing is carried in. */
  lemma {:induction false} TicketsAreConserved(effects: seq<Effect>, times: seq<int>, lo: int, hi: int)
    requires |effects| == |times| && Lawful(effects) && Sorted(times)
    requires forall i :: 0 <= i < |times| ==> times[i] <= hi
    ensures Count(effects, times, Redeemed, lo, hi) + (if Held(effects) then 1 else 0)
            <= Count(effects, times, Stored, lo, hi) + if times == [] || lo < times[0] then 0 else 1
    ensures times != [] && Last(times) <= lo ==> Count(effects, times, Redeemed, lo, hi) == 0
  {
    if times != [] {
      TicketsAreConserved(Front(effects), Front(times), lo, hi);
    }
  }

  function Verifications(svc: Service, run: seq<Event>, email: string, lo: int, hi: int): nat {
    Count(Effects(svc, run, email), Times(run), Redeemed, lo, hi)
  }

  function CodesStored(svc: Service, run: seq<Event>, email: string, lo: int, hi: int): nat {
    Count(Effects(svc, run, email), Times(run), Stored, lo, hi)
  }

  /** No run has more successful verifications of an address than codes stored for it. */
  lemma NeverMoreSuccessesThanCodes(svc: Service, run: seq<Event>, email: string, lo: int, hi: int)
    requires SaltsAreBase64(run) && Clocked(run)
    requires run != [] ==> lo < run[0].at && Last(run).at <= hi
    ensures Verifications(svc, run, email, lo, hi) <= CodesStored(svc, run, email, lo, hi)
  {
    hide Effects, Count, Lawful, Held, SaltsAreBase64;
    EffectsAreLawful(svc, run, email);
    TicketsAreConserved(Effects(svc, run, email), Times(run), lo, hi);
  }

  // ---------------------------------------------------------------------------
  // Composition with the limiter
  // ---------------------------------------------------------------------------

  /** The requests that reach the limiter. */
  function Requests(run: seq<Event>): seq<Request> {
    if run == [] then []
    else
      var front, e := Requests(Front(run)), Last(run);
      if e.Asked? && NormalizeEmail(e.email) != "" then front + [Request(NormalizeEmail(e.email), e.at)] else front
  }

  lemma GateStep(svc: Service, s: State, e: Event)
    ensures Step(svc, s, e).1.gate ==
            if e.Asked? && NormalizeEmail(e.email) != "" then svc.limits.Admit(s.gate, NormalizeEmail(e.email), e.at, e.d.server).1
            else s.gate
  {
    hide Limits.Admit, NormalizeEmail, TrimSpace, ToLower, ByEmail, ByAuth, CanInsert, VerifyOtp, IsValidOtpCode, VerifyEmail, LinkOAuth, NewUser;
  }

  lemma {:induction false} LogIsLimiterRun(svc: Service, run: seq<Event>)
    requires svc.limits.InMemory?
    ensures After(svc, run).gate.log == LogsAfter(Requests(run), svc.limits.window, svc.limits.max)
  {
    if run != [] {
      var front, e := Front(run), Last(run);
      LogIsLimiterRun(svc, front);
      GateStep(svc, After(svc, front), e);
      if e.Asked? && NormalizeEmail(e.email) != "" {
        assert Front(Requests(run)) == Requests(front);
      }
    }
  }

  /** The times at which an address's requests reach the limiter. */
  function Asks(run: seq<Event>, email: string): seq<int> { TimesOf(Requests(run), email) }

  predicate AsksFor(e: Event, email: string) {
    e.Asked? && NormalizeEmail(e.email) == email && email != ""
  }

  lemma AsksStep(run: seq<Event>, email: string)
    requires run != []
    ensures Asks(run, email) == if AsksFor(Last(run), email) then Asks(Front(run), email) + [Last(run).at] else Asks(Front(run), email)
  {
    var e := Last(run);
    if e.Asked? && NormalizeEmail(e.email) != "" {
      assert Front(Requests(run)) == Requests(Front(run));
    }
  }

  lemma FrontIsClocked(run: seq<Event>)
    requires Clocked(run) && run != []
    ensures Clocked(Front(run)) && forall i :: 0 <= i < |run| - 1 ==> Front(run)[i] == run[i]
    ensures Front(run) != [] ==> Last(Front(run)).at <= Last(run).at
  {
  }

  lemma SortedSnoc(times: seq<int>, x: int)
    requires Sorted(times)
    ensures (forall i :: 0 <= i < |times| ==> times[i] <= x) ==> Sorted(times + [x])
  {
  }

  lemma {:induction false} AsksAreSorted(run: seq<Event>, email: string)
    requires Clocked(run)
    ensures Sorted(Asks(run, email))
    ensures forall i :: 0 <= i < |Asks(run, email)| ==> run != [] && Asks(run, email)[i] <= Last(run).at
  {
    if run != [] {
      hide Clocked, AsksFor, Asks, Sorted;
      FrontIsClocked(run);
      AsksAreSorted(Front(run), email);
      AsksStep(run, email);
      SortedSnoc(Asks(Front(run), email), Last(run).at);
    }
  }

  lemma StoredIsGranted(svc: Service, s: State, e: Event, email: string)
    requires EffectOf(svc, s, e, email) == Stored
    ensures AsksFor(e, email) && svc.limits.Admit(s.gate, email, e.at, e.d.server).0
  {
    hide Limits.Admit;
  }

  /** The limiter's grants to an address in (lo, hi]. */
  function GrantsIn(svc: Service, run: seq<Event>, email: string, lo: int, hi: int): nat
    requires svc.limits.InMemory?
  {
    var times := Asks(run, email);
    CountIn(times, Decisions(times, svc.limits.window, svc.limits.max), lo, hi)
  }

  lemma GrantsRate(svc: Service, run: seq<Event>, email: string, t: int)
    requires Clocked(run) && svc.limits.InMemory? && svc.limits.window > 0 && svc.limits.max > 0
    ensures GrantsIn(svc, run, email, t - svc.limits.window, t) <= svc.limits.max
  {
    hide Asks, CountIn, Decisions;
    AsksAreSorted(run, email);
    WindowSafetyAt(Asks(run, email), svc.limits.window, svc.limits.max, t);
  }

  /** Every code stored for an address was a grant of the limiter on that address's own requests. */
  lemma {:induction false} CodesAreGrants(svc: Service, run: seq<Event>, email: string, lo: int, hi: int)
    requires svc.limits.InMemory?
    ensures CodesStored(svc, run, email, lo, hi) <= GrantsIn(svc, run, email, lo, hi)
  {
    if run != [] {
      hide EffectOf, After, Asks, AsksFor, CodesStored, Requests, LogsAfter, Decide;
      var front, e := Front(run), Last(run);
      var s := After(svc, front);
      CodesAreGrants(svc, front, email, lo, hi);
      CodesStep(svc, run, email, lo, hi);
      AsksStep(run, email);
      LogIsLimiterRun(svc, front);
      KeysAreIndependent(Requests(front), svc.limits.window, svc.limits.max, email);
      if EffectOf(svc, s, e, email) == Stored {
        StoredIsGranted(svc, s, e, email);
      }
      if AsksFor(e, email) {
        GrantsStep(Asks(front, email), e.at, svc.limits.window, svc.limits.max, lo, hi);
      }
    }
  }

  lemma CodesStep(svc: Service, run: seq<Event>, email: string, lo: int, hi: int)
    requires run != []
    ensures CodesStored(svc, run, email, lo, hi) == CodesStored(svc, Front(run), email, lo, hi)
            + if EffectOf(svc, After(svc, Front(run)), Last(run), email) == Stored && lo < Last(run).at <= hi then 1 else 0
  {
    hide EffectOf, After;
    assert Front(Effects(svc, run, email)) == Effects(svc, Front(run), email) && Front(Times(run)) == Times(Front(run));
  }

  lemma GrantsStep(times: seq<int>, now: int, window: int, max: int, lo: int, hi: int)
    ensures CountIn(times + [now], Decisions(times + [now], window, max), lo, hi)
            == CountIn(times, Decisions(times, window, max), lo, hi)
               + if Decide(LogAfter(times, window, max), window, max, now).granted && lo < now <= hi then 1 else 0
  {
    assert Front(times + [now]) == times;
    assert Front(Decisions(times + [now], window, max)) == Decisions(times, window, max);
  }

  lemma CodesRate(svc: Service, run: seq<Event>, email: string, t: int)
    requires Clocked(run) && svc.limits.InMemory? && svc.limits.window > 0 && svc.limits.max > 0
    ensures CodesStored(svc, run, email, t - svc.limits.window, t) <= svc.limits.max
  {
    hide *;
    var lo := t - svc.limits.window;
    var codes, grants := CodesStored(svc, run, email, lo, t), GrantsIn(svc, run, email, lo, t);
    assert codes <= grants by { CodesAreGrants(svc, run, email, lo, t); }
    assert grants <= svc.limits.max by { GrantsRate(svc, run, email, t); }
  }

  /** However requests and verifications are interleaved, no address is verified more than max + 1
      times in any half-open interval of the limiter's window. */
  lemma {:induction false} VerificationRate(svc: Service, run: seq<Event>, email: string, t: int)
    requires SaltsAreBase64(run) && Clocked(run) && svc.limits.InMemory? && svc.limits.window > 0 && svc.limits.max > 0
    ensures Verifications(svc, run, email, t - svc.limits.window, t) <= svc.limits.max + 1
  {
    hide Verifications, Lacks;
    if run != [] && t < Last(run).at {
      FrontIsClocked(run);
      VerificationRate(svc, Front(run), email, t);
      VerificationsStep(svc, run, email, t - svc.limits.window, t);
    } else {
      VerificationRateAtEnd(svc, run, email, t);
    }
  }

  lemma VerificationsStep(svc: Service, run: seq<Event>, email: string, lo: int, hi: int)
    requires run != [] && hi < Last(run).at
    ensures Verifications(svc, run, email, lo, hi) == Verifications(svc, Front(run), email, lo, hi)
  {
    assert Front(Effects(svc, run, email)) == Effects(svc, Front(run), email);
    assert Front(Times(run)) == Times(Front(run));
  }

  lemma VerificationRateAtEnd(svc: Service, run: seq<Event>, email: string, t: int)
    requires SaltsAreBase64(run) && Clocked(run) && svc.limits.InMemory? && svc.limits.window > 0 && svc.limits.max > 0
    requires forall i :: 0 <= i < |run| ==> run[i].at <= t
    ensures Verifications(svc, run, email, t - svc.limits.window, t) <= svc.limits.max + 1
  {
    hide *;
    var lo := t - svc.limits.window;
    CodesPlusOne(svc, run, email, lo, t);
    CodesRate(svc, run, email, t);
  }

  lemma CodesPlusOne(svc: Service, run: seq<Event>, email: string, lo: int, hi: int)
    requires SaltsAreBase64(run) && Clocked(run)
    requires forall i :: 0 <= i < |run| ==> run[i].at <= hi
    ensures Verifications(svc, run, email, lo, hi) <= CodesStored(svc, run, email, lo, hi) + 1
  {
    hide Effects, Count, Lawful, Held, SaltsAreBase64;
    EffectsAreLawful(svc, run, email);
    TicketsAreConserved(Effects(svc, run, email), Times(run), lo, hi);
  }
}
