/** Runs of one address put together from rounds: a granted request, and its code redeemed. */
module OtpRounds {
  import opened Basics
  import opened Limiters
  import opened OtpGuarantees
  import opened Text
  import opened UserRuns
  import opened Users

  const WHO: string := "a"

  lemma WhoIsNormal()
    ensures NormalizeEmail(WHO) == WHO
  {
    assert Trimmed(WHO);
    TrimmedStays(WHO);
  }

  lemma CodeIsTrimmed(code: string)
    requires IsValidOtpCode(code)
    ensures TrimSpace(code) == code
  {
    assert !IsSpace(code[0]) && !IsSpace(code[5]);
    TrimmedStays(code);
  }

  function Ask(at: int, dropped: bool := false): Event { Asked(WHO, "", at, Draws("", 0, "", true, Server(true, dropped))) }

  function Answer(at: int): Event { Verified(WHO, SixDigits(0), at) }

  /** What a run has built up: a clock and, unless the table is empty, a row to store codes in. */
  ghost predicate Ready(svc: Service, run: seq<Event>) {
    && Clocked(run) && SaltsAreBase64(run)
    && (After(svc, run).users == [] || ByEmail(After(svc, run).users, WHO).Some?)
  }

  lemma Extended(svc: Service, run: seq<Event>, e: Event, lo: int, hi: int)
    requires Clocked(run) && SaltsAreBase64(run)
    requires run != [] ==> Last(run).at <= e.at
    requires e.Asked? ==> Lacks(e.d.salt, ':')
    ensures var next := run + [e];
            && Clocked(next) && SaltsAreBase64(next)
            && After(svc, next) == Step(svc, After(svc, run), e).1
            && TicketsAfter(svc, next) == Punch(svc, After(svc, run), TicketsAfter(svc, run), e)
            && Verifications(svc, next, WHO, lo, hi) == Verifications(svc, run, WHO, lo, hi) +
               if Redeems(svc, After(svc, run), e, WHO) && lo < e.at <= hi then 1 else 0
  {
    hide Step, Punch, Issues, Redeems, Links, NormalizeEmail, EmailOf;
    var next := run + [e];
    assert Front(next) == run && Last(next) == e;
    assert Front(Effects(svc, next, WHO)) == Effects(svc, run, WHO) && Front(Times(next)) == Times(run);
    EffectIsRedeemed(svc, After(svc, run), e, WHO);
  }

  lemma EffectIsRedeemed(svc: Service, s: State, e: Event, email: string)
    ensures EffectOf(svc, s, e, email) == Redeemed <==> Redeems(svc, s, e, email)
  {
    hide Step, NormalizeEmail;
  }

  /** The limiter's answer to a request after a run, and what it remembers then. */
  function AdmittedAt(svc: Service, run: seq<Event>, at: int, dropped: bool): (bool, Gate) {
    svc.limits.Admit(After(svc, run).gate, WHO, at, Server(true, dropped))
  }

  /** A request that the limiter grants stores its code. */
  lemma AskStores(svc: Service, run: seq<Event>, at: int, dropped: bool)
    requires Ready(svc, run) && AdmittedAt(svc, run, at, dropped).0
    ensures var s, e := After(svc, run), Ask(at, dropped);
            && Issues(svc, s, e, WHO)
            && Step(svc, s, e).1.gate == AdmittedAt(svc, run, at, dropped).1
            && ByEmail(Step(svc, s, e).1.users, WHO).Some?
  {
    hide Limits.Admit, TrimSpace, ToLower, HashOtp, SixDigits;
    WhoIsNormal();
    var s := After(svc, run);
    var (r, users) := svc.Issue(s.users, WHO, TrimSpace(""), at, Ask(at, dropped).d);
    var row := ByEmail(s.users, WHO);
    var k := if row.Some? then row.value else 0;
    assert k < |users| && users[k].email == WHO;
  }

  /** A granted request and the verification of its code. */
  lemma Round(svc: Service, run: seq<Event>, askAt: int, answerAt: int, dropped: bool, lo: int, hi: int) returns (next: seq<Event>)
    requires Ready(svc, run) && Sound(svc.digest)
    requires (run != [] ==> Last(run).at <= askAt) && askAt <= answerAt <= askAt + OTP_TTL
    requires AdmittedAt(svc, run, askAt, dropped).0
    ensures next == run + [Ask(askAt, dropped), Answer(answerAt)]
    ensures Ready(svc, next) && After(svc, next).gate == AdmittedAt(svc, run, askAt, dropped).1
    ensures Verifications(svc, next, WHO, lo, hi) == Verifications(svc, run, WHO, lo, hi) + if lo < answerAt <= hi then 1 else 0
  {
    hide AdmittedAt, Step, Issues, Punch, Redeems, Clocked, SaltsAreBase64, Verifications, TicketsAfter, After, SixDigits, Sound, ByEmail;
    var ask := Ask(askAt, dropped);
    var asked := run + [ask];
    AskStores(svc, run, askAt, dropped);
    Extended(svc, run, ask, lo, hi);
    AskIsNotRedeem(svc, After(svc, run), askAt, dropped);
    AskPunches(svc, After(svc, run), TicketsAfter(svc, run), askAt, dropped);
    next := asked + [Answer(answerAt)];
    AnswerRedeems(svc, asked, askAt, answerAt);
    Extended(svc, asked, Answer(answerAt), lo, hi);
    AnswerKeeps(svc, After(svc, asked), answerAt);
    assert next == run + [ask, Answer(answerAt)];
  }

  lemma AskIsNotRedeem(svc: Service, s: State, at: int, dropped: bool)
    ensures !Redeems(svc, s, Ask(at, dropped), WHO)
  {
  }

  lemma AskPunches(svc: Service, s: State, tickets: Tickets, at: int, dropped: bool)
    requires Issues(svc, s, Ask(at, dropped), WHO)
    ensures var after := Punch(svc, s, tickets, Ask(at, dropped));
            WHO in after && after[WHO] == Ticket(SixDigits(0), "", at)
  {
    hide Step, SixDigits, TrimSpace, ToLower;
    WhoIsNormal();
  }

  lemma AnswerRedeems(svc: Service, run: seq<Event>, askAt: int, answerAt: int)
    requires SaltsAreBase64(run) && Sound(svc.digest) && answerAt <= askAt + OTP_TTL
    requires WHO in TicketsAfter(svc, run) && TicketsAfter(svc, run)[WHO] == Ticket(SixDigits(0), "", askAt)
    ensures Redeems(svc, After(svc, run), Answer(answerAt), WHO)
  {
    hide SixDigits, TicketsAfter, After, TrimSpace, ToLower, Sound, SaltsAreBase64;
    WhoIsNormal();
    SixDigitsAreValid(0);
    CodeIsTrimmed(SixDigits(0));
    VerifyIsExact(svc, run, WHO, SixDigits(0), answerAt);
  }

  lemma AnswerKeeps(svc: Service, s: State, at: int)
    requires ByEmail(s.users, WHO).Some?
    ensures var after := Step(svc, s, Answer(at)).1;
            after.gate == s.gate && ByEmail(after.users, WHO).Some?
  {
    hide TrimSpace, ToLower, SixDigits, VerifyOtp, IsValidOtpCode;
    var after := Step(svc, s, Answer(at)).1;
    var k := ByEmail(s.users, WHO).value;
    assert k < |after.users| && after.users[k].email == WHO;
  }

  lemma NothingIsReady(svc: Service, lo: int, hi: int)
    ensures Ready(svc, []) && After(svc, []).gate == NOTHING && Verifications(svc, [], WHO, lo, hi) == 0
  {
  }
}
