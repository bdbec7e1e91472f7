/** What the account operations return, what they store, and what they leave alone. */
module Accounts {
  import opened Basics
  import opened Identities
  import opened Limiters
  import opened OtpGuarantees
  import opened Text
  import opened UserRuns
  import opened Users

  // ---------------------------------------------------------------------------
  // Codes
  // ---------------------------------------------------------------------------

  /** The number that a text of digits writes. */
  function Decimal(code: string): int {
    if code == "" then 0 else 10 * Decimal(Front(code)) + (Last(code) as int - '0' as int)
  }

  /** The digits of n are those of n / 10 and the last. */
  lemma OneMoreDigit(front: string, n: nat)
    requires Decimal(front) == n / 10
    ensures Decimal(front + [Digit(n)]) == n
  {
    assert Front(front + [Digit(n)]) == front;
  }

  /** A code writes its draw: below one million different draws give different codes. */
  lemma CodeIsDraw(draw: nat)
    requires draw < 1_000_000
    ensures Decimal(SixDigits(draw)) == draw && IsValidOtpCode(SixDigits(draw))
  {
    SixDigitsAreValid(draw);
    hide Digit, Decimal, IsValidOtpCode;
    var a, b, c, d, e := draw / 100000, draw / 10000, draw / 1000, draw / 100, draw / 10;
    assert Decimal("") == 0 by { NoDigits(); }
    OneMoreDigit("", a);
    OneMoreDigit("" + [Digit(a)], b);
    OneMoreDigit("" + [Digit(a)] + [Digit(b)], c);
    OneMoreDigit("" + [Digit(a)] + [Digit(b)] + [Digit(c)], d);
    OneMoreDigit("" + [Digit(a)] + [Digit(b)] + [Digit(c)] + [Digit(d)], e);
    OneMoreDigit("" + [Digit(a)] + [Digit(b)] + [Digit(c)] + [Digit(d)] + [Digit(e)], draw);
    assert SixDigits(draw) == "" + [Digit(a)] + [Digit(b)] + [Digit(c)] + [Digit(d)] + [Digit(e)] + [Digit(draw)];
  }

  lemma DigitOfChar(n: nat, c: char)
    requires '0' <= c <= '9' && n % 10 == c as int - '0' as int
    ensures Digit(n) == c
  {
  }

  /** One more digit behind a number. */
  lemma Append(n: nat, d: nat) returns (m: nat)
    requires d < 10
    ensures m == 10 * n + d && m / 10 == n && m % 10 == d
  {
    m := 10 * n + d;
  }

  /** A text has the form of a code exactly when some draw below one million gives it. */
  lemma CodesAreDraws(code: string)
    ensures IsValidOtpCode(code) <==> exists draw: nat :: draw < 1_000_000 && SixDigits(draw) == code
  {
    if IsValidOtpCode(code) {
      var draw := DrawOf(code);
    }
    forall draw: nat | draw < 1_000_000 && SixDigits(draw) == code ensures IsValidOtpCode(code) {
      SixDigitsAreValid(draw);
    }
  }

  lemma DrawOf(code: string) returns (draw: nat)
    requires IsValidOtpCode(code)
    ensures draw < 1_000_000 && SixDigits(draw) == code
  {
    var zero := '0' as int;
    var a: nat := code[0] as int - zero;
    var b := Append(a, code[1] as int - zero);
    var c := Append(b, code[2] as int - zero);
    var d := Append(c, code[3] as int - zero);
    var e := Append(d, code[4] as int - zero);
    draw := Append(e, code[5] as int - zero);
    hide Digit;
    DigitOfChar(a, code[0]);
    DigitOfChar(b, code[1]);
    DigitOfChar(c, code[2]);
    DigitOfChar(d, code[3]);
    DigitOfChar(e, code[4]);
    DigitOfChar(draw, code[5]);
    Quotients(draw, e, d, c, b, a);
    assert SixDigits(draw) == code;
  }

  lemma Quotients(draw: nat, e: nat, d: nat, c: nat, b: nat, a: nat)
    requires draw / 10 == e && e / 10 == d && d / 10 == c && c / 10 == b && b / 10 == a
    ensures draw / 100 == d && draw / 1000 == c && draw / 10000 == b && draw / 100000 == a
  {
  }

  lemma NoDigits()
    ensures Decimal("") == 0
  {
  }

  // ---------------------------------------------------------------------------
  // Addresses
  // ---------------------------------------------------------------------------

  /** An address is the same with white space around it and in any letter case. */
  lemma SameAddress(before: string, email: string, after: string)
    requires AllSpace(before) && AllSpace(after)
    ensures NormalizeEmail(before + email + after) == NormalizeEmail(email) == NormalizeEmail(ToLower(email))
  {
    hide TrimSpace;
    TrimSpaceIsMiddle(before, email, after);
    TrimSpaceOfLower(email);
    LowerTwice(TrimSpace(email));
  }

  lemma TrimSpaceOfLower(s: string)
    ensures TrimSpace(ToLower(s)) == ToLower(TrimSpace(s))
  {
    hide IsSpace, TrimSpace;
    var a, t, b := TrimParts(s);
    forall c ensures IsSpace(LowerChar(c)) <==> IsSpace(c) { LowerKeepsSpace(c); }
    assert ToLower(s) == ToLower(a) + ToLower(t) + ToLower(b);
    TrimIs(ToLower(a), ToLower(t), ToLower(b));
    TrimIs(a, t, b);
  }

  lemma LowerTwice(s: string)
    ensures ToLower(ToLower(s)) == ToLower(s)
  {
    LowerStays(ToLower(s));
  }

  // ---------------------------------------------------------------------------
  // Verification
  // ---------------------------------------------------------------------------

  /** A successful verification returns the account of the address as it is stored now: verified at this time and
      without a code.  Everything else about it, and every other row, is as before. */
  lemma VerifyReturns(svc: Service, s: State, emailAddr: string, code: string, now: int)
    requires Keyed(s.users)
    ensures var (r, after) := svc.VerifyOtpCode(s, emailAddr, code, now);
            var row := ByEmail(s.users, NormalizeEmail(emailAddr));
            if r.Err? then after == s
            else
              && row.Some? && r.value.email == NormalizeEmail(emailAddr)
              && r.value.emailVerifiedAt == Some(now) && r.value.otpCodeHash == "" && r.value.otpExpiresAt == None
              && |after.users| == |s.users| && after.users[row.value] == r.value && r.value in after.users && after.gate == s.gate
              && SameAccount(s.users[row.value], r.value)
              && forall i :: 0 <= i < |s.users| && i != row.value ==> after.users[i] == s.users[i]
  {
    hide NormalizeEmail, TrimSpace, IsValidOtpCode, VerifyOtp;
    var row := ByEmail(s.users, NormalizeEmail(emailAddr));
    if row.Some? {
      UpdateIsPointwise(s.users, row.value, (u: User) => u.(emailVerifiedAt := Some(now), otpCodeHash := "", otpExpiresAt := None));
    }
  }

  /** The fields that only registration and linking set. */
  predicate SameAccount(u: User, v: User) {
    && u.id == v.id && u.email == v.email && u.displayName == v.displayName && u.passwordHash == v.passwordHash
    && u.createdAt == v.createdAt && u.authProvider == v.authProvider && u.authSubject == v.authSubject
  }

  /** In every run: who enters the code of an address gets the account of that address. */
  lemma VerifiedAccount(svc: Service, run: seq<Event>, emailAddr: string, code: string, now: int)
    ensures var (r, after) := svc.VerifyOtpCode(After(svc, run), emailAddr, code, now);
            r.Ok? ==>
              && r.value.email == NormalizeEmail(emailAddr) && r.value in after.users && r.value.emailVerifiedAt == Some(now)
              && exists u :: u in After(svc, run).users && SameAccount(u, r.value)
  {
    RunsKeepKeys(svc, run);
    VerifyReturns(svc, After(svc, run), emailAddr, code, now);
  }

  /** The reasons for a refusal, in the order in which they are looked for. */
  function Refusal(users: Table, tickets: Tickets, email: string, given: string, now: int): Error {
    if email == "" then InvalidEmail
    else if !IsValidOtpCode(given) then OtpInvalid
    else if email in tickets then if now > tickets[email].at + OTP_TTL then OtpExpired else OtpInvalid
    else if ByEmail(users, email).Some? then OtpNotRequested
    else UserNotFound
  }

  /** Why a verification is refused, after every run. */
  lemma VerifyRefusals(svc: Service, run: seq<Event>, emailAddr: string, code: string, now: int)
    requires SaltsAreBase64(run) && Sound(svc.digest)
    ensures var r, users := svc.VerifyOtpCode(After(svc, run), emailAddr, code, now).0, After(svc, run).users;
            r.Err? ==> r == Err(Refusal(users, TicketsAfter(svc, run), NormalizeEmail(emailAddr), TrimSpace(code), now))
  {
    TableMatchesTickets(svc, run);
    RefusedAgainst(svc, After(svc, run), TicketsAfter(svc, run), emailAddr, code, now);
  }

  lemma RefusedAgainst(svc: Service, s: State, tickets: Tickets, emailAddr: string, code: string, now: int)
    requires Matches(svc, s.users, tickets) && Sound(svc.digest)
    ensures var r := svc.VerifyOtpCode(s, emailAddr, code, now).0;
            r.Err? ==> r == Err(Refusal(s.users, tickets, NormalizeEmail(emailAddr), TrimSpace(code), now))
  {
    hide NormalizeEmail, TrimSpace, IsValidOtpCode, VerifyOtp, Sound;
    var email := NormalizeEmail(emailAddr);
    var row := ByEmail(s.users, email);
    if row.Some? {
      assert RowMatches(svc, s.users[row.value], tickets);
      if email in tickets {
        HashIsNotBlank(svc.digest, tickets[email].salt, tickets[email].code);
      }
    }
  }

  lemma HashIsNotBlank(digest: Digest, salt: string, code: string)
    ensures HashOtp(digest, salt, code) != ""
  {
  }

  // ---------------------------------------------------------------------------
  // Requesting a code
  // ---------------------------------------------------------------------------

  predicate IdInUse(t: Table, id: string) { exists i :: 0 <= i < |t| && t[i].id == id }

  /** The outcome of a request, for every way it can go. */
  lemma RequestOutcome(svc: Service, s: State, emailAddr: string, displayName: string, now: int, d: Draws)
    ensures var (r, after) := svc.RequestOtp(s, emailAddr, displayName, now, d);
            var email := NormalizeEmail(emailAddr);
            var row := ByEmail(s.users, email);
            var (granted, gate) := svc.limits.Admit(s.gate, email, now, d.server);
            && (r.Err? ==> r.error == if email == "" then InvalidEmail else if !granted then RateLimited
                                      else if row.None? && IdInUse(s.users, d.id) then InsertFailed else EmailSendFailure)
            && (email == "" ==> after == s)
            && (email != "" ==> after.gate == gate && (r.Err? && r.error != EmailSendFailure ==> after.users == s.users))
            && (r.Ok? <==> email != "" && granted && d.mailed && (row.Some? || !IdInUse(s.users, d.id)))
  {
    hide NormalizeEmail, TrimSpace, Limits.Admit, UpdateOtp, HashOtp, SixDigits;
  }

  /** A stored code is in the row of its address and in no other, with its expiry ten minutes away; a new row is that
      of a fresh account.  The record returned is the row from before, but for the expiry. */
  lemma RequestStores(svc: Service, s: State, emailAddr: string, displayName: string, now: int, d: Draws)
    requires Keyed(s.users)
    ensures var (r, after) := svc.RequestOtp(s, emailAddr, displayName, now, d);
            var email := NormalizeEmail(emailAddr);
            var row, stored := ByEmail(s.users, email), ByEmail(after.users, email);
            r.Ok? || r.error == EmailSendFailure ==>
              && stored.Some? && |after.users| == |s.users| + (if row.Some? then 0 else 1)
              && (var u := after.users[stored.value];
                  && u.otpCodeHash == HashOtp(svc.digest, d.salt, SixDigits(d.code)) && u.otpExpiresAt == Some(now + 10 * MINUTE)
                  && (row.Some? ==> stored == row && SameAccount(s.users[row.value], u)
                                    && u.emailVerifiedAt == s.users[row.value].emailVerifiedAt)
                  && (row.None? ==> stored == Some(|s.users|) && SameAccount(u, User(d.id, email, TrimSpace(displayName), "", "", "", None, "", None, now))
                                    && u.emailVerifiedAt == None)
                  && (r.Ok? ==> SameAccount(u, r.value) && r.value.otpExpiresAt == u.otpExpiresAt))
              && forall i :: 0 <= i < |s.users| && i != stored.value ==> after.users[i] == s.users[i]
  {
    hide NormalizeEmail, TrimSpace, Limits.Admit, HashOtp, SixDigits, Update, ByEmail;
    var email := NormalizeEmail(emailAddr);
    var row := ByEmail(s.users, email);
    RowOfEmail(s.users, email);
    var user := if row.None? then NewUser(d.id, email, TrimSpace(displayName), now) else s.users[row.value];
    if row.Some? || CanInsert(s.users, user) {
      var found := if row.None? then s.users + [user] else s.users;
      var k := if row.None? then |s.users| else row.value;
      if row.None? {
        InsertKeepsKeys(s.users, user);
      }
      var f := (u: User) => u.(otpCodeHash := HashOtp(svc.digest, d.salt, SixDigits(d.code)), otpExpiresAt := Some(now + OTP_TTL));
      UpdateIsPointwise(found, k, f);
      RowKeepsKeys(found, k, f(found[k]));
      EmailAt(found[k := f(found[k])], k, email);
    }
  }

  lemma RowOfEmail(t: Table, email: string)
    ensures var row := ByEmail(t, email);
            && (row.Some? ==> row.value < |t| && t[row.value].email == email)
            && (row.None? ==> forall i :: 0 <= i < |t| ==> t[i].email != email)
  {
  }

  lemma EmailAt(t: Table, k: nat, email: string)
    requires Keyed(t) && k < |t| && t[k].email == email
    ensures ByEmail(t, email) == Some(k)
  {
  }

  // ---------------------------------------------------------------------------
  // Registration and OAuth logins
  // ---------------------------------------------------------------------------

  /** What a new row holds: the normalised address and identity, the trimmed name, the given hash or else that of a
      password that is not blank, and the given verification and code. */
  lemma CreatedRow(svc: Service, s: State, input: CreateUserInput, now: int, id: string, bcrypt: string)
    ensures var (r, after) := svc.Create(s, input, now, id, bcrypt);
            var email, hash := NormalizeEmail(input.email), TrimSpace(input.passwordHash);
            && (r.Ok? <==> email != "" && !InUse(s.users, id, email))
            && (r.Err? ==> after == s && r.error == if email == "" then InvalidEmail else InsertFailed)
            && (r.Ok? ==>
                && after == s.(users := s.users + [r.value])
                && r.value.id == id && r.value.email == email && r.value.displayName == TrimSpace(input.displayName)
                && r.value.authProvider == ToLower(TrimSpace(input.authProvider)) && r.value.authSubject == TrimSpace(input.authSubject)
                && (hash != "" ==> r.value.passwordHash == hash)
                && (hash == "" && TrimSpace(input.password) != "" ==> r.value.passwordHash == bcrypt)
                && (hash == "" && TrimSpace(input.password) == "" ==> r.value.passwordHash == "")
                && r.value.emailVerifiedAt == input.emailVerifiedAt && r.value.otpCodeHash == input.otpCodeHash
                && r.value.otpExpiresAt == input.otpExpiresAt && r.value.createdAt == now)
  {
    hide NormalizeEmail, ToLower, TrimSpace;
  }

  /** What a row registered by the handler holds: no identity, no code and no verification. */
  lemma RegisteredRow(svc: Service, s: State, email: string, displayName: string, password: string, now: int, id: string, bcrypt: string)
    ensures var (r, after) := svc.Create(s, HandlerInput(email, displayName, password), now, id, bcrypt);
            && (r.Ok? <==> NormalizeEmail(email) != "" && !InUse(s.users, id, NormalizeEmail(email)))
            && (r.Err? ==> after == s)
            && (r.Ok? ==>
                && after == s.(users := s.users + [r.value])
                && r.value.email == NormalizeEmail(email) && r.value.displayName == TrimSpace(displayName)
                && r.value.passwordHash == (if TrimSpace(password) == "" then "" else bcrypt)
                && r.value.authProvider == "" && r.value.authSubject == "" && r.value.emailVerifiedAt == None
                && r.value.otpCodeHash == "" && r.value.otpExpiresAt == None && r.value.createdAt == now && r.value.id == id)
  {
    hide NormalizeEmail, ToLower, TrimSpace, Service.Create, InUse;
    CreatedRow(svc, s, HandlerInput(email, displayName, password), now, id, bcrypt);
    BlankHasNoAuth();
  }

  /** The three ways an OAuth login succeeds: the owner's row as it is; the row of the address, linked, verified now and
      without a code; or a new row, verified now, with the given address and name. */
  lemma OAuthOutcome(svc: Service, s: State, input: OAuthInput, now: int, id: string)
    requires Keyed(s.users)
    ensures var (r, after) := svc.UpsertOAuth(s, input, now, id);
            var provider, subject, email := ToLower(TrimSpace(input.provider)), TrimSpace(input.subject), NormalizeEmail(input.email);
            var owner, row := ByAuth(s.users, provider, subject), ByEmail(s.users, email);
            if r.Err? then after == s
            else if owner.Some? then after == s && r.value == s.users[owner.value]
            else if email != "" && row.Some? then
              && |after.users| == |s.users| && after.gate == s.gate
              && (var u, v := s.users[row.value], after.users[row.value];
                  && SameAccount(v, u.(authProvider := provider, authSubject := subject))
                  && v.emailVerifiedAt == Some(now) && v.otpCodeHash == "" && v.otpExpiresAt == None
                  && SameAccount(r.value, v.(displayName := r.value.displayName)) && r.value.emailVerifiedAt == Some(now)
                  && r.value.displayName == if u.displayName == "" then TrimSpace(input.displayName) else u.displayName)
              && forall i :: 0 <= i < |s.users| && i != row.value ==> after.users[i] == s.users[i]
            else
              && after == s.(users := s.users + [r.value])
              && r.value.id == id && r.value.email == email && r.value.displayName == TrimSpace(input.displayName)
              && r.value.authProvider == provider && r.value.authSubject == subject && r.value.emailVerifiedAt == Some(now)
              && r.value.passwordHash == "" && r.value.otpCodeHash == "" && r.value.otpExpiresAt == None && r.value.createdAt == now
  {
    hide NormalizeEmail, TrimSpace, ToLower, CanInsert, Update, ByEmail, ByAuth, VerifyEmail, LinkOAuth;
    var provider, subject, email := ToLower(TrimSpace(input.provider)), TrimSpace(input.subject), NormalizeEmail(input.email);
    RowOfEmail(s.users, email);
    OwnerRow(s.users, provider, subject);
    var row := ByEmail(s.users, email);
    if row.Some? {
      LinkIsPointwise(s.users, row.value, provider, subject, now);
    }
  }

  lemma OwnerRow(t: Table, provider: string, subject: string)
    ensures ByAuth(t, provider, subject).Some? ==> ByAuth(t, provider, subject).value < |t|
  {
  }

  // ---------------------------------------------------------------------------
  // What no operation touches
  // ---------------------------------------------------------------------------

  /** A row keeps what names it and its password. */
  predicate Keeps(u: User, v: User) {
    u.id == v.id && u.email == v.email && u.displayName == v.displayName && u.passwordHash == v.passwordHash && u.createdAt == v.createdAt
  }

  /** Rows stay where they are and keep their names and passwords; those of other addresses keep everything. */
  ghost predicate Extends(before: Table, after: Table, email: string) {
    && |before| <= |after| <= |before| + 1
    && (forall i :: 0 <= i < |before| ==> Keeps(before[i], after[i]) && (before[i].email != email ==> after[i] == before[i]))
    && (|after| > |before| ==> after[|before|].email == email)
  }

  lemma SameTableExtends(t: Table, email: string)
    ensures Extends(t, t, email)
  {
  }

  lemma StepExtends(svc: Service, s: State, e: Event)
    requires Keyed(s.users)
    ensures Extends(s.users, Step(svc, s, e).1.users, EmailOf(e))
  {
    hide Extends, NormalizeEmail, TrimSpace, ToLower, Limits.Admit, Service.Issue;
    SameTableExtends(s.users, EmailOf(e));
    match e
    case Asked(email, displayName, at, d) => AskExtends(svc, s, e);
    case Verified(email, code, at) => VerifyExtends(svc, s, e);
    case OAuth(input, at, id) => OAuthExtends(svc, s, e);
    case Registered(email, displayName, password, at, id, bcrypt) => RegisterExtends(svc, s, e);
  }

  lemma AskExtends(svc: Service, s: State, e: Event)
    requires Keyed(s.users) && e.Asked?
    ensures Extends(s.users, Step(svc, s, e).1.users, EmailOf(e))
  {
    hide NormalizeEmail, TrimSpace, Limits.Admit, HashOtp, SixDigits, ByEmail, UpdateOtp;
    RequestStores(svc, s, e.email, e.displayName, e.at, e.d);
    RequestOutcome(svc, s, e.email, e.displayName, e.at, e.d);
    RowOfEmail(s.users, EmailOf(e));
    RowOfEmail(Step(svc, s, e).1.users, EmailOf(e));
  }

  lemma VerifyExtends(svc: Service, s: State, e: Event)
    requires Keyed(s.users) && e.Verified?
    ensures Extends(s.users, Step(svc, s, e).1.users, EmailOf(e))
  {
    hide NormalizeEmail, ByEmail, Service.VerifyOtpCode;
    VerifyReturns(svc, s, e.email, e.code, e.at);
    RowOfEmail(s.users, EmailOf(e));
  }

  lemma OAuthExtends(svc: Service, s: State, e: Event)
    requires Keyed(s.users) && e.OAuth?
    ensures Extends(s.users, Step(svc, s, e).1.users, EmailOf(e))
  {
    hide NormalizeEmail, TrimSpace, ToLower, ByEmail, ByAuth, Service.UpsertOAuth;
    OAuthOutcome(svc, s, e.input, e.at, e.id);
    RowOfEmail(s.users, EmailOf(e));
  }

  lemma RegisterExtends(svc: Service, s: State, e: Event)
    requires e.Registered?
    ensures Extends(s.users, Step(svc, s, e).1.users, EmailOf(e))
  {
    hide NormalizeEmail, TrimSpace, ToLower, Service.Create;
    RegisteredRow(svc, s, e.email, e.displayName, e.password, e.at, e.id, e.bcrypt);
  }

  /** In every run accounts are never removed, renamed, moved to another address or given another password, and
      an account changes at all only through a call about its own address. */
  lemma {:induction false} AccountsPersist(svc: Service, run: seq<Event>, n: nat, i: nat)
    requires n <= |run|
    ensures var before, after := After(svc, run[..n]).users, After(svc, run).users;
            i < |before| ==>
              && i < |after| && Keeps(before[i], after[i])
              && ((forall j :: n <= j < |run| ==> EmailOf(run[j]) != before[i].email) ==> after[i] == before[i])
  {
    hide EmailOf, Step;
    if n == |run| {
      assert run[..n] == run;
    } else {
      var front := Front(run);
      assert front[..n] == run[..n] && forall j :: n <= j < |front| ==> front[j] == run[j];
      AccountsPersist(svc, front, n, i);
      RunsKeepKeys(svc, front);
      StepExtends(svc, After(svc, front), Last(run));
    }
  }
}
