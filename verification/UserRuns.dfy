/** Whole runs of the account service: which codes verify, how often, and who owns an identity. */
module UserRuns {
  import opened Basics
  import opened Limiters
  import opened Text
  import opened Users

  datatype Event =
    | Asked(email: string, displayName: string, at: int, d: Draws)
    | Verified(email: string, code: string, at: int)
    | OAuth(input: OAuthInput, at: int, id: string)
    | Registered(email: string, displayName: string, password: string, at: int, id: string, bcrypt: string)

  /** The HTTP handler registers users without identity or code fields. */
  function HandlerInput(email: string, displayName: string, password: string): CreateUserInput {
    CreateUserInput(email, displayName, "", "", password, "", None, "", None)
  }

  function Step(svc: Service, s: State, e: Event): (Result<User, Error>, State) {
    match e
    case Asked(email, displayName, at, d) => svc.RequestOtp(s, email, displayName, at, d)
    case Verified(email, code, at) => svc.VerifyOtpCode(s, email, code, at)
    case OAuth(input, at, id) => svc.UpsertOAuth(s, input, at, id)
    case Registered(email, displayName, password, at, id, bcrypt) =>
      svc.Create(s, HandlerInput(email, displayName, password), at, id, bcrypt)
  }

  function After(svc: Service, run: seq<Event>): State {
    if run == [] then State([], NOTHING) else Step(svc, After(svc, Front(run)), Last(run)).1
  }

  ghost predicate Clocked(run: seq<Event>) {
    forall i, j :: 0 <= i <= j < |run| ==> run[i].at <= run[j].at
  }

  // ---------------------------------------------------------------------------
  // Rows of the table
  // ---------------------------------------------------------------------------

  /** Ids and e-mails are unique. */
  ghost predicate Keyed(t: Table) {
    forall i, j :: 0 <= i < j < |t| ==> t[i].id != t[j].id && t[i].email != t[j].email
  }

  lemma UpdateIsPointwise(t: Table, k: nat, f: User -> User)
    requires Keyed(t) && k < |t|
    ensures Update(t, t[k].id, f) == t[k := f(t[k])]
  {
  }

  lemma RowKeepsKeys(t: Table, k: nat, u: User)
    requires Keyed(t) && k < |t| && u.id == t[k].id && u.email == t[k].email
    ensures Keyed(t[k := u])
  {
  }

  lemma InsertKeepsKeys(t: Table, u: User)
    requires Keyed(t) && CanInsert(t, u)
    ensures Keyed(t + [u])
  {
  }

  /** Updates that leave the key columns alone. */
  lemma UpdateKeepsKeys(t: Table, id: string, f: User -> User)
    requires Keyed(t) && forall u :: f(u).id == u.id && f(u).email == u.email
    ensures Keyed(Update(t, id, f))
  {
  }

  lemma UpdatesKeepKeys(t: Table, id: string, hash: string, at: int, provider: string, subject: string)
    requires Keyed(t)
    ensures Keyed(UpdateOtp(t, id, hash, at)) && Keyed(VerifyEmail(t, id, at)) && Keyed(LinkOAuth(t, id, provider, subject))
  {
    hide Keyed, Update;
    UpdateKeepsKeys(t, id, (u: User) => u.(otpCodeHash := hash, otpExpiresAt := Some(at)));
    UpdateKeepsKeys(t, id, (u: User) => u.(emailVerifiedAt := Some(at), otpCodeHash := "", otpExpiresAt := None));
    UpdateKeepsKeys(t, id, (u: User) => u.(authProvider := provider, authSubject := subject));
  }

  lemma IssueKeepsKeys(svc: Service, users: Table, email: string, displayName: string, now: int, d: Draws)
    requires Keyed(users)
    ensures Keyed(svc.Issue(users, email, displayName, now, d).1)
  {
    hide Keyed, UpdateOtp, CanInsert, HashOtp, SixDigits;
    var row := ByEmail(users, email);
    var user := if row.None? then NewUser(d.id, email, displayName, now) else users[row.value];
    if row.Some? || CanInsert(users, user) {
      var found := users;
      if row.None? {
        InsertKeepsKeys(users, user);
        found := users + [user];
      }
      UpdatesKeepKeys(found, user.id, HashOtp(svc.digest, d.salt, SixDigits(d.code)), now + OTP_TTL, "", "");
    }
  }

  lemma StepKeepsKeys(svc: Service, s: State, e: Event)
    requires Keyed(s.users)
    ensures Keyed(Step(svc, s, e).1.users)
  {
    hide Keyed, CanInsert, VerifyEmail, LinkOAuth, Service.Issue, Limits.Admit, TrimSpace, ToLower, NormalizeEmail, IsValidOtpCode, VerifyOtp;
    match e
    case Asked(email, displayName, at, d) =>
      IssueKeepsKeys(svc, s.users, NormalizeEmail(email), TrimSpace(displayName), at, d);
    case Verified(email, _, at) =>
      var row := ByEmail(s.users, NormalizeEmail(email));
      if row.Some? {
        UpdatesKeepKeys(s.users, s.users[row.value].id, "", at, "", "");
      }
    case OAuth(input, at, id) =>
      var provider, subject := ToLower(TrimSpace(input.provider)), TrimSpace(input.subject);
      var (r, after) := Step(svc, s, e);
      var row := ByEmail(s.users, NormalizeEmail(input.email));
      if row.Some? {
        var known := s.users[row.value].id;
        UpdatesKeepKeys(s.users, known, "", at, provider, subject);
        UpdatesKeepKeys(LinkOAuth(s.users, known, provider, subject), known, "", at, "", "");
      }
      if r.Ok? && CanInsert(s.users, r.value) {
        InsertKeepsKeys(s.users, r.value);
      }
    case Registered(_, _, _, _, _, _) =>
      var r := Step(svc, s, e).0;
      if r.Ok? {
        InsertKeepsKeys(s.users, r.value);
      }
  }

  /** Ids and e-mails are unique in every run. */
  lemma {:induction false} RunsKeepKeys(svc: Service, run: seq<Event>)
    ensures Keyed(After(svc, run).users)
  {
    hide Keyed, Step;
    if run == [] {
      EmptyIsKeyed();
    } else {
      RunsKeepKeys(svc, Front(run));
      StepKeepsKeys(svc, After(svc, Front(run)), Last(run));
    }
  }

  lemma EmptyIsKeyed()
    ensures Keyed([])
  {
  }

  // ---------------------------------------------------------------------------
  // Tickets: the history of codes, without rows or hashes
  // ---------------------------------------------------------------------------

  datatype Ticket = Ticket(code: string, salt: string, at: int)

  type Tickets = map<string, Ticket>

  /** A code was stored for this address, whether or not the mail went out. */
  predicate Issues(svc: Service, s: State, e: Event, email: string) {
    && e.Asked? && NormalizeEmail(e.email) == email
    && (Step(svc, s, e).0.Ok? || Step(svc, s, e).0.error == EmailSendFailure)
  }

  predicate Redeems(svc: Service, s: State, e: Event, email: string) {
    e.Verified? && NormalizeEmail(e.email) == email && Step(svc, s, e).0.Ok?
  }

  /** The OAuth call links its identity to the row of this address. */
  predicate Links(s: State, e: Event, email: string) {
    && e.OAuth? && NormalizeEmail(e.input.email) == email && email != ""
    && ToLower(TrimSpace(e.input.provider)) != "" && TrimSpace(e.input.subject) != ""
    && ByAuth(s.users, ToLower(TrimSpace(e.input.provider)), TrimSpace(e.input.subject)).None?
    && ByEmail(s.users, email).Some?
  }

  function EmailOf(e: Event): string {
    NormalizeEmail(if e.OAuth? then e.input.email else e.email)
  }

  /** Each issue replaces the address's ticket; verification and linking take it away. */
  function Punch(svc: Service, s: State, tickets: Tickets, e: Event): Tickets {
    var email := EmailOf(e);
    if Issues(svc, s, e, email) then tickets[email := Ticket(SixDigits(e.d.code), e.d.salt, e.at)]
    else if Redeems(svc, s, e, email) || Links(s, e, email) then tickets - {email}
    else tickets
  }

  function TicketsAfter(svc: Service, run: seq<Event>): Tickets {
    if run == [] then map[] else Punch(svc, After(svc, Front(run)), TicketsAfter(svc, Front(run)), Last(run))
  }

  /** Base64 text has no colon. */
  predicate SaltsAreBase64(run: seq<Event>) {
    forall i :: 0 <= i < |run| && run[i].Asked? ==> Lacks(run[i].d.salt, ':')
  }

  // ---------------------------------------------------------------------------
  // The table holds exactly the tickets
  // ---------------------------------------------------------------------------

  predicate RowMatches(svc: Service, u: User, tickets: Tickets) {
    if u.email in tickets then
      var t := tickets[u.email];
      u.otpCodeHash == HashOtp(svc.digest, t.salt, t.code) && u.otpExpiresAt == Some(t.at + OTP_TTL)
    else u.otpCodeHash == "" && u.otpExpiresAt == None
  }

  predicate TicketOk(t: Ticket) { Lacks(t.salt, ':') && IsValidOtpCode(t.code) }

  ghost predicate Matches(svc: Service, users: Table, tickets: Tickets) {
    && Keyed(users)
    && (forall i :: 0 <= i < |users| ==> RowMatches(svc, users[i], tickets))
    && (forall e :: e in tickets ==> ByEmail(users, e).Some? && e != "" && TicketOk(tickets[e]))
  }

  predicate SameElsewhere(a: Tickets, b: Tickets, email: string) {
    (forall e :: e in a && e != email ==> e in b && a[e] == b[e]) && (forall e :: e in b && e != email ==> e in a)
  }

  lemma RowsStayFound(users: Table, k: nat, u: User, email: string)
    requires Keyed(users) && k < |users| && u.email == users[k].email
    requires ByEmail(users, email).Some? || email == u.email
    ensures ByEmail(users[k := u], email).Some?
  {
    var t := users[k := u];
    var i := if email == u.email then k else ByEmail(users, email).value;
    assert t[i].email == email;
  }

  lemma OtherRowMatches(svc: Service, v: User, tickets: Tickets, after: Tickets, email: string)
    requires RowMatches(svc, v, tickets) && SameElsewhere(tickets, after, email) && v.email != email
    ensures RowMatches(svc, v, after)
  {
  }

  /** Storing a code, or clearing it, in the row and in the tickets. */
  lemma RowAndTicket(svc: Service, users: Table, tickets: Tickets, k: nat, u: User, after: Tickets)
    requires Matches(svc, users, tickets) && k < |users|
    requires u.id == users[k].id && u.email == users[k].email && RowMatches(svc, u, after)
    requires SameElsewhere(tickets, after, u.email)
    requires u.email in after ==> u.email != "" && TicketOk(after[u.email])
    ensures Matches(svc, users[k := u], after)
  {
    hide RowMatches, SameElsewhere, TicketOk, ByEmail;
    var t := users[k := u];
    RowKeepsKeys(users, k, u);
    forall i | 0 <= i < |t| ensures RowMatches(svc, t[i], after) {
      if i != k {
        OtherRowMatches(svc, users[i], tickets, after, u.email);
      }
    }
    TicketsStayFound(svc, users, tickets, k, u, after);
  }

  lemma TicketsStayFound(svc: Service, users: Table, tickets: Tickets, k: nat, u: User, after: Tickets)
    requires Matches(svc, users, tickets) && k < |users| && u.email == users[k].email
    requires SameElsewhere(tickets, after, u.email)
    requires u.email in after ==> u.email != "" && TicketOk(after[u.email])
    ensures forall e :: e in after ==> ByEmail(users[k := u], e).Some? && e != "" && TicketOk(after[e])
  {
    forall e | e in after ensures ByEmail(users[k := u], e).Some? && e != "" && TicketOk(after[e]) {
      RowsStayFound(users, k, u, e);
    }
  }

  lemma InsertAndTickets(svc: Service, users: Table, tickets: Tickets, u: User)
    requires Matches(svc, users, tickets) && CanInsert(users, u)
    requires u.otpCodeHash == "" && u.otpExpiresAt == None
    ensures Matches(svc, users + [u], tickets)
  {
    var t := users + [u];
    InsertKeepsKeys(users, u);
    forall e | e in tickets ensures ByEmail(t, e).Some? && e != u.email {
      assert t[ByEmail(users, e).value].email == e;
    }
    forall i | 0 <= i < |t| ensures RowMatches(svc, t[i], tickets) {
      if i < |users| {
        assert RowMatches(svc, users[i], tickets);
      }
    }
  }

  lemma SixDigitsAreValid(draw: nat)
    ensures IsValidOtpCode(SixDigits(draw))
  {
  }

  /** Storing a code in a row. */
  lemma StoreKeepsMatch(svc: Service, users: Table, tickets: Tickets, k: nat, code: string, salt: string, now: int)
    requires Matches(svc, users, tickets) && k < |users| && users[k].email != "" && Lacks(salt, ':') && IsValidOtpCode(code)
    ensures Matches(svc, UpdateOtp(users, users[k].id, HashOtp(svc.digest, salt, code), now + OTP_TTL),
                    tickets[users[k].email := Ticket(code, salt, now)])
  {
    hide Update, HashOtp, IsValidOtpCode, Lacks;
    var f := (u: User) => u.(otpCodeHash := HashOtp(svc.digest, salt, code), otpExpiresAt := Some(now + OTP_TTL));
    UpdateIsPointwise(users, k, f);
    hide Matches;
    RowAndTicket(svc, users, tickets, k, f(users[k]), tickets[users[k].email := Ticket(code, salt, now)]);
  }

  lemma IssueKeepsMatch(svc: Service, users: Table, tickets: Tickets, email: string, displayName: string, now: int, d: Draws)
    requires Matches(svc, users, tickets) && email != "" && Lacks(d.salt, ':')
    ensures var (r, after) := svc.Issue(users, email, displayName, now, d);
            Matches(svc, after, if r == Err(InsertFailed) then tickets
                                else tickets[email := Ticket(SixDigits(d.code), d.salt, now)])
  {
    hide Matches, UpdateOtp, HashOtp, SixDigits, IsValidOtpCode, CanInsert, Lacks;
    var row := ByEmail(users, email);
    SixDigitsAreValid(d.code);
    if row.Some? {
      StoreKeepsMatch(svc, users, tickets, row.value, SixDigits(d.code), d.salt, now);
    } else {
      var user := NewUser(d.id, email, displayName, now);
      if CanInsert(users, user) {
        InsertAndTickets(svc, users, tickets, user);
        StoreKeepsMatch(svc, users + [user], tickets, |users|, SixDigits(d.code), d.salt, now);
      }
    }
  }

  lemma ClearKeepsMatch(svc: Service, users: Table, tickets: Tickets, k: nat, u: User)
    requires Matches(svc, users, tickets) && k < |users|
    requires u.id == users[k].id && u.email == users[k].email && u.otpCodeHash == "" && u.otpExpiresAt == None
    ensures Matches(svc, users[k := u], tickets - {u.email})
  {
    hide Matches;
    RowAndTicket(svc, users, tickets, k, u, tickets - {u.email});
  }

  lemma VerifyKeepsMatch(svc: Service, users: Table, tickets: Tickets, k: nat, now: int)
    requires Matches(svc, users, tickets) && k < |users|
    ensures Matches(svc, VerifyEmail(users, users[k].id, now), tickets - {users[k].email})
  {
    var f := (u: User) => u.(emailVerifiedAt := Some(now), otpCodeHash := "", otpExpiresAt := None);
    UpdateIsPointwise(users, k, f);
    ClearKeepsMatch(svc, users, tickets, k, f(users[k]));
  }

  lemma LinkKeepsMatch(svc: Service, users: Table, tickets: Tickets, k: nat, provider: string, subject: string)
    requires Matches(svc, users, tickets) && k < |users|
    ensures var t := LinkOAuth(users, users[k].id, provider, subject);
            t == users[k := users[k].(authProvider := provider, authSubject := subject)] && Matches(svc, t, tickets)
  {
    var f := (u: User) => u.(authProvider := provider, authSubject := subject);
    UpdateIsPointwise(users, k, f);
    assert RowMatches(svc, users[k], tickets);
    RowAndTicket(svc, users, tickets, k, f(users[k]), tickets);
  }

  lemma OAuthKeepsMatch(svc: Service, s: State, tickets: Tickets, e: Event)
    requires Matches(svc, s.users, tickets) && e.OAuth?
    ensures Matches(svc, Step(svc, s, e).1.users, Punch(svc, s, tickets, e))
  {
    hide Matches, VerifyEmail, LinkOAuth, TrimSpace, NormalizeEmail, ToLower, CanInsert;
    var email := EmailOf(e);
    var provider, subject := ToLower(TrimSpace(e.input.provider)), TrimSpace(e.input.subject);
    if Links(s, e, email) {
      var k := ByEmail(s.users, email).value;
      LinkKeepsMatch(svc, s.users, tickets, k, provider, subject);
      VerifyKeepsMatch(svc, LinkOAuth(s.users, s.users[k].id, provider, subject), tickets, k, e.at);
    } else if Step(svc, s, e).1 != s {
      var user := NewUser(e.id, email, TrimSpace(e.input.displayName), e.at)
        .(authProvider := provider, authSubject := subject, emailVerifiedAt := Some(e.at));
      InsertAndTickets(svc, s.users, tickets, user);
    }
  }

  lemma StepKeepsMatch(svc: Service, s: State, tickets: Tickets, e: Event)
    requires Matches(svc, s.users, tickets)
    requires e.Asked? ==> Lacks(e.d.salt, ':')
    ensures Matches(svc, Step(svc, s, e).1.users, Punch(svc, s, tickets, e))
  {
    hide Matches, Limits.Admit, TrimSpace, NormalizeEmail, ToLower;
    match e
    case Asked(_, _, _, _) => AskedKeepsMatch(svc, s, tickets, e);
    case Verified(_, _, _) => VerifiedKeepsMatch(svc, s, tickets, e);
    case OAuth(_, _, _) => OAuthKeepsMatch(svc, s, tickets, e);
    case Registered(_, _, _, _, _, _) =>
      if Step(svc, s, e).0.Ok? {
        InsertAndTickets(svc, s.users, tickets, Step(svc, s, e).0.value);
      }
  }

  lemma AskedKeepsMatch(svc: Service, s: State, tickets: Tickets, e: Event)
    requires Matches(svc, s.users, tickets) && e.Asked? && Lacks(e.d.salt, ':')
    ensures Matches(svc, Step(svc, s, e).1.users, Punch(svc, s, tickets, e))
  {
    hide Matches, Limits.Admit, TrimSpace, NormalizeEmail, SixDigits;
    var email := EmailOf(e);
    if email != "" {
      IssueKeepsMatch(svc, s.users, tickets, email, TrimSpace(e.displayName), e.at, e.d);
    }
  }

  lemma VerifiedKeepsMatch(svc: Service, s: State, tickets: Tickets, e: Event)
    requires Matches(svc, s.users, tickets) && e.Verified?
    ensures Matches(svc, Step(svc, s, e).1.users, Punch(svc, s, tickets, e))
  {
    hide Matches, VerifyEmail, VerifyOtp, IsValidOtpCode, TrimSpace, NormalizeEmail;
    if Step(svc, s, e).0.Ok? {
      var k := ByEmail(s.users, EmailOf(e)).value;
      VerifyKeepsMatch(svc, s.users, tickets, k, e.at);
    }
  }

  lemma {:induction false} TableMatchesTickets(svc: Service, run: seq<Event>)
    requires SaltsAreBase64(run)
    ensures Matches(svc, After(svc, run).users, TicketsAfter(svc, run))
  {
    if run != [] {
      assert forall i :: 0 <= i < |run| - 1 ==> Front(run)[i] == run[i];
      TableMatchesTickets(svc, Front(run));
      StepKeepsMatch(svc, After(svc, Front(run)), TicketsAfter(svc, Front(run)), Last(run));
    }
  }
}
