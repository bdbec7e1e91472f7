/** Who owns an external identity, and what logging in with it returns. */
module Identities {
  import opened Basics
  import opened Limiters
  import opened Text
  import opened UserRuns
  import opened Users

  predicate HasAuth(u: User) { u.authProvider != "" && u.authSubject != "" }

  predicate SameAuth(u: User, v: User) { u.authProvider == v.authProvider && u.authSubject == v.authSubject }

  /** No external identity belongs to two rows. */
  ghost predicate OneOwner(t: Table) {
    forall i, j :: 0 <= i < j < |t| && HasAuth(t[i]) ==> !SameAuth(t[i], t[j])
  }

  lemma NewOwner(t: Table, k: nat, u: User)
    requires OneOwner(t) && k < |t|
    requires SameAuth(u, t[k]) || (HasAuth(u) && ByAuth(t, u.authProvider, u.authSubject).None?)
    ensures OneOwner(t[k := u])
  {
  }

  lemma AppendOwner(t: Table, u: User)
    requires OneOwner(t)
    ensures OneOwner(t + [u]) <==> !HasAuth(u) || ByAuth(t, u.authProvider, u.authSubject).None?
  {
    var after := t + [u];
    var k := ByAuth(t, u.authProvider, u.authSubject);
    if HasAuth(u) && k.Some? {
      assert HasAuth(after[k.value]) && SameAuth(after[k.value], after[|t|]);
    }
    assert forall i :: 0 <= i < |t| ==> after[i] == t[i];
  }

  // ---------------------------------------------------------------------------
  // The table updates, row by row
  // ---------------------------------------------------------------------------

  function LinkedRow(u: User, provider: string, subject: string, now: int): User {
    u.(authProvider := provider, authSubject := subject, emailVerifiedAt := Some(now), otpCodeHash := "", otpExpiresAt := None)
  }

  lemma LinkIsPointwise(t: Table, k: nat, provider: string, subject: string, now: int)
    requires Keyed(t) && k < |t|
    ensures VerifyEmail(LinkOAuth(t, t[k].id, provider, subject), t[k].id, now)
            == t[k := LinkedRow(t[k], provider, subject, now)]
  {
    hide Update;
    var f := (u: User) => u.(authProvider := provider, authSubject := subject);
    var g := (u: User) => u.(emailVerifiedAt := Some(now), otpCodeHash := "", otpExpiresAt := None);
    UpdateIsPointwise(t, k, f);
    var linked := t[k := f(t[k])];
    RowKeepsKeys(t, k, f(t[k]));
    UpdateIsPointwise(linked, k, g);
    assert linked[k := g(f(t[k]))] == t[k := g(f(t[k]))];
  }

  /** An update that leaves identities alone. */
  lemma KeepsOwners(t: Table, k: nat, f: User -> User)
    requires Keyed(t) && OneOwner(t) && k < |t| && SameAuth(f(t[k]), t[k])
    ensures OneOwner(Update(t, t[k].id, f))
  {
    hide ByAuth;
    UpdateIsPointwise(t, k, f);
    NewOwner(t, k, f(t[k]));
  }

  // ---------------------------------------------------------------------------
  // Runs
  // ---------------------------------------------------------------------------

  lemma IssueKeepsOwners(svc: Service, t: Table, email: string, displayName: string, now: int, d: Draws)
    requires Keyed(t) && OneOwner(t)
    ensures OneOwner(svc.Issue(t, email, displayName, now, d).1)
  {
    hide OneOwner, Update, HashOtp, SixDigits;
    var row := ByEmail(t, email);
    var user := if row.None? then NewUser(d.id, email, displayName, now) else t[row.value];
    var f := (u: User) => u.(otpCodeHash := HashOtp(svc.digest, d.salt, SixDigits(d.code)), otpExpiresAt := Some(now + OTP_TTL));
    if row.Some? {
      KeepsOwners(t, row.value, f);
    } else if CanInsert(t, user) {
      InsertKeepsKeys(t, user);
      AppendOwner(t, user);
      KeepsOwners(t + [user], |t|, f);
    }
  }

  lemma OAuthKeepsOwners(svc: Service, s: State, input: OAuthInput, now: int, id: string)
    requires Keyed(s.users) && OneOwner(s.users)
    ensures OneOwner(svc.UpsertOAuth(s, input, now, id).1.users)
  {
    hide OneOwner, TrimSpace, ToLower, NormalizeEmail, CanInsert, VerifyEmail, LinkOAuth;
    var provider, subject, email := ToLower(TrimSpace(input.provider)), TrimSpace(input.subject), NormalizeEmail(input.email);
    if provider != "" && subject != "" && ByAuth(s.users, provider, subject).None? {
      var row := if email == "" then None else ByEmail(s.users, email);
      if row.Some? {
        LinkIsPointwise(s.users, row.value, provider, subject, now);
        NewOwner(s.users, row.value, LinkedRow(s.users[row.value], provider, subject, now));
      } else {
        var user := NewUser(id, email, TrimSpace(input.displayName), now)
          .(authProvider := provider, authSubject := subject, emailVerifiedAt := Some(now));
        AppendOwner(s.users, user);
      }
    }
  }

  /** A row has this id or this e-mail. */
  predicate InUse(t: Table, id: string, email: string) {
    exists i :: 0 <= i < |t| && (t[i].id == id || t[i].email == email)
  }

  /** Registration keeps single ownership exactly when its e-mail is blank, its id or e-mail is in use, or it
      names no full identity, or one that nobody owns: nothing in the table enforces it. */
  lemma CreateKeepsOwnersIff(svc: Service, s: State, input: CreateUserInput, now: int, id: string, bcrypt: string)
    requires OneOwner(s.users)
    ensures var after, email := svc.Create(s, input, now, id, bcrypt).1, NormalizeEmail(input.email);
            var provider, subject := ToLower(TrimSpace(input.authProvider)), TrimSpace(input.authSubject);
            OneOwner(after.users) <==>
            || email == "" || InUse(s.users, id, email)
            || provider == "" || subject == "" || ByAuth(s.users, provider, subject).None?
  {
    hide OneOwner, TrimSpace, ToLower, NormalizeEmail;
    var r := svc.Create(s, input, now, id, bcrypt).0;
    if r.Ok? {
      AppendOwner(s.users, r.value);
    }
  }

  lemma {:induction false} RunsKeepOwners(svc: Service, run: seq<Event>)
    ensures OneOwner(After(svc, run).users) && Keyed(After(svc, run).users)
  {
    hide OneOwner, Keyed, Step;
    RunsKeepKeys(svc, run);
    if run == [] {
      EmptyHasOwners();
    } else {
      RunsKeepOwners(svc, Front(run));
      StepKeepsOwners(svc, After(svc, Front(run)), Last(run));
    }
  }

  lemma EmptyHasOwners()
    ensures OneOwner([])
  {
  }

  lemma StepKeepsOwners(svc: Service, s: State, e: Event)
    requires Keyed(s.users) && OneOwner(s.users)
    ensures OneOwner(Step(svc, s, e).1.users)
  {
    hide OneOwner, Keyed, TrimSpace, ToLower, NormalizeEmail, Limits.Admit, VerifyOtp, IsValidOtpCode;
    match e
    case Asked(emailAddr, displayName, at, d) =>
      IssueKeepsOwners(svc, s.users, NormalizeEmail(emailAddr), TrimSpace(displayName), at, d);
    case Verified(emailAddr, code, at) =>
      var row := ByEmail(s.users, NormalizeEmail(emailAddr));
      if row.Some? {
        var g := (u: User) => u.(emailVerifiedAt := Some(at), otpCodeHash := "", otpExpiresAt := None);
        KeepsOwners(s.users, row.value, g);
      }
    case OAuth(input, at, id) =>
      OAuthKeepsOwners(svc, s, input, at, id);
    case Registered(email, displayName, password, at, id, bcrypt) =>
      BlankHasNoAuth();
      CreateKeepsOwnersIff(svc, s, HandlerInput(email, displayName, password), at, id, bcrypt);
  }

  lemma BlankHasNoAuth()
    ensures TrimSpace("") == "" && ToLower("") == ""
  {
  }

  /** In every run that registers users the way the handler does, each identity and each e-mail
      belongs to at most one row. */
  lemma IdentitiesAreOwnedOnce(svc: Service, run: seq<Event>, i: nat, j: nat)
    ensures var t := After(svc, run).users;
            i < |t| && j < |t| ==>
              && (t[i].email == t[j].email ==> i == j)
              && (HasAuth(t[i]) && SameAuth(t[i], t[j]) ==> i == j)
  {
    RunsKeepOwners(svc, run);
  }

  // ---------------------------------------------------------------------------
  // Logging in twice
  // ---------------------------------------------------------------------------

  lemma AuthRow(t: Table, k: nat, provider: string, subject: string)
    requires k < |t| && t[k].authProvider == provider && t[k].authSubject == subject
    requires forall i :: 0 <= i < |t| && i != k ==> !(t[i].authProvider == provider && t[i].authSubject == subject)
    ensures ByAuth(t, provider, subject) == Some(k)
  {
  }

  /** The row a successful OAuth login leaves behind: a second login finds exactly that row. */
  lemma OwnerAfterUpsert(svc: Service, s: State, input: OAuthInput, now: int, id: string)
    requires Keyed(s.users) && OneOwner(s.users)
    ensures var (first, after) := svc.UpsertOAuth(s, input, now, id);
            var owner := ByAuth(after.users, ToLower(TrimSpace(input.provider)), TrimSpace(input.subject));
            first.Ok? ==>
              && owner.Some?
              && after.users[owner.value].id == first.value.id
              && after.users[owner.value].email == first.value.email
              && (after.users[owner.value] == first.value <==> !Differs(s, input))
  {
    hide OneOwner, TrimSpace, ToLower, NormalizeEmail, CanInsert, VerifyEmail, LinkOAuth;
    var provider, subject, email := ToLower(TrimSpace(input.provider)), TrimSpace(input.subject), NormalizeEmail(input.email);
    if ByAuth(s.users, provider, subject).None? {
      var row := if email == "" then None else ByEmail(s.users, email);
      if row.Some? {
        var k := row.value;
        LinkIsPointwise(s.users, k, provider, subject, now);
        AuthRow(s.users[k := LinkedRow(s.users[k], provider, subject, now)], k, provider, subject);
      } else {
        var user := NewUser(id, email, TrimSpace(input.displayName), now)
          .(authProvider := provider, authSubject := subject, emailVerifiedAt := Some(now));
        AuthRow(s.users + [user], |s.users|, provider, subject);
      }
    }
  }

  /** The login links to an existing row and either fills in a display name that is not stored, or
      hands back the code fields that linking has just cleared. */
  predicate Differs(s: State, input: OAuthInput) {
    var provider, subject, email := ToLower(TrimSpace(input.provider)), TrimSpace(input.subject), NormalizeEmail(input.email);
    var row := if email == "" then None else ByEmail(s.users, email);
    && ByAuth(s.users, provider, subject).None? && row.Some?
    && var u := s.users[row.value];
       u.otpCodeHash != "" || u.otpExpiresAt != None || (TrimSpace(input.displayName) != "" && u.displayName == "")
  }

  /** Repeating an OAuth login leaves the table as it is and returns the same account; it returns the
      same record if and only if the first login did not differ from what it stored. */
  lemma LoginTwice(svc: Service, s: State, input: OAuthInput, now: int, id: string, later: int, id2: string)
    requires Keyed(s.users) && OneOwner(s.users)
    ensures var (first, after) := svc.UpsertOAuth(s, input, now, id);
            var (second, again) := svc.UpsertOAuth(after, input, later, id2);
            first.Ok? ==>
              && again == after && second.Ok?
              && second.value.id == first.value.id && second.value.email == first.value.email
              && (second == first <==> !Differs(s, input))
  {
    hide OneOwner, Keyed, TrimSpace, ToLower, NormalizeEmail, CanInsert, VerifyEmail, LinkOAuth, Differs, ByAuth;
    OwnerAfterUpsert(svc, s, input, now, id);
  }

  /** With a fresh id, an OAuth login fails exactly when it names no full identity, or when it carries no
      e-mail, its identity is unknown, and another account without e-mail exists already. */
  lemma OAuthFailsOnlyOnSecondBlankEmail(svc: Service, s: State, input: OAuthInput, now: int, id: string)
    requires forall i :: 0 <= i < |s.users| ==> s.users[i].id != id
    ensures var provider, subject := ToLower(TrimSpace(input.provider)), TrimSpace(input.subject);
            svc.UpsertOAuth(s, input, now, id).0.Err? <==>
            || provider == "" || subject == ""
            || (NormalizeEmail(input.email) == "" && ByEmail(s.users, "").Some? && ByAuth(s.users, provider, subject).None?)
  {
    hide TrimSpace, ToLower, NormalizeEmail, VerifyEmail, LinkOAuth;
  }
}
