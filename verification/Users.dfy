/** Accounts: one-time codes, OAuth linking and registration over the table of users.
    Times are integer nanoseconds. */
module Users {
  import opened Basics
  import opened Limiters
  import opened SlidingWindow
  import opened Text

  datatype Error =
    | InvalidEmail | OAuthInvalid | RateLimited | UserNotFound
    | OtpNotRequested | OtpExpired | OtpInvalid | EmailSendFailure | InsertFailed

  /** A row.  The empty hash stands for no code. */
  datatype User = User(
    id: string,
    email: string,
    displayName: string,
    authProvider: string,
    authSubject: string,
    passwordHash: string,
    emailVerifiedAt: Option<int>,
    otpCodeHash: string,
    otpExpiresAt: Option<int>,
    createdAt: int)

  const OTP_TTL := 10 * MINUTE

  // ---------------------------------------------------------------------------
  // The table
  // ---------------------------------------------------------------------------

  type Table = seq<User>

  /** The first row that satisfies `p`. */
  function Find(t: Table, p: User -> bool): (r: Option<nat>)
    ensures r.Some? ==> r.value < |t| && p(t[r.value]) && forall i :: 0 <= i < r.value ==> !p(t[i])
    ensures r.None? ==> forall i :: 0 <= i < |t| ==> !p(t[i])
  {
    if t == [] then None
    else if p(t[0]) then Some(0)
    else
      var r := Find(t[1..], p);
      assert forall i :: 0 < i < |t| ==> t[i] == t[1..][i - 1];
      if r.None? then None else Some(r.value + 1)
  }

  function ByEmail(t: Table, email: string): Option<nat> { Find(t, (u: User) => u.email == email) }

  function ByAuth(t: Table, provider: string, subject: string): Option<nat> {
    Find(t, (u: User) => u.authProvider == provider && u.authSubject == subject)
  }

  /** The primary key and the unique e-mail column. */
  predicate CanInsert(t: Table, u: User) {
    forall i :: 0 <= i < |t| ==> t[i].id != u.id && t[i].email != u.email
  }

  function Update(t: Table, id: string, f: User -> User): (r: Table)
    ensures |r| == |t|
  {
    seq(|t|, i requires 0 <= i < |t| => if t[i].id == id then f(t[i]) else t[i])
  }

  function UpdateOtp(t: Table, id: string, hash: string, expiresAt: int): Table {
    Update(t, id, (u: User) => u.(otpCodeHash := hash, otpExpiresAt := Some(expiresAt)))
  }

  function VerifyEmail(t: Table, id: string, now: int): Table {
    Update(t, id, (u: User) => u.(emailVerifiedAt := Some(now), otpCodeHash := "", otpExpiresAt := None))
  }

  function LinkOAuth(t: Table, id: string, provider: string, subject: string): Table {
    Update(t, id, (u: User) => u.(authProvider := provider, authSubject := subject))
  }

  // ---------------------------------------------------------------------------
  // One-time codes
  // ---------------------------------------------------------------------------

  function NormalizeEmail(email: string): string { ToLower(TrimSpace(email)) }

  function Digit(n: nat): char { '0' + (n % 10) as char }

  /** The decimal form of a draw below one million, padded to six digits. */
  function SixDigits(draw: nat): string {
    [Digit(draw / 100000), Digit(draw / 10000), Digit(draw / 1000), Digit(draw / 100), Digit(draw / 10), Digit(draw)]
  }

  predicate IsValidOtpCode(code: string) {
    |code| == 6 && forall i :: 0 <= i < 6 ==> '0' <= code[i] <= '9'
  }

  function SplitOn(s: string, c: char): (parts: seq<string>)
    ensures parts != []
  {
    if s == "" then [""]
    else
      var rest := SplitOn(s[1..], c);
      if s[0] == c then [""] + rest else [[s[0]] + rest[0]] + rest[1..]
  }

  /** `digest` stands for the Base64 form of SHA-256. */
  type Digest = string -> string

  function HashOtp(digest: Digest, salt: string, code: string): string {
    salt + ":" + digest(salt + ":" + code)
  }

  predicate VerifyOtp(digest: Digest, code: string, stored: string) {
    var parts := SplitOn(stored, ':');
    |parts| == 2 && digest(parts[0] + ":" + code) == parts[1]
  }

  // ---------------------------------------------------------------------------
  // The service as functions of its state
  // ---------------------------------------------------------------------------

  datatype State = State(users: Table, gate: Gate)

  /** The random draws and outside answers of one code request: a new row's id, the code, the salt,
      whether the mail went out, and the limiter's server. */
  datatype Draws = Draws(id: string, code: nat, salt: string, mailed: bool, server: Server)

  function NewUser(id: string, email: string, displayName: string, now: int): User {
    User(id, email, displayName, "", "", "", None, "", None, now)
  }

  datatype Service = Service(limits: Limits, digest: Digest) {

    /** The part of a code request behind the limiter: find or insert the row, store the code, mail it. */
    function Issue(users: Table, email: string, displayName: string, now: int, d: Draws): (Result<User, Error>, Table) {
      var row := ByEmail(users, email);
      var user := if row.None? then NewUser(d.id, email, displayName, now) else users[row.value];
      if row.None? && !CanInsert(users, user) then (Err(InsertFailed), users)
      else
        var found := if row.None? then users + [user] else users;
        var stored := UpdateOtp(found, user.id, HashOtp(digest, d.salt, SixDigits(d.code)), now + OTP_TTL);
        (if d.mailed then Ok(user.(otpExpiresAt := Some(now + OTP_TTL))) else Err(EmailSendFailure), stored)
    }

    function RequestOtp(s: State, emailAddr: string, displayName: string, now: int, d: Draws): (Result<User, Error>, State) {
      var email := NormalizeEmail(emailAddr);
      if email == "" then (Err(InvalidEmail), s)
      else
        var (granted, gate) := limits.Admit(s.gate, email, now, d.server);
        if !granted then (Err(RateLimited), State(s.users, gate))
        else
          var issued := Issue(s.users, email, TrimSpace(displayName), now, d);
          (issued.0, State(issued.1, gate))
    }

    function VerifyOtpCode(s: State, emailAddr: string, code: string, now: int): (Result<User, Error>, State) {
      var email, digits := NormalizeEmail(emailAddr), TrimSpace(code);
      if email == "" then (Err(InvalidEmail), s)
      else if !IsValidOtpCode(digits) then (Err(OtpInvalid), s)
      else
        var row := ByEmail(s.users, email);
        if row.None? then (Err(UserNotFound), s)
        else
          var user := s.users[row.value];
          if user.otpCodeHash == "" || user.otpExpiresAt.None? then (Err(OtpNotRequested), s)
          else if now > user.otpExpiresAt.value then (Err(OtpExpired), s)
          else if !VerifyOtp(digest, digits, user.otpCodeHash) then (Err(OtpInvalid), s)
          else
            (Ok(user.(emailVerifiedAt := Some(now), otpCodeHash := "", otpExpiresAt := None)),
             s.(users := VerifyEmail(s.users, user.id, now)))
    }

    function UpsertOAuth(s: State, input: OAuthInput, now: int, id: string): (Result<User, Error>, State) {
      var provider, subject := ToLower(TrimSpace(input.provider)), TrimSpace(input.subject);
      var email, displayName := NormalizeEmail(input.email), TrimSpace(input.displayName);
      if provider == "" || subject == "" then (Err(OAuthInvalid), s)
      else
        var known := ByAuth(s.users, provider, subject);
        if known.Some? then (Ok(s.users[known.value]), s)
        else
          var row := if email == "" then None else ByEmail(s.users, email);
          if row.Some? then
            var user := s.users[row.value];
            var linked := LinkOAuth(s.users, user.id, provider, subject);
            (Ok(user.(authProvider := provider, authSubject := subject, emailVerifiedAt := Some(now),
                      displayName := if displayName != "" && user.displayName == "" then displayName else user.displayName)),
             s.(users := VerifyEmail(linked, user.id, now)))
          else
            var user := NewUser(id, email, displayName, now)
              .(authProvider := provider, authSubject := subject, emailVerifiedAt := Some(now));
            if !CanInsert(s.users, user) then (Err(InsertFailed), s) else (Ok(user), s.(users := s.users + [user]))
    }

    function Create(s: State, input: CreateUserInput, now: int, id: string, passwordHash: string): (Result<User, Error>, State) {
      var email := NormalizeEmail(input.email);
      if email == "" then (Err(InvalidEmail), s)
      else
        var given := TrimSpace(input.passwordHash);
        var user := User(id, email, TrimSpace(input.displayName), ToLower(TrimSpace(input.authProvider)), TrimSpace(input.authSubject),
                         if given == "" && TrimSpace(input.password) != "" then passwordHash else given,
                         input.emailVerifiedAt, input.otpCodeHash, input.otpExpiresAt, now);
        if !CanInsert(s.users, user) then (Err(InsertFailed), s) else (Ok(user), s.(users := s.users + [user]))
    }
  }

  datatype OAuthInput = OAuthInput(provider: string, subject: string, email: string, displayName: string)

  datatype CreateUserInput = CreateUserInput(
    email: string,
    displayName: string,
    authProvider: string,
    authSubject: string,
    password: string,
    passwordHash: string,
    emailVerifiedAt: Option<int>,
    otpCodeHash: string,
    otpExpiresAt: Option<int>)

  // ---------------------------------------------------------------------------
  // The service object
  // ---------------------------------------------------------------------------

  class UserService {
    var users: Table
    const limiter: Limiter
    const digest: Digest

    ghost predicate Valid()
      reads this, limiter.Parts(), if limiter.Memory? then {limiter.memory} else {}
    { limiter.Valid() }

    ghost function Now(): State
      reads this, limiter.Parts(), if limiter.Memory? then {limiter.memory} else {}
    { State(users, limiter.Remembers()) }

    ghost function Spec(): Service { Service(limiter.Limits(), digest) }

    /** Without a limiter the service makes its own: three codes in memory within a code's lifetime. */
    constructor (given: Option<Limiter>, digest: Digest)
      requires given.Some? ==> given.value.Valid()
      ensures Valid() && this.digest == digest && users == []
      ensures given.Some? ==> limiter == given.value && Now() == State([], old(given.value.Remembers()))
      ensures given.None? ==> fresh(limiter.Parts()) && Spec().limits == InMemory(OTP_TTL, 3) && Now() == State([], NOTHING)
    {
      var chosen;
      if given.Some? {
        chosen := given.value;
      } else {
        var memory := new OtpRateLimiter(OTP_TTL, 3);
        chosen := Memory(memory);
      }
      this.users := [];
      this.limiter := chosen;
      this.digest := digest;
    }

    method RequestOTP(emailAddr: string, displayName: string, now: int, d: Draws) returns (r: Result<User, Error>)
      requires Valid()
      modifies this, limiter.Parts()
      ensures Valid() && fresh(limiter.Parts() - old(limiter.Parts()))
      ensures (r, Now()) == Spec().RequestOtp(old(Now()), emailAddr, displayName, now, d)
    {
      hide TrimSpace, NormalizeEmail, Limits.Admit, Service.Issue;
      var email := NormalizeEmail(emailAddr);
      if email == "" {
        return Err(InvalidEmail);
      }
      var ok := limiter.Allow(email, now, d.server);
      if !ok {
        return Err(RateLimited);
      }
      r := SendCode(email, TrimSpace(displayName), now, d);
    }

    /** The rest of `RequestOTP`, once the limiter has granted it. */
    method SendCode(email: string, displayName: string, now: int, d: Draws) returns (r: Result<User, Error>)
      modifies this`users
      ensures (r, users) == Spec().Issue(old(users), email, displayName, now, d)
    {
      var row := ByEmail(users, email);
      var user;
      if row.None? {
        user := NewUser(d.id, email, displayName, now);
        if !CanInsert(users, user) {
          return Err(InsertFailed);
        }
        users := users + [user];
      } else {
        user := users[row.value];
      }
      var code := SixDigits(d.code);
      var expiresAt := now + OTP_TTL;
      users := UpdateOtp(users, user.id, HashOtp(digest, d.salt, code), expiresAt);
      if !d.mailed {
        return Err(EmailSendFailure);
      }
      return Ok(user.(otpExpiresAt := Some(expiresAt)));
    }

    method VerifyOTP(emailAddr: string, code: string, now: int) returns (r: Result<User, Error>)
      requires Valid()
      modifies this
      ensures Valid() && (r, Now()) == Spec().VerifyOtpCode(old(Now()), emailAddr, code, now)
    {
      hide TrimSpace, NormalizeEmail, IsValidOtpCode, VerifyOtp, VerifyEmail;
      var email := NormalizeEmail(emailAddr);
      var digits := TrimSpace(code);
      if email == "" {
        return Err(InvalidEmail);
      }
      if !IsValidOtpCode(digits) {
        return Err(OtpInvalid);
      }
      var row := ByEmail(users, email);
      if row.None? {
        return Err(UserNotFound);
      }
      var user := users[row.value];
      if user.otpCodeHash == "" || user.otpExpiresAt.None? {
        return Err(OtpNotRequested);
      }
      if now > user.otpExpiresAt.value {
        return Err(OtpExpired);
      }
      if !VerifyOtp(digest, digits, user.otpCodeHash) {
        return Err(OtpInvalid);
      }
      users := VerifyEmail(users, user.id, now);
      return Ok(user.(emailVerifiedAt := Some(now), otpCodeHash := "", otpExpiresAt := None));
    }

    method UpsertOAuthUser(input: OAuthInput, now: int, id: string) returns (r: Result<User, Error>)
      requires Valid()
      modifies this
      ensures Valid() && (r, Now()) == Spec().UpsertOAuth(old(Now()), input, now, id)
    {
      hide ToLower, TrimSpace, NormalizeEmail, VerifyEmail, LinkOAuth, CanInsert;
      var provider := ToLower(TrimSpace(input.provider));
      var subject := TrimSpace(input.subject);
      var email := NormalizeEmail(input.email);
      var displayName := TrimSpace(input.displayName);
      if provider == "" || subject == "" {
        return Err(OAuthInvalid);
      }
      var known := ByAuth(users, provider, subject);
      if known.Some? {
        return Ok(users[known.value]);
      }
      if email != "" {
        var row := ByEmail(users, email);
        if row.Some? {
          var existing := users[row.value];
          users := LinkOAuth(users, existing.id, provider, subject);
          users := VerifyEmail(users, existing.id, now);
          existing := existing.(authProvider := provider, authSubject := subject, emailVerifiedAt := Some(now));
          if displayName != "" && existing.displayName == "" {
            existing := existing.(displayName := displayName);
          }
          return Ok(existing);
        }
      }
      var user := NewUser(id, email, displayName, now)
        .(authProvider := provider, authSubject := subject, emailVerifiedAt := Some(now));
      if !CanInsert(users, user) {
        return Err(InsertFailed);
      }
      users := users + [user];
      return Ok(user);
    }

    method CreateUser(input: CreateUserInput, now: int, id: string, bcrypt: string) returns (r: Result<User, Error>)
      requires Valid()
      modifies this
      ensures Valid() && (r, Now()) == Spec().Create(old(Now()), input, now, id, bcrypt)
    {
      hide TrimSpace, ToLower, NormalizeEmail, CanInsert;
      var email := NormalizeEmail(input.email);
      if email == "" {
        return Err(InvalidEmail);
      }
      var passwordHash := TrimSpace(input.passwordHash);
      if passwordHash == "" && TrimSpace(input.password) != "" {
        passwordHash := bcrypt;
      }
      var user := User(id, email, TrimSpace(input.displayName), ToLower(TrimSpace(input.authProvider)), TrimSpace(input.authSubject),
                       passwordHash, input.emailVerifiedAt, input.otpCodeHash, input.otpExpiresAt, now);
      if !CanInsert(users, user) {
        return Err(InsertFailed);
      }
      users := users + [user];
      return Ok(user);
    }
  }
}
