/** JWT pairs over the in-memory refresh token store, whose entries expire lazily.
    Times are integer nanoseconds. */
module RefreshTokens {
  import opened Basics
  import opened Text

  const ISSUER: string := "clone-llm"

  datatype Error = JwtInvalid | JwtExpired

  // ---------------------------------------------------------------------------
  // The store
  // ---------------------------------------------------------------------------

  type Items = map<string, int>

  function StoreItem(items: Items, jti: string, deadline: int): Items {
    if TrimSpace(jti) == "" then items else items[jti := deadline]
  }

  predicate Holds(items: Items, jti: string, now: int) { jti in items && now <= items[jti] }

  /** A look-up drops the entry when it has expired. */
  function AfterExists(items: Items, jti: string, now: int): Items {
    if jti in items && now > items[jti] then items - {jti} else items
  }

  class MemoryRefreshTokenStore {
    var items: Items

    constructor ()
      ensures items == map[]
    {
      items := map[];
    }

    method Store(jti: string, ttl: int, now: int)
      modifies this
      ensures items == StoreItem(old(items), jti, now + ttl)
    {
      if TrimSpace(jti) == "" {
        return;
      }
      items := items[jti := now + ttl];
    }

    method Exists(jti: string, now: int) returns (ok: bool)
      modifies this
      ensures ok == Holds(old(items), jti, now) && items == AfterExists(old(items), jti, now)
    {
      if jti !in items {
        return false;
      }
      var exp := items[jti];
      if now > exp {
        items := items - {jti};
        return false;
      }
      return true;
    }

    method Revoke(jti: string)
      modifies this
      ensures items == old(items) - {jti}
    {
      items := items - {jti};
    }
  }

  // ---------------------------------------------------------------------------
  // Tokens
  // ---------------------------------------------------------------------------

  datatype Account = Account(id: string, email: string, displayName: string, authProvider: string, verifiedAt: Option<int>)

  /** What a token says about its user. */
  datatype Identity = Identity(uid: string, email: string, displayName: string, authProvider: string, emailVerified: bool)

  function IdentityOf(a: Account): Identity {
    Identity(a.id, a.email, a.displayName, a.authProvider, a.verifiedAt.Some?)
  }

  datatype Claims = Claims(who: Identity, typ: string, id: string, issuer: string, subject: string, issuedAt: int, expiresAt: int)

  /** A token string: claims under an HMAC key, or anything else. */
  datatype Token = Signed(claims: Claims, key: string) | Malformed(text: string)

  /** JWT dates have whole seconds. */
  function NumericDate(t: int): int { t / SECOND * SECOND }

  function NewClaims(user: Account, now: int, ttl: int, typ: string, id: string): Claims {
    Claims(IdentityOf(user), typ, id, ISSUER, user.id, NumericDate(now), NumericDate(now + ttl))
  }

  function ParseToken(t: Token, key: string, now: int): Result<Claims, Error> {
    if t.Malformed? || t.key != key then Err(JwtInvalid)
    else if now < t.claims.expiresAt then Ok(t.claims)
    else Err(JwtExpired)
  }

  predicate IsValidClaims(c: Claims) {
    && TrimSpace(c.who.uid) != "" && TrimSpace(c.subject) != ""
    && c.subject == c.who.uid && TrimSpace(c.issuer) == ISSUER
  }

  datatype Pair = Pair(access: Token, refresh: Token, expiresIn: int)

  /** The successive clock readings of one refresh: parsing, look-up, signing, storing. */
  datatype Readings = Readings(parse: int, lookup: int, sign: int, store: int) {
    predicate Ordered() { parse <= lookup <= sign <= store }
  }

  /** The configuration of the service. */
  datatype Config = Config(secret: string, accessTTL: int, refreshTTL: int) {
    function MakePair(user: Account, signAt: int, jti: string): Pair {
      Pair(Signed(NewClaims(user, signAt, accessTTL, "access", ""), secret),
           Signed(NewClaims(user, signAt, refreshTTL, "refresh", jti), secret),
           accessTTL / SECOND)
    }

    /** The claims that a refresh or a logout acts on. */
    function RefreshClaims(t: Token, now: int): Result<Claims, Error> {
      var parsed := ParseToken(t, secret, now);
      if secret == "" then Err(JwtInvalid)
      else if parsed.Err? then parsed
      else if parsed.value.typ != "refresh" || !IsValidClaims(parsed.value) || parsed.value.id == "" then Err(JwtInvalid)
      else parsed
    }

    function AccessClaims(t: Token, now: int): Result<Claims, Error> {
      var parsed := ParseToken(t, secret, now);
      if secret == "" then Err(JwtInvalid)
      else if parsed.Err? then parsed
      else if parsed.value.typ != "access" || !IsValidClaims(parsed.value) then Err(JwtInvalid)
      else parsed
    }

    function Generate(items: Items, user: Account, signAt: int, storeAt: int, jti: string): (Result<Pair, Error>, Items) {
      if secret == "" then (Err(JwtInvalid), items)
      else (Ok(MakePair(user, signAt, jti)), StoreItem(items, jti, storeAt + refreshTTL))
    }

    function Refresh(items: Items, t: Token, at: Readings, jti: string): (Result<Pair, Error>, Items) {
      var c := RefreshClaims(t, at.parse);
      if c.Err? then (Err(c.error), items)
      else if !Holds(items, c.value.id, at.lookup) then (Err(JwtInvalid), AfterExists(items, c.value.id, at.lookup))
      else Generate(items - {c.value.id}, AccountOf(c.value, at.sign), at.sign, at.store, jti)
    }

    function Logout(items: Items, t: Token, now: int): Items {
      var c := RefreshClaims(t, now);
      if c.Err? then items else items - {c.value.id}
    }
  }

  function AccountOf(c: Claims, now: int): Account {
    Account(c.who.uid, c.who.email, c.who.displayName, c.who.authProvider, if c.who.emailVerified then Some(now) else None)
  }

  class JWTService {
    const config: Config
    const store: MemoryRefreshTokenStore

    constructor (secret: string, accessTTL: int, refreshTTL: int, store: MemoryRefreshTokenStore)
      ensures this.store == store && config.secret == secret
      ensures config.accessTTL == if accessTTL <= 0 then 15 * MINUTE else accessTTL
      ensures config.refreshTTL == if refreshTTL <= 0 then 30 * 24 * 60 * MINUTE else refreshTTL
    {
      this.store := store;
      this.config := Config(secret,
                            if accessTTL <= 0 then 15 * MINUTE else accessTTL,
                            if refreshTTL <= 0 then 30 * 24 * 60 * MINUTE else refreshTTL);
    }

    method GeneratePair(user: Account, signAt: int, storeAt: int, jti: string) returns (r: Result<Pair, Error>)
      modifies store
      ensures (r, store.items) == config.Generate(old(store.items), user, signAt, storeAt, jti)
    {
      if config.secret == "" {
        return Err(JwtInvalid);
      }
      var access := Signed(NewClaims(user, signAt, config.accessTTL, "access", ""), config.secret);
      var refresh := Signed(NewClaims(user, signAt, config.refreshTTL, "refresh", jti), config.secret);
      store.Store(jti, config.refreshTTL, storeAt);
      return Ok(Pair(access, refresh, config.accessTTL / SECOND));
    }

    method RefreshPair(refreshToken: Token, at: Readings, jti: string) returns (r: Result<Pair, Error>)
      modifies store
      ensures (r, store.items) == config.Refresh(old(store.items), refreshToken, at, jti)
    {
      if config.secret == "" {
        return Err(JwtInvalid);
      }
      var parsed := ParseToken(refreshToken, config.secret, at.parse);
      if parsed.Err? {
        return Err(parsed.error);
      }
      var claims := parsed.value;
      if claims.typ != "refresh" {
        return Err(JwtInvalid);
      }
      if !IsValidClaims(claims) {
        return Err(JwtInvalid);
      }
      if claims.id == "" {
        return Err(JwtInvalid);
      }
      var ok := store.Exists(claims.id, at.lookup);
      if !ok {
        return Err(JwtInvalid);
      }
      store.Revoke(claims.id);
      var user := Account(claims.who.uid, claims.who.email, claims.who.displayName, claims.who.authProvider, None);
      if claims.who.emailVerified {
        user := user.(verifiedAt := Some(at.sign));
      }
      r := GeneratePair(user, at.sign, at.store, jti);
    }

    method ParseAccessToken(accessToken: Token, now: int) returns (r: Result<Claims, Error>)
      ensures r == config.AccessClaims(accessToken, now)
    {
      if config.secret == "" {
        return Err(JwtInvalid);
      }
      r := ParseToken(accessToken, config.secret, now);
      if r.Err? {
        return r;
      }
      if r.value.typ != "access" {
        return Err(JwtInvalid);
      }
      if !IsValidClaims(r.value) {
        return Err(JwtInvalid);
      }
    }

    method RevokeRefresh(refreshToken: Token, now: int) returns (r: Result<(), Error>)
      modifies store
      ensures store.items == config.Logout(old(store.items), refreshToken, now)
      ensures var c := config.RefreshClaims(refreshToken, now);
              r == if c.Err? then Err(c.error) else Ok(())
    {
      if config.secret == "" {
        return Err(JwtInvalid);
      }
      var parsed := ParseToken(refreshToken, config.secret, now);
      if parsed.Err? {
        return Err(parsed.error);
      }
      var claims := parsed.value;
      if !IsValidClaims(claims) {
        return Err(JwtInvalid);
      }
      if claims.typ != "refresh" || claims.id == "" {
        return Err(JwtInvalid);
      }
      store.Revoke(claims.id);
      return Ok(());
    }
  }

  // ---------------------------------------------------------------------------
  // Runs of the service
  // ---------------------------------------------------------------------------

  datatype Event =
    | Login(user: Account, signAt: int, storeAt: int, jti: string)
    | Rotate(token: Token, at: Readings, jti: string)
    | Revoke(token: Token, parseAt: int)

  function Step(cfg: Config, items: Items, e: Event): (Result<Pair, Error>, Items) {
    match e
    case Login(user, signAt, storeAt, jti) => cfg.Generate(items, user, signAt, storeAt, jti)
    case Rotate(token, at, jti) => cfg.Refresh(items, token, at, jti)
    case Revoke(token, parseAt) => (Err(JwtInvalid), cfg.Logout(items, token, parseAt))
  }

  /** The store after a run that starts with an empty one. */
  function ItemsAfter(cfg: Config, run: seq<Event>): Items {
    if run == [] then map[] else Step(cfg, ItemsAfter(cfg, Front(run)), Last(run)).1
  }

  // ---------------------------------------------------------------------------
  // The ledger: a history of refresh tokens from which nothing is ever deleted
  // ---------------------------------------------------------------------------

  datatype Entry = Entry(claims: Claims, deadline: int, root: string, alive: bool)

  type Ledger = map<string, Entry>

  /** Issued and neither redeemed nor revoked. */
  predicate Alive(l: Ledger, jti: string) { jti in l && l[jti].alive }

  /** A refresh succeeds, as far as the history is concerned. */
  predicate Accepts(cfg: Config, l: Ledger, t: Token, at: Readings) {
    var c := cfg.RefreshClaims(t, at.parse);
    c.Ok? && Alive(l, c.value.id) && at.lookup <= l[c.value.id].deadline
  }

  function Spend(l: Ledger, jti: string): Ledger {
    if jti in l then l[jti := l[jti].(alive := false)] else l
  }

  function Enter(cfg: Config, l: Ledger, user: Account, signAt: int, storeAt: int, jti: string, root: string): Ledger {
    l[jti := Entry(NewClaims(user, signAt, cfg.refreshTTL, "refresh", jti), storeAt + cfg.refreshTTL, root, true)]
  }

  function Record(cfg: Config, l: Ledger, e: Event): Ledger {
    match e
    case Login(user, signAt, storeAt, jti) => if cfg.secret == "" then l else Enter(cfg, l, user, signAt, storeAt, jti, jti)
    case Rotate(token, at, jti) =>
      if !Accepts(cfg, l, token, at) then l
      else
        var c := token.claims;
        Enter(cfg, Spend(l, c.id), AccountOf(c, at.sign), at.sign, at.store, jti, l[c.id].root)
    case Revoke(token, parseAt) =>
      var c := cfg.RefreshClaims(token, parseAt);
      if c.Err? then l else Spend(l, c.value.id)
  }

  function LedgerAfter(cfg: Config, run: seq<Event>): Ledger {
    if run == [] then map[] else Record(cfg, LedgerAfter(cfg, Front(run)), Last(run))
  }

  // ---------------------------------------------------------------------------
  // Which runs are considered
  // ---------------------------------------------------------------------------

  function Begins(e: Event): int {
    match e
    case Login(_, signAt, _, _) => signAt
    case Rotate(_, at, _) => at.parse
    case Revoke(_, parseAt) => parseAt
  }

  function Ends(e: Event): int {
    match e
    case Login(_, _, storeAt, _) => storeAt
    case Rotate(_, at, _) => at.store
    case Revoke(_, parseAt) => parseAt
  }

  /** Signatures cannot be forged: a token under the service's key was issued by it. */
  predicate Genuine(cfg: Config, l: Ledger, t: Token) {
    t.Signed? && t.key == cfg.secret && t.claims.typ == "refresh" ==> t.claims.id in l && l[t.claims.id].claims == t.claims
  }

  /** Identifiers are fresh and the tokens presented are genuine. */
  predicate Admissible(cfg: Config, l: Ledger, e: Event) {
    && (e.Login? ==> TrimSpace(e.jti) != "" && e.jti !in l && e.signAt <= e.storeAt)
    && (e.Rotate? ==> TrimSpace(e.jti) != "" && e.jti !in l && e.at.Ordered() && Genuine(cfg, l, e.token))
    && (e.Revoke? ==> Genuine(cfg, l, e.token))
  }

  predicate Orderly(cfg: Config, run: seq<Event>) {
    run != [] ==>
      && Orderly(cfg, Front(run))
      && Admissible(cfg, LedgerAfter(cfg, Front(run)), Last(run))
      && (Front(run) != [] ==> Ends(Last(Front(run))) <= Begins(Last(run)))
  }

  // ---------------------------------------------------------------------------
  // Lazy expiry refines the ledger
  // ---------------------------------------------------------------------------

  /** The store holds only live entries with their deadlines, and lacks a live one only when that
      has expired by `now`. */
  ghost predicate Agrees(items: Items, l: Ledger, now: int) {
    && (forall j :: j in items ==> Alive(l, j) && items[j] == l[j].deadline)
    && (forall j :: Alive(l, j) && now <= l[j].deadline ==> j in items)
  }

  lemma AgreesLater(items: Items, l: Ledger, now: int, later: int)
    requires Agrees(items, l, now) && now <= later
    ensures Agrees(items, l, later)
  {
  }

  lemma AgreesAfterLookup(items: Items, l: Ledger, jti: string, now: int, later: int)
    requires Agrees(items, l, now) && now <= later
    ensures Agrees(AfterExists(items, jti, later), l, later)
    ensures Holds(items, jti, later) <==> Alive(l, jti) && later <= l[jti].deadline
  {
  }

  lemma AgreesAfterSpend(items: Items, l: Ledger, jti: string, now: int)
    requires Agrees(items, l, now)
    ensures Agrees(items - {jti}, Spend(l, jti), now)
  {
  }

  lemma AgreesAfterEnter(cfg: Config, items: Items, l: Ledger, user: Account, signAt: int, storeAt: int, jti: string, root: string, now: int)
    requires Agrees(items, l, now) && TrimSpace(jti) != "" && now <= storeAt
    ensures Agrees(StoreItem(items, jti, storeAt + cfg.refreshTTL), Enter(cfg, l, user, signAt, storeAt, jti, root), storeAt)
  {
  }

  lemma RotateAgrees(cfg: Config, items: Items, l: Ledger, e: Event, now: int)
    requires Agrees(items, l, now) && Admissible(cfg, l, e) && now <= Begins(e) && e.Rotate?
    ensures Agrees(Step(cfg, items, e).1, Record(cfg, l, e), Ends(e))
    ensures Step(cfg, items, e).0.Ok? <==> Accepts(cfg, l, e.token, e.at)
  {
    hide Agrees, Genuine, IsValidClaims, NewClaims, TrimSpace;
    var c := cfg.RefreshClaims(e.token, e.at.parse);
    if c.Err? {
      AgreesLater(items, l, now, e.at.store);
    } else {
      var id := c.value.id;
      AgreesAfterLookup(items, l, id, now, e.at.lookup);
      if Holds(items, id, e.at.lookup) {
        AgreesAfterSpend(items, l, id, now);
        AgreesAfterEnter(cfg, items - {id}, Spend(l, id), AccountOf(c.value, e.at.sign), e.at.sign, e.at.store, e.jti, l[id].root, now);
      } else {
        AgreesLater(AfterExists(items, id, e.at.lookup), l, e.at.lookup, e.at.store);
      }
    }
  }

  lemma LoginAgrees(cfg: Config, items: Items, l: Ledger, e: Event, now: int)
    requires Agrees(items, l, now) && Admissible(cfg, l, e) && now <= Begins(e) && e.Login?
    ensures Agrees(Step(cfg, items, e).1, Record(cfg, l, e), Ends(e))
  {
    hide Agrees, NewClaims, TrimSpace, StoreItem, Enter, Config.MakePair;
    AgreesLater(items, l, now, e.storeAt);
    if cfg.secret != "" {
      AgreesAfterEnter(cfg, items, l, e.user, e.signAt, e.storeAt, e.jti, e.jti, now);
    }
  }

  lemma RevokeAgrees(cfg: Config, items: Items, l: Ledger, e: Event, now: int)
    requires Agrees(items, l, now) && now <= Begins(e) && e.Revoke?
    ensures Agrees(Step(cfg, items, e).1, Record(cfg, l, e), Ends(e))
  {
    hide Agrees, Spend, Config.RefreshClaims;
    var c := cfg.RefreshClaims(e.token, e.parseAt);
    AgreesLater(items, l, now, e.parseAt);
    if c.Ok? {
      AgreesAfterSpend(items, l, c.value.id, e.parseAt);
    }
  }

  lemma StepAgrees(cfg: Config, items: Items, l: Ledger, e: Event, now: int)
    requires Agrees(items, l, now) && Admissible(cfg, l, e) && now <= Begins(e)
    ensures Agrees(Step(cfg, items, e).1, Record(cfg, l, e), Ends(e))
    ensures e.Rotate? ==> (Step(cfg, items, e).0.Ok? <==> Accepts(cfg, l, e.token, e.at))
  {
    hide *;
    match e
    case Login(_, _, _, _) => LoginAgrees(cfg, items, l, e, now);
    case Rotate(_, _, _) => RotateAgrees(cfg, items, l, e, now);
    case Revoke(_, _) => RevokeAgrees(cfg, items, l, e, now);
  }

  /** In every orderly run the compacted store and the full history answer alike: the store's
      content is the history's, minus what has expired. */
  lemma {:induction false} StoreRefinesLedger(cfg: Config, run: seq<Event>)
    requires Orderly(cfg, run)
    ensures run != [] ==> Agrees(ItemsAfter(cfg, run), LedgerAfter(cfg, run), Ends(Last(run)))
    ensures run == [] ==> forall t :: Agrees(ItemsAfter(cfg, run), LedgerAfter(cfg, run), t)
  {
    if run != [] {
      var front := Front(run);
      StoreRefinesLedger(cfg, front);
      StepAgrees(cfg, ItemsAfter(cfg, front), LedgerAfter(cfg, front), Last(run),
                 if front == [] then Begins(Last(run)) else Ends(Last(front)));
    }
  }

  // ---------------------------------------------------------------------------
  // What a refresh is refused for
  // ---------------------------------------------------------------------------

  /** The answer to the refresh that follows a run. */
  function Answer(cfg: Config, run: seq<Event>, t: Token, at: Readings, jti: string): Result<Pair, Error> {
    cfg.Refresh(ItemsAfter(cfg, run), t, at, jti).0
  }

  lemma AnswerIsLedger(cfg: Config, run: seq<Event>, t: Token, at: Readings, jti: string)
    requires Orderly(cfg, run + [Rotate(t, at, jti)])
    ensures Answer(cfg, run, t, at, jti) == Step(cfg, ItemsAfter(cfg, run), Rotate(t, at, jti)).0
    ensures Answer(cfg, run, t, at, jti).Ok? <==> Accepts(cfg, LedgerAfter(cfg, run), t, at)
  {
    var e := Rotate(t, at, jti);
    assert Front(run + [e]) == run;
    StoreRefinesLedger(cfg, run);
    var now := if run == [] then at.parse else Ends(Last(run));
    StepAgrees(cfg, ItemsAfter(cfg, run), LedgerAfter(cfg, run), e, now);
  }

  lemma WholeSeconds(t: int)
    ensures NumericDate(t) <= t < NumericDate(t) + SECOND && NumericDate(t) % SECOND == 0
  {
  }

  /** Issued tokens expire by themselves no later than their entry in the store does. */
  lemma {:induction false} DeadlinesOutlastClaims(cfg: Config, run: seq<Event>, jti: string)
    requires Orderly(cfg, run) && jti in LedgerAfter(cfg, run)
    ensures var entry := LedgerAfter(cfg, run)[jti];
            && entry.claims.expiresAt <= entry.deadline
            && entry.claims.id == jti && entry.claims.typ == "refresh"
  {
    hide NumericDate, Accepts, Genuine, TrimSpace;
    var e, l := Last(run), LedgerAfter(cfg, Front(run));
    if jti in l {
      DeadlinesOutlastClaims(cfg, Front(run), jti);
    }
    match e
    case Login(_, signAt, storeAt, _) => WholeSeconds(signAt + cfg.refreshTTL);
    case Rotate(_, at, _) => WholeSeconds(at.sign + cfg.refreshTTL);
    case Revoke(_, _) =>
  }

  /** A refresh token that parses, names a user and is looked up before it expires is refused only
      if it was redeemed or revoked before. */
  lemma RefusedOnlyIfSpent(cfg: Config, run: seq<Event>, t: Token, at: Readings, jti: string)
    requires Orderly(cfg, run + [Rotate(t, at, jti)])
    ensures cfg.RefreshClaims(t, at.parse).Ok? && at.lookup < t.claims.expiresAt ==>
              (Answer(cfg, run, t, at, jti).Ok? <==> Alive(LedgerAfter(cfg, run), t.claims.id))
  {
    assert Front(run + [Rotate(t, at, jti)]) == run;
    AnswerIsLedger(cfg, run, t, at, jti);
    if cfg.RefreshClaims(t, at.parse).Ok? {
      DeadlinesOutlastClaims(cfg, run, t.claims.id);
    }
  }

  // ---------------------------------------------------------------------------
  // Rotation conserves sessions
  // ---------------------------------------------------------------------------

  /** How often the run redeemed a refresh token. */
  function Redemptions(cfg: Config, run: seq<Event>, jti: string): nat {
    if run == [] then 0
    else
      var e := Last(run);
      Redemptions(cfg, Front(run), jti) +
      if e.Rotate? && Step(cfg, ItemsAfter(cfg, Front(run)), e).0.Ok? && e.token.claims.id == jti then 1 else 0
  }

  /** Liveness begins only with a fresh identifier and ends with redemption. */
  lemma RecordAndLiveness(cfg: Config, l: Ledger, e: Event, jti: string)
    requires Admissible(cfg, l, e)
    ensures var after := Record(cfg, l, e);
            && (jti in l ==> jti in after)
            && (jti in l && Alive(after, jti) ==> Alive(l, jti))
            && (e.Rotate? && Accepts(cfg, l, e.token, e.at) && e.token.claims.id == jti ==> Alive(l, jti) && !Alive(after, jti))
  {
  }

  /** Each token is redeemed at most once, and never again once it is spent. */
  lemma {:induction false} RedeemedAtMostOnce(cfg: Config, run: seq<Event>, jti: string)
    requires Orderly(cfg, run)
    ensures Redemptions(cfg, run, jti) + (if Alive(LedgerAfter(cfg, run), jti) then 1 else 0) <= 1
    ensures jti !in LedgerAfter(cfg, run) ==> Redemptions(cfg, run, jti) == 0
  {
    hide Record, Accepts, Admissible, Step, Answer, Alive;
    if run != [] {
      var front, e := Front(run), Last(run);
      RedeemedAtMostOnce(cfg, front, jti);
      RecordAndLiveness(cfg, LedgerAfter(cfg, front), e, jti);
      if e.Rotate? {
        assert run == front + [e];
        AnswerIsLedger(cfg, front, e.token, e.at, e.jti);
      }
    }
  }

  /** Every entry descends from a login, whose identity it carries, and no two live entries from
      the same one. */
  ghost predicate Chained(l: Ledger) {
    && (forall j :: j in l ==> FromRoot(l, j))
    && (forall a, b :: Alive(l, a) && Alive(l, b) && a != b ==> l[a].root != l[b].root)
  }

  predicate FromRoot(l: Ledger, j: string)
    requires j in l
  {
    var r := l[j].root;
    r in l && l[r].root == r && l[j].claims.who == l[r].claims.who
  }

  lemma SpendKeepsChains(l: Ledger, jti: string)
    requires Chained(l)
    ensures Chained(Spend(l, jti))
  {
    var after := Spend(l, jti);
    forall j | j in after ensures FromRoot(after, j) {
      assert FromRoot(l, j);
    }
    assert forall j :: Alive(after, j) ==> Alive(l, j) && after[j].root == l[j].root;
  }

  lemma EnterKeepsChains(cfg: Config, l: Ledger, user: Account, signAt: int, storeAt: int, jti: string, root: string)
    requires Chained(l) && jti !in l
    requires root == jti || (root in l && l[root].root == root && l[root].claims.who == IdentityOf(user))
    requires forall j :: Alive(l, j) ==> l[j].root != root
    ensures Chained(Enter(cfg, l, user, signAt, storeAt, jti, root))
  {
    var after := Enter(cfg, l, user, signAt, storeAt, jti, root);
    forall j | j in after ensures FromRoot(after, j) {
      if j != jti {
        assert FromRoot(l, j);
      }
    }
    assert forall j :: Alive(after, j) && j != jti ==> Alive(l, j) && after[j].root == l[j].root;
  }

  lemma ChainedEntry(l: Ledger, jti: string)
    requires Chained(l) && jti in l
    ensures FromRoot(l, jti)
  {
  }

  /** Spending the live token of a chain leaves the chain without one. */
  lemma SpentRoot(l: Ledger, jti: string)
    requires Chained(l) && Alive(l, jti)
    ensures var after := Spend(l, jti);
            && (forall j :: Alive(after, j) ==> after[j].root != l[jti].root)
            && l[jti].root in after && after[l[jti].root].root == l[l[jti].root].root
            && after[l[jti].root].claims == l[l[jti].root].claims
  {
    assert FromRoot(l, jti);
  }

  lemma RotationKeepsChains(cfg: Config, l: Ledger, e: Event)
    requires Chained(l) && Admissible(cfg, l, e)
    requires e.Rotate? && Accepts(cfg, l, e.token, e.at)
    ensures Chained(Record(cfg, l, e))
  {
    hide Chained, TrimSpace, NumericDate;
    var c := e.token.claims;
    var user := AccountOf(c, e.at.sign);
    ChainedEntry(l, c.id);
    SpendKeepsChains(l, c.id);
    SpentRoot(l, c.id);
    assert IdentityOf(user) == c.who == l[c.id].claims.who;
    EnterKeepsChains(cfg, Spend(l, c.id), user, e.at.sign, e.at.store, e.jti, l[c.id].root);
  }

  lemma {:induction false} RunsKeepChains(cfg: Config, run: seq<Event>)
    requires Orderly(cfg, run)
    ensures Chained(LedgerAfter(cfg, run))
  {
    if run != [] {
      var l, e := LedgerAfter(cfg, Front(run)), Last(run);
      RunsKeepChains(cfg, Front(run));
      match e
      case Login(user, signAt, storeAt, jti) =>
        forall j | Alive(l, j) ensures l[j].root != jti {
          assert FromRoot(l, j);
        }
        EnterKeepsChains(cfg, l, user, signAt, storeAt, jti, jti);
      case Rotate(token, at, _) =>
        if Accepts(cfg, l, token, at) {
          RotationKeepsChains(cfg, l, e);
        }
      case Revoke(token, parseAt) =>
        var c := cfg.RefreshClaims(token, parseAt);
        if c.Ok? {
          SpendKeepsChains(l, c.value.id);
        }
    }
  }

  /** At most one live refresh token descends from each login, and the store holds at most one. */
  lemma OneLiveDescendant(cfg: Config, run: seq<Event>, a: string, b: string)
    requires Orderly(cfg, run)
    ensures var l := LedgerAfter(cfg, run);
            Alive(l, a) && Alive(l, b) && l[a].root == l[b].root ==> a == b
    ensures var items, l := ItemsAfter(cfg, run), LedgerAfter(cfg, run);
            a in items && b in items ==> Alive(l, a) && Alive(l, b) && (l[a].root == l[b].root ==> a == b)
  {
    RunsKeepChains(cfg, run);
    StoreRefinesLedger(cfg, run);
  }

  /** Every token of a chain says about its user exactly what the login at its root said. */
  lemma ChainsKeepIdentity(cfg: Config, run: seq<Event>, jti: string)
    requires Orderly(cfg, run) && jti in LedgerAfter(cfg, run)
    ensures var l := LedgerAfter(cfg, run);
            var login := l[jti].root;
            login in l && l[login].root == login && l[jti].claims.who == l[login].claims.who
  {
    RunsKeepChains(cfg, run);
    assert FromRoot(LedgerAfter(cfg, run), jti);
  }

  /** Both tokens of the pair that a refresh returns carry the identity of the redeemed token. */
  lemma PairKeepsIdentity(cfg: Config, items: Items, t: Token, at: Readings, jti: string)
    ensures var r := cfg.Refresh(items, t, at, jti).0;
            r.Ok? ==>
              && r.value.access.claims.who == t.claims.who && r.value.refresh.claims.who == t.claims.who
              && IsValidClaims(r.value.access.claims) && IsValidClaims(r.value.refresh.claims)
  {
  }

  lemma IssuedClaimsAreValid(user: Account, now: int, ttl: int, typ: string, id: string)
    ensures IsValidClaims(NewClaims(user, now, ttl, typ, id)) <==> TrimSpace(user.id) != ""
  {
    assert TrimSpace(ISSUER) == ISSUER by {
      assert Trimmed(ISSUER) by { assert ISSUER[0] == 'c' && ISSUER[|ISSUER| - 1] == 'm'; }
      TrimmedStays(ISSUER);
    }
  }

  /** The access token of a pair is accepted, with the account's identity, exactly until its expiry if
      the account has an identifier, and is never accepted for a refresh. */
  lemma AccessTokenRoundTrip(cfg: Config, user: Account, signAt: int, jti: string, now: int)
    requires cfg.secret != ""
    ensures var access := cfg.MakePair(user, signAt, jti).access;
            && cfg.RefreshClaims(access, now).Err?
            && access.claims.who == IdentityOf(user)
            && (cfg.AccessClaims(access, now) == Ok(access.claims)
                <==> TrimSpace(user.id) != "" && now < NumericDate(signAt + cfg.accessTTL))
  {
    IssuedClaimsAreValid(user, signAt, cfg.accessTTL, "access", "");
  }
}
