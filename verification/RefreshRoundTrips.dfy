/** The tokens that are handed out: each refresh token is the history's entry and works until it is spent. */
module RefreshRoundTrips {
  import opened Basics
  import opened RefreshTokens
  import opened Text

  // ---------------------------------------------------------------------------
  // One pair
  // ---------------------------------------------------------------------------

  lemma BlankIsTrimmed(jti: string)
    ensures TrimSpace(jti) != "" ==> jti != ""
  {
  }

  /** The refresh token of a pair is accepted by itself exactly until its expiry, for accounts with an
      identifier, and never as an access token. */
  lemma RefreshTokenParses(cfg: Config, user: Account, signAt: int, jti: string, now: int)
    requires cfg.secret != "" && jti != ""
    ensures var t := cfg.MakePair(user, signAt, jti).refresh;
            && t.Signed? && t.key == cfg.secret && t.claims.id == jti && t.claims.who == IdentityOf(user)
            && cfg.AccessClaims(t, now).Err?
            && (cfg.RefreshClaims(t, now) == Ok(t.claims)
                <==> TrimSpace(user.id) != "" && now < NumericDate(signAt + cfg.refreshTTL))
            && (cfg.RefreshClaims(t, now) == Err(JwtExpired) <==> now >= NumericDate(signAt + cfg.refreshTTL))
  {
    hide TrimSpace, NumericDate, IsValidClaims;
    IssuedClaimsAreValid(user, signAt, cfg.refreshTTL, "refresh", jti);
  }

  /** Round trip: the refresh token of a new pair can be redeemed exactly until its own expiry and the
      store's, and logging out with it removes its entry and no other. */
  lemma GeneratedTokenRefreshes(cfg: Config, items: Items, user: Account, signAt: int, storeAt: int, jti: string, at: Readings, next: string)
    requires cfg.secret != "" && TrimSpace(user.id) != "" && TrimSpace(jti) != ""
    ensures var (first, after) := cfg.Generate(items, user, signAt, storeAt, jti);
            && first.Ok?
            && var t := first.value.refresh;
               && (cfg.Refresh(after, t, at, next).0.Ok?
                   <==> at.parse < NumericDate(signAt + cfg.refreshTTL) && at.lookup <= storeAt + cfg.refreshTTL)
               && cfg.Logout(after, t, at.parse) == if at.parse < NumericDate(signAt + cfg.refreshTTL) then after - {jti} else after
  {
    hide TrimSpace, NumericDate, Config.RefreshClaims, Config.AccessClaims, NewClaims;
    BlankIsTrimmed(jti);
    RefreshTokenParses(cfg, user, signAt, jti, at.parse);
  }

  /** Without a secret nothing is issued, accepted or removed; under a blank identifier nothing is stored. */
  lemma NothingWithoutSecret(cfg: Config, items: Items, user: Account, t: Token, at: Readings, jti: string)
    ensures cfg.secret == "" ==>
              && cfg.Generate(items, user, at.sign, at.store, jti) == (Err(JwtInvalid), items)
              && cfg.Refresh(items, t, at, jti) == (Err(JwtInvalid), items)
              && cfg.Logout(items, t, at.parse) == items && cfg.AccessClaims(t, at.parse) == Err(JwtInvalid)
    ensures TrimSpace(jti) == "" ==> cfg.Generate(items, user, at.sign, at.store, jti).1 == items
  {
    hide TrimSpace;
  }

  /** After a look-up an entry is in the store exactly when it was found, and no other entry has moved. */
  lemma LookupPurges(items: Items, jti: string, now: int, other: string)
    ensures jti in AfterExists(items, jti, now) <==> Holds(items, jti, now)
    ensures Holds(items, jti, now) <==> jti in items && now <= items[jti]
    ensures other != jti ==> (other in AfterExists(items, jti, now) <==> other in items)
                             && (other in items ==> AfterExists(items, jti, now)[other] == items[other])
  {
  }

  /** A pair announces its access token's lifetime in whole seconds. */
  lemma LifetimeIsAnnounced(cfg: Config, user: Account, signAt: int, jti: string)
    ensures var p := cfg.MakePair(user, signAt, jti);
            && p.expiresIn * SECOND <= cfg.accessTTL < (p.expiresIn + 1) * SECOND
            && p.access.claims.expiresAt - p.access.claims.issuedAt in {p.expiresIn * SECOND, (p.expiresIn + 1) * SECOND}
            && p.access.claims.issuedAt <= signAt < p.access.claims.issuedAt + SECOND
  {
  }

  /** What a token must say to be accepted. */
  lemma AcceptedIff(cfg: Config, t: Token, typ: string, now: int)
    requires typ == "access" || typ == "refresh"
    ensures (if typ == "access" then cfg.AccessClaims(t, now) else cfg.RefreshClaims(t, now)).Ok? <==>
            && cfg.secret != "" && t.Signed? && t.key == cfg.secret && now < t.claims.expiresAt && t.claims.typ == typ
            && TrimSpace(t.claims.who.uid) != "" && t.claims.subject == t.claims.who.uid && TrimSpace(t.claims.issuer) == "clone-llm"
            && (typ == "refresh" ==> t.claims.id != "")
  {
    hide TrimSpace;
  }

  /** A refresh is answered with "expired" exactly for an expired token under the service's key, and every other
      refusal with "invalid". */
  lemma ExpiredIff(cfg: Config, items: Items, t: Token, at: Readings, next: string)
    ensures var r := cfg.Refresh(items, t, at, next).0;
            r == Err(JwtExpired) <==> cfg.secret != "" && t.Signed? && t.key == cfg.secret && at.parse >= t.claims.expiresAt
  {
    hide TrimSpace, IsValidClaims;
  }

  // ---------------------------------------------------------------------------
  // Runs
  // ---------------------------------------------------------------------------

  /** The event hands out a pair. */
  predicate HandsOut(cfg: Config, items: Items, e: Event) { !e.Revoke? && Step(cfg, items, e).0.Ok? }

  function Handed(cfg: Config, items: Items, e: Event): Token
    requires HandsOut(cfg, items, e)
  { Step(cfg, items, e).0.value.refresh }

  /** The event redeems or revokes the token of this identifier. */
  predicate Spends(cfg: Config, l: Ledger, e: Event, jti: string) {
    || (e.Rotate? && Accepts(cfg, l, e.token, e.at) && e.token.claims.id == jti)
    || (e.Revoke? && cfg.RefreshClaims(e.token, e.parseAt).Ok? && e.token.claims.id == jti)
  }

  /** The pair handed out by the last event of a run is the history's live entry. */
  lemma HandedIsEntry(cfg: Config, run: seq<Event>)
    requires Orderly(cfg, run) && run != [] && HandsOut(cfg, ItemsAfter(cfg, Front(run)), Last(run))
    ensures var t, l := Handed(cfg, ItemsAfter(cfg, Front(run)), Last(run)), LedgerAfter(cfg, run);
            && t == Signed(t.claims, cfg.secret) && t.claims.id == Last(run).jti && t.claims.typ == "refresh"
            && t.claims.id in l && Alive(l, t.claims.id) && l[t.claims.id].claims == t.claims
  {
    hide TrimSpace, NumericDate, Accepts, Genuine, IsValidClaims, Holds;
    var front, e := Front(run), Last(run);
    if e.Rotate? {
      assert run == front + [e];
      AnswerIsLedger(cfg, front, e.token, e.at, e.jti);
      AcceptedClaims(cfg, LedgerAfter(cfg, front), e);
    }
  }

  lemma AcceptedClaims(cfg: Config, l: Ledger, e: Event)
    requires e.Rotate? && Accepts(cfg, l, e.token, e.at)
    ensures cfg.RefreshClaims(e.token, e.at.parse) == Ok(e.token.claims) && cfg.secret != ""
  {
    hide IsValidClaims;
  }

  /** Entries stay, and live until they are spent. */
  lemma RecordKeepsEntry(cfg: Config, l: Ledger, e: Event, jti: string)
    requires Admissible(cfg, l, e) && jti in l
    ensures var after := Record(cfg, l, e);
            jti in after && after[jti].claims == l[jti].claims
            && (Alive(after, jti) <==> Alive(l, jti) && !Spends(cfg, l, e, jti))
  {
    hide TrimSpace, NumericDate, Genuine, NewClaims, IsValidClaims;
  }

  lemma OrderlyStep(cfg: Config, run: seq<Event>)
    requires Orderly(cfg, run) && run != []
    ensures Orderly(cfg, Front(run)) && Admissible(cfg, LedgerAfter(cfg, Front(run)), Last(run))
    ensures LedgerAfter(cfg, run) == Record(cfg, LedgerAfter(cfg, Front(run)), Last(run))
  {
  }

  /** Until when a handed-out token lives: until some later event redeems or revokes it. */
  lemma {:induction false} LivesUntilSpent(cfg: Config, run: seq<Event>, i: nat)
    requires Orderly(cfg, run) && i < |run| && HandsOut(cfg, ItemsAfter(cfg, run[..i]), run[i])
    ensures var t, l := Handed(cfg, ItemsAfter(cfg, run[..i]), run[i]), LedgerAfter(cfg, run);
            && t == Signed(t.claims, cfg.secret) && t.claims.typ == "refresh"
            && t.claims.id in l && l[t.claims.id].claims == t.claims
            && (Alive(l, t.claims.id) <==>
                forall j :: i < j < |run| ==> !Spends(cfg, LedgerAfter(cfg, run[..j]), run[j], t.claims.id))
  {
    hide HandsOut, Handed, Spends, Admissible, Record, Alive, LedgerAfter, ItemsAfter, Orderly;
    var n := |run| - 1;
    assert run[..n] == Front(run) && run[n] == Last(run);
    if i == n {
      HandedIsEntry(cfg, run);
    } else {
      OrderlyStep(cfg, run);
      assert Front(run)[..i] == run[..i] && forall j :: i < j < n ==> Front(run)[..j] == run[..j] && Front(run)[j] == run[j];
      LivesUntilSpent(cfg, Front(run), i);
      var t := Handed(cfg, ItemsAfter(cfg, run[..i]), run[i]);
      RecordKeepsEntry(cfg, LedgerAfter(cfg, Front(run)), Last(run), t.claims.id);
    }
  }

  /** Every refresh token that a run hands out may be presented after it, and is accepted, while it has not
      expired, if and only if no event since has redeemed or revoked it. */
  lemma HandedTokenWorksUntilSpent(cfg: Config, run: seq<Event>, i: nat, at: Readings, jti: string)
    requires Orderly(cfg, run) && i < |run|
    requires at.Ordered() && Ends(Last(run)) <= at.parse && TrimSpace(jti) != "" && jti !in LedgerAfter(cfg, run)
    ensures HandsOut(cfg, ItemsAfter(cfg, run[..i]), run[i]) ==>
              var t := Handed(cfg, ItemsAfter(cfg, run[..i]), run[i]);
              && Orderly(cfg, run + [Rotate(t, at, jti)])
              && (TrimSpace(t.claims.who.uid) != "" && at.lookup < t.claims.expiresAt ==>
                  (Answer(cfg, run, t, at, jti).Ok? <==>
                   forall j :: i < j < |run| ==> !Spends(cfg, LedgerAfter(cfg, run[..j]), run[j], t.claims.id)))
  {
    hide Handed, HandsOut, Spends, TrimSpace, Config.RefreshClaims, Answer, LedgerAfter, ItemsAfter;
    if !HandsOut(cfg, ItemsAfter(cfg, run[..i]), run[i]) {
      return;
    }
    var t := Handed(cfg, ItemsAfter(cfg, run[..i]), run[i]);
    LivesUntilSpent(cfg, run, i);
    var e := Rotate(t, at, jti);
    assert Front(run + [e]) == run && Last(run + [e]) == e;
    RefusedOnlyIfSpent(cfg, run, t, at, jti);
    if TrimSpace(t.claims.who.uid) != "" && at.lookup < t.claims.expiresAt {
      EntryIsValid(cfg, run, t.claims.id);
      AcceptedIff(cfg, t, "refresh", at.parse);
    }
  }

  /** An entry's claims name their user and this issuer, and their identifier is not blank. */
  lemma {:induction false} EntryIsValid(cfg: Config, run: seq<Event>, jti: string)
    requires Orderly(cfg, run) && jti in LedgerAfter(cfg, run)
    ensures var c := LedgerAfter(cfg, run)[jti].claims;
            c.subject == c.who.uid && TrimSpace(c.issuer) == "clone-llm" && jti != "" && cfg.secret != ""
  {
    hide NumericDate, Accepts, Genuine, TrimSpace, IsValidClaims;
    var e, l := Last(run), LedgerAfter(cfg, Front(run));
    if jti in l {
      EntryIsValid(cfg, Front(run), jti);
    } else {
      BlankIsTrimmed(jti);
      IssuerIsTrimmed();
      if e.Rotate? && Accepts(cfg, l, e.token, e.at) {
        AcceptedClaims(cfg, l, e);
      }
    }
  }

  lemma IssuerIsTrimmed()
    ensures TrimSpace(ISSUER) == "clone-llm"
  {
    hide TrimSpace, IsSpace;
    assert ISSUER[0] == 'c' && ISSUER[|ISSUER| - 1] == 'm';
    WordCharIsNoSpace('c');
    WordCharIsNoSpace('m');
    TrimmedStays(ISSUER);
  }
}
