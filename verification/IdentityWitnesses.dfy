/** Short runs in which an OAuth login returns what is not stored, and in which one fails. */
module IdentityWitnesses {
  import opened Basics
  import opened Identities
  import opened OtpRounds
  import opened SlidingWindow
  import opened Text
  import opened UserRuns
  import opened Users

  lemma WordsStay()
    ensures ToLower(TrimSpace("google")) == "google" && TrimSpace("ana") == "ana" && TrimSpace("bob") == "bob"
  {
    hide TrimSpace, ToLower;
    WordStays("google");
    WordStays("ana");
    WordStays("bob");
  }

  /** The row that the first code request for an address leaves. */
  function AskedRow(svc: Service): User {
    User("", WHO, "", "", "", "", None, HashOtp(svc.digest, "", SixDigits(0)), Some(OTP_TTL), 0)
  }

  lemma FirstAsk(svc: Service)
    requires svc.limits.InMemory? && svc.limits.window > 0 && svc.limits.max > 0
    ensures After(svc, [Ask(0)]).users == [AskedRow(svc)]
  {
    hide TrimSpace, ToLower, HashOtp, SixDigits;
    WhoIsNormal();
    BlankHasNoAuth();
    assert Front([Ask(0)]) == [] && Recent([], 0 - svc.limits.window) == [];
    assert [] + [NewUser("", WHO, "", 0)] == [NewUser("", WHO, "", 0)];
  }

  /** A code request and then an OAuth login with the same e-mail: the record returned has a display name and
      a code hash that the stored row does not have. */
  lemma ReturnedIsNotStored(svc: Service, id: string)
    requires svc.limits.InMemory? && svc.limits.window > 0 && svc.limits.max > 0
    ensures var (first, after) := Step(svc, After(svc, [Ask(0)]), OAuth(OAuthInput("google", "ana", WHO, "bob"), 1, id));
            && first.Ok? && |after.users| == 1 && after.users[0].id == first.value.id
            && first.value.displayName == "bob" && after.users[0].displayName == ""
            && first.value.otpCodeHash != "" && after.users[0].otpCodeHash == ""
  {
    hide TrimSpace, ToLower, SixDigits, NormalizeEmail;
    FirstAsk(svc);
    WhoIsNormal();
    WordsStay();
    var t := [AskedRow(svc)];
    assert ByEmail(t, WHO) == Some(0) && ByAuth(t, "google", "ana").None?;
    LinkIsPointwise(t, 0, "google", "ana", 1);
  }

  /** An OAuth login and then a direct registration with the same identity and another e-mail: the identity
      belongs to two rows. */
  lemma DirectCreateSharesIdentity(svc: Service, id: string, id2: string)
    requires id != id2
    ensures var s := After(svc, [OAuth(OAuthInput("google", "ana", WHO, ""), 0, id)]);
            var input := CreateUserInput("b", "", "google", "ana", "", "", None, "", None);
            && OneOwner(s.users) && |s.users| == 1 && s.users[0].authSubject == "ana"
            && svc.Create(s, input, 1, id2, "").0.Ok? && !OneOwner(svc.Create(s, input, 1, id2, "").1.users)
  {
    hide TrimSpace, ToLower;
    var e := OAuth(OAuthInput("google", "ana", WHO, ""), 0, id);
    var input := CreateUserInput("b", "", "google", "ana", "", "", None, "", None);
    WordsStay();
    WordStays("b");
    BlankHasNoAuth();
    WhoIsNormal();
    assert Front([e]) == [];
    var s := After(svc, [e]);
    RunsKeepOwners(svc, [e]);
    CreateKeepsOwnersIff(svc, s, input, 1, id2, "");
  }

  /** Two OAuth logins without an e-mail and with different identities: the second fails. */
  lemma SecondBlankEmailFails(svc: Service, id: string, id2: string)
    requires id != id2
    ensures var s := After(svc, [OAuth(OAuthInput("google", "ana", "", ""), 0, id)]);
            && |s.users| == 1
            && Step(svc, s, OAuth(OAuthInput("google", "bob", "", ""), 1, id2)).0 == Err(InsertFailed)
  {
    hide TrimSpace, ToLower;
    var e := OAuth(OAuthInput("google", "ana", "", ""), 0, id);
    WordsStay();
    BlankHasNoAuth();
    assert Front([e]) == [];
  }
}
