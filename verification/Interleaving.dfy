/** Concurrent refreshes.  Each store operation is atomic (it runs under the store's mutex), but a
    refresh makes three of them: look up its token, revoke it, store the new one.  A schedule is any
    interleaving of these steps by any number of callers, with logins, logouts and expiries. */
module Interleaving {
  import opened Basics

  /** One refresh call: the token presented and the fresh identifier it will store. */
  datatype Job = Job(token: string, next: string)

  datatype Step =
    | Login(jti: string)
    | Logout(jti: string)
    | Expire(jti: string)
    | Look(caller: nat)
    | Clear(caller: nat)
    | Save(caller: nat)

  datatype Phase = Begun | Found | Cleared | Succeeded | Refused

  datatype State = State(live: set<string>, issued: set<string>, phases: map<nat, Phase>) {
    function Phase(c: nat): Phase { if c in phases then phases[c] else Begun }
  }

  function Apply(jobs: seq<Job>, s: State, step: Step): State
    requires CallerKnown(jobs, step)
  {
    match step
    case Login(jti) => s.(live := s.live + {jti}, issued := s.issued + {jti})
    case Logout(jti) => s.(live := s.live - {jti})
    case Expire(jti) => s.(live := s.live - {jti})
    case Look(c) => s.(phases := s.phases[c := if jobs[c].token in s.live then Found else Refused])
    case Clear(c) => s.(phases := s.phases[c := Cleared], live := s.live - {jobs[c].token})
    case Save(c) =>
      var jti := jobs[c].next;
      s.(phases := s.phases[c := Succeeded], live := s.live + {jti}, issued := s.issued + {jti})
  }

  predicate CallerKnown(jobs: seq<Job>, step: Step) {
    (step.Look? || step.Clear? || step.Save?) ==> step.caller < |jobs|
  }

  /** A caller takes its steps in order; identifiers are fresh; tokens presented were issued. */
  predicate Enabled(jobs: seq<Job>, s: State, step: Step) {
    CallerKnown(jobs, step) &&
    match step
    case Login(jti) => jti !in s.issued
    case Logout(jti) => jti in s.issued
    case Expire(jti) => jti in s.issued
    case Look(c) => s.Phase(c) == Begun && jobs[c].token in s.issued
    case Clear(c) => s.Phase(c) == Found
    case Save(c) => s.Phase(c) == Cleared && jobs[c].next !in s.issued
  }

  const INITIAL := State({}, {}, map[])

  predicate Legal(jobs: seq<Job>, run: seq<Step>) {
    run != [] ==> Legal(jobs, Front(run)) && Enabled(jobs, After(jobs, Front(run)), Last(run))
  }

  function After(jobs: seq<Job>, run: seq<Step>): State {
    if run == [] then INITIAL
    else if !CallerKnown(jobs, Last(run)) then After(jobs, Front(run))
    else Apply(jobs, After(jobs, Front(run)), Last(run))
  }

  // ---------------------------------------------------------------------------
  // The history
  // ---------------------------------------------------------------------------

  predicate Issues(jobs: seq<Job>, step: Step, jti: string) {
    || step == Login(jti)
    || (step.Save? && step.caller < |jobs| && jobs[step.caller].next == jti)
  }

  predicate Removes(jobs: seq<Job>, step: Step, jti: string) {
    || step == Logout(jti) || step == Expire(jti)
    || (step.Clear? && step.caller < |jobs| && jobs[step.caller].token == jti)
  }

  predicate EverIssued(jobs: seq<Job>, run: seq<Step>, jti: string) {
    exists i :: 0 <= i < |run| && Issues(jobs, run[i], jti)
  }

  predicate EverRemoved(jobs: seq<Job>, run: seq<Step>, jti: string) {
    exists i :: 0 <= i < |run| && Removes(jobs, run[i], jti)
  }

  /** A token is in the store exactly when some step of the history stored it and none removed it:
      nothing removed ever comes back, whatever the schedule. */
  lemma {:induction false} LiveIsHistory(jobs: seq<Job>, run: seq<Step>, jti: string)
    requires Legal(jobs, run)
    ensures jti in After(jobs, run).issued <==> EverIssued(jobs, run, jti)
    ensures jti in After(jobs, run).live <==> EverIssued(jobs, run, jti) && !EverRemoved(jobs, run, jti)
    ensures EverRemoved(jobs, run, jti) ==> EverIssued(jobs, run, jti)
    ensures FoundWasIssued(jobs, After(jobs, run))
  {
    if run != [] {
      LiveIsHistory(jobs, Front(run), jti);
      EverByLast(jobs, run, jti);
    }
  }

  /** A caller past its look-up holds a token that was issued. */
  ghost predicate FoundWasIssued(jobs: seq<Job>, s: State) {
    forall c :: 0 <= c < |jobs| && s.Phase(c) != Begun ==> jobs[c].token in s.issued
  }

  lemma EverByLast(jobs: seq<Job>, run: seq<Step>, jti: string)
    requires run != []
    ensures EverIssued(jobs, run, jti) <==> EverIssued(jobs, Front(run), jti) || Issues(jobs, Last(run), jti)
    ensures EverRemoved(jobs, run, jti) <==> EverRemoved(jobs, Front(run), jti) || Removes(jobs, Last(run), jti)
  {
    var n := |run| - 1;
    assert run[n] == Last(run) && forall i :: 0 <= i < n ==> Front(run)[i] == run[i];
  }

  // ---------------------------------------------------------------------------
  // Outcomes
  // ---------------------------------------------------------------------------

  lemma {:induction false} LegalPrefix(jobs: seq<Job>, run: seq<Step>, n: nat)
    requires Legal(jobs, run) && n <= |run|
    ensures Legal(jobs, run[..n])
    ensures n < |run| ==> Enabled(jobs, After(jobs, run[..n]), run[n])
  {
    if n == |run| {
      assert run[..n] == run;
    } else if n < |run| - 1 {
      LegalPrefix(jobs, Front(run), n);
      assert Front(run)[..n] == run[..n];
    }
  }

  /** After its look-up a caller is refused for good or never refused at all. */
  lemma {:induction false} LookDecides(jobs: seq<Job>, run: seq<Step>, i: nat)
    requires Legal(jobs, run) && i < |run| && run[i].Look?
    ensures var c := run[i].caller;
            && c < |jobs|
            && After(jobs, run).Phase(c) != Begun
            && (After(jobs, run).Phase(c) != Refused <==> jobs[c].token in After(jobs, run[..i]).live)
  {
    if i == |run| - 1 {
      assert run[..i] == Front(run);
    } else {
      LookDecides(jobs, Front(run), i);
      assert Front(run)[..i] == run[..i];
    }
  }

  /** Exact outcome: a refresh is let through if and only if at its look-up the token had been
      issued and neither revoked nor expired, in that schedule. */
  lemma OutcomeIsExact(jobs: seq<Job>, run: seq<Step>, i: nat)
    requires Legal(jobs, run) && i < |run| && run[i].Look?
    ensures var c := run[i].caller;
            c < |jobs| && (After(jobs, run).Phase(c) != Refused <==> !EverRemoved(jobs, run[..i], jobs[c].token))
  {
    LookDecides(jobs, run, i);
    LegalPrefix(jobs, run, i);
    LiveIsHistory(jobs, run[..i], jobs[run[i].caller].token);
  }

  /** No refresh whose look-up follows a completed revocation of its token succeeds, whatever the schedule. */
  lemma NoSuccessAfterRevocation(jobs: seq<Job>, run: seq<Step>, i: nat, j: nat)
    requires Legal(jobs, run) && i < j < |run| && run[j].Look?
    requires run[j].caller < |jobs| && Removes(jobs, run[i], jobs[run[j].caller].token)
    ensures After(jobs, run).Phase(run[j].caller) == Refused
  {
    assert run[..j][i] == run[i];
    OutcomeIsExact(jobs, run, j);
  }

  /** Two calls on one token can both succeed only if each looked it up before the other revoked it. */
  lemma SuccessesOverlap(jobs: seq<Job>, run: seq<Step>, i: nat, j: nat)
    requires Legal(jobs, run) && i < |run| && j < |run|
    requires run[i].Clear? && run[j].Look?
    requires run[i].caller < |jobs| && run[j].caller < |jobs|
    requires jobs[run[i].caller].token == jobs[run[j].caller].token
    requires After(jobs, run).Phase(run[j].caller) == Succeeded
    ensures j < i
  {
    if i < j {
      NoSuccessAfterRevocation(jobs, run, i, j);
    }
  }

  /** Exactly when at most once fails: two calls on one token are both let through if and only if
      nothing had removed the token before the later of their look-ups. */
  lemma BothPassIff(jobs: seq<Job>, run: seq<Step>, i: nat, j: nat)
    requires Legal(jobs, run) && i < j < |run| && run[i].Look? && run[j].Look?
    requires run[i].caller < |jobs| && run[j].caller < |jobs|
    requires jobs[run[i].caller].token == jobs[run[j].caller].token
    ensures After(jobs, run).Phase(run[i].caller) != Refused && After(jobs, run).Phase(run[j].caller) != Refused
            <==> !EverRemoved(jobs, run[..j], jobs[run[j].caller].token)
  {
    hide After, Legal, Removes;
    OutcomeIsExact(jobs, run, i);
    OutcomeIsExact(jobs, run, j);
    assert forall k :: 0 <= k < i ==> run[..j][k] == run[..i][k];
  }

  /** At most once does not hold for overlapping calls: two callers that both look before either
      revokes both succeed, and two tokens then descend from one. */
  lemma OverlapRedeemsTwice(token: string, a: string, b: string) returns (jobs: seq<Job>, run: seq<Step>)
    requires token != a && token != b && a != b
    ensures jobs == [Job(token, a), Job(token, b)] && Legal(jobs, run)
    ensures After(jobs, run).Phase(0) == Succeeded && After(jobs, run).Phase(1) == Succeeded
    ensures After(jobs, run).live == {a, b}
  {
    hide After, Legal;
    jobs := [Job(token, a), Job(token, b)];
    NothingYet(jobs);
    run := Extend(jobs, [], Login(token));
    run := Extend(jobs, run, Look(0));
    run := Extend(jobs, run, Look(1));
    run := Extend(jobs, run, Clear(0));
    run := Extend(jobs, run, Clear(1));
    run := Extend(jobs, run, Save(0));
    run := Extend(jobs, run, Save(1));
  }

  lemma NothingYet(jobs: seq<Job>)
    ensures Legal(jobs, []) && After(jobs, []) == INITIAL
  {
  }

  lemma Extend(jobs: seq<Job>, run: seq<Step>, step: Step) returns (next: seq<Step>)
    requires Legal(jobs, run) && Enabled(jobs, After(jobs, run), step)
    ensures next == run + [step] && Legal(jobs, next)
    ensures After(jobs, next) == Apply(jobs, After(jobs, run), step)
  {
    next := run + [step];
    assert Front(next) == run;
  }
}
