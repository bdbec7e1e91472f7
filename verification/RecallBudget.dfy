/** Which memories the judge's budget costs, and in which order the others come. */
module RecallBudget {
  import opened Basics
  import opened Recall
  import opened RecallGuarantees

  // ---------------------------------------------------------------------------
  // What needs no judge
  // ---------------------------------------------------------------------------

  lemma StepPicks(q: Query, l: Loop, sm: Scored)
    ensures var next := Consider(q, l, sm);
            |next.picks| == |l.picks| + 1 && next.picks[..|l.picks|] == l.picks
  {
    hide Direct;
  }

  lemma StepDecides(q: Query, l: Loop, scored: seq<Scored>, i: nat)
    requires i < |scored| && |l.picks| == i && (i > 0 ==> l.topScore == scored[0].score)
    ensures !Contested(q, scored, i) ==> Consider(q, l, scored[i]).picks[i] == Ideal(q, scored, i)
    ensures !Contested(q, scored, i) ==> Consider(q, l, scored[i]).calls == l.calls && Consider(q, l, scored[i]).cache == l.cache
    ensures Contested(q, scored, i) ==> exists top :: Consider(q, l, scored[i]) == Ask(q, l.(topScore := top), scored[i].memory.content)
  {
    hide Direct, Ask, Ideal, Contested;
    var top := if l.picks == [] then scored[i].score else l.topScore;
    DirectIsIdeal(q, scored, i, top);
  }

  /** For every cache and any number of calls spent, a memory that is not left to the judge is decided as in the
      unlimited selection: the budget never touches it. */
  lemma {:induction false} UncontestedIsIdeal(q: Query, cache: Cache, scored: seq<Scored>, n: nat, i: nat)
    requires i < n <= |scored| && !Contested(q, scored, i)
    ensures Select(q, cache, scored[..n]).picks[i] == Ideal(q, scored, i)
    decreases n
  {
    hide Consider, Ideal, Contested;
    var before := Select(q, cache, scored[..n - 1]);
    SelectPrefix(q, cache, scored, n);
    StepPicks(q, before, scored[n - 1]);
    if i == n - 1 {
      if n > 1 {
        TopIsFirst(q, cache, scored, n - 1);
      }
      StepDecides(q, before, scored, i);
    } else {
      UncontestedIsIdeal(q, cache, scored, n - 1, i);
      assert Select(q, cache, scored[..n]).picks[i] == Select(q, cache, scored[..n]).picks[..n - 1][i];
    }
  }

  /** A negative memory whose stored intensity is read as less than 60. */
  predicate FaintTrauma(m: Memory) {
    IsNegativeCategory(m.category) && (m.intensity < 6 || 10 < m.intensity < 60)
  }

  /** In numbers: without a benign intent and past the gap rule, a similarity of 0.62 is always enough and one below
      0.20 never; with a benign intent 0.20 is enough for everything but faint negative memories. */
  lemma UncontestedInNumbers(q: Query, cache: Cache, scored: seq<Scored>, i: nat)
    requires i < |scored|
    ensures var taken, m := Select(q, cache, scored).picks[i], scored[i];
            && (q.benign ==> taken == (m.similarity >= 0.20 && !FaintTrauma(m.memory)))
            && (!q.benign && i == 1 && !q.mixed && scored[0].score - m.score >= 0.08 ==> !taken)
            && (!q.benign && (i != 1 || q.mixed || scored[0].score - m.score < 0.08) ==>
                (m.similarity >= 0.62 ==> taken) && (m.similarity < 0.20 ==> !taken))
  {
    hide Select, IsNegativeCategory;
    assert scored[..|scored|] == scored;
    if !Contested(q, scored, i) {
      UncontestedIsIdeal(q, cache, scored, |scored|, i);
    }
    TraumaInNumbers(scored[i].memory);
  }

  /** What is left to the judge: similarities from 0.20 to below 0.62. */
  lemma ContestedInNumbers(q: Query, scored: seq<Scored>, i: nat)
    requires i < |scored|
    ensures Contested(q, scored, i) <==>
            && !q.benign && 0.20 <= scored[i].similarity < 0.62
            && (i != 1 || q.mixed || scored[0].score - scored[1].score < 0.08)
  {
  }

  lemma TraumaInNumbers(m: Memory)
    ensures ShouldSkipTrauma(m) <==> FaintTrauma(m)
  {
    hide IsNegativeCategory;
  }

  // ---------------------------------------------------------------------------
  // What the budget costs
  // ---------------------------------------------------------------------------

  /** The judge would decide on the memory at `i`. */
  predicate Decidable(q: Query, scored: seq<Scored>, i: nat)
    requires i < |scored|
  {
    Contested(q, scored, i) && q.judge(scored[i].memory.content).Some?
  }

  function KeyAt(q: Query, scored: seq<Scored>, i: nat): string
    requires i < |scored|
  { q.Key(scored[i].memory.content) }

  /** The memory needs a verdict that the judge would give and the cache at the start lacks. */
  predicate Needs(q: Query, cache: Cache, scored: seq<Scored>, i: nat)
    requires i < |scored|
  {
    Decidable(q, scored, i) && KeyAt(q, scored, i) !in cache
  }

  /** The keys of such verdicts among the first `n` memories. */
  function Needed(q: Query, cache: Cache, scored: seq<Scored>, n: nat): set<string>
    requires n <= |scored|
  {
    if n == 0 then {}
    else Needed(q, cache, scored, n - 1) + if Needs(q, cache, scored, n - 1) then {KeyAt(q, scored, n - 1)} else {}
  }

  lemma {:induction false} NeededGrows(q: Query, cache: Cache, scored: seq<Scored>, m: nat, n: nat)
    requires m <= n <= |scored|
    ensures Needed(q, cache, scored, m) <= Needed(q, cache, scored, n)
    ensures Needed(q, cache, scored, n) !! cache.Keys
  {
    hide Needs, KeyAt;
    if m < n {
      NeededGrows(q, cache, scored, m, n - 1);
    } else if n > 0 {
      NeededGrows(q, cache, scored, m - 1, n - 1);
    }
    if n > 0 {
      NeedIsNew(q, cache, scored, n - 1);
    }
  }

  lemma NeedIsNew(q: Query, cache: Cache, scored: seq<Scored>, i: nat)
    requires i < |scored|
    ensures Needs(q, cache, scored, i) ==> KeyAt(q, scored, i) !in cache
  {
  }

  /** What a run has spent and learnt at a memory: one call for each verdict needed so far, up to the budget. */
  ghost predicate Spent(q: Query, cache: Cache, scored: seq<Scored>, n: nat, l: Loop, m: nat)
    requires m <= n <= |scored|
  {
    && l.calls == |Needed(q, cache, scored, m)| <= MAX_JUDGE
    && l.cache.Keys == cache.Keys + Needed(q, cache, scored, m)
    && (l.calls < MAX_JUDGE ==> m == n)
  }

  /** A step that spends one call on the verdict of this key, or leaves calls and cache alone. */
  ghost predicate Moves(l: Loop, next: Loop, key: string, spends: bool) {
    if spends then next.calls == l.calls + 1 && next.cache.Keys == l.cache.Keys + {key}
    else next.calls == l.calls && next.cache == l.cache
  }

  lemma AskSpends(q: Query, l: Loop, content: string)
    ensures Moves(l, Ask(q, l, content), q.Key(content),
                  q.judge(content).Some? && q.Key(content) !in l.cache && l.calls < MAX_JUDGE)
  {
    hide Query.Key;
  }

  lemma ConsiderSpendsOnNeed(q: Query, l: Loop, scored: seq<Scored>, i: nat)
    requires i < |scored| && |l.picks| == i && (i > 0 ==> l.topScore == scored[0].score)
    ensures var key := KeyAt(q, scored, i);
            Moves(l, Consider(q, l, scored[i]), key, Decidable(q, scored, i) && key !in l.cache && l.calls < MAX_JUDGE)
  {
    hide Direct, Ask, Ideal, Contested, Query.Key;
    var top := if l.picks == [] then scored[i].score else l.topScore;
    DirectIsIdeal(q, scored, i, top);
    AskSpends(q, l.(topScore := top), scored[i].memory.content);
  }

  lemma {:induction false} SpentSoFar(q: Query, cache: Cache, scored: seq<Scored>, n: nat) returns (m: nat)
    requires n <= |scored|
    ensures m <= n && Spent(q, cache, scored, n, Select(q, cache, scored[..n]), m)
  {
    hide Consider, KeyAt, Decidable, Select, Spent, Needed, Moves;
    if n == 0 {
      m := 0;
      NothingSpent(q, cache, scored);
    } else {
      var k := SpentSoFar(q, cache, scored, n - 1);
      var before := Select(q, cache, scored[..n - 1]);
      SelectPrefix(q, cache, scored, n);
      SelectLength(q, cache, scored, n - 1);
      if n > 1 {
        TopIsFirst(q, cache, scored, n - 1);
      }
      ConsiderSpendsOnNeed(q, before, scored, n - 1);
      if before.calls < MAX_JUDGE {
        m := n;
        SpentOpen(q, cache, scored, n - 1, before, k);
        SpendOnNeed(q, cache, scored, n, before, Select(q, cache, scored[..n]));
      } else {
        m := k;
        NothingToSpend(q, cache, scored, n, before, Select(q, cache, scored[..n]), k);
      }
    }
  }

  lemma SpentOpen(q: Query, cache: Cache, scored: seq<Scored>, n: nat, l: Loop, m: nat)
    requires m <= n <= |scored| && Spent(q, cache, scored, n, l, m)
    ensures l.calls < MAX_JUDGE ==> m == n
  {
  }

  lemma SelectLength(q: Query, cache: Cache, scored: seq<Scored>, n: nat)
    requires n <= |scored|
    ensures |Select(q, cache, scored[..n]).picks| == n
  {
  }

  lemma NothingSpent(q: Query, cache: Cache, scored: seq<Scored>)
    ensures Spent(q, cache, scored, 0, Select(q, cache, scored[..0]), 0)
  {
    assert scored[..0] == [];
    SelectNothing(q, cache);
  }

  lemma AddOne(s: set<string>, key: string)
    ensures |s + {key}| == |s| + if key in s then 0 else 1
  {
    if key in s {
      assert s + {key} == s;
    }
  }

  lemma SpendOnNeed(q: Query, cache: Cache, scored: seq<Scored>, n: nat, l: Loop, next: Loop)
    requires 0 < n <= |scored| && Spent(q, cache, scored, n - 1, l, n - 1) && l.calls < MAX_JUDGE
    requires var key := KeyAt(q, scored, n - 1);
             Moves(l, next, key, Decidable(q, scored, n - 1) && key !in l.cache && l.calls < MAX_JUDGE)
    ensures Spent(q, cache, scored, n, next, n)
  {
    hide Decidable, KeyAt, Needed, Needs, Moves;
    NeededStep(q, cache, scored, n);
    MoveOn(cache.Keys, Needed(q, cache, scored, n - 1), Needed(q, cache, scored, n), l, next,
           KeyAt(q, scored, n - 1), Decidable(q, scored, n - 1));
  }

  lemma NeededStep(q: Query, cache: Cache, scored: seq<Scored>, n: nat)
    requires 0 < n <= |scored|
    ensures var key := KeyAt(q, scored, n - 1);
            Needed(q, cache, scored, n) == Needed(q, cache, scored, n - 1)
                                           + if Decidable(q, scored, n - 1) && key !in cache then {key} else {}
  {
    hide Contested, Query.Key;
  }

  lemma MoveOn(known: set<string>, needed: set<string>, needed': set<string>, l: Loop, next: Loop, key: string, wanted: bool)
    requires needed' == needed + if wanted && key !in known then {key} else {}
    requires l.cache.Keys == known + needed && l.calls == |needed| < MAX_JUDGE
    requires Moves(l, next, key, wanted && key !in l.cache && l.calls < MAX_JUDGE)
    ensures next.cache.Keys == known + needed' && next.calls == |needed'|
  {
    AddOne(needed, key);
  }

  lemma NothingToSpend(q: Query, cache: Cache, scored: seq<Scored>, n: nat, l: Loop, next: Loop, k: nat)
    requires 0 < n <= |scored| && k <= n - 1 && Spent(q, cache, scored, n - 1, l, k)
    requires l.calls >= MAX_JUDGE && Moves(l, next, KeyAt(q, scored, n - 1), false)
    ensures Spent(q, cache, scored, n, next, k)
  {
    hide Needed;
  }

  /** Exactly which memories the budget costs: a contested one that the judge would take is dropped if and only if its
      verdict was not cached and two others were needed before. */
  lemma LostToBudgetIff(q: Query, cache: Cache, scored: seq<Scored>, i: nat)
    requires i < |scored| && Faithful(q, cache) && Contested(q, scored, i)
    ensures var key := q.Key(scored[i].memory.content);
            && (Select(q, cache, scored).picks[i] ==> Ideal(q, scored, i))
            && (Ideal(q, scored, i) && !Select(q, cache, scored).picks[i] <==>
                Ideal(q, scored, i) && key !in cache && exists m :: TwoOthers(q, cache, scored, i, m, key))
  {
    hide Consider, Ideal, Query.Key, Faithful, Select, Needed;
    var before := Select(q, cache, scored[..i]);
    var content := scored[i].memory.content;
    var key := q.Key(content);
    SelectPrefix(q, cache, scored, i + 1);
    if i > 0 {
      TopIsFirst(q, cache, scored, i);
    }
    SelectFaithful(q, cache, scored, i);
    ContestedPick(q, before, scored, i);
    PicksStay(q, cache, scored, i, |scored|);
    assert scored[..|scored|] == scored;
    var m := SpentSoFar(q, cache, scored, i);
    NeededGrows(q, cache, scored, m, m);
    if before.calls == MAX_JUDGE && key !in before.cache {
      assert TwoOthers(q, cache, scored, i, m, key);
    }
    forall k | TwoOthers(q, cache, scored, i, k, key) && key !in cache ensures before.calls == MAX_JUDGE && key !in before.cache {
      NeededIsCapped(q, cache, scored, i, before, m, k);
    }
  }

  /** Two verdicts other than this one were needed among the first `m` memories. */
  ghost predicate TwoOthers(q: Query, cache: Cache, scored: seq<Scored>, i: nat, m: nat, key: string)
    requires i <= |scored|
  {
    m <= i && |Needed(q, cache, scored, m)| >= 2 && key !in Needed(q, cache, scored, m)
  }

  /** If two were needed early on, those that were learnt are among them. */
  lemma NeededIsCapped(q: Query, cache: Cache, scored: seq<Scored>, i: nat, l: Loop, m: nat, k: nat)
    requires m <= i <= |scored| && k <= i && Spent(q, cache, scored, i, l, m) && |Needed(q, cache, scored, k)| >= 2
    ensures l.calls == MAX_JUDGE && Needed(q, cache, scored, m) <= Needed(q, cache, scored, k)
  {
    hide Needed;
    if m <= k {
      NeededGrows(q, cache, scored, m, k);
    } else {
      NeededGrows(q, cache, scored, k, m);
      EqualSize(Needed(q, cache, scored, k), Needed(q, cache, scored, m));
    }
  }

  lemma EqualSize(a: set<string>, b: set<string>)
    requires a <= b && |b| <= 2 <= |a|
    ensures a == b
  {
    SubsetSize(b - a, b - a);
    assert b == a + (b - a) && |b| == |a| + |b - a|;
  }

  lemma ContestedPick(q: Query, l: Loop, scored: seq<Scored>, i: nat)
    requires i < |scored| && |l.picks| == i && (i > 0 ==> l.topScore == scored[0].score)
    requires Contested(q, scored, i) && Faithful(q, l.cache)
    ensures var content := scored[i].memory.content;
            && |Consider(q, l, scored[i]).picks| == i + 1
            && (Consider(q, l, scored[i]).picks[i] <==>
                Ideal(q, scored, i) && (q.Key(content) in l.cache || l.calls < MAX_JUDGE))
  {
    hide Direct, Contested, Query.Key, Faithful;
    var top := if l.picks == [] then scored[i].score else l.topScore;
    DirectIsIdeal(q, scored, i, top);
    ContestedIdeal(q, scored, i);
    FaithfulAt(q, l.cache, scored[i].memory.content);
  }

  lemma {:induction false} PicksStay(q: Query, cache: Cache, scored: seq<Scored>, i: nat, n: nat)
    requires i < n <= |scored|
    ensures Select(q, cache, scored[..n]).picks[i] == Select(q, cache, scored[..i + 1]).picks[i]
    decreases n
  {
    hide Consider;
    if i + 1 < n {
      PicksStay(q, cache, scored, i, n - 1);
      SelectPrefix(q, cache, scored, n);
      StepPicks(q, Select(q, cache, scored[..n - 1]), scored[n - 1]);
      assert Select(q, cache, scored[..n]).picks[i] == Select(q, cache, scored[..n]).picks[..n - 1][i];
    }
  }

  // ---------------------------------------------------------------------------
  // The order of what is taken
  // ---------------------------------------------------------------------------

  /** The positions of the memories taken. */
  function TakenAt(picks: seq<bool>): (at: seq<nat>)
    ensures forall k :: 0 <= k < |at| ==> at[k] < |picks| && picks[at[k]]
    ensures forall k, l :: 0 <= k < l < |at| ==> at[k] < at[l]
  {
    if picks == [] then []
    else
      var front := TakenAt(Front(picks));
      assert forall k :: 0 <= k < |front| ==> picks[front[k]] == Front(picks)[front[k]];
      if Last(picks) then front + [|picks| - 1] else front
  }

  lemma {:induction false} EveryPickIsTaken(picks: seq<bool>, i: nat)
    requires i < |picks| && picks[i]
    ensures i in TakenAt(picks)
  {
    if i < |picks| - 1 {
      EveryPickIsTaken(Front(picks), i);
    }
  }

  /** The memories taken are those picked, all of them and in the order of their rank. */
  lemma {:induction false} TakenInOrder(scored: seq<Scored>, picks: seq<bool>)
    requires |picks| == |scored|
    ensures var at, taken := TakenAt(picks), Taken(scored, picks);
            |taken| == |at| && forall k :: 0 <= k < |at| ==> taken[k] == scored[at[k]].memory
  {
    if scored != [] {
      var n := |scored| - 1;
      assert picks[..n] == Front(picks);
      TakenInOrder(scored[..n], picks[..n]);
    }
  }
}
