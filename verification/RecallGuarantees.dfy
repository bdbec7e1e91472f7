/** What the selection loop guarantees: a warm cache only helps, budgets hold, repeated requests
    converge to the unlimited selection, and merging keeps what it should. */
module RecallGuarantees {
  import opened Basics
  import opened Recall
  import opened Text

  // ---------------------------------------------------------------------------
  // Cache keys
  // ---------------------------------------------------------------------------

  /** Within one request different contents have different keys. */
  lemma KeyOfContent(q: Query, a: string, b: string)
    ensures q.Key(a) == q.Key(b) ==> a == b
  {
    var p := q.profile + "||j||" + q.message + "||";
    assert q.Key(a)[|p|..] == a && q.Key(b)[|p|..] == b;
  }

  /** Profile identifiers have one length; across requests a key determines the profile, and the message
      and content only as one text. */
  lemma SameKeyIff(q: Query, r: Query, a: string, b: string)
    requires |q.profile| == |r.profile|
    ensures q.Key(a) == r.Key(b) <==> q.profile == r.profile && q.message + "||" + a == r.message + "||" + b
  {
    var p, n := q.profile + "||j||", |q.profile|;
    assert q.Key(a) == p + (q.message + "||" + a) && r.Key(b) == (r.profile + "||j||") + (r.message + "||" + b);
    if q.Key(a) == r.Key(b) {
      assert q.Key(a)[..n] == q.profile && r.Key(b)[..n] == r.profile;
      assert q.Key(a)[|p|..] == q.message + "||" + a && r.Key(b)[|p|..] == r.message + "||" + b;
    }
  }

  predicate SameKey(q: Query, r: Query, a: string, b: string) { q.Key(a) == r.Key(b) }

  /** Exactly when two requests can share a verdict: when they come from one profile and one message with
      the separator behind it begins the other. */
  lemma KeysCollideIff(q: Query, r: Query)
    requires |q.profile| == |r.profile|
    ensures (exists a, b :: SameKey(q, r, a, b)) <==>
            q.profile == r.profile &&
            (q.message + "||" <= r.message + "||" || r.message + "||" <= q.message + "||")
  {
    hide Query.Key;
    var m, n := q.message + "||", r.message + "||";
    forall a, b | SameKey(q, r, a, b) ensures q.profile == r.profile && (m <= n || n <= m) {
      SameKeyIff(q, r, a, b);
      assert m + a == n + b;
      assert if |m| <= |n| then n[..|m|] == (n + b)[..|m|] == m else m[..|n|] == (m + a)[..|n|] == n;
    }
    if q.profile == r.profile && m <= n {
      SameKeyIff(q, r, n[|m|..], "");
      assert SameKey(q, r, n[|m|..], "");
    } else if q.profile == r.profile && n <= m {
      SameKeyIff(q, r, "", m[|n|..]);
      assert SameKey(q, r, "", m[|n|..]);
    }
  }

  /** In particular messages without a bar never share one ... */
  lemma {:induction false} KeysAreUnambiguous(q: Query, r: Query, a: string, b: string)
    requires |q.profile| == |r.profile| && Lacks(q.message, '|') && Lacks(r.message, '|')
    requires q.Key(a) == r.Key(b)
    ensures q.profile == r.profile && q.message == r.message && a == b
  {
    SameKeyIff(q, r, a, b);
    FirstBarDecides(q.message, r.message, a, b);
  }

  lemma FirstBarDecides(m: string, n: string, a: string, b: string)
    requires Lacks(m, '|') && Lacks(n, '|') && m + "||" + a == n + "||" + b
    ensures m == n && a == b
  {
    var s := m + "||" + a;
    assert s[|m|] == '|' && s[|n|] == '|';
    assert |m| == |n|;
    assert s[..|m|] == m && s[..|n|] == n;
    assert s[|m| + 2..] == a && s[|n| + 2..] == b;
  }

  /** ... and a single bar at the end of a message is enough to share one. */
  lemma KeysCollide(profile: string, judge: Judge)
    ensures Query(profile, "a|", false, false, judge).Key("c") == Query(profile, "a", false, false, judge).Key("|c")
  {
  }

  // ---------------------------------------------------------------------------
  // The mixed intent
  // ---------------------------------------------------------------------------

  /** A mixed message is a benign one, and the benign case is always decided first: no request ever
      uses the halved emotional weight, or skips the gap rule for being mixed. */
  lemma MixedIsAlwaysBenign(profile: string, userMessage: string, judge: Judge)
    ensures var q := QueryOf(profile, userMessage, judge);
            && (q.mixed ==> q.benign)
            && WeightFactor(ToLower(q.message)) == if q.benign then 0.0 else 0.0005
  {
  }

  lemma MissingLetter(msg: string, word: string, k: nat)
    requires k < |word| && word[k] !in msg
    ensures !Contains(msg, word)
  {
    forall i | 0 <= i <= |msg| ensures !OccursAt(msg, word, i) {
      if OccursAt(msg, word, i) {
        LetterOfOccurrence(msg, word, i, k);
      }
    }
  }

  lemma LetterOfOccurrence(msg: string, word: string, i: int, k: nat)
    requires OccursAt(msg, word, i) && k < |word|
    ensures word[k] in msg
  {
    assert msg[i + k] == msg[i..i + |word|][k];
  }

  lemma WordInMessage(before: string, word: string, after: string)
    ensures Contains(before + word + after, word)
  {
    var s := before + word + after;
    assert s[|before|..|before| + |word|] == word;
    assert OccursAt(s, word, |before|);
  }

  predicate IsWord(msg: string) { msg != "" && forall i :: 0 <= i < |msg| ==> IsWordChar(msg[i]) }

  /** The intents of a message of lower-case letters and underscores. */
  lemma IntentOfWord(msg: string)
    requires IsWord(msg)
    ensures DetectBenignIntent(msg) == (ContainsAny(msg, DESIRES) && ContainsAny(msg, TREATS))
    ensures DetectMixedIntent(msg) == (DetectBenignIntent(msg) && ContainsAny(msg, GRIEFS))
  {
    hide TrimSpace, ToLower, ContainsAny;
    WordStays(msg);
  }

  lemma WishAndTreat(before: string, wish: string, between: string, treat: string, after: string)
    requires wish in DESIRES && treat in TREATS && IsWord(before + wish + between + treat + after)
    ensures DetectBenignIntent(before + wish + between + treat + after)
  {
    hide Contains, IsWord, DetectBenignIntent, DetectMixedIntent;
    var msg := before + wish + between + treat + after;
    IntentOfWord(msg);
    assert msg == before + wish + (between + treat + after) && msg == (before + wish + between) + treat + after;
    WordInMessage(before, wish, between + treat + after);
    WordInMessage(before + wish + between, treat, after);
  }

  /** A message with a wish and a treat is benign, and mixed if a grief comes with them. */
  lemma WishTreatAndGrief(before: string, wish: string, between: string, treat: string, more: string, grief: string, after: string)
    requires wish in DESIRES && treat in TREATS && grief in GRIEFS
    requires IsWord(before + wish + between + treat + (more + grief + after))
    ensures DetectMixedIntent(before + wish + between + treat + (more + grief + after))
  {
    hide Contains, IsWord, DetectBenignIntent, DetectMixedIntent;
    var msg := before + wish + between + treat + (more + grief + after);
    IntentOfWord(msg);
    WishAndTreat(before, wish, between, treat, more + grief + after);
    assert msg == (before + wish + between + treat + more) + grief + after;
    WordInMessage(before + wish + between + treat + more, grief, after);
  }

  /** A wish alone and a treat alone are neither. */
  lemma OneIsNotEnough()
    ensures !DetectBenignIntent("quiero") && !DetectBenignIntent("helado")
  {
    hide Contains, DetectBenignIntent, DetectMixedIntent;
    IntentOfWord("quiero");
    IntentOfWord("helado");
    NoTreatInWish();
    NoWishInTreat();
  }

  lemma NoTreatInWish()
    ensures forall n :: n in TREATS ==> !Contains("quiero", n)
  {
    hide Contains;
    MissingLetter("quiero", "helado", 0);
    MissingLetter("quiero", "chocolate", 0);
    MissingLetter("quiero", "cafe", 0);
    MissingLetter("quiero", "pizza", 0);
    MissingLetter("quiero", "torta", 0);
    MissingLetter("quiero", "postre", 0);
    MissingLetter("quiero", "dulce", 0);
    MissingLetter("quiero", "musica", 0);
    MissingLetter("quiero", "cancion", 0);
    MissingLetter("quiero", "pelicula", 0);
    MissingLetter("quiero", "serie", 0);
    MissingLetter("quiero", "juego", 0);
    MissingLetter("quiero", "cafecito", 0);
  }

  lemma NoWishInTreat()
    ensures forall n :: n in DESIRES ==> !Contains("helado", n)
  {
    hide Contains;
    MissingLetter("helado", "quiero", 0);
    MissingLetter("helado", "necesito", 0);
    MissingLetter("helado", "me antoja", 0);
    MissingLetter("helado", "se me antoja", 0);
    MissingLetter("helado", "me encanta", 0);
    MissingLetter("helado", "me gusta", 0);
    MissingLetter("helado", "favorito", 0);
    MissingLetter("helado", "confort", 0);
    MissingLetter("helado", "algo rico", 2);
  }

  // ---------------------------------------------------------------------------
  // Two runs with different caches
  // ---------------------------------------------------------------------------

  /** What the cache says about this request's contents is what the judge says. */
  ghost predicate Faithful(q: Query, cache: Cache) {
    forall c: string :: q.Key(c) in cache ==> q.judge(c) == Some(cache[q.Key(c)])
  }

  ghost predicate SubCache(a: Cache, b: Cache) {
    forall k :: k in a ==> k in b && b[k] == a[k]
  }

  ghost predicate Coupled(q: Query, cold: Loop, warm: Loop) {
    && |cold.picks| == |warm.picks| && cold.topScore == warm.topScore && warm.calls <= cold.calls
    && (forall i :: 0 <= i < |cold.picks| && cold.picks[i] ==> warm.picks[i])
    && SubCache(cold.cache, warm.cache) && Faithful(q, cold.cache) && Faithful(q, warm.cache)
  }

  lemma LearnIsFaithful(q: Query, cache: Cache, content: string)
    requires Faithful(q, cache) && q.judge(content).Some?
    ensures Faithful(q, cache[q.Key(content) := q.judge(content).value])
  {
    forall c: string { KeyOfContent(q, c, content); }
  }

  lemma FaithfulAt(q: Query, cache: Cache, content: string)
    requires Faithful(q, cache)
    ensures q.Key(content) in cache ==> q.judge(content) == Some(cache[q.Key(content)])
  {
  }

  /** Both loops decide on one more memory, the warm one taking it if the cold one does. */
  lemma TakeCoupled(q: Query, cold: Loop, warm: Loop, nextCold: Loop, nextWarm: Loop)
    requires Coupled(q, cold, warm) && nextCold.topScore == nextWarm.topScore && nextWarm.calls <= nextCold.calls
    requires |nextCold.picks| == |nextWarm.picks| == |cold.picks| + 1
    requires nextCold.picks[..|cold.picks|] == cold.picks && nextWarm.picks[..|cold.picks|] == warm.picks
    requires Last(nextCold.picks) ==> Last(nextWarm.picks)
    requires SubCache(nextCold.cache, nextWarm.cache) && Faithful(q, nextCold.cache) && Faithful(q, nextWarm.cache)
    ensures Coupled(q, nextCold, nextWarm)
  {
    hide SubCache, Faithful;
    forall i | 0 <= i < |nextCold.picks| && nextCold.picks[i] ensures nextWarm.picks[i] {
      if i < |cold.picks| {
        assert nextCold.picks[i] == cold.picks[i] && nextWarm.picks[i] == warm.picks[i];
      }
    }
  }

  lemma AskCoupled(q: Query, cold: Loop, warm: Loop, content: string)
    requires Coupled(q, cold, warm)
    ensures Coupled(q, Ask(q, cold, content), Ask(q, warm, content))
  {
    hide Query.Key, Faithful, SubCache;
    FaithfulAt(q, cold.cache, content);
    FaithfulAt(q, warm.cache, content);
    if q.judge(content).Some? {
      LearnIsFaithful(q, cold.cache, content);
      LearnIsFaithful(q, warm.cache, content);
      LearnKeepsSub(cold.cache, warm.cache, q.Key(content), q.judge(content).value);
    }
    SubCacheAt(cold.cache, warm.cache, q.Key(content));
    TakeCoupled(q, cold, warm, Ask(q, cold, content), Ask(q, warm, content));
  }

  lemma SubCacheAt(a: Cache, b: Cache, key: string)
    requires SubCache(a, b)
    ensures key in a ==> key in b && b[key] == a[key]
  {
  }

  lemma LearnKeepsSub(a: Cache, b: Cache, key: string, use: bool)
    requires SubCache(a, b) && (key in b ==> b[key] == use)
    ensures SubCache(a, b[key := use]) && SubCache(a[key := use], b[key := use])
    ensures key in b ==> SubCache(a[key := use], b)
  {
  }

  lemma ConsiderCoupled(q: Query, cold: Loop, warm: Loop, sm: Scored)
    requires Coupled(q, cold, warm)
    ensures Coupled(q, Consider(q, cold, sm), Consider(q, warm, sm))
  {
    hide Direct, Ask, SubCache, Faithful;
    var top := if cold.picks == [] then sm.score else cold.topScore;
    var c, w := cold.(topScore := top), warm.(topScore := top);
    var direct := Direct(q, |cold.picks|, top, sm);
    if direct.Some? {
      TakeCoupled(q, c, w, c.Take(direct.value), w.Take(direct.value));
    } else {
      AskCoupled(q, c, w, sm.memory.content);
    }
  }

  /** A warm cache only helps: with more verdicts in the cache the loop takes every memory it takes
      with fewer, calls the judge no more often, and knows at least as much afterwards. */
  lemma {:induction false} WarmCacheHelps(q: Query, cold: Cache, warm: Cache, scored: seq<Scored>)
    requires SubCache(cold, warm) && Faithful(q, cold) && Faithful(q, warm)
    ensures Coupled(q, Select(q, cold, scored), Select(q, warm, scored))
  {
    hide Consider;
    if scored != [] {
      var n := |scored| - 1;
      WarmCacheHelps(q, cold, warm, scored[..n]);
      ConsiderCoupled(q, Select(q, cold, scored[..n]), Select(q, warm, scored[..n]), scored[n]);
    }
  }

  // ---------------------------------------------------------------------------
  // Budget and floor
  // ---------------------------------------------------------------------------

  function Contents(q: Query, scored: seq<Scored>): set<string> {
    set i | 0 <= i < |scored| :: q.Key(scored[i].memory.content)
  }

  /** The keys grew by `n` of the allowed ones. */
  ghost predicate Gains(before: set<string>, after: set<string>, allowed: set<string>, n: nat) {
    before <= after && after - before <= allowed && |after - before| == n
  }

  /** What a run learns: verdicts on its own memories that it did not have, one for each call. */
  ghost predicate Learns(q: Query, before: Cache, l: Loop, scored: seq<Scored>) {
    && l.calls <= MAX_JUDGE && SubCache(before, l.cache)
    && Gains(before.Keys, l.cache.Keys, Contents(q, scored), l.calls)
  }

  lemma MoreContents(q: Query, scored: seq<Scored>, sm: Scored)
    ensures Contents(q, scored + [sm]) == Contents(q, scored) + {q.Key(sm.memory.content)}
  {
    hide Query.Key;
    var all := scored + [sm];
    assert all[|scored|] == sm && forall i :: 0 <= i < |scored| ==> all[i] == scored[i];
  }

  lemma GainOne(before: set<string>, after: set<string>, allowed: set<string>, n: nat, key: string)
    requires Gains(before, after, allowed, n)
    ensures Gains(before, after, allowed + {key}, n)
    ensures key !in after ==> Gains(before, after + {key}, allowed + {key}, n + 1)
  {
    if key !in after {
      assert after + {key} - before == (after - before) + {key};
    }
  }

  lemma SubCacheIsTransitive(a: Cache, b: Cache, c: Cache)
    requires SubCache(a, b) && SubCache(b, c)
    ensures SubCache(a, c)
  {
  }

  /** A step leaves calls and cache alone, or spends one call on one new verdict. */
  lemma ConsiderSpends(q: Query, l: Loop, sm: Scored)
    ensures var next, key := Consider(q, l, sm), q.Key(sm.memory.content);
            || (next.calls == l.calls && next.cache == l.cache)
            || (l.calls < MAX_JUDGE && key !in l.cache && next.calls == l.calls + 1 && next.cache.Keys == l.cache.Keys + {key}
                && SubCache(l.cache, next.cache))
  {
    hide ShouldSkipTrauma, Query.Key;
  }

  lemma ConsiderLearns(q: Query, cache: Cache, l: Loop, scored: seq<Scored>, sm: Scored)
    requires Learns(q, cache, l, scored)
    ensures Learns(q, cache, Consider(q, l, sm), scored + [sm])
  {
    hide Consider, Contents, Query.Key, Gains, SubCache;
    var next, key := Consider(q, l, sm), q.Key(sm.memory.content);
    MoreContents(q, scored, sm);
    ConsiderSpends(q, l, sm);
    GainOne(cache.Keys, l.cache.Keys, Contents(q, scored), l.calls, key);
    if next.calls != l.calls {
      SubCacheIsTransitive(cache, l.cache, next.cache);
    }
  }

  /** Each run makes at most two successful judge calls and learns exactly one new verdict from each,
      so no content is judged twice. */
  lemma {:induction false} BudgetHolds(q: Query, cache: Cache, scored: seq<Scored>)
    ensures Learns(q, cache, Select(q, cache, scored), scored)
  {
    hide Consider, Query.Key, Learns;
    if scored == [] {
      NothingLearnt(q, cache);
    } else {
      var n := |scored| - 1;
      BudgetHolds(q, cache, scored[..n]);
      ConsiderLearns(q, cache, Select(q, cache, scored[..n]), scored[..n], scored[n]);
      assert scored[..n] + [scored[n]] == scored;
    }
  }

  lemma NothingLearnt(q: Query, cache: Cache)
    ensures Learns(q, cache, Loop([], -1.0, 0, cache), [])
  {
    assert cache.Keys - cache.Keys == {};
  }

  /** Nothing below the similarity floor is ever taken. */
  lemma {:induction false} NothingBelowTheFloor(q: Query, cache: Cache, scored: seq<Scored>, i: nat)
    requires i < |scored| && Select(q, cache, scored).picks[i]
    ensures scored[i].similarity >= HARD_FLOOR
  {
    hide ShouldSkipTrauma, Query.Key;
    if i < |scored| - 1 {
      NothingBelowTheFloor(q, cache, scored[..|scored| - 1], i);
    }
  }

  // ---------------------------------------------------------------------------
  // The unlimited selection and convergence to it
  // ---------------------------------------------------------------------------

  /** The second memory is dropped when the first leads it by the gap. */
  predicate Gapped(q: Query, scored: seq<Scored>, i: nat)
    requires i < |scored|
  {
    i == 1 && !q.mixed && scored[0].score - scored[1].score >= GAP_SCORE
  }

  /** The memories whose fate is left to the judge. */
  predicate Contested(q: Query, scored: seq<Scored>, i: nat)
    requires i < |scored|
  {
    !q.benign && !Gapped(q, scored, i) && HARD_FLOOR <= scored[i].similarity < UPPER_SIM
  }

  /** What the loop would take with an unlimited budget. */
  predicate Ideal(q: Query, scored: seq<Scored>, i: nat)
    requires i < |scored|
  {
    if q.benign then !ShouldSkipTrauma(scored[i].memory) && scored[i].similarity >= HARD_FLOOR
    else if Contested(q, scored, i) then q.judge(scored[i].memory.content) == Some(true)
    else !Gapped(q, scored, i) && scored[i].similarity >= UPPER_SIM
  }

  ghost predicate TakesIdeal(q: Query, l: Loop, scored: seq<Scored>)
    requires |l.picks| <= |scored|
  {
    forall i :: 0 <= i < |l.picks| ==> l.picks[i] == Ideal(q, scored, i)
  }

  /** Every contested memory that the judge can decide has its verdict in the cache. */
  ghost predicate Settled(q: Query, cache: Cache, scored: seq<Scored>, n: nat)
    requires n <= |scored|
  {
    forall i :: 0 <= i < n && Contested(q, scored, i) && q.judge(scored[i].memory.content).Some?
      ==> q.Key(scored[i].memory.content) in cache
  }

  lemma SelectPrefix(q: Query, cache: Cache, scored: seq<Scored>, n: nat)
    requires 0 < n <= |scored|
    ensures Select(q, cache, scored[..n]) == Consider(q, Select(q, cache, scored[..n - 1]), scored[n - 1])
  {
    hide Consider;
    assert scored[..n][..n - 1] == scored[..n - 1];
  }

  /** The loop compares with the first memory's score. */
  lemma {:induction false} TopIsFirst(q: Query, cache: Cache, scored: seq<Scored>, n: nat)
    requires 0 < n <= |scored|
    ensures Select(q, cache, scored[..n]).topScore == scored[0].score
  {
    hide ShouldSkipTrauma, Query.Key;
    SelectPrefix(q, cache, scored, n);
    if n > 1 {
      TopIsFirst(q, cache, scored, n - 1);
    }
  }

  /** What needs no judge is decided as the unlimited selection does, and the rest is contested. */
  lemma DirectIsIdeal(q: Query, scored: seq<Scored>, i: nat, topScore: real)
    requires i < |scored| && (i > 0 ==> topScore == scored[0].score)
    ensures var direct := Direct(q, i, topScore, scored[i]);
            if direct.Some? then direct.value == Ideal(q, scored, i) && !Contested(q, scored, i) else Contested(q, scored, i)
  {
    hide ShouldSkipTrauma;
  }

  /** A contested memory is decided as the judge would while the budget lasts, at no cost if cached. */
  lemma AskIsIdeal(q: Query, l: Loop, content: string)
    requires Faithful(q, l.cache)
    ensures var next, key := Ask(q, l, content), q.Key(content);
            && Faithful(q, next.cache) && SubCache(l.cache, next.cache) && l.calls <= next.calls
            && |next.picks| == |l.picks| + 1 && next.picks[..|l.picks|] == l.picks
            && ((next.calls < MAX_JUDGE || key in l.cache) ==>
                Last(next.picks) == (q.judge(content) == Some(true)) && (q.judge(content).Some? ==> key in next.cache))
            && ((q.judge(content).Some? ==> key in l.cache) ==> next.calls == l.calls && next.cache == l.cache)
  {
    hide Query.Key, Faithful;
    FaithfulAt(q, l.cache, content);
    if q.judge(content).Some? {
      LearnIsFaithful(q, l.cache, content);
    }
  }

  /** One step, in the terms above. */
  lemma ConsiderIdeal(q: Query, l: Loop, scored: seq<Scored>, i: nat)
    requires i < |scored| && |l.picks| == i && Faithful(q, l.cache)
    requires i > 0 ==> l.topScore == scored[0].score
    ensures var next, content := Consider(q, l, scored[i]), scored[i].memory.content;
            && Faithful(q, next.cache) && SubCache(l.cache, next.cache) && l.calls <= next.calls
            && next.picks[..i] == l.picks
            && ((next.calls < MAX_JUDGE || q.Key(content) in l.cache) ==>
                next.picks[i] == Ideal(q, scored, i) &&
                (Contested(q, scored, i) && q.judge(content).Some? ==> q.Key(content) in next.cache))
            && ((Contested(q, scored, i) && q.judge(content).Some? ==> q.Key(content) in l.cache) ==>
                next.calls == l.calls && next.cache == l.cache)
  {
    hide ShouldSkipTrauma, Query.Key, Faithful, Direct, Ask, Ideal, Contested;
    var top := if l.picks == [] then scored[i].score else l.topScore;
    var at := l.(topScore := top);
    DirectIsIdeal(q, scored, i, top);
    AskIsIdeal(q, at, scored[i].memory.content);
    if Contested(q, scored, i) {
      ContestedIdeal(q, scored, i);
    }
  }

  lemma ContestedIdeal(q: Query, scored: seq<Scored>, i: nat)
    requires i < |scored| && Contested(q, scored, i)
    ensures Ideal(q, scored, i) <==> q.judge(scored[i].memory.content) == Some(true)
  {
  }

  /** A run that does not use up its budget takes exactly what an unlimited one would, and leaves
      nothing for the judge. */
  lemma {:induction false} UnderBudgetIsIdeal(q: Query, cache: Cache, scored: seq<Scored>, n: nat)
    requires n <= |scored| && Faithful(q, cache)
    requires Select(q, cache, scored[..n]).calls < MAX_JUDGE
    ensures var l := Select(q, cache, scored[..n]);
            TakesIdeal(q, l, scored) && Settled(q, l.cache, scored, n) && Faithful(q, l.cache)
  {
    hide Consider, Ideal, Contested, Query.Key, Faithful;
    if n > 0 {
      var before := Select(q, cache, scored[..n - 1]);
      SelectPrefix(q, cache, scored, n);
      SelectFaithful(q, cache, scored, n - 1);
      if n > 1 {
        TopIsFirst(q, cache, scored, n - 1);
      }
      ConsiderIdeal(q, before, scored, n - 1);
      UnderBudgetIsIdeal(q, cache, scored, n - 1);
      assert forall i :: 0 <= i < n - 1 ==> before.picks[i] == Select(q, cache, scored[..n]).picks[..n - 1][i];
    }
  }

  lemma {:induction false} SelectFaithful(q: Query, cache: Cache, scored: seq<Scored>, n: nat)
    requires n <= |scored| && Faithful(q, cache)
    ensures Faithful(q, Select(q, cache, scored[..n]).cache)
  {
    WarmCacheHelps(q, cache, cache, scored[..n]);
  }

  /** With every verdict in the cache a run takes the unlimited selection without calling the judge. */
  lemma {:induction false} SettledIsIdeal(q: Query, cache: Cache, scored: seq<Scored>, n: nat)
    requires n <= |scored| && Faithful(q, cache) && Settled(q, cache, scored, |scored|)
    ensures var l := Select(q, cache, scored[..n]);
            TakesIdeal(q, l, scored) && l.calls == 0 && l.cache == cache
  {
    hide Consider, Ideal, Contested, Query.Key, Faithful;
    if n > 0 {
      var before := Select(q, cache, scored[..n - 1]);
      SelectPrefix(q, cache, scored, n);
      SettledIsIdeal(q, cache, scored, n - 1);
      if n > 1 {
        TopIsFirst(q, cache, scored, n - 1);
      }
      ConsiderIdeal(q, before, scored, n - 1);
      assert forall i :: 0 <= i < n - 1 ==> before.picks[i] == Select(q, cache, scored[..n]).picks[..n - 1][i];
    }
  }

  /** The cache after asking the same question `m` times. */
  function CacheAfter(q: Query, cache: Cache, scored: seq<Scored>, m: nat): Cache {
    if m == 0 then cache else Select(q, CacheAfter(q, cache, scored, m - 1), scored).cache
  }

  lemma {:induction false} RunsLearnOrSettle(q: Query, cache: Cache, scored: seq<Scored>, m: nat)
    requires Faithful(q, cache)
    ensures var after := CacheAfter(q, cache, scored, m);
            && Faithful(q, after)
            && (Settled(q, after, scored, |scored|) || |after.Keys * Contents(q, scored)| >= MAX_JUDGE * m)
  {
    hide Faithful, Settled, Contents, Select;
    if m > 0 {
      var before := CacheAfter(q, cache, scored, m - 1);
      RunsLearnOrSettle(q, cache, scored, m - 1);
      OneMoreRun(q, before, scored);
    }
  }

  lemma OneMoreRun(q: Query, before: Cache, scored: seq<Scored>)
    requires Faithful(q, before)
    ensures var l, all := Select(q, before, scored), Contents(q, scored);
            && Faithful(q, l.cache)
            && (Settled(q, before, scored, |scored|) || l.calls < MAX_JUDGE ==> Settled(q, l.cache, scored, |scored|))
            && |l.cache.Keys * all| == |before.Keys * all| + l.calls
            && l.calls <= MAX_JUDGE
  {
    hide Select, Contents, Faithful, Settled, TakesIdeal, SubCache;
    var l, all := Select(q, before, scored), Contents(q, scored);
    assert scored[..|scored|] == scored;
    SelectFaithful(q, before, scored, |scored|);
    BudgetHolds(q, before, scored);
    assert Gains(before.Keys, l.cache.Keys, all, l.calls);
    CountNew(before.Keys, l.cache.Keys, all);
    if l.calls < MAX_JUDGE {
      UnderBudgetIsIdeal(q, before, scored, |scored|);
    } else if Settled(q, before, scored, |scored|) {
      SettledIsIdeal(q, before, scored, |scored|);
    }
  }

  lemma CountNew(before: set<string>, after: set<string>, all: set<string>)
    requires before <= after && after - before <= all
    ensures |after * all| == |before * all| + |after - before|
  {
    assert after * all == before * all + (after - before);
    assert (before * all) !! (after - before);
  }

  lemma {:induction false} FewContents(q: Query, scored: seq<Scored>)
    ensures |Contents(q, scored)| <= |scored|
  {
    hide Query.Key;
    if scored != [] {
      var n := |scored| - 1;
      FewContents(q, scored[..n]);
      assert forall i :: 0 <= i < n ==> scored[..n][i] == scored[i];
      assert Contents(q, scored) == Contents(q, scored[..n]) + {q.Key(scored[n].memory.content)};
    } else {
      assert Contents(q, scored) == {};
    }
  }

  /** Convergence: after asking the same question `m` times the next answer is the unlimited
      selection, as soon as 2 * m + 1 covers the memories found. */
  lemma RepeatsConverge(q: Query, cache: Cache, scored: seq<Scored>, m: nat)
    requires Faithful(q, cache) && |scored| <= MAX_JUDGE * m + 1
    ensures TakesIdeal(q, Select(q, CacheAfter(q, cache, scored, m), scored), scored)
  {
    hide Faithful, Settled, Contents, Select, TakesIdeal;
    var before := CacheAfter(q, cache, scored, m);
    assert scored[..|scored|] == scored;
    RunsLearnOrSettle(q, cache, scored, m);
    if Settled(q, before, scored, |scored|) {
      SettledIsIdeal(q, before, scored, |scored|);
    } else {
      var l, all := Select(q, before, scored), Contents(q, scored);
      OneMoreRun(q, before, scored);
      FewContents(q, scored);
      SubsetSize(l.cache.Keys * all, all);
      UnderBudgetIsIdeal(q, before, scored, |scored|);
    }
  }

  lemma {:induction false} SubsetSize(a: set<string>, b: set<string>)
    requires a <= b
    ensures |a| <= |b|
  {
    if a != {} {
      var x :| x in a;
      SubsetSize(a - {x}, b - {x});
    }
  }

  /** A search returns at most five memories, so the third identical question gets the full answer. */
  lemma ThirdAnswerIsComplete(q: Query, cache: Cache, scored: seq<Scored>)
    requires Faithful(q, cache) && |scored| <= SEARCH_LIMIT
    ensures TakesIdeal(q, Select(q, CacheAfter(q, cache, scored, 2), scored), scored)
  {
    RepeatsConverge(q, cache, scored, 2);
  }
}
