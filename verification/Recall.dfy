/** Choosing the memories that go into a reply: the ranked selection loop with its judge budget and
    verdict cache, and the merge, limit and dominant-emotion steps after it. */
module Recall {
  import opened Basics
  import opened Text

  datatype Memory = Memory(id: int, content: string, category: string, intensity: int, happenedAt: int)

  datatype Scored = Scored(memory: Memory, similarity: real, score: real)

  // ---------------------------------------------------------------------------
  // Rules
  // ---------------------------------------------------------------------------

  /** Intensities from 0 to 10 are read as tenths of the 0 to 100 scale. */
  function NormalizeIntensity(v: int): int {
    if v < 0 then 0 else if v <= 10 then v * 10 else if v > 100 then 100 else v
  }

  predicate IsNegativeCategory(category: string) {
    ToLower(TrimSpace(category)) in {"ira", "miedo", "asco", "tristeza", "odio", "enfado", "enojo"}
  }

  predicate ShouldSkipTrauma(m: Memory) {
    IsNegativeCategory(m.category) && NormalizeIntensity(m.intensity) < 60
  }

  predicate ContainsAny(msg: string, needles: set<string>) {
    exists n :: n in needles && Contains(msg, n)
  }

  const DESIRES := {"quiero", "necesito", "me antoja", "se me antoja", "me encanta", "me gusta", "favorito", "confort", "algo rico"}

  const TREATS := {"helado", "chocolate", "cafe", "pizza", "torta", "postre", "dulce", "musica", "cancion", "pelicula", "serie", "juego", "cafecito"}

  const GRIEFS := {"abandono", "abandon", "esperando", "planta", "solo", "soledad", "humillacion", "humillado", "duelo", "triste", "tristeza", "ira", "enoj", "furia", "me dejaron"}

  predicate DetectBenignIntent(message: string) {
    var msg := ToLower(TrimSpace(message));
    ContainsAny(msg, DESIRES) && ContainsAny(msg, TREATS)
  }

  predicate DetectMixedIntent(message: string) {
    DetectBenignIntent(message) && ContainsAny(ToLower(TrimSpace(message)), GRIEFS)
  }

  function WeightFactor(message: string): real {
    if DetectBenignIntent(message) then 0.0
    else if DetectMixedIntent(message) then 0.0005 * 0.5
    else 0.0005
  }

  // ---------------------------------------------------------------------------
  // The selection loop
  // ---------------------------------------------------------------------------

  const UPPER_SIM := 0.62
  const HARD_FLOOR := 0.20
  const MAX_JUDGE := 2
  const GAP_SCORE := 0.08

  type Judge = string -> Option<bool>

  type Cache = map<string, bool>

  /** One request: the caller, the message, its detected intents, and the judge's answers about
      contents, None for a failure. */
  datatype Query = Query(profile: string, message: string, benign: bool, mixed: bool, judge: Judge) {
    function Key(content: string): string { profile + "||j||" + message + "||" + content }
  }

  function QueryOf(profile: string, userMessage: string, judge: Judge): Query {
    var message := TrimSpace(userMessage);
    Query(profile, message, DetectBenignIntent(ToLower(message)), DetectMixedIntent(ToLower(message)), judge)
  }

  /** The loop's variables; `picks` says which of the memories so far were taken. */
  datatype Loop = Loop(picks: seq<bool>, topScore: real, calls: nat, cache: Cache) {
    function Take(use: bool): Loop { this.(picks := picks + [use]) }
  }

  /** The decision on the memory at position `n` that needs no judge, if there is one. */
  function Direct(q: Query, n: nat, topScore: real, sm: Scored): Option<bool> {
    if q.benign && ShouldSkipTrauma(sm.memory) then Some(false)
    else if q.benign then Some(sm.similarity >= HARD_FLOOR)
    else if n == 1 && !q.mixed && topScore - sm.score >= GAP_SCORE then Some(false)
    else if sm.similarity >= UPPER_SIM then Some(true)
    else if sm.similarity < HARD_FLOOR then Some(false)
    else None
  }

  /** The cached verdict, or the judge's while the budget lasts. */
  function Ask(q: Query, l: Loop, content: string): Loop {
    var key := q.Key(content);
    if key in l.cache then l.Take(l.cache[key])
    else if l.calls >= MAX_JUDGE || q.judge(content).None? then l.Take(false)
    else
      var use := q.judge(content).value;
      l.Take(use).(calls := l.calls + 1, cache := l.cache[key := use])
  }

  function Consider(q: Query, l: Loop, sm: Scored): Loop {
    var at := l.(topScore := if l.picks == [] then sm.score else l.topScore);
    var direct := Direct(q, |l.picks|, at.topScore, sm);
    if direct.Some? then at.Take(direct.value) else Ask(q, at, sm.memory.content)
  }

  function Select(q: Query, cache: Cache, scored: seq<Scored>): (l: Loop)
    ensures |l.picks| == |scored|
  {
    if scored == [] then Loop([], -1.0, 0, cache)
    else Consider(q, Select(q, cache, scored[..|scored| - 1]), scored[|scored| - 1])
  }

  function Taken(scored: seq<Scored>, picks: seq<bool>): seq<Memory>
    requires |picks| == |scored|
  {
    if scored == [] then []
    else
      var n := |scored| - 1;
      Taken(scored[..n], picks[..n]) + if picks[n] then [scored[n].memory] else []
  }

  /** The service with its verdict cache. */
  class NarrativeService {
    var judged: Cache

    constructor ()
      ensures judged == map[]
    {
      judged := map[];
    }

    method SelectMemories(q: Query, scored: seq<Scored>) returns (memories: seq<Memory>)
      modifies this
      ensures var run := Select(q, old(judged), scored);
              memories == Taken(scored, run.picks) && judged == run.cache
    {
      hide ShouldSkipTrauma, Query.Key, Select, Taken;
      memories := [];
      var topScore := -1.0;
      var judgeCalls := 0;
      ghost var run := Select(q, judged, []);
      SelectNothing(q, judged);
      for idx := 0 to |scored|
        invariant run == Select(q, old(judged), scored[..idx])
        invariant memories == Taken(scored[..idx], run.picks)
        invariant judged == run.cache && judgeCalls == run.calls && topScore == run.topScore
      {
        var sm := scored[idx];
        SelectStep(q, old(judged), scored, idx);
        run := Consider(q, run, sm);
        if idx == 0 {
          topScore := sm.score;
        }
        if q.benign && ShouldSkipTrauma(sm.memory) {
          continue;
        }
        if q.benign {
          if sm.similarity >= HARD_FLOOR {
            memories := memories + [sm.memory];
          }
          continue;
        }
        if idx == 1 && !q.mixed && topScore - sm.score >= GAP_SCORE {
          continue;
        }
        if sm.similarity >= UPPER_SIM {
          memories := memories + [sm.memory];
          continue;
        }
        if sm.similarity < HARD_FLOOR {
          continue;
        }
        var use := false;
        var key := q.Key(sm.memory.content);
        if key in judged {
          use := judged[key];
        } else {
          if judgeCalls >= MAX_JUDGE {
            continue;
          }
          var verdict := q.judge(sm.memory.content);
          if verdict.None? {
            continue;
          }
          use := verdict.value;
          judged := judged[key := use];
          judgeCalls := judgeCalls + 1;
        }
        if use {
          memories := memories + [sm.memory];
        }
      }
      assert scored[..|scored|] == scored;
    }
  }

  lemma SelectNothing(q: Query, cache: Cache)
    ensures Select(q, cache, []) == Loop([], -1.0, 0, cache) && Taken([], []) == []
  {
  }

  lemma SelectStep(q: Query, cache: Cache, scored: seq<Scored>, n: nat)
    requires n < |scored|
    ensures var l := Select(q, cache, scored[..n]);
            var next := Consider(q, l, scored[n]);
            && Select(q, cache, scored[..n + 1]) == next
            && next.picks[..n] == l.picks
            && Taken(scored[..n + 1], next.picks)
               == if next.picks[n] then Taken(scored[..n], l.picks) + [scored[n].memory] else Taken(scored[..n], l.picks)
  {
    assert scored[..n + 1][..n] == scored[..n];
  }

  // ---------------------------------------------------------------------------
  // After the selection
  // ---------------------------------------------------------------------------

  function Ids(ms: seq<Memory>): set<int> { set i | 0 <= i < |ms| :: ms[i].id }

  /** The first memory of every id, in order. */
  function Dedup(ms: seq<Memory>): (r: seq<Memory>)
    ensures |r| <= |ms|
  {
    if ms == [] then []
    else
      var n := |ms| - 1;
      Dedup(ms[..n]) + if ms[n].id in Ids(ms[..n]) then [] else [ms[n]]
  }

  method MergeDedupMemories(primary: seq<Memory>, secondary: seq<Memory>) returns (out: seq<Memory>)
    ensures out == Dedup(primary + secondary)
  {
    hide Dedup, Ids;
    var seen: set<int> := {};
    out := [];
    ghost var all := primary + secondary;
    assert Ids([]) == {} && Dedup([]) == [] by { NothingToMerge(); }
    for i := 0 to |primary|
      invariant seen == Ids(all[..i]) && out == Dedup(all[..i])
    {
      var m := primary[i];
      StepOf(all, i);
      if m.id in seen {
        continue;
      }
      seen := seen + {m.id};
      out := out + [m];
    }
    for i := 0 to |secondary|
      invariant seen == Ids(all[..|primary| + i]) && out == Dedup(all[..|primary| + i])
    {
      var m := secondary[i];
      StepOf(all, |primary| + i);
      if m.id in seen {
        continue;
      }
      seen := seen + {m.id};
      out := out + [m];
    }
    assert all[..|primary| + |secondary|] == all;
  }

  lemma NothingToMerge()
    ensures Ids([]) == {} && Dedup([]) == []
  {
  }

  lemma StepOf(ms: seq<Memory>, i: nat)
    requires i < |ms|
    ensures Ids(ms[..i + 1]) == Ids(ms[..i]) + {ms[i].id}
    ensures Dedup(ms[..i + 1]) == Dedup(ms[..i]) + if ms[i].id in Ids(ms[..i]) then [] else [ms[i]]
  {
    var longer := ms[..i + 1];
    assert longer[..i] == ms[..i];
    forall id ensures id in Ids(longer) <==> id in Ids(ms[..i]) || id == ms[i].id {
      if id == ms[i].id { assert longer[i].id == id; }
      if id in Ids(ms[..i]) {
        var k :| 0 <= k < i && ms[..i][k].id == id;
        assert longer[k].id == id;
      }
    }
  }

  function LimitMemories(ms: seq<Memory>, n: int): seq<Memory> {
    if n <= 0 || |ms| <= n then ms else ms[..n]
  }

  const MAX_TOTAL := 7
  const WORKING_LIMIT := 3
  const SEARCH_LIMIT := 5

  /** The first memory of greatest normalised intensity is at `k`. */
  ghost predicate FirstMaximal(ms: seq<Memory>, k: nat) {
    && k < |ms|
    && (forall i :: 0 <= i < |ms| ==> NormalizeIntensity(ms[i].intensity) <= NormalizeIntensity(ms[k].intensity))
    && (forall i :: 0 <= i < k ==> NormalizeIntensity(ms[i].intensity) < NormalizeIntensity(ms[k].intensity))
  }

  method DominantIndex(ms: seq<Memory>) returns (maxIdx: nat)
    requires ms != []
    ensures FirstMaximal(ms, maxIdx)
  {
    maxIdx := 0;
    var maxNorm := NormalizeIntensity(ms[0].intensity);
    for i := 0 to |ms|
      invariant maxIdx < |ms| && (maxIdx < i || maxIdx == 0)
      invariant maxNorm == NormalizeIntensity(ms[maxIdx].intensity)
      invariant forall j :: 0 <= j < i ==> NormalizeIntensity(ms[j].intensity) <= maxNorm
      invariant forall j :: 0 <= j < maxIdx ==> NormalizeIntensity(ms[j].intensity) < maxNorm
    {
      var norm := NormalizeIntensity(ms[i].intensity);
      if norm > maxNorm {
        maxNorm := norm;
        maxIdx := i;
      }
    }
  }
}
