/** Merging working memories with the selected ones, cutting to seven, and naming the dominant emotion. */
module RecallMerge {
  import opened Recall

  ghost predicate Distinct(ms: seq<Memory>) {
    forall i, j :: 0 <= i < j < |ms| ==> ms[i].id != ms[j].id
  }

  lemma InIds(ms: seq<Memory>, i: nat)
    requires i < |ms|
    ensures ms[i].id in Ids(ms)
  {
  }

  lemma IdsOfConcat(a: seq<Memory>, b: seq<Memory>)
    ensures Ids(a + b) == Ids(a) + Ids(b)
  {
    var s := a + b;
    forall id | id in Ids(b) ensures id in Ids(s) {
      var k :| 0 <= k < |b| && b[k].id == id;
      InIds(s, |a| + k);
      assert s[|a| + k] == b[k];
    }
    forall id | id in Ids(a) ensures id in Ids(s) {
      var k :| 0 <= k < |a| && a[k].id == id;
      InIds(s, k);
      assert s[k] == a[k];
    }
  }

  /** Merging loses no id and repeats none. */
  lemma {:induction false} DedupKeepsIds(ms: seq<Memory>)
    ensures Ids(Dedup(ms)) == Ids(ms) && Distinct(Dedup(ms))
  {
    hide Ids, Distinct;
    if ms == [] {
      NothingIsDistinct();
    } else {
      var n := |ms| - 1;
      var front := ms[..n];
      DedupKeepsIds(front);
      assert front + [ms[n]] == ms;
      IdsOfConcat(front, [ms[n]]);
      IdsOfOne(ms[n]);
      IdsOfConcat(Dedup(front), [ms[n]]);
      if ms[n].id in Ids(front) {
        assert Dedup(ms) == Dedup(front);
      } else {
        AppendDistinct(Dedup(front), ms[n]);
      }
    }
  }

  lemma NothingIsDistinct()
    ensures Distinct([])
  {
  }

  lemma IdsOfOne(m: Memory)
    ensures Ids([m]) == {m.id}
  {
    InIds([m], 0);
  }

  /** The positions whose id has not occurred before. */
  function FirstPositions(ms: seq<Memory>): (at: seq<nat>)
    ensures forall k :: 0 <= k < |at| ==> at[k] < |ms|
    ensures forall k, l :: 0 <= k < l < |at| ==> at[k] < at[l]
  {
    if ms == [] then []
    else
      var n := |ms| - 1;
      FirstPositions(ms[..n]) + if ms[n].id in Ids(ms[..n]) then [] else [n]
  }

  lemma {:induction false} FirstPositionsAre(ms: seq<Memory>, i: nat)
    requires i < |ms|
    ensures i in FirstPositions(ms) <==> ms[i].id !in Ids(ms[..i])
  {
    hide Ids;
    var n := |ms| - 1;
    if i < n {
      FirstPositionsAre(ms[..n], i);
      assert ms[..n][..i] == ms[..i];
    } else {
      assert i !in FirstPositions(ms[..n]);
    }
  }

  /** The merged list is the subsequence of the first occurrences, in their order. */
  lemma {:induction false} DedupIsFirstOccurrences(ms: seq<Memory>)
    ensures var at := FirstPositions(ms);
            |Dedup(ms)| == |at| && forall k :: 0 <= k < |at| ==> Dedup(ms)[k] == ms[at[k]]
  {
    hide Ids;
    if ms != [] {
      var n := |ms| - 1;
      DedupIsFirstOccurrences(ms[..n]);
    }
  }

  lemma AppendDistinct(ms: seq<Memory>, m: Memory)
    requires Distinct(ms) && m.id !in Ids(ms)
    ensures Distinct(ms + [m])
  {
    forall i | 0 <= i < |ms| ensures ms[i].id != m.id {
      InIds(ms, i);
    }
  }

  lemma {:induction false} DedupOfDistinct(ms: seq<Memory>)
    requires Distinct(ms)
    ensures Dedup(ms) == ms
  {
    if ms != [] {
      var n := |ms| - 1;
      DedupOfDistinct(ms[..n]);
      assert ms[n].id !in Ids(ms[..n]);
    }
  }

  /** Merging keeps the first list in front and adds at most the second. */
  lemma {:induction false} DedupOfConcat(a: seq<Memory>, b: seq<Memory>)
    requires Distinct(a)
    ensures a <= Dedup(a + b) && |Dedup(a + b)| <= |a| + |b|
  {
    if b == [] {
      assert a + b == a;
      DedupOfDistinct(a);
    } else {
      var n := |b| - 1;
      DedupOfConcat(a, b[..n]);
      assert (a + b)[..|a| + n] == a + b[..n];
    }
  }

  /** After the limit every working memory is still there, in front, and of the selected ones at most
      the last, lowest ranked, is lost, and only when both lists are full. */
  lemma WorkingMemoriesSurvive(working: seq<Memory>, selected: seq<Memory>)
    requires |working| <= WORKING_LIMIT && |selected| <= SEARCH_LIMIT && Distinct(working)
    ensures var all := LimitMemories(Dedup(working + selected), MAX_TOTAL);
            && working <= all && |all| <= MAX_TOTAL
            && (forall i :: 0 <= i < |selected| - 1 ==> selected[i].id in Ids(all))
            && (|working| < WORKING_LIMIT || |selected| < SEARCH_LIMIT ==> Ids(all) == Ids(working) + Ids(selected))
  {
    hide Ids, Distinct, Dedup;
    var merged := Dedup(working + selected);
    DedupOfConcat(working, selected);
    DedupKeepsIds(working + selected);
    IdsOfConcat(working, selected);
    if selected != [] {
      var n := |selected| - 1;
      var most := working + selected[..n];
      DedupOfConcat(working, selected[..n]);
      DedupKeepsIds(most);
      IdsOfConcat(working, selected[..n]);
      DedupLast(working + selected);
      assert (working + selected)[..|working| + n] == most;
      assert Dedup(most) <= merged[..if |merged| <= MAX_TOTAL then |merged| else MAX_TOTAL];
      PrefixIds(Dedup(most), LimitMemories(merged, MAX_TOTAL));
      forall i | 0 <= i < n ensures selected[i].id in Ids(selected[..n]) {
        InIds(selected[..n], i);
      }
    }
  }

  lemma DedupLast(ms: seq<Memory>)
    requires ms != []
    ensures Dedup(ms[..|ms| - 1]) <= Dedup(ms)
  {
  }

  lemma PrefixIds(a: seq<Memory>, b: seq<Memory>)
    requires a <= b
    ensures Ids(a) <= Ids(b)
  {
    assert a + b[|a|..] == b;
    IdsOfConcat(a, b[|a|..]);
  }

  lemma {:induction false} TakenIsShort(scored: seq<Scored>, picks: seq<bool>)
    requires |picks| == |scored|
    ensures |Taken(scored, picks)| <= |scored|
  {
    if scored != [] {
      TakenIsShort(scored[..|scored| - 1], picks[..|scored| - 1]);
    }
  }

  /** Whatever the judge says and the cache holds, selecting, merging and cutting keeps the working
      memories in front and all but the last of the selected ones. */
  lemma AnswerKeepsMemories(q: Query, cache: Cache, working: seq<Memory>, scored: seq<Scored>)
    requires |working| <= WORKING_LIMIT && |scored| <= SEARCH_LIMIT && Distinct(working)
    ensures var selected := Taken(scored, Select(q, cache, scored).picks);
            var all := LimitMemories(Dedup(working + selected), MAX_TOTAL);
            && working <= all && |all| <= MAX_TOTAL
            && (forall i :: 0 <= i < |selected| - 1 ==> selected[i].id in Ids(all))
  {
    hide Consider, Taken, Dedup, Ids, Distinct;
    var picks := Select(q, cache, scored).picks;
    TakenIsShort(scored, picks);
    WorkingMemoriesSurvive(working, Taken(scored, picks));
  }

  // ---------------------------------------------------------------------------
  // The dominant emotion
  // ---------------------------------------------------------------------------

  ghost predicate Dominates(ms: seq<Memory>, k: nat) {
    k < |ms| && forall i :: 0 <= i < |ms| ==> NormalizeIntensity(ms[i].intensity) <= NormalizeIntensity(ms[k].intensity)
  }

  /** The date sort is not stable, but any order of the same memories has the same dominant intensity. */
  lemma DominanceIgnoresOrder(a: seq<Memory>, b: seq<Memory>, k: nat, l: nat)
    requires multiset(a) == multiset(b) && Dominates(a, k) && Dominates(b, l)
    ensures NormalizeIntensity(a[k].intensity) == NormalizeIntensity(b[l].intensity)
  {
    assert a[k] in multiset(b) && b[l] in multiset(a);
    var i :| 0 <= i < |b| && b[i] == a[k];
    var j :| 0 <= j < |a| && a[j] == b[l];
  }

  ghost predicate DateDescending(ms: seq<Memory>) {
    forall i, j :: 0 <= i < j < |ms| ==> ms[i].happenedAt >= ms[j].happenedAt
  }

  /** However the date sort arranges equal dates, the memory named after it is one of the merged list, of
      greatest normalised intensity, and among those of the latest date. */
  lemma DominantIsLatest(merged: seq<Memory>, sorted: seq<Memory>, k: nat)
    requires multiset(sorted) == multiset(merged) && DateDescending(sorted) && FirstMaximal(sorted, k)
    ensures sorted[k] in merged
    ensures forall m :: m in merged ==> NormalizeIntensity(m.intensity) <= NormalizeIntensity(sorted[k].intensity)
    ensures forall m :: m in merged && NormalizeIntensity(m.intensity) == NormalizeIntensity(sorted[k].intensity)
              ==> m.happenedAt <= sorted[k].happenedAt
  {
    hide NormalizeIntensity;
    assert sorted[k] in multiset(merged);
    forall m | m in merged ensures exists i :: 0 <= i < |sorted| && sorted[i] == m {
      assert m in multiset(sorted);
    }
  }

  /** Normalisation keeps the order of two intensities except where it reads the smaller one, from 2 to
      10, as tenths and the larger one, below ten times that, as it is. */
  lemma NormalizationOrder(a: int, b: int)
    requires a <= b
    ensures NormalizeIntensity(a) <= NormalizeIntensity(b) <==> !(0 < a <= 10 < b < 10 * a)
  {
  }
}
