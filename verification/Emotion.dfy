/** From the analyst's raw intensity to the stored memory: noise gate, triviality filter, tension floor,
    activation threshold, rounding, weight and clamps.  Floating-point numbers are exact reals. */
module Emotion {
  import opened Basics
  import opened Recall
  import opened Text

  datatype Big5 = Big5(openness: int, conscientiousness: int, extraversion: int, agreeableness: int, neuroticism: int) {
    predicate InScale() {
      0 <= conscientiousness <= 100 && 0 <= extraversion <= 100 && 0 <= neuroticism <= 100
    }

    function Resilience(): real {
      ((100 - neuroticism) as real * 0.6 + conscientiousness as real * 0.25 + extraversion as real * 0.15) / 100.0
    }
  }

  /** Conversion to an integer drops the fraction. */
  function Truncate(x: real): int { if x >= 0.0 then x.Floor else -((-x).Floor) }

  /** Rounding goes half away from zero. */
  function Round(x: real): int { if x >= 0.0 then (x + 0.5).Floor else -((0.5 - x).Floor) }

  const NEUTRAL: string := "NEUTRAL"

  function CategoryOrNeutral(category: string): string {
    if TrimSpace(category) == "" then NEUTRAL else TrimSpace(category)
  }

  datatype Analysis = Analysis(intensity: int, category: string)

  // ---------------------------------------------------------------------------
  // The analyst's verdict
  // ---------------------------------------------------------------------------

  /** A missing or non-positive intensity is read as 10. */
  function Read(raw: int): int { if raw <= 0 then 10 else raw }

  function Damped(p: Big5, raw: int): real { Read(raw) as real * (1.0 - p.Resilience() * 0.5) }

  predicate IsNoise(p: Big5, raw: int, category: string) {
    Damped(p, raw) < 20.0 + p.Resilience() * 30.0 && ToLower(category) != "extreme"
  }

  method AnalyzeEmotion(p: Big5, raw: int, rawCategory: string) returns (a: Analysis)
    ensures a == Analyze(p, raw, rawCategory)
  {
    hide Big5.Resilience, ToLower, TrimSpace;
    var intensity := raw;
    if intensity <= 0 {
      intensity := 10;
    }
    var category := TrimSpace(rawCategory);
    if category == "" {
      category := NEUTRAL;
    }
    var resilience := p.Resilience();
    var effective := intensity as real * (1.0 - resilience * 0.5);
    assert effective == Damped(p, raw);
    var noiseThreshold := 20.0 + resilience * 30.0;
    if effective < noiseThreshold && ToLower(rawCategory) != "extreme" {
      effective := 0.0;
      category := NEUTRAL;
    }
    return Analysis(Truncate(effective), category);
  }

  function Analyze(p: Big5, raw: int, rawCategory: string): Analysis {
    if IsNoise(p, raw, rawCategory) then Analysis(0, NEUTRAL)
    else Analysis(Truncate(Damped(p, raw)), CategoryOrNeutral(rawCategory))
  }

  // ---------------------------------------------------------------------------
  // The reaction
  // ---------------------------------------------------------------------------

  predicate IsNegativeEmotion(category: string) {
    ToLower(TrimSpace(category)) in {"ira", "miedo", "asco", "tristeza", "odio", "enfado"}
  }

  predicate IsNeutralEmotion(category: string) {
    ToLower(TrimSpace(category)) in {"neutral", ""}
  }

  predicate IsFaint(a: Analysis) {
    a.intensity < 30 && (IsNegativeEmotion(a.category) || IsNeutralEmotion(a.category))
  }

  const TENSION_FLOOR := 35

  /** The intensity that reaches the activation threshold. */
  function Filtered(a: Analysis, tension: bool): int {
    if tension then if a.intensity < TENSION_FLOOR then TENSION_FLOOR else a.intensity
    else if IsFaint(a) then 0
    else a.intensity
  }

  function Threshold(neuroticism: int): real {
    var r := (100 - neuroticism) as real / 100.0;
    30.0 * (if r < 0.0 then 0.0 else if r > 1.0 then 1.0 else r)
  }

  function CalculateReaction(raw: real, neuroticism: int): real {
    var x := (if raw < 0.0 then 0.0 else raw) - Threshold(neuroticism);
    if x < 0.0 then 0.0 else x
  }

  function Activated(a: Analysis, neuroticism: int, tension: bool): int {
    Round(CalculateReaction(Filtered(a, tension) as real, neuroticism))
  }

  datatype Reaction = Reaction(intensity: int, trivial: bool)

  /** The section of `Chat` that decides how strongly to react and whether the input was trivial.
      Without an analysis the intensity is 10 and the category neutral. */
  method React(p: Big5, analysis: Option<Analysis>, isHighTension: bool) returns (r: Reaction)
    ensures var a := if analysis.Some? then analysis.value else Analysis(10, NEUTRAL);
            && r.intensity == Activated(a, p.neuroticism, isHighTension)
            && (r.trivial <==> !isHighTension && (IsFaint(a) || (r.intensity == 0 && p.Resilience() >= 0.5)))
  {
    var emotionalIntensity, emotionCategory := 10, NEUTRAL;
    if analysis.Some? {
      emotionalIntensity, emotionCategory := analysis.value.intensity, analysis.value.category;
    }
    var trivialInput := false;
    var effectiveIntensity := emotionalIntensity;
    if emotionalIntensity < 30 && (IsNegativeEmotion(emotionCategory) || IsNeutralEmotion(emotionCategory)) {
      if !isHighTension {
        effectiveIntensity := 0;
        trivialInput := true;
      } else {
        trivialInput := false;
        if effectiveIntensity < TENSION_FLOOR {
          effectiveIntensity := TENSION_FLOOR;
        }
      }
    }
    if isHighTension {
      if effectiveIntensity < TENSION_FLOOR {
        effectiveIntensity := TENSION_FLOOR;
      }
      trivialInput := false;
    }
    var effective := CalculateReaction(effectiveIntensity as real, p.neuroticism);
    effectiveIntensity := Round(effective);
    if effectiveIntensity == 0 && p.Resilience() >= 0.5 && !isHighTension {
      trivialInput := true;
    }
    return Reaction(effectiveIntensity, trivialInput);
  }

  // ---------------------------------------------------------------------------
  // The stored record
  // ---------------------------------------------------------------------------

  datatype Record = Record(content: string, importance: int, weight: int, intensity: int, category: string)

  function Clamp(v: int, lo: int, hi: int): int { if v < lo then lo else if v > hi then hi else v }

  method InjectMemory(content: string, importance: int, emotionalWeight: int, emotionalIntensity: int, emotionCategory: string)
    returns (stored: Option<Record>)
    ensures stored.None? <==> TrimSpace(content) == ""
    ensures stored.Some? ==>
            stored.value == Record(TrimSpace(content), Clamp(importance, 1, 10), Clamp(emotionalWeight, 1, 10),
                                   Clamp(emotionalIntensity, 0, 100), CategoryOrNeutral(emotionCategory))
  {
    var text := TrimSpace(content);
    if text == "" {
      return None;
    }
    var imp, weight, intensity := importance, emotionalWeight, emotionalIntensity;
    if imp < 1 {
      imp := 1;
    }
    if imp > 10 {
      imp := 10;
    }
    if weight < 1 {
      weight := 1;
    }
    if weight > 10 {
      weight := 10;
    }
    if intensity < 0 {
      intensity := 0;
    }
    if intensity > 100 {
      intensity := 100;
    }
    var category := TrimSpace(emotionCategory);
    if category == "" {
      category := NEUTRAL;
    }
    return Some(Record(text, imp, weight, intensity, category));
  }

  /** The tail of that section: persist a memory when there is a real signal.  Whatever the reaction,
      a stored memory has importance and weight equal to its intensity in tenths, rounded up. */
  method Remember(message: string, r: Reaction, category: string) returns (stored: Option<Record>)
    ensures stored.Some? <==> !r.trivial && r.intensity > 0 && TrimSpace(message) != ""
    ensures stored.Some? ==>
            && 1 <= stored.value.intensity <= 100
            && stored.value.intensity == Clamp(r.intensity, 0, 100)
            && stored.value.importance == stored.value.weight
            && 10 * (stored.value.weight - 1) < stored.value.intensity <= 10 * stored.value.weight
            && 1 <= stored.value.weight <= 10
            && stored.value.content == TrimSpace(message) && stored.value.category == CategoryOrNeutral(category)
  {
    stored := None;
    if !r.trivial && r.intensity > 0 {
      var weight := (r.intensity + 9) / 10;
      if weight < 1 {
        weight := 1;
      }
      if weight > 10 {
        weight := 10;
      }
      var importance := weight;
      stored := InjectMemory(message, importance, weight, r.intensity, category);
    }
  }

  /** The working-memory query: important or intense. */
  predicate HighImpact(r: Record) { r.importance >= 8 || r.intensity >= 60 }

  /** On records of this shape importance adds nothing to the query. */
  lemma ImportanceIsRedundant(r: Record)
    requires r.importance == r.weight && 10 * (r.weight - 1) < r.intensity <= 10 * r.weight
    ensures HighImpact(r) <==> r.intensity >= 60
  {
  }

  // ---------------------------------------------------------------------------
  // In whole numbers
  // ---------------------------------------------------------------------------

  /** Resilience grows from 0 for the most fragile profile to 1 for the toughest: by 0.006 for each point less of
      neuroticism, 0.0025 for each of conscientiousness and 0.0015 for each of extraversion; the other traits do not
      matter. */
  lemma ResilienceSteps(p: Big5, q: Big5)
    ensures q.Resilience() - p.Resilience() ==
            0.006 * (p.neuroticism - q.neuroticism) as real + 0.0025 * (q.conscientiousness - p.conscientiousness) as real
            + 0.0015 * (q.extraversion - p.extraversion) as real
    ensures Big5(0, 0, 0, 0, 100).Resilience() == 0.0 && Big5(0, 100, 100, 0, 0).Resilience() == 1.0
  {
  }

  /** Resilience in ten-thousandths. */
  function Points(p: Big5): int { 60 * (100 - p.neuroticism) + 25 * p.conscientiousness + 15 * p.extraversion }

  lemma PointsAreResilience(p: Big5)
    ensures Points(p) as real == 10000.0 * p.Resilience()
    ensures p.InScale() ==> 0 <= Points(p) <= 10000
  {
  }

  /** The noise gate and the damping as whole-number inequalities: what gets through, and with which intensity. */
  lemma AnalysisReaches(p: Big5, raw: int, category: string, k: int)
    requires p.InScale() && k >= 1
    ensures IsNoise(p, raw, category) <==>
            ToLower(category) != "extreme" && Read(raw) * (20000 - Points(p)) < 400000 + 60 * Points(p)
    ensures Analyze(p, raw, category).intensity >= k <==>
            !IsNoise(p, raw, category) && Read(raw) * (20000 - Points(p)) >= 20000 * k
  {
    hide Big5.Resilience, ToLower;
    PointsAreResilience(p);
    DampedIs(p, raw);
    FloorReaches(Damped(p, raw), k);
  }

  /** An emotion that gets through keeps its category without outer white space; one without a category, or silenced,
      is neutral. */
  lemma CategoryKept(p: Big5, raw: int, category: string)
    ensures var c := Analyze(p, raw, category).category;
            && c != "" && c == (if IsNoise(p, raw, category) || TrimSpace(category) == "" then "NEUTRAL" else TrimSpace(category))
  {
    hide TrimSpace, IsNoise;
  }

  lemma DampedIs(p: Big5, raw: int)
    requires p.InScale()
    ensures 20000.0 * Damped(p, raw) == (Read(raw) * (20000 - Points(p))) as real && Damped(p, raw) >= 0.0
  {
    hide Big5.Resilience;
    PointsAreResilience(p);
    var r := p.Resilience();
    assert (20000 - Points(p)) as real == 20000.0 * (1.0 - r * 0.5);
    ScaledProduct(Read(raw) as real, 1.0 - r * 0.5, (20000 - Points(p)) as real);
  }

  lemma ScaledProduct(x: real, y: real, z: real)
    requires z == 20000.0 * y && x >= 0.0 && y >= 0.0
    ensures 20000.0 * (x * y) == x * z && x * y >= 0.0
  {
  }

  lemma FloorReaches(x: real, k: int)
    requires x >= 0.0
    ensures Truncate(x) >= k <==> x >= k as real
  {
  }

  /** An emotion that is not extreme never gets through below 20 and always does from 100; where it starts to depends on
      the profile: at 20 for the most fragile and at 100 for the toughest. */
  lemma GateRange(p: Big5, raw: int, category: string)
    requires p.InScale() && ToLower(category) != "extreme"
    ensures Read(raw) < 20 ==> IsNoise(p, raw, category)
    ensures Read(raw) >= 100 ==> !IsNoise(p, raw, category)
    ensures p.Resilience() == 0.0 ==> (IsNoise(p, raw, category) <==> Read(raw) < 20)
    ensures p.Resilience() == 1.0 ==> (IsNoise(p, raw, category) <==> Read(raw) < 100)
  {
    hide Big5.Resilience, ToLower;
    PointsAreResilience(p);
    AnalysisReaches(p, raw, category, 1);
    hide Points, Read, IsNoise;
    GateNumbers(Read(raw), Points(p));
  }

  lemma GateNumbers(n: int, s: int)
    requires 0 <= s <= 10000
    ensures var gated := n * (20000 - s) < 400000 + 60 * s;
            (n < 20 ==> gated) && (n >= 100 ==> !gated) && (s == 0 ==> (gated <==> n < 20)) && (s == 10000 ==> (gated <==> n < 100))
  {
    var c := 20000 - s;
    if n < 20 {
      Scale(n, 19, c);
    } else if n >= 100 {
      Scale(100, n, c);
    } else if s == 0 {
      assert n * (20000 - s) == 20000 * n;
    } else if s == 10000 {
      assert n * (20000 - s) == 10000 * n;
    }
  }

  lemma Scale(n: int, m: int, c: int)
    requires n <= m && c >= 0
    ensures n * c <= m * c
  {
  }

  /** The activation threshold and the rounding as a whole-number inequality. */
  lemma ActivationReaches(x: int, neuroticism: int, k: int)
    requires k >= 1
    ensures Round(CalculateReaction(x as real, neuroticism)) >= k <==> 10 * x + 3 * Clamp(neuroticism, 0, 100) >= 295 + 10 * k
  {
    var n := Clamp(neuroticism, 0, 100);
    assert Threshold(neuroticism) == 30.0 - 0.3 * n as real;
    var y := CalculateReaction(x as real, neuroticism);
    assert y >= 0.0 && (x >= 0 && 10 * x + 3 * n >= 300 ==> 10.0 * y == (10 * x + 3 * n - 300) as real);
    assert Round(y) >= k <==> y + 0.5 >= k as real;
  }

  /** How strong the reaction to an analysis is: without tension nothing faint gets through, with it everything counts
      as 35 at least. */
  lemma ReactionReaches(a: Analysis, neuroticism: int, tension: bool, k: int)
    requires k >= 1
    ensures var n := Clamp(neuroticism, 0, 100);
            Activated(a, neuroticism, tension) >= k <==>
            if tension then 10 * a.intensity + 3 * n >= 295 + 10 * k || 350 + 3 * n >= 295 + 10 * k
            else !IsFaint(a) && 10 * a.intensity + 3 * n >= 295 + 10 * k
  {
    hide CalculateReaction, Round, IsFaint;
    ActivationReaches(Filtered(a, tension), neuroticism, k);
  }

  /** What is filtered out without tension: a neutral, missing or negative emotion below 30. */
  lemma FaintWords(intensity: int, category: string)
    ensures IsFaint(Analysis(intensity, category)) <==>
            intensity < 30 && ToLower(TrimSpace(category)) in {"", "neutral", "ira", "miedo", "asco", "tristeza", "odio", "enfado"}
  {
  }

  /** Without tension neither a missing analysis nor one that the gate has silenced is ever stored. */
  lemma SilenceIsTrivial(p: Big5, raw: int, category: string)
    ensures IsFaint(Analysis(10, NEUTRAL)) && IsFaint(Analysis(0, NEUTRAL))
    ensures IsNoise(p, raw, category) ==> Pipeline(p, raw, category, false) == 0
  {
    hide IsFaint, IsNoise;
    NeutralIsFaint();
    assert Threshold(p.neuroticism) >= 0.0;
  }

  lemma NeutralIsFaint()
    ensures IsFaint(Analysis(10, NEUTRAL)) && IsFaint(Analysis(0, NEUTRAL))
  {
    hide TrimSpace, IsSpace, IsNegativeEmotion;
    NoSpaces();
    TrimmedStays(NEUTRAL);
    assert ToLower(NEUTRAL) == "neutral";
  }

  lemma NoSpaces()
    ensures !IsSpace('N') && !IsSpace('L')
  {
  }

  // ---------------------------------------------------------------------------
  // The whole pipeline
  // ---------------------------------------------------------------------------

  /** From the analyst's answer to the final intensity. */
  function Pipeline(p: Big5, raw: int, category: string, tension: bool): int {
    Activated(Analyze(p, raw, category), p.neuroticism, tension)
  }

  lemma FloorMonotone(x: real, y: real)
    requires x <= y
    ensures x.Floor <= y.Floor
  {
  }

  lemma ActivationMonotone(x: int, y: int, m: int, n: int)
    requires x <= y && m <= n
    ensures 0 <= Round(CalculateReaction(x as real, m)) <= Round(CalculateReaction(y as real, n))
  {
    assert Threshold(n) <= Threshold(m);
    FloorMonotone(CalculateReaction(x as real, m) + 0.5, CalculateReaction(y as real, n) + 0.5);
  }

  /** Between two analyses where the second is at least as strong, or the first was faded out as noise. */
  lemma FilterMonotone(a: Analysis, b: Analysis, tension: bool)
    requires 0 <= a.intensity <= b.intensity
    requires a.category == b.category || a == Analysis(0, NEUTRAL)
    ensures Filtered(a, tension) <= Filtered(b, tension)
  {
  }

  lemma ProductMonotone(a: real, b: real, c: real, d: real)
    requires 0.0 <= a <= b && 0.0 <= c <= d
    ensures 0.0 <= a * c <= b * d
  {
    assert a * c <= b * c;
    assert b * c <= b * d;
  }

  lemma ResilienceInScale(p: Big5)
    requires p.InScale()
    ensures 0.0 <= p.Resilience() <= 1.0
  {
  }

  /** Same person but for a higher neuroticism, and a raw intensity that is read as at least as high. */
  ghost predicate Stronger(p: Big5, raw: int, q: Big5, raw': int) {
    && p.InScale() && q.InScale() && Read(raw) <= Read(raw')
    && q == p.(neuroticism := q.neuroticism) && p.neuroticism <= q.neuroticism
  }

  lemma DampingMonotone(p: Big5, raw: int, q: Big5, raw': int)
    requires Stronger(p, raw, q, raw')
    ensures q.Resilience() <= p.Resilience() && 0.0 <= Damped(p, raw) <= Damped(q, raw')
  {
    ResilienceInScale(p);
    ResilienceInScale(q);
    assert q.Resilience() <= p.Resilience();
    ProductMonotone(Read(raw) as real, Read(raw') as real, 1.0 - p.Resilience() * 0.5, 1.0 - q.Resilience() * 0.5);
  }

  /** The final intensity never falls when the intensity read or the neuroticism rises. */
  lemma PipelineIsMonotone(p: Big5, raw: int, q: Big5, raw': int, category: string, tension: bool)
    requires Stronger(p, raw, q, raw')
    ensures Pipeline(p, raw, category, tension) <= Pipeline(q, raw', category, tension)
  {
    hide Damped, Big5.Resilience, CalculateReaction, Round, IsFaint;
    DampingMonotone(p, raw, q, raw');
    FloorMonotone(Damped(p, raw), Damped(q, raw'));
    var a, b := Analyze(p, raw, category), Analyze(q, raw', category);
    FilterMonotone(a, b, tension);
    ActivationMonotone(Filtered(a, tension), Filtered(b, tension), p.neuroticism, q.neuroticism);
  }

  /** One raw intensity never ends above another. */
  ghost predicate NeverAbove(raw: int, raw': int) {
    forall p: Big5, category, tension ::
      p.InScale() ==> Pipeline(p, raw, category, tension) <= Pipeline(p, raw', category, tension)
  }

  /** Exactly when: for every profile, category and tension the order of two raw intensities is kept if and
      only if they are read in that order. */
  lemma RawOrderKeptIff(raw: int, raw': int)
    ensures NeverAbove(raw, raw') <==> Read(raw) <= Read(raw')
  {
    hide Pipeline;
    if Read(raw) <= Read(raw') {
      forall p: Big5, category, tension | p.InScale()
        ensures Pipeline(p, raw, category, tension) <= Pipeline(p, raw', category, tension)
      {
        assert Stronger(p, raw, p, raw');
        PipelineIsMonotone(p, raw, p, raw', category, tension);
      }
    } else {
      RawComesThrough(raw);
      RawComesThrough(raw');
    }
  }

  /** A profile without any resilience. */
  const GLASS := Big5(50, 0, 0, 50, 100)

  /** With it an extreme emotion comes through as it was read. */
  lemma RawComesThrough(raw: int)
    ensures GLASS.InScale() && Pipeline(GLASS, raw, "extreme", false) == Read(raw)
  {
    ExtremeIsNeitherFaintNorNoise();
    assert GLASS.Resilience() == 0.0 && Threshold(GLASS.neuroticism) == 0.0;
    assert Damped(GLASS, raw) == Read(raw) as real;
  }

  lemma ExtremeIsNeitherFaintNorNoise()
    ensures ToLower("extreme") == "extreme" && TrimSpace("extreme") == "extreme"
  {
    hide ToLower, TrimSpace;
    WordStays("extreme");
  }

  /** Hence a higher raw intensity can end lower: 0 is read as 10, and 1 as it is. */
  lemma ZeroEndsAboveOne()
    ensures Pipeline(GLASS, 0, "extreme", false) == 10 && Pipeline(GLASS, 1, "extreme", false) == 1
  {
    hide Pipeline;
    RawComesThrough(0);
    RawComesThrough(1);
  }

  /** High tension forces a reaction of at least 5, for any profile and any input. */
  lemma TensionForcesReaction(p: Big5, a: Analysis)
    ensures Activated(a, p.neuroticism, true) >= 5
  {
    assert Threshold(p.neuroticism) <= 30.0;
    FloorMonotone(5.5, CalculateReaction(Filtered(a, true) as real, p.neuroticism) + 0.5);
  }

  /** Trivial input has no intensity: the storing guard comes down to a positive intensity. */
  lemma TrivialMeansZero(p: Big5, a: Analysis, tension: bool)
    ensures var intensity := Activated(a, p.neuroticism, tension);
            var trivial := !tension && (IsFaint(a) || (intensity == 0 && p.Resilience() >= 0.5));
            !trivial && intensity > 0 <==> intensity > 0
  {
    assert Threshold(p.neuroticism) >= 0.0;
    assert CalculateReaction(0.0, p.neuroticism) == 0.0;
    assert Round(0.0) == 0;
  }

  /** The two lists of negative emotions differ in exactly one word. */
  lemma NegativeListsDiffer(category: string)
    ensures IsNegativeCategory(category) <==> IsNegativeEmotion(category) || ToLower(TrimSpace(category)) == "enojo"
  {
  }

  /** A memory raised to the tension floor is stored with intensity 5 to 35 according to neuroticism, but
      read back as dominant, 60 or more, exactly for a neuroticism from 2 to 18. */
  lemma TensionFloorReadsBack(a: Analysis, neuroticism: int)
    requires a.intensity < TENSION_FLOOR && 0 <= neuroticism <= 100
    ensures var stored := Activated(a, neuroticism, true);
            5 <= stored <= 35 && (NormalizeIntensity(stored) >= 60 <==> 2 <= neuroticism <= 18)
  {
    var x := 5.0 + 0.3 * neuroticism as real;
    assert CalculateReaction(35.0, neuroticism) == x;
    if neuroticism <= 1 {
      FloorMonotone(x + 0.5, 5.9);
    } else if neuroticism <= 18 {
      FloorMonotone(6.0, x + 0.5);
      FloorMonotone(x + 0.5, 10.9);
    } else {
      FloorMonotone(11.0, x + 0.5);
      FloorMonotone(x + 0.5, 35.5);
    }
  }
}
