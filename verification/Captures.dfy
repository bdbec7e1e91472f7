/** Cleaning never changes the public answer that is captured: what it removes holds no quote. */
module Captures {
  import opened Basics
  import opened BraceScan
  import opened Fences
  import opened PublicResponse
  import opened Text

  predicate NoQuote(s: string, from: nat, to: nat)
    requires from <= to <= |s|
  {
    forall i :: from <= i < to ==> s[i] != '"'
  }

  // ---------------------------------------------------------------------------
  // Slices without the quotes' surroundings
  // ---------------------------------------------------------------------------

  lemma {:induction false} BodyEndOfSlice(s: string, a: nat, b: nat, i: nat)
    requires a <= i <= b <= |s| && NoQuote(s, b, |s|)
    ensures var whole := BodyEnd(s, i);
            && (whole.Some? ==> whole.value < b)
            && BodyEnd(s[a..b], i - a) == if whole.Some? then Some(whole.value - a) else None
    decreases b - i
  {
    if i == b {
      NoBodyEnd(s, i);
    } else {
      assert s[a..b][i - a] == s[i];
      if s[i] == '\\' {
        if i + 1 == b {
          NoBodyEnd(s, b);
          if b < |s| {
            NoBodyEnd(s, b + 1);
          }
        } else {
          BodyEndOfSlice(s, a, b, i + 2);
        }
      } else if s[i] != '"' {
        BodyEndOfSlice(s, a, b, i + 1);
      }
    }
  }

  lemma {:induction false} NoBodyEnd(s: string, i: nat)
    requires i <= |s| && NoQuote(s, i, |s|)
    ensures BodyEnd(s, i).None?
    decreases |s| - i
  {
    if i < |s| {
      if s[i] == '\\' && i + 1 < |s| {
        NoBodyEnd(s, i + 2);
      } else if s[i] != '\\' {
        NoBodyEnd(s, i + 1);
      }
    }
  }

  lemma {:induction false} SkipOfSlice(s: string, a: nat, b: nat, i: nat)
    requires a <= i <= b <= |s|
    ensures var whole := SkipSpaces(s, i);
            SkipSpaces(s[a..b], i - a) == if whole < b then whole - a else b - a
    decreases b - i
  {
    if i < b {
      assert s[a..b][i - a] == s[i];
      if IsReSpace(s[i]) {
        SkipOfSlice(s, a, b, i + 1);
      }
    }
  }

  lemma OpenOfSlice(s: string, a: nat, b: nat, i: nat)
    requires a <= i <= b <= |s| && NoQuote(s, b, |s|)
    ensures var whole := OpenQuote(s, i);
            && (whole.Some? ==> whole.value <= b)
            && OpenQuote(s[a..b], i - a) == if whole.Some? then Some(whole.value - a) else None
  {
    hide IsReSpace, SkipSpaces;
    var colon := SkipSpaces(s, i);
    SkipOfSlice(s, a, b, i);
    if colon < b {
      assert s[a..b][colon - a] == s[colon];
      SkipOfSlice(s, a, b, colon + 1);
      var open := SkipSpaces(s, colon + 1);
      if open < b {
        assert s[a..b][open - a] == s[open];
      }
    }
  }

  lemma KeyOfSlice(s: string, a: nat, b: nat, i: nat, key: string)
    requires a <= i && i + |key| <= b <= |s|
    ensures KeyAt(s[a..b], i - a, key) <==> KeyAt(s, i, key)
  {
    assert ToLower(s[a..b])[i - a..i - a + |key|] == ToLower(s)[i..i + |key|];
  }

  lemma MatchOfSlice(s: string, a: nat, b: nat, i: nat)
    requires a <= i <= b <= |s| && NoQuote(s, b, |s|)
    ensures var whole := MatchAt(s, i, PUBLIC_KEY);
            && (whole.Some? ==> a <= whole.value.from <= whole.value.to <= b)
            && MatchAt(s[a..b], i - a, PUBLIC_KEY)
               == if whole.Some? then Some(Span(whole.value.from - a, whole.value.to - a)) else None
  {
    hide OpenQuote, BodyEnd, KeyAt, NoQuote;
    var from := i + |PUBLIC_KEY|;
    if from <= b {
      KeyOfSlice(s, a, b, i, PUBLIC_KEY);
      OpenOfSlice(s, a, b, from);
      if OpenQuote(s, from).Some? {
        BodyEndOfSlice(s, a, b, OpenQuote(s, from).value);
      }
    } else {
      KeyNeedsRoom(s[a..b], i - a);
      KeyEndsWithQuote(s, i, b);
    }
  }

  lemma KeyNeedsRoom(s: string, i: nat)
    ensures i + |PUBLIC_KEY| > |s| ==> !KeyAt(s, i, PUBLIC_KEY)
  {
  }

  lemma KeyEndsWithQuote(s: string, i: nat, b: nat)
    requires b <= |s| && NoQuote(s, b, |s|) && i + |PUBLIC_KEY| > b
    ensures !KeyAt(s, i, PUBLIC_KEY)
  {
    if KeyAt(s, i, PUBLIC_KEY) {
      QuotesOfKey(s, i);
    }
  }

  lemma QuotesOfKey(s: string, i: nat)
    requires KeyAt(s, i, PUBLIC_KEY)
    ensures i + |PUBLIC_KEY| <= |s| && s[i] == '"' && s[i + |PUBLIC_KEY| - 1] == '"'
  {
    var n := |PUBLIC_KEY|;
    var lower := ToLower(s);
    assert lower[i] == lower[i..i + n][0] && lower[i + n - 1] == lower[i..i + n][n - 1];
    LowerQuote(s[i]);
    LowerQuote(s[i + n - 1]);
  }

  lemma LowerQuote(c: char)
    ensures LowerChar(c) == '"' <==> c == '"'
  {
  }

  lemma {:induction false} FindOfSlice(s: string, a: nat, b: nat, i: nat)
    requires a <= i <= b <= |s| && NoQuote(s, b, |s|)
    ensures var whole := FindFrom(s, i, PUBLIC_KEY);
            && (whole.Some? ==> a <= whole.value.from <= whole.value.to <= b)
            && FindFrom(s[a..b], i - a, PUBLIC_KEY)
               == if whole.Some? then Some(Span(whole.value.from - a, whole.value.to - a)) else None
    decreases b - i
  {
    hide MatchAt, NoQuote;
    MatchOfSlice(s, a, b, i);
    if MatchAt(s, i, PUBLIC_KEY).None? {
      if i < b {
        FindOfSlice(s, a, b, i + 1);
      } else if i < |s| {
        NoFind(s, i + 1, b);
      }
    }
  }

  lemma {:induction false} NoFind(s: string, i: nat, b: nat)
    requires b <= i <= |s| && NoQuote(s, b, |s|)
    ensures FindFrom(s, i, PUBLIC_KEY).None?
    decreases |s| - i
  {
    hide KeyAt, NoQuote, OpenQuote;
    KeyEndsWithQuote(s, i, b);
    if i < |s| {
      NoFind(s, i + 1, b);
    }
  }

  lemma {:induction false} FindSkips(s: string, i: nat, a: nat)
    requires i <= a <= |s| && NoQuote(s, i, a)
    ensures FindFrom(s, i, PUBLIC_KEY) == FindFrom(s, a, PUBLIC_KEY)
    decreases a - i
  {
    hide KeyAt, OpenQuote;
    if i < a {
      if KeyAt(s, i, PUBLIC_KEY) {
        QuotesOfKey(s, i);
      }
      FindSkips(s, i + 1, a);
    }
  }

  /** Cutting text without quotes in front and behind changes no captured answer. */
  lemma CaptureOfSlice(s: string, a: nat, b: nat, unquote: Unquote)
    requires a <= b <= |s| && NoQuote(s, 0, a) && NoQuote(s, b, |s|)
    ensures ExtractPublicResponseByRegex(s[a..b], unquote) == ExtractPublicResponseByRegex(s, unquote)
  {
    hide FindFrom, Decode, NoQuote;
    FindSkips(s, 0, a);
    FindOfSlice(s, a, b, a);
    var m := FindFrom(s, 0, PUBLIC_KEY);
    if m.Some? {
      SliceOfSlice(s, a, b, m.value.from, m.value.to);
    }
  }

  // ---------------------------------------------------------------------------
  // The steps of cleaning
  // ---------------------------------------------------------------------------

  lemma CaptureAfterTrim(s: string, p: char -> bool, unquote: Unquote)
    requires !p('"')
    ensures ExtractPublicResponseByRegex(TrimLeft(s, p), unquote) == ExtractPublicResponseByRegex(s, unquote)
    ensures ExtractPublicResponseByRegex(TrimRight(s, p), unquote) == ExtractPublicResponseByRegex(s, unquote)
  {
    hide ExtractPublicResponseByRegex;
    var n := LeadLen(s, p);
    assert s[n..] == s[n..|s|];
    CaptureOfSlice(s, n, |s|, unquote);
    assert s[..KeepLen(s, p)] == s[0..KeepLen(s, p)];
    CaptureOfSlice(s, 0, KeepLen(s, p), unquote);
  }

  lemma CaptureAfterTrimSpace(s: string, unquote: Unquote)
    ensures ExtractPublicResponseByRegex(TrimSpace(s), unquote) == ExtractPublicResponseByRegex(s, unquote)
  {
    hide ExtractPublicResponseByRegex;
    QuoteIsNoSpace();
    CaptureAfterTrim(s, IsSpace, unquote);
    CaptureAfterTrim(TrimLeft(s, IsSpace), IsSpace, unquote);
  }

  lemma QuoteIsNoSpace()
    ensures !IsSpace('"') && !IsReSpace('"') && BOM[0] != '"'
  {
  }

  lemma CaptureAfterPrefix(s: string, unquote: Unquote)
    ensures ExtractPublicResponseByRegex(TrimPrefix(s, BOM), unquote) == ExtractPublicResponseByRegex(s, unquote)
  {
    hide ExtractPublicResponseByRegex;
    QuoteIsNoSpace();
    if 1 <= |s| && s[..1] == BOM {
      assert s[0] == s[..1][0] && s[1..] == s[1..|s|];
      CaptureOfSlice(s, 1, |s|, unquote);
    }
  }

  lemma OpeningIsQuoteFree(s: string, i: nat)
    requires At(s, i, FENCE) && i == LeadLen(s, IsReSpace)
    ensures NoQuote(s, 0, TagEnd(s, i + 3))
  {
    hide IsReSpace;
    QuoteIsNoSpace();
    FenceIsBraceFree(s, i);
    if At(ToLower(s), i + 3, "json") {
      forall j | i + 3 <= j < i + 7 ensures s[j] != '"' {
        assert ToLower(s)[j] == ToLower(s)[i + 3..i + 7][j - i - 3];
        LowerQuote(s[j]);
      }
    }
  }

  lemma CaptureAfterFenceStart(s: string, unquote: Unquote)
    ensures ExtractPublicResponseByRegex(StripFenceStart(s), unquote) == ExtractPublicResponseByRegex(s, unquote)
  {
    hide ExtractPublicResponseByRegex, TagEnd, LeadLen, IsReSpace;
    var i := LeadLen(s, IsReSpace);
    if At(s, i, FENCE) {
      var k := TagEnd(s, i + 3);
      OpeningIsQuoteFree(s, i);
      QuoteIsNoSpace();
      assert s[k..] == s[k..|s|];
      CaptureOfSlice(s, k, |s|, unquote);
      CaptureAfterTrim(s[k..], IsReSpace, unquote);
    }
  }

  lemma CaptureAfterFenceEnd(s: string, unquote: Unquote)
    ensures ExtractPublicResponseByRegex(StripFenceEnd(s), unquote) == ExtractPublicResponseByRegex(s, unquote)
  {
    hide ExtractPublicResponseByRegex, KeepLen, IsReSpace;
    var n := KeepLen(s, IsReSpace);
    if n >= 3 && At(s, n - 3, FENCE) {
      FenceIsBraceFree(s, n - 3);
      QuoteIsNoSpace();
      assert s[..n - 3] == s[0..n - 3];
      CaptureOfSlice(s, 0, n - 3, unquote);
      CaptureAfterTrim(s[..n - 3], IsReSpace, unquote);
    }
  }

  /** For every raw text the cleaned and the raw text give the same public answer: trying the raw one after the
      cleaned one never finds anything more. */
  lemma CleaningKeepsCapture(raw: string, unquote: Unquote)
    ensures ExtractPublicResponseByRegex(CleanLLMJSONResponse(raw), unquote) == ExtractPublicResponseByRegex(raw, unquote)
  {
    hide ExtractPublicResponseByRegex, StripFenceStart, StripFenceEnd, TrimSpace;
    var s := TrimSpace(raw);
    CaptureAfterTrimSpace(raw, unquote);
    if s != "" {
      var t := TrimPrefix(s, BOM);
      CaptureAfterPrefix(s, unquote);
      CaptureAfterFenceStart(t, unquote);
      CaptureAfterFenceEnd(StripFenceStart(t), unquote);
      CaptureAfterTrimSpace(StripFenceEnd(StripFenceStart(t)), unquote);
    }
  }
}
