/** Cleaning a raw model answer: trimming, the byte order mark and Markdown code fences. */
module Fences {
  import opened BraceScan
  import opened Text

  const BOM: string := "\U{FEFF}"
  const FENCE: string := "```"

  /** The white space class of the regular expressions. */
  predicate IsReSpace(c: char) { c in " \t\n\r\U{000C}" }

  function TrimPrefix(s: string, prefix: string): string {
    if |prefix| <= |s| && s[..|prefix|] == prefix then s[|prefix|..] else s
  }

  /** Removes `^\s*```(?:json)?\s*`, ignoring case. */
  function StripFenceStart(s: string): string {
    var i := LeadLen(s, IsReSpace);
    if !At(s, i, FENCE) then s else TrimLeft(s[TagEnd(s, i + 3)..], IsReSpace)
  }

  /** The position after an optional `json` tag. */
  function TagEnd(s: string, j: nat): (k: nat)
    requires j <= |s|
    ensures j <= k <= |s|
  {
    if At(ToLower(s), j, "json") then j + 4 else j
  }

  /** Removes `\s*```\s*$`. */
  function StripFenceEnd(s: string): string {
    var n := KeepLen(s, IsReSpace);
    if n < 3 || !At(s, n - 3, FENCE) then s else TrimRight(s[..n - 3], IsReSpace)
  }

  function CleanLLMJSONResponse(raw: string): string {
    var s := TrimSpace(raw);
    if s == "" then "" else TrimSpace(StripFenceEnd(StripFenceStart(TrimPrefix(s, BOM))))
  }

  // ---------------------------------------------------------------------------
  // What cleaning removes
  // ---------------------------------------------------------------------------

  predicate Blank(t: string) { forall i :: 0 <= i < |t| ==> IsReSpace(t[i]) }

  lemma ReSpaceIsSpace(c: char)
    ensures IsReSpace(c) ==> IsSpace(c)
  {
  }

  /** An opening fence with an optional tag in any letter case, and white space behind it. */
  predicate Opening(open: string, tag: string, gap: string) {
    open == FENCE + tag + gap && (tag == "" || ToLower(tag) == "json") && gap != "" && Blank(gap)
  }

  lemma StripsOpening(open: string, tag: string, gap: string, rest: string)
    requires Opening(open, tag, gap) && rest != "" && !IsReSpace(rest[0])
    ensures StripFenceStart(open + rest) == rest
  {
    hide LeadLen, TrimLeft, IsReSpace;
    var s := open + rest;
    assert s[..3] == FENCE && s[0] == FENCE[0] == '`';
    BacktickIsNoSpace();
    assert LeadLen(s, IsReSpace) == 0;
    TagIsFound(s, tag, gap, rest);
    assert s[3 + |tag|..] == gap + rest;
    TrimLeftIs(gap, rest, IsReSpace);
  }

  lemma BacktickIsNoSpace()
    ensures !IsReSpace('`') && !IsSpace('`') && !IsSpace(BOM[0])
  {
  }

  lemma TagIsFound(s: string, tag: string, gap: string, rest: string)
    requires Opening(FENCE + tag + gap, tag, gap) && s == FENCE + tag + gap + rest
    ensures TagEnd(s, 3) == 3 + |tag|
  {
    var lower := ToLower(s);
    if tag == "" {
      assert s[3] == gap[0] && IsReSpace(gap[0]);
      SpaceIsNoTag(gap[0]);
      if At(lower, 3, "json") {
        TagStartsWithJ(s, 3);
      }
    } else {
      assert |tag| == |ToLower(tag)| == 4 && s[3..7] == tag;
      assert forall i :: 0 <= i < 4 ==> lower[3 + i] == LowerChar(tag[i]) == "json"[i];
      assert lower[3..7] == "json";
    }
  }

  lemma TagStartsWithJ(s: string, i: nat)
    requires At(ToLower(s), i, "json")
    ensures LowerChar(s[i]) == 'j'
  {
    assert ToLower(s)[i] == ToLower(s)[i..i + 4][0];
  }

  lemma SpaceIsNoTag(c: char)
    ensures IsReSpace(c) ==> LowerChar(c) != 'j'
  {
  }

  lemma NoFence(s: string, i: int, k: nat)
    requires i <= k < |s| && k < i + 3 && s[k] != '`'
    ensures i >= 0 ==> !At(s, i, FENCE)
  {
    if i >= 0 && At(s, i, FENCE) {
      FenceIsBraceFree(s, i);
    }
  }

  lemma KeepsUnopened(s: string)
    requires s != "" && !IsReSpace(s[0]) && s[0] != '`'
    ensures StripFenceStart(s) == s
  {
    hide TagEnd, IsReSpace;
    NoFence(s, 0, 0);
  }

  lemma StripsClosing(body: string, gap: string)
    requires body != "" && !IsReSpace(body[|body| - 1]) && Blank(gap)
    ensures StripFenceEnd(body + gap + FENCE) == body
  {
    hide KeepLen, TrimRight, IsReSpace;
    var s := body + gap + FENCE;
    BacktickIsNoSpace();
    assert s[|s| - 1] == FENCE[2] == '`';
    assert KeepLen(s, IsReSpace) == |s|;
    assert s[|s| - 3..|s|] == FENCE && s[..|s| - 3] == body + gap;
    TrimRightIs(body, gap, IsReSpace);
  }

  lemma KeepsUnclosed(s: string)
    requires s != "" && !IsReSpace(s[|s| - 1]) && s[|s| - 1] != '`'
    ensures StripFenceEnd(s) == s
  {
    hide IsReSpace;
    NoFence(s, |s| - 3, |s| - 1);
  }

  /** An answer as a model wraps it: white space, a byte order mark, an opening fence and a closing one, each of
      them or not. */
  datatype Wrapping = Wrapping(before: string, mark: string, opening: string, closing: string, after: string) {
    function Wrap(body: string): string { before + (mark + opening + body + closing) + after }
  }

  /** Without an opening fence the body must not look like one or like the mark; without a closing one
      it must not end like one. */
  ghost predicate Fits(w: Wrapping, body: string) {
    && body != "" && Trimmed(body) && AllSpace(w.before) && AllSpace(w.after) && (w.mark == "" || w.mark == BOM)
    && ((exists tag, gap :: Opening(w.opening, tag, gap)) || (w.opening == "" && body[0] != '`' && body[0] != BOM[0]))
    && ((exists gap :: Blank(gap) && w.closing == gap + FENCE) || (w.closing == "" && body[|body| - 1] != '`'))
  }

  /** Cleaning gives back the body of every wrapping, whatever the body says. */
  lemma CleaningUnwraps(w: Wrapping, body: string)
    requires Fits(w, body)
    ensures CleanLLMJSONResponse(w.Wrap(body)) == body
  {
    hide IsSpace, IsReSpace, TrimSpace, StripFenceStart, StripFenceEnd, Opening;
    var core := w.opening + body + w.closing;
    ReSpaceIsSpace(body[0]);
    ReSpaceIsSpace(body[|body| - 1]);
    CoreEnds(w, body);
    BacktickIsNoSpace();
    assert w.mark + w.opening + body + w.closing == w.mark + core;
    TrimIs(w.before, w.mark + core, w.after);
    assert TrimPrefix(w.mark + core, BOM) == core;
    OpeningGoes(w, body);
    ClosingGoes(w, body);
    TrimmedStays(body);
  }

  /** For example. */
  lemma FencedExample()
    ensures CleanLLMJSONResponse("```json\nhola\n```") == "hola"
  {
    hide *;
    var w := Wrapping("", "", "```json\n", "\n```", "");
    ExampleFits(w);
    CleaningUnwraps(w, "hola");
    assert w.Wrap("hola") == "```json\nhola\n```" by { WrapIs(w, "hola"); }
  }

  lemma WrapIs(w: Wrapping, body: string)
    ensures w.Wrap(body) == w.before + (w.mark + w.opening + body + w.closing) + w.after
  {
  }

  lemma ExampleFits(w: Wrapping)
    requires w == Wrapping("", "", "```json\n", "\n```", "")
    ensures Fits(w, "hola")
  {
    hide IsSpace, ToLower, TrimSpace;
    WordStays("hola");
    WordStays("json");
    assert "```json\n" == FENCE + "json" + "\n" && "\n```" == "\n" + FENCE;
    assert Opening(w.opening, "json", "\n");
  }

  lemma CoreEnds(w: Wrapping, body: string)
    requires Fits(w, body)
    ensures var core := w.opening + body + w.closing;
            && core != "" && Trimmed(core) && core[0] != BOM[0]
            && (core[0] == '`' || core[0] == body[0]) && Trimmed(w.mark + core)
  {
    hide IsSpace, IsReSpace, ToLower;
    var core := w.opening + body + w.closing;
    BacktickIsNoSpace();
    if w.opening != "" {
      var tag, gap :| Opening(w.opening, tag, gap);
      assert core[0] == FENCE[0];
    } else {
      assert core[0] == body[0];
    }
    if w.closing != "" {
      var gap :| Blank(gap) && w.closing == gap + FENCE;
      assert core[|core| - 1] == FENCE[2];
    } else {
      assert core[|core| - 1] == body[|body| - 1];
    }
  }

  lemma OpeningGoes(w: Wrapping, body: string)
    requires Fits(w, body) && !IsReSpace(body[0])
    ensures StripFenceStart(w.opening + body + w.closing) == body + w.closing
  {
    hide IsSpace, IsReSpace, StripFenceStart, Opening, Blank;
    assert w.opening + body + w.closing == w.opening + (body + w.closing);
    if tag, gap :| Opening(w.opening, tag, gap) {
      StripsOpening(w.opening, tag, gap, body + w.closing);
    } else {
      assert w.opening + (body + w.closing) == body + w.closing;
      KeepsUnopened(body + w.closing);
    }
  }

  lemma ClosingGoes(w: Wrapping, body: string)
    requires Fits(w, body) && !IsReSpace(body[|body| - 1])
    ensures StripFenceEnd(body + w.closing) == body
  {
    hide IsSpace, IsReSpace, StripFenceEnd, Opening;
    if gap :| Blank(gap) && w.closing == gap + FENCE {
      assert body + w.closing == body + gap + FENCE;
      StripsClosing(body, gap);
    } else {
      assert body + w.closing == body;
      KeepsUnclosed(body);
    }
  }

  // ---------------------------------------------------------------------------
  // No step touches the object
  // ---------------------------------------------------------------------------

  lemma ExtractAfterTrim(s: string, p: char -> bool)
    requires !p('{') && !p('}')
    ensures Extract(TrimLeft(s, p)) == Extract(s)
    ensures Extract(TrimRight(s, p)) == Extract(s)
  {
    var n := LeadLen(s, p);
    assert s[n..] == s[n..|s|];
    ExtractOfSlice(s, n, |s|);
    assert s[..KeepLen(s, p)] == s[0..KeepLen(s, p)];
    ExtractOfSlice(s, 0, KeepLen(s, p));
  }

  lemma ExtractAfterTrimSpace(s: string)
    ensures Extract(TrimSpace(s)) == Extract(s)
  {
    ExtractAfterTrim(s, IsSpace);
    ExtractAfterTrim(TrimLeft(s, IsSpace), IsSpace);
  }

  lemma ExtractAfterPrefix(s: string)
    ensures Extract(TrimPrefix(s, BOM)) == Extract(s)
  {
    if 1 <= |s| && s[..1] == BOM {
      assert s[0] == s[..1][0] && s[1..] == s[1..|s|];
      ExtractOfSlice(s, 1, |s|);
    }
  }

  lemma ExtractAfterFenceStart(s: string)
    ensures Extract(StripFenceStart(s)) == Extract(s)
  {
    hide TagEnd, LeadLen, Extract;
    var i := LeadLen(s, IsReSpace);
    if At(s, i, FENCE) {
      OpeningIsBraceFree(s, i);
      ExtractAfterTail(s, TagEnd(s, i + 3));
      ExtractAfterTrim(s[TagEnd(s, i + 3)..], IsReSpace);
    }
  }

  lemma OpeningIsBraceFree(s: string, i: nat)
    requires At(s, i, FENCE) && i == LeadLen(s, IsReSpace)
    ensures forall j :: 0 <= j < TagEnd(s, i + 3) ==> s[j] != '{'
  {
    FenceIsBraceFree(s, i);
    JsonTagIsBraceFree(s, i + 3);
  }

  lemma ExtractAfterTail(s: string, k: nat)
    requires k <= |s| && forall j :: 0 <= j < k ==> s[j] != '{'
    ensures Extract(s[k..]) == Extract(s)
  {
    assert s[k..] == s[k..|s|];
    ExtractOfSlice(s, k, |s|);
  }

  lemma FenceIsBraceFree(s: string, i: nat)
    requires At(s, i, FENCE)
    ensures forall j :: i <= j < i + 3 ==> s[j] == '`'
  {
    assert forall j :: i <= j < i + 3 ==> s[j] == s[i..i + 3][j - i];
  }

  lemma JsonTagIsBraceFree(s: string, i: nat)
    ensures At(ToLower(s), i, "json") ==> i + 4 <= |s| && forall j :: i <= j < i + 4 ==> s[j] != '{'
  {
    if At(ToLower(s), i, "json") {
      forall j | i <= j < i + 4 ensures s[j] != '{' {
        assert ToLower(s)[j] == ToLower(s)[i..i + 4][j - i];
      }
    }
  }

  lemma ExtractAfterFenceEnd(s: string)
    ensures Extract(StripFenceEnd(s)) == Extract(s)
  {
    var n := KeepLen(s, IsReSpace);
    if n >= 3 && At(s, n - 3, FENCE) {
      FenceIsBraceFree(s, n - 3);
      assert s[..n - 3] == s[0..n - 3];
      ExtractOfSlice(s, 0, n - 3);
      ExtractAfterTrim(s[..n - 3], IsReSpace);
    }
  }

  /** Cleaning never changes what is extracted, for any raw text.  Hence the second attempt of the
      safe parser, on the raw text, finds an object only when the first one did. */
  lemma CleaningKeepsExtract(raw: string)
    ensures Extract(CleanLLMJSONResponse(raw)) == Extract(raw)
  {
    var s := TrimSpace(raw);
    ExtractAfterTrimSpace(raw);
    if s != "" {
      var t := TrimPrefix(s, BOM);
      ExtractAfterPrefix(s);
      ExtractAfterFenceStart(t);
      ExtractAfterFenceEnd(StripFenceStart(t));
      ExtractAfterTrimSpace(StripFenceEnd(StripFenceStart(t)));
    }
  }
}
