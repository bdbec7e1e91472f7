/** The last-resort public text: what is shown when no JSON object could be parsed. */
module Fallback {
  import opened Basics
  import opened BraceScan
  import opened Captures
  import opened Fences
  import opened PublicResponse
  import opened Text

  const SECRET: string := "inner_monologue"

  predicate HasSecret(s: string) { Contains(ToLower(s), SECRET) }

  // ---------------------------------------------------------------------------
  // Lines
  // ---------------------------------------------------------------------------

  /** The lines of a text; never empty. */
  function Split(t: string): (lines: seq<string>)
    ensures lines != []
  {
    if t == "" then [""]
    else
      var rest := Split(t[1..]);
      if t[0] == '\n' then [""] + rest else [[t[0]] + rest[0]] + rest[1..]
  }

  function Join(lines: seq<string>): string {
    if lines == [] then ""
    else if |lines| == 1 then lines[0]
    else lines[0] + "\n" + Join(lines[1..])
  }

  lemma {:induction false} JoinInvertsSplit(t: string)
    ensures Join(Split(t)) == t
  {
    if t != "" {
      var rest := Split(t[1..]);
      JoinInvertsSplit(t[1..]);
      if t[0] == '\n' {
        assert ([""] + rest)[1..] == rest;
        assert t == "\n" + t[1..];
      } else {
        assert ([[t[0]] + rest[0]] + rest[1..])[1..] == rest[1..];
        assert t == [t[0]] + t[1..];
      }
    }
  }

  /** The lines without the key, in order. */
  function Kept(lines: seq<string>): (r: seq<string>)
    ensures |r| <= |lines|
    ensures forall l :: l in r ==> !HasSecret(l)
  {
    if lines == [] then []
    else
      var n := |lines| - 1;
      var front := Kept(lines[..n]);
      if HasSecret(lines[n]) then front else front + [lines[n]]
  }

  /** The filter loop: `out` is a prefix of the array of lines that is being read. */
  method FilterLines(lines: array<string>) returns (out: nat)
    modifies lines
    ensures out <= lines.Length
    ensures lines[..out] == Kept(old(lines[..]))
  {
    ghost var was := lines[..];
    out := 0;
    for i := 0 to lines.Length
      invariant 0 <= out <= i
      invariant lines[..out] == Kept(was[..i])
      invariant forall j :: i <= j < lines.Length ==> lines[j] == was[j]
    {
      assert was[..i + 1][..i] == was[..i];
      if HasSecret(lines[i]) {
        continue;
      }
      lines[out] := lines[i];
      out := out + 1;
    }
    assert was[..lines.Length] == was;
  }

  // ---------------------------------------------------------------------------
  // The sanitizer
  // ---------------------------------------------------------------------------

  predicate IsComma(c: char) { c == ',' }

  predicate Braced(s: string) { s != "" && s[0] == '{' && s[|s| - 1] == '}' }

  function WithoutSecretLines(t: string): string {
    if HasSecret(t) then TrimSpace(Join(Kept(Split(t)))) else t
  }

  /** Redaction and the rejection of objects. */
  function Finish(t: string): string {
    var redacted := TrimSpace(Trim(Redact(t), IsComma));
    if redacted == "" || ToLower(redacted) == "{}" || Braced(redacted) then "" else redacted
  }

  /** The first public answer found in the cleaned text, in the raw text, or in the object that is left
      when the lines with the key are gone. */
  function Captured(raw: string, unquote: Unquote): Option<string> {
    var t := TrimSpace(CleanLLMJSONResponse(raw));
    var obj := Extract(WithoutSecretLines(t));
    if t == "" then None
    else if ExtractPublicResponseByRegex(t, unquote).Some? then ExtractPublicResponseByRegex(t, unquote)
    else if ExtractPublicResponseByRegex(raw, unquote).Some? then ExtractPublicResponseByRegex(raw, unquote)
    else if obj != "" then ExtractPublicResponseByRegex(obj, unquote)
    else None
  }

  function Sanitize(raw: string, unquote: Unquote): string {
    var t := TrimSpace(CleanLLMJSONResponse(raw));
    if t == "" then ""
    else if Captured(raw, unquote).Some? then Captured(raw, unquote).value
    else Finish(WithoutSecretLines(t))
  }

  method DropSecretLines(t: string) returns (r: string)
    ensures r == WithoutSecretLines(t)
  {
    r := t;
    if Contains(ToLower(t), SECRET) {
      var split := Split(t);
      var lines := new string[|split|](i requires 0 <= i < |split| => split[i]);
      assert lines[..] == split;
      var out := FilterLines(lines);
      r := TrimSpace(Join(lines[..out]));
    }
  }

  method SanitizeFallbackPublicText(raw: string, unquote: Unquote) returns (r: string)
    ensures r == Sanitize(raw, unquote)
  {
    var t := TrimSpace(CleanLLMJSONResponse(raw));
    if t == "" {
      return "";
    }
    var pr := ExtractPublicResponseByRegex(t, unquote);
    if pr.Some? {
      return pr.value;
    }
    pr := ExtractPublicResponseByRegex(raw, unquote);
    if pr.Some? {
      return pr.value;
    }
    t := DropSecretLines(t);
    var obj := ExtractFirstJSONObject(t);
    if obj != "" {
      pr := ExtractPublicResponseByRegex(obj, unquote);
      if pr.Some? {
        return pr.value;
      }
    }
    var redacted := TrimSpace(Trim(Redact(t), IsComma));
    if redacted == "" || ToLower(redacted) == "{}" || Braced(redacted) {
      return "";
    }
    return redacted;
  }

  // ---------------------------------------------------------------------------
  // The key cannot survive
  // ---------------------------------------------------------------------------

  lemma OccursByIndex(s: string, sub: string, i: int)
    ensures OccursAt(s, sub, i) <==> 0 <= i <= |s| - |sub| && forall k :: i <= k < i + |sub| ==> s[k] == sub[k - i]
  {
    if 0 <= i <= |s| - |sub| {
      assert forall k :: i <= k < i + |sub| ==> s[k] == s[i..i + |sub|][k - i];
    }
  }

  /** An occurrence carries over to a text that agrees on its characters. */
  lemma OccursElsewhere(s: string, i: int, t: string, j: int)
    requires OccursAt(ToLower(s), SECRET, i) && 0 <= j <= |t| - |SECRET|
    requires forall k :: j <= k < j + |SECRET| ==> t[k] == s[k - j + i]
    ensures HasSecret(t)
  {
    OccursByIndex(ToLower(s), SECRET, i);
    OccursByIndex(ToLower(t), SECRET, j);
    forall k | j <= k < j + |SECRET| ensures ToLower(t)[k] == SECRET[k - j] {
      assert ToLower(s)[k - j + i] == SECRET[k - j];
    }
  }

  lemma SecretInSlice(s: string, a: nat, b: nat)
    requires a <= b <= |s| && HasSecret(s[a..b])
    ensures HasSecret(s)
  {
    var i :| 0 <= i <= |s[a..b]| && OccursAt(ToLower(s[a..b]), SECRET, i);
    OccursElsewhere(s[a..b], i, s, a + i);
  }

  lemma TrimKeepsSecretOut(s: string, p: char -> bool)
    requires !HasSecret(s)
    ensures !HasSecret(Trim(s, p))
  {
    var a := LeadLen(s, p);
    var b := KeepLen(s[a..], p);
    assert Trim(s, p) == s[a..a + b];
    if HasSecret(Trim(s, p)) {
      SecretInSlice(s, a, a + b);
    }
  }

  /** Joining key-free lines cannot put the key together again: it holds no line break. */
  lemma {:induction false} JoinKeepsSecretOut(lines: seq<string>)
    requires forall l :: l in lines ==> !HasSecret(l)
    ensures !HasSecret(Join(lines))
  {
    if lines == [] {
    } else if |lines| == 1 {
      assert lines[0] in lines;
    } else {
      assert lines[0] in lines && forall l :: l in lines[1..] ==> l in lines;
      JoinKeepsSecretOut(lines[1..]);
      BreakKeepsSecretOut(lines[0], Join(lines[1..]));
    }
  }

  lemma BreakKeepsSecretOut(a: string, b: string)
    requires !HasSecret(a) && !HasSecret(b)
    ensures !HasSecret(a + "\n" + b)
  {
    hide HasSecret;
    var s, n := a + "\n" + b, |SECRET|;
    forall i | 0 <= i <= |s| ensures !OccursAt(ToLower(s), SECRET, i) {
      if OccursAt(ToLower(s), SECRET, i) {
        if i + n <= |a| {
          OccursElsewhere(s, i, a, i);
        } else if i > |a| {
          OccursElsewhere(s, i, b, i - |a| - 1);
        } else {
          OccursByIndex(ToLower(s), SECRET, i);
          assert ToLower(s)[|a|] == '\n';
          SecretIsOneLine(|a| - i);
        }
      }
    }
    NoOccurrence(s);
  }

  lemma NoOccurrence(s: string)
    requires forall i :: 0 <= i <= |s| ==> !OccursAt(ToLower(s), SECRET, i)
    ensures !HasSecret(s)
  {
  }

  lemma SecretIsOneLine(k: nat)
    requires k < |SECRET|
    ensures SECRET[k] != '\n'
  {
  }

  lemma FilteringRemovesSecret(t: string)
    ensures !HasSecret(WithoutSecretLines(t))
  {
    if HasSecret(t) {
      JoinKeepsSecretOut(Kept(Split(t)));
      TrimKeepsSecretOut(Join(Kept(Split(t))), IsSpace);
    }
  }

  /** After the line filter the later redaction has nothing left to do. */
  lemma {:induction false} RedactionIsNoOp(t: string, i: nat)
    requires !HasSecret(t) && i <= |t|
    ensures Redact(t, i) == t[i..]
    decreases |t| - i
  {
    hide HasSecret;
    if i < |t| {
      if KeyAt(t, i, MONOLOGUE_KEY) {
        QuotedKeyIsSecret(t, i);
      }
      RedactionIsNoOp(t, i + 1);
    }
  }

  lemma QuotedKeyIsSecret(t: string, i: nat)
    requires KeyAt(t, i, MONOLOGUE_KEY)
    ensures HasSecret(t)
  {
    var lower := ToLower(t);
    assert MONOLOGUE_KEY == "\"" + SECRET + "\"";
    AtConcat(lower, i, "\"" + SECRET, "\"");
    AtConcat(lower, i, "\"", SECRET);
    assert OccursAt(lower, SECRET, i + 1);
  }

  /** When no public answer is captured the result is free of the private key and not an object; when
      one is, the result is that answer. */
  lemma NeverCarriesTheKey(raw: string, unquote: Unquote)
    ensures var r, answer := Sanitize(raw, unquote), Captured(raw, unquote);
            if answer.Some? then r == answer.value else !HasSecret(r) && !Braced(r)
  {
    hide ExtractPublicResponseByRegex, CleanLLMJSONResponse, TrimSpace, WithoutSecretLines, Finish, Extract, HasSecret;
    FinishIsClean(TrimSpace(CleanLLMJSONResponse(raw)));
    EmptyHasNoSecret();
  }

  /** Exactly when the key is returned: when the public answer itself holds it. */
  lemma KeyReturnedIff(raw: string, unquote: Unquote)
    ensures HasSecret(Sanitize(raw, unquote)) <==>
            Captured(raw, unquote).Some? && HasSecret(Captured(raw, unquote).value)
  {
    hide Sanitize, Captured, HasSecret;
    NeverCarriesTheKey(raw, unquote);
  }

  /** A text that starts and ends like neither white space, a byte order mark nor a fence is clean. */
  lemma CleanStays(s: string)
    requires s != "" && Trimmed(s) && s[0] != BOM[0] && s[0] != '`' && s[|s| - 1] != '`'
    ensures CleanLLMJSONResponse(s) == s
  {
    hide TagEnd, IsSpace, At, LeadLen, KeepLen, TrimSpace, TrimLeft, TrimRight;
    TrimmedStays(s);
    ReSpaceIsSpace(s[0]);
    ReSpaceIsSpace(s[|s| - 1]);
    NoFence(s, 0, 0);
    NoFence(s, |s| - 3, |s| - 1);
  }

  /** A field is neutral for the brace scanner. */
  lemma FieldIsNeutral(f: Field)
    requires f.Ok() && f.key == PUBLIC_KEY
    ensures Neutral(f.Text())
  {
    hide Neutral;
    KeyIsNeutral();
    GapIsNeutral(f.gap);
    GapIsNeutral(f.lead);
    NeutralChar(':');
    NeutralQuoted(f.body);
    NeutralConcat(f.gap, ":");
    NeutralConcat(f.lead, QuotedText(f.body));
    NeutralConcat(f.gap + ":", f.lead + QuotedText(f.body));
    NeutralConcat(PUBLIC_KEY, (f.gap + ":") + (f.lead + QuotedText(f.body)));
    assert f.Text() == PUBLIC_KEY + ((f.gap + ":") + (f.lead + QuotedText(f.body)));
  }

  lemma QuotedWordIsNeutral(w: string)
    requires forall i :: 0 <= i < |w| ==> IsWordChar(w[i])
    ensures Neutral("\"" + w + "\"")
  {
    hide Neutral;
    WordEscapes(w);
    EscapeIsBody(w);
    NeutralQuoted(EscapePieces(w));
  }

  lemma KeyIsNeutral()
    ensures Neutral(PUBLIC_KEY)
  {
    hide IsWordChar, Neutral;
    KeyIsWord("public_response");
    QuotedWordIsNeutral("public_response");
    assert PUBLIC_KEY == "\"" + "public_response" + "\"";
  }

  lemma KeyIsWord(w: string)
    requires w == "public_response"
    ensures forall i :: 0 <= i < |w| ==> IsWordChar(w[i])
  {
  }

  lemma GapIsNeutral(gap: string)
    requires Blank(gap)
    ensures Neutral(gap)
  {
    hide Neutral;
    forall i | 0 <= i < |gap| ensures IsPlain(gap[i]) {
      SpaceIsPlain(gap[i]);
    }
    NeutralPlain(gap);
  }

  lemma SpaceIsPlain(c: char)
    ensures IsReSpace(c) ==> IsPlain(c)
  {
  }

  /** The attempt on the raw text repeats the one on the cleaned text. */
  lemma RawAttemptIsRedundant(raw: string, unquote: Unquote)
    ensures ExtractPublicResponseByRegex(TrimSpace(CleanLLMJSONResponse(raw)), unquote) == ExtractPublicResponseByRegex(raw, unquote)
  {
    hide ExtractPublicResponseByRegex, CleanLLMJSONResponse, TrimSpace;
    CleaningKeepsCapture(raw, unquote);
    CaptureAfterTrimSpace(CleanLLMJSONResponse(raw), unquote);
  }

  /** The last attempt: an object that is whole only when the lines with the key are gone is still answered from. */
  lemma SecondLookFinds(raw: string, before: string, f: Field, after: string, unquote: Unquote)
    requires f.Ok() && f.key == PUBLIC_KEY && Lacks(before, '{')
    requires WithoutSecretLines(TrimSpace(CleanLLMJSONResponse(raw))) == before + ("{" + f.Text() + "}") + after
    requires Decode(f.Payload(), unquote).Some?
    ensures ExtractPublicResponseByRegex(raw, unquote).None? ==> Sanitize(raw, unquote) == Decode(f.Payload(), unquote).value
  {
    RawAttemptIsRedundant(raw, unquote);
    hide CleanLLMJSONResponse, ExtractPublicResponseByRegex, Decode, WithoutSecretLines, Neutral, Field.Text, Extract, TrimSpace;
    FieldIsNeutral(f);
    ExtractNeutral(before, f.Text(), after);
    BraceIsNoKey();
    ExtractPayload("{", f, "}", unquote);
    NothingHasNoLines();
  }

  lemma BraceIsNoKey()
    ensures KeyFree("{", PUBLIC_KEY)
  {
  }

  lemma NothingHasNoLines()
    ensures WithoutSecretLines("") == ""
  {
  }

  /** A trimmed answer without backslashes is returned from its field, whatever it says. */
  lemma AnswerIsReturned(answer: string, unquote: Unquote)
    requires Inverts(unquote) && answer != "" && Trimmed(answer) && Lacks(answer, '\\')
    ensures Sanitize(Field(PUBLIC_KEY, "", "", EscapePieces(answer)).Text(), unquote) == answer
  {
    hide ExtractPublicResponseByRegex, CleanLLMJSONResponse, UnescapeMaybeDoubleEscaped, Escape, IsSpace, Finish, WithoutSecretLines;
    var f := Field(PUBLIC_KEY, "", "", EscapePieces(answer));
    EscapeIsBody(answer);
    var raw := f.Text();
    LowerStays(PUBLIC_KEY);
    QuotesAreKept();
    CleanStays(raw);
    TrimmedStays(raw);
    TrimmedStays(answer);
    UnescapeLeaves(answer, unquote);
    CapturedFirst(raw, unquote);
    hide Captured, Field.Text;
    assert raw == "" + raw + "";
    ExtractField("", f, answer, "", unquote);
  }

  lemma CapturedFirst(raw: string, unquote: Unquote)
    ensures var t := TrimSpace(CleanLLMJSONResponse(raw));
            t != "" && ExtractPublicResponseByRegex(t, unquote).Some? ==>
              Captured(raw, unquote) == ExtractPublicResponseByRegex(t, unquote)
  {
    hide ExtractPublicResponseByRegex, CleanLLMJSONResponse, TrimSpace, WithoutSecretLines, Extract;
  }

  lemma QuotesAreKept()
    ensures !IsSpace('"')
  {
  }

  lemma UnescapeLeaves(t: string, unquote: Unquote)
    requires t != "" && Trimmed(t) && Lacks(t, '\\')
    ensures UnescapeMaybeDoubleEscaped(t, unquote) == t
  {
    TrimmedStays(t);
  }

  /** Hence the key does come back when a public answer quotes it. */
  lemma PublicAnswerMayHoldTheKey(unquote: Unquote)
    requires Inverts(unquote)
    ensures Sanitize(PUBLIC_KEY + ":\"" + SECRET + "\"", unquote) == SECRET && HasSecret(SECRET)
  {
    hide Sanitize, Escape, Contains, Trimmed, Lacks, IsWordChar, ToLower, EscapePieces, Field.Text;
    SecretIsWord();
    WordIsPlain(SECRET);
    AnswerIsReturned(SECRET, unquote);
    FieldOfWord(SECRET);
  }

  lemma FieldOfWord(w: string)
    requires Escape(w) == w
    ensures Field(PUBLIC_KEY, "", "", EscapePieces(w)).Text() == PUBLIC_KEY + ":\"" + w + "\""
  {
    EscapeIsBody(w);
  }

  lemma WordIsPlain(w: string)
    requires w != "" && forall i :: 0 <= i < |w| ==> IsWordChar(w[i])
    ensures Trimmed(w) && Lacks(w, '\\') && Escape(w) == w && Contains(ToLower(w), w)
  {
    hide Escape, IsSpace, ToLower, TrimSpace;
    WordStays(w);
    WordEscapes(w);
    hide IsWordChar;
    assert OccursAt(ToLower(w), w, 0);
  }

  lemma WordEscapes(w: string)
    requires forall i :: 0 <= i < |w| ==> IsWordChar(w[i])
    ensures Escape(w) == w
  {
    hide Escape;
    EscapeOfPlain(w);
  }

  lemma SecretIsWord()
    ensures SECRET != "" && forall i :: 0 <= i < |SECRET| ==> IsWordChar(SECRET[i])
  {
  }

  lemma EmptyHasNoSecret()
    ensures !HasSecret("")
  {
  }

  lemma FinishIsClean(t: string)
    ensures !HasSecret(Finish(WithoutSecretLines(t))) && !Braced(Finish(WithoutSecretLines(t)))
  {
    var rest := WithoutSecretLines(t);
    FilteringRemovesSecret(t);
    RedactionIsNoOp(rest, 0);
    TrimKeepsSecretOut(rest, IsComma);
    TrimKeepsSecretOut(Trim(rest, IsComma), IsSpace);
  }

  // ---------------------------------------------------------------------------
  // What does survive
  // ---------------------------------------------------------------------------

  lemma SplitStep(t: string)
    requires t != ""
    ensures var rest := Split(t[1..]);
            Split(t) == if t[0] == '\n' then [""] + rest else [[t[0]] + rest[0]] + rest[1..]
  {
  }

  lemma {:induction false} SplitAtBreak(a: string, b: string)
    ensures Split(a + "\n" + b) == Split(a) + Split(b)
  {
    hide Split;
    var s := a + "\n" + b;
    SplitStep(s);
    if a == "" {
      assert s[1..] == b;
      SplitOfNothing();
    } else {
      assert s[0] == a[0] && s[1..] == a[1..] + "\n" + b;
      SplitStep(a);
      SplitAtBreak(a[1..], b);
      Regroup([a[0]], Split(a[1..]), Split(b));
    }
  }

  lemma SplitOfNothing()
    ensures Split("") == [""]
  {
  }

  lemma Regroup(c: string, lines: seq<string>, more: seq<string>)
    requires lines != []
    ensures [""] + (lines + more) == ([""] + lines) + more
    ensures [c + (lines + more)[0]] + (lines + more)[1..] == ([c + lines[0]] + lines[1..]) + more
  {
  }

  lemma {:induction false} KeptOfConcat(a: seq<string>, b: seq<string>)
    ensures Kept(a + b) == Kept(a) + Kept(b)
  {
    hide Kept;
    if b == [] {
      assert a + b == a && Kept([]) == [] by { NoneKept(); }
    } else {
      var front, last := b[..|b| - 1], b[|b| - 1];
      KeptOfConcat(a, front);
      KeptSnoc(a + front, last);
      KeptSnoc(front, last);
      assert a + b == a + front + [last] && b == front + [last];
    }
  }

  lemma NoneKept()
    ensures Kept([]) == []
  {
  }

  lemma KeptSnoc(lines: seq<string>, line: string)
    ensures Kept(lines + [line]) == Kept(lines) + if HasSecret(line) then [] else [line]
  {
    hide HasSecret;
    assert (lines + [line])[..|lines|] == lines;
  }

  /** A joined text has the key when one of its lines does. */
  lemma {:induction false} SecretInJoin(lines: seq<string>, i: nat)
    requires i < |lines| && HasSecret(lines[i])
    ensures HasSecret(Join(lines))
  {
    if |lines| > 1 {
      var t, n := Join(lines), |lines[0]|;
      if i == 0 {
        assert t[0..n] == lines[0];
        SecretInSlice(t, 0, n);
      } else {
        SecretInJoin(lines[1..], i - 1);
        assert t[n + 1..|t|] == Join(lines[1..]);
        SecretInSlice(t, n + 1, |t|);
      }
    }
  }

  lemma KeptOfClean(t: string)
    requires !HasSecret(t)
    ensures Kept(Split(t)) == Split(t)
  {
    var lines := Split(t);
    JoinInvertsSplit(t);
    forall i | 0 <= i < |lines| ensures !HasSecret(lines[i]) {
      if HasSecret(lines[i]) {
        SecretInJoin(lines, i);
      }
    }
    KeptAll(lines);
  }

  lemma {:induction false} KeptAll(lines: seq<string>)
    requires forall l :: l in lines ==> !HasSecret(l)
    ensures Kept(lines) == lines
  {
    if lines != [] {
      KeptAll(lines[..|lines| - 1]);
      assert lines[|lines| - 1] in lines;
    }
  }

  /** Only the lines that hold the key itself are removed.  A value that goes on over further lines
      is not followed: those lines survive, whatever they say. */
  lemma ContinuationLinesSurvive(head: string, rest: string)
    requires Lacks(head, '\n') && HasSecret(head) && !HasSecret(rest)
    ensures WithoutSecretLines(head + "\n" + rest) == TrimSpace(rest)
  {
    var t := head + "\n" + rest;
    HeadHasSecret(head, rest);
    SplitAtBreak(head, rest);
    OneLine(head);
    KeptOfConcat([head], Split(rest));
    assert Kept([head]) == [] by {
      assert [head][..0] == [];
    }
    KeptOfClean(rest);
    JoinInvertsSplit(rest);
    assert Kept(Split(t)) == Split(rest);
  }

  /** What is left of a text without its outer commas and the white space around them. */
  function Residue(t: string): string { TrimSpace(Trim(TrimSpace(t), IsComma)) }

  /** Without a captured answer the result is what is left of the key-free lines, whichever they are;
      it is empty exactly when nothing, or an object, is left of them. */
  lemma FallbackIsResidue(raw: string, unquote: Unquote)
    ensures var left := Residue(WithoutSecretLines(TrimSpace(CleanLLMJSONResponse(raw))));
            Captured(raw, unquote).None? ==>
              && Sanitize(raw, unquote) == (if Braced(left) then "" else left)
              && (Sanitize(raw, unquote) == "" <==> left == "" || Braced(left))
  {
    hide Captured, CleanLLMJSONResponse, Trim, HasSecret, Redact, Braced, IsSpace;
    var t := TrimSpace(CleanLLMJSONResponse(raw));
    var rest := WithoutSecretLines(t);
    FilteringRemovesSecret(t);
    RedactionIsNoOp(rest, 0);
    TrimSpaceIsTrimmed(CleanLLMJSONResponse(raw));
    TrimSpaceIsTrimmed(Join(Kept(Split(t))));
    TrimmedStays(rest);
    BracesAreBraced(Residue(rest));
    if t == "" {
      NothingIsLeft();
    }
  }

  /** A wrapped answer that holds neither a public answer nor the key is shown as its body is, without outer commas. */
  lemma WrappedAnswerIsShown(w: Wrapping, body: string, unquote: Unquote)
    requires Fits(w, body) && !HasSecret(body)
    ensures Captured(w.Wrap(body), unquote).None? ==>
              Sanitize(w.Wrap(body), unquote) == if Braced(Residue(body)) then "" else Residue(body)
  {
    hide Fits, Captured, Sanitize, CleanLLMJSONResponse, Residue, Braced, HasSecret, TrimSpace;
    CleaningUnwraps(w, body);
    FitsIsTrimmed(w, body);
    TrimmedStays(body);
    FallbackIsResidue(w.Wrap(body), unquote);
  }

  lemma FitsIsTrimmed(w: Wrapping, body: string)
    requires Fits(w, body)
    ensures Trimmed(body)
  {
  }

  lemma NothingIsLeft()
    ensures WithoutSecretLines("") == "" && Residue("") == ""
  {
  }

  /** When no public answer is captured and the private value goes on over further lines, those lines
      are the result. */
  lemma ContinuationIsReturned(raw: string, head: string, rest: string, unquote: Unquote)
    requires TrimSpace(CleanLLMJSONResponse(raw)) == head + "\n" + rest
    requires Lacks(head, '\n') && HasSecret(head) && !HasSecret(rest)
    ensures Captured(raw, unquote).None? ==>
              && Sanitize(raw, unquote) == (if Braced(Residue(rest)) then "" else Residue(rest))
              && (Sanitize(raw, unquote) == "" <==> Residue(rest) == "" || Braced(Residue(rest)))
  {
    hide Captured, Sanitize, CleanLLMJSONResponse, TrimSpace, Trim, WithoutSecretLines, HasSecret;
    FallbackIsResidue(raw, unquote);
    ContinuationLinesSurvive(head, rest);
    TrimSpaceIsTrimmed(rest);
    TrimmedStays(TrimSpace(rest));
  }

  lemma BracesAreBraced(s: string)
    ensures ToLower(s) == "{}" ==> Braced(s)
  {
    if ToLower(s) == "{}" {
      assert LowerChar(s[0]) == ToLower(s)[0] && LowerChar(s[1]) == ToLower(s)[1];
    }
  }

  lemma NotCaptured(raw: string, unquote: Unquote)
    requires TrimSpace(CleanLLMJSONResponse(raw)) == raw
    requires HasNoP(raw)
    requires Lacks(WithoutSecretLines(raw), '{')
    ensures Captured(raw, unquote).None?
  {
    hide CleanLLMJSONResponse, TrimSpace, WithoutSecretLines, Decode;
    NothingToFind(raw, 0);
    var rest := WithoutSecretLines(raw);
    FirstBraceIs(rest, 0, |rest|);
  }

  /** A private value broken over two lines. */
  const BROKEN_HEAD: string := "\"" + SECRET + "\": \"i hate"
  const BROKEN_REST: string := "him\""

  lemma BrokenParts()
    ensures Lacks(BROKEN_HEAD, '\n') && HasSecret(BROKEN_HEAD) && BROKEN_HEAD != "" && BROKEN_HEAD[0] == '"'
    ensures HasNoP(BROKEN_HEAD)
  {
    hide Escape, ToLower;
    var tail := "\": \"i hate";
    assert |SECRET| == 15 && HasNoP(SECRET) && HasNoP(tail) && Lacks(tail, '\n');
    SecretIsWord();
    WordIsPlain(SECRET);
    HeadOf(tail);
  }

  lemma HeadOf(tail: string)
    requires HasNoP(SECRET) && HasNoP(tail) && Lacks(tail, '\n') && HasSecret(SECRET)
    requires forall i :: 0 <= i < |SECRET| ==> IsWordChar(SECRET[i])
    ensures var head := "\"" + SECRET + tail;
            Lacks(head, '\n') && HasSecret(head) && head[0] == '"' && HasNoP(head)
  {
    hide HasSecret;
    var head := "\"" + SECRET + tail;
    var n := |SECRET|;
    assert head[1..1 + n] == SECRET;
    SecretInSlice(head, 1, 1 + n);
  }

  lemma BrokenRest()
    ensures !HasSecret(BROKEN_REST) && Lacks(BROKEN_REST, '{') && Residue(BROKEN_REST) == BROKEN_REST
    ensures TrimSpace(BROKEN_REST) == BROKEN_REST && !Braced(BROKEN_REST) && |BROKEN_REST| == 4 && BROKEN_REST[3] == '"'
    ensures HasNoP(BROKEN_REST)
  {
    QuotesAreKept();
    WordCharIsNoSpace('h');
    TrimmedStays(BROKEN_REST);
    assert Trim(BROKEN_REST, IsComma) == BROKEN_REST;
  }

  /** A concrete leak: the second line of that value is the result. */
  lemma BrokenValueLeaks(unquote: Unquote)
    ensures Sanitize(BROKEN_HEAD + "\n" + BROKEN_REST, unquote) == BROKEN_REST
  {
    hide *;
    var raw := BROKEN_HEAD + "\n" + BROKEN_REST;
    BrokenParts();
    BrokenRest();
    assert raw[0] == BROKEN_HEAD[0] && raw[|raw| - 1] == BROKEN_REST[3];
    QuotesAreKept();
    QuotedIsClean(raw);
    BreakHasNoP(BROKEN_HEAD, BROKEN_REST);
    ContinuationLinesSurvive(BROKEN_HEAD, BROKEN_REST);
    NotCaptured(raw, unquote);
    ContinuationIsReturned(raw, BROKEN_HEAD, BROKEN_REST, unquote);
  }

  lemma BreakHasNoP(a: string, b: string)
    requires HasNoP(a) && HasNoP(b)
    ensures HasNoP(a + "\n" + b)
  {
  }

  lemma QuotedIsClean(raw: string)
    requires raw != "" && raw[0] == '"' && raw[|raw| - 1] == '"'
    ensures TrimSpace(CleanLLMJSONResponse(raw)) == raw
  {
    hide CleanLLMJSONResponse, IsSpace;
    QuotesAreKept();
    TrimmedStays(raw);
    CleanStays(raw);
  }

  lemma HeadHasSecret(head: string, rest: string)
    requires HasSecret(head)
    ensures HasSecret(head + "\n" + rest)
  {
    var t := head + "\n" + rest;
    assert t[0..|head|] == head;
    SecretInSlice(t, 0, |head|);
  }

  lemma {:induction false} OneLine(t: string)
    requires Lacks(t, '\n')
    ensures Split(t) == [t]
  {
    if t != "" {
      OneLine(t[1..]);
      assert t == [t[0]] + t[1..];
    }
  }
}
