/** Pulling the public answer out of dirty text with a regular expression, and undoing escapes.
    `unquote` stands for Go's string-literal unquoting, with None for a syntax error. */
module PublicResponse {
  import opened Basics
  import opened BraceScan
  import opened Fences
  import opened Text

  const PUBLIC_KEY: string := "\"public_response\""
  const MONOLOGUE_KEY: string := "\"inner_monologue\""

  // ---------------------------------------------------------------------------
  // The regular expressions  "key"\s*:\s*"((?:\\.|[^"\\])*)"
  // ---------------------------------------------------------------------------

  function SkipSpaces(s: string, i: nat): (j: nat)
    requires i <= |s|
    ensures i <= j <= |s|
    ensures forall k :: i <= k < j ==> IsReSpace(s[k])
    ensures j < |s| ==> !IsReSpace(s[j])
    decreases |s| - i
  {
    if i == |s| || !IsReSpace(s[i]) then i else SkipSpaces(s, i + 1)
  }

  /** The first quote at or after `i` that no backslash escapes. */
  function BodyEnd(s: string, i: nat): (r: Option<nat>)
    requires i <= |s|
    ensures r.Some? ==> i <= r.value < |s| && s[r.value] == '"'
    decreases |s| - i
  {
    if i == |s| then None
    else if s[i] == '"' then Some(i)
    else if s[i] != '\\' then BodyEnd(s, i + 1)
    else if i + 1 == |s| then None
    else BodyEnd(s, i + 2)
  }

  predicate KeyAt(s: string, i: nat, key: string) { At(ToLower(s), i, key) }

  datatype Span = Span(from: nat, to: nat)

  /** The position after `\s*:\s*"` at `i`. */
  function OpenQuote(s: string, i: nat): (r: Option<nat>)
    requires i <= |s|
    ensures r.Some? ==> i < r.value <= |s|
  {
    var colon := SkipSpaces(s, i);
    if colon == |s| || s[colon] != ':' then None
    else
      var open := SkipSpaces(s, colon + 1);
      if open == |s| || s[open] != '"' then None else Some(open + 1)
  }

  /** The captured value of a match that begins at `i`. */
  function MatchAt(s: string, i: nat, key: string): (r: Option<Span>)
    ensures r.Some? ==> KeyAt(s, i, key) && i + |key| < r.value.from <= r.value.to < |s|
  {
    if !KeyAt(s, i, key) then None
    else
      var from := OpenQuote(s, i + |key|);
      if from.None? then None
      else
        var end := BodyEnd(s, from.value);
        if end.None? then None else Some(Span(from.value, end.value))
  }

  /** The leftmost match from `i` on. */
  function FindFrom(s: string, i: nat, key: string): (r: Option<Span>)
    requires i <= |s|
    ensures r.Some? ==> r.value.from <= r.value.to <= |s|
    decreases |s| - i
  {
    if MatchAt(s, i, key).Some? then MatchAt(s, i, key)
    else if i == |s| then None
    else FindFrom(s, i + 1, key)
  }

  /** Deletes every match of `"inner_monologue"\s*:\s*"..."\s*,?`. */
  function Redact(s: string, i: nat := 0): string
    requires i <= |s|
    decreases |s| - i
  {
    if i == |s| then ""
    else
      var m := MatchAt(s, i, MONOLOGUE_KEY);
      if m.None? then [s[i]] + Redact(s, i + 1)
      else
        var j := SkipSpaces(s, m.value.to + 1);
        Redact(s, if j < |s| && s[j] == ',' then j + 1 else j)
  }

  // ---------------------------------------------------------------------------
  // Escapes
  // ---------------------------------------------------------------------------

  function EscapeChar(c: char): string {
    if c == '\\' then "\\\\" else if c == '"' then "\\\"" else if c == '\n' then "\\n"
    else if c == '\r' then "\\r" else if c == '\t' then "\\t" else [c]
  }

  function Escape(t: string): string {
    if t == "" then "" else EscapeChar(t[0]) + Escape(t[1..])
  }

  /** What the replacer puts for a backslash followed by `c`. */
  function EscapeOf(c: char): Option<char> {
    match c
    case '\\' => Some('\\')
    case '"' => Some('"')
    case 'n' => Some('\n')
    case 'r' => Some('\r')
    case 't' => Some('\t')
    case _ => None
  }

  predicate EscapeStarts(s: string, i: nat) {
    i + 1 < |s| && s[i] == '\\' && EscapeOf(s[i + 1]).Some?
  }

  function UnescapeMinimal(s: string): (r: string)
    ensures |r| <= |s|
  {
    if s == "" then ""
    else if EscapeStarts(s, 0) then [EscapeOf(s[1]).value] + UnescapeMinimal(s[2..])
    else [s[0]] + UnescapeMinimal(s[1..])
  }

  function EscapeQuotes(s: string): string {
    if s == "" then "" else (if s[0] == '"' then "\\\"" else [s[0]]) + EscapeQuotes(s[1..])
  }

  type Unquote = string -> Option<string>

  function Quote(body: string): string { "\"" + body + "\"" }

  function UnescapeMaybeDoubleEscaped(text: string, unquote: Unquote): string {
    var s := TrimSpace(text);
    if s == "" || Lacks(s, '\\') then s
    else
      var unq := unquote(Quote(EscapeQuotes(s)));
      if unq.Some? then TrimSpace(unq.value) else UnescapeMinimal(s)
  }

  /** The value a captured payload stands for; None when it is blank. */
  function Decode(payload: string, unquote: Unquote): Option<string> {
    var unq := unquote(Quote(payload));
    var text := if unq.Some? then unq.value else UnescapeMinimal(payload);
    var value := TrimSpace(UnescapeMaybeDoubleEscaped(text, unquote));
    if value == "" then None else Some(value)
  }

  function ExtractPublicResponseByRegex(s: string, unquote: Unquote): Option<string> {
    var m := FindFrom(s, 0, PUBLIC_KEY);
    if m.None? then None else Decode(s[m.value.from..m.value.to], unquote)
  }

  // ---------------------------------------------------------------------------
  // Unescaping inverts escaping
  // ---------------------------------------------------------------------------

  lemma {:induction false} UnescapeInvertsEscape(t: string)
    ensures UnescapeMinimal(Escape(t)) == t
  {
    if t != "" {
      var e, rest := EscapeChar(t[0]), Escape(t[1..]);
      UnescapeInvertsEscape(t[1..]);
      if |e| == 2 {
        assert (e + rest)[2..] == rest && EscapeOf(e[1]) == Some(t[0]);
      } else {
        assert (e + rest)[1..] == rest;
      }
    }
  }

  lemma {:induction false} EscapeOfPlain(t: string)
    requires forall i :: 0 <= i < |t| ==> EscapeChar(t[i]) == [t[i]]
    ensures Escape(t) == t
  {
    if t != "" {
      EscapeOfPlain(t[1..]);
    }
  }

  /** The replacer leaves a text alone exactly when no escape starts anywhere in it. */
  lemma {:induction false} UnescapeFixes(s: string)
    ensures UnescapeMinimal(s) == s <==> forall i: nat :: !EscapeStarts(s, i)
  {
    if s != "" {
      UnescapeFixes(s[1..]);
      forall i: nat ensures EscapeStarts(s[1..], i) <==> EscapeStarts(s, i + 1) {}
      if EscapeStarts(s, 0) {
        assert |UnescapeMinimal(s)| < |s|;
      } else {
        assert forall i: nat :: EscapeStarts(s, i) ==> i > 0 && EscapeStarts(s[1..], i - 1);
      }
    }
  }

  /** The pieces of an escaped text. */
  function EscapePieces(t: string): seq<Piece> {
    if t == "" then []
    else [if |EscapeChar(t[0])| == 2 then Escaped(EscapeChar(t[0])[1]) else Raw(t[0])] + EscapePieces(t[1..])
  }

  lemma {:induction false} EscapeIsBody(t: string)
    ensures BodyText(EscapePieces(t)) == Escape(t) && BodyOk(EscapePieces(t))
  {
    if t != "" {
      EscapeIsBody(t[1..]);
      BodyTextOfCons(EscapePieces(t)[0], EscapePieces(t[1..]));
    }
  }

  /** The capture ends exactly where the string literal does. */
  lemma {:induction false} BodyEndOfBody(s: string, i: nat, body: seq<Piece>)
    requires BodyOk(body) && At(s, i, BodyText(body) + "\"")
    ensures BodyEnd(s, i) == Some(i + |BodyText(body)|)
    decreases |body|
  {
    hide BodyEnd, At, Piece.Text;
    if body == [] {
      BodyEndHere(s, i);
    } else {
      var p, rest := body[0].Text(), BodyText(body[1..]) + "\"";
      assert BodyText(body) + "\"" == p + rest;
      AtConcat(s, i, p, rest);
      BodyEndSkips(s, i, body[0]);
      BodyEndOfBody(s, i + |p|, body[1..]);
    }
  }

  lemma BodyEndHere(s: string, i: nat)
    requires At(s, i, BodyText([]) + "\"")
    ensures BodyEnd(s, i) == Some(i + |BodyText([])|)
  {
    assert s[i] == s[i..i + 1][0];
  }

  lemma BodyEndSkips(s: string, i: nat, p: Piece)
    requires p.Ok() && At(s, i, p.Text())
    ensures BodyEnd(s, i) == BodyEnd(s, i + |p.Text()|)
  {
    assert s[i] == s[i..i + |p.Text()|][0];
  }

  /** In particular an escaped text holds no bare quote. */
  lemma BodyEndOfEscaped(s: string, i: nat, t: string)
    requires At(s, i, Escape(t) + "\"")
    ensures BodyEnd(s, i) == Some(i + |Escape(t)|)
  {
    EscapeIsBody(t);
    BodyEndOfBody(s, i, EscapePieces(t));
  }

  lemma EscapeStep(t: string)
    requires t != ""
    ensures |Escape(t)| == |EscapeChar(t[0])| + |Escape(t[1..])|
    ensures Escape(t) + "\"" == EscapeChar(t[0]) + (Escape(t[1..]) + "\"")
  {
    hide EscapeChar;
  }

  // ---------------------------------------------------------------------------
  // The capture in dirty text
  // ---------------------------------------------------------------------------

  lemma {:induction false} SkipSpacesIs(s: string, i: nat, j: nat)
    requires i <= j <= |s|
    requires forall k :: i <= k < j ==> IsReSpace(s[k])
    requires j < |s| ==> !IsReSpace(s[j])
    ensures SkipSpaces(s, i) == j
    decreases j - i
  {
    if i < j {
      SkipSpacesIs(s, i + 1, j);
    }
  }

  /** Skipping a run of white space that is followed by something else. */
  lemma SkipBlank(s: string, i: nat, gap: string, c: char)
    requires At(s, i, gap + [c]) && Blank(gap) && !IsReSpace(c)
    ensures SkipSpaces(s, i) == i + |gap| && i + |gap| < |s| && s[i + |gap|] == c
  {
    var j := i + |gap|;
    AtConcat(s, i, gap, [c]);
    assert s[j] == s[j..j + 1][0];
    forall k | i <= k < j ensures IsReSpace(s[k]) {
      assert s[k] == s[i..j][k - i];
    }
    SkipSpacesIs(s, i, j);
  }

  lemma LowerAt(s: string, i: nat, t: string)
    requires At(s, i, t)
    ensures At(ToLower(s), i, ToLower(t))
  {
    forall k | 0 <= k < |t| ensures ToLower(s)[i + k] == ToLower(t)[k] {
      assert s[i + k] == s[i..i + |t|][k];
    }
  }

  /** `"public_response" : "<string literal>"` in any letter case and with any spacing. */
  datatype Field = Field(key: string, gap: string, lead: string, body: seq<Piece>) {
    predicate Ok() { ToLower(key) == PUBLIC_KEY && Blank(gap) && Blank(lead) && BodyOk(body) }

    function Payload(): string { BodyText(body) }

    function Text(): string { key + ((gap + ":") + ((lead + "\"") + (Payload() + "\""))) }

    function Start(): nat { |key| + |gap| + |lead| + 2 }
  }

  lemma FieldParts(s: string, n: nat, f: Field)
    requires At(s, n, f.Text())
    ensures var colon, open := n + |f.key| + |f.gap|, n + f.Start() - 1;
            && At(s, n, f.key) && At(s, n + |f.key|, f.gap + ":")
            && At(s, colon + 1, f.lead + "\"") && At(s, open + 1, f.Payload() + "\"")
  {
    hide At;
    var body := f.Payload() + "\"";
    AtConcat(s, n, f.key, (f.gap + ":") + ((f.lead + "\"") + body));
    AtConcat(s, n + |f.key|, f.gap + ":", (f.lead + "\"") + body);
    AtConcat(s, n + |f.key| + |f.gap| + 1, f.lead + "\"", body);
  }

  lemma MatchField(s: string, n: nat, f: Field)
    requires f.Ok() && At(s, n, f.Text())
    ensures MatchAt(s, n, PUBLIC_KEY) == Some(Span(n + f.Start(), n + f.Start() + |f.Payload()|))
    ensures At(s, n + f.Start(), f.Payload())
  {
    hide OpenQuote, BodyEnd, At, Field.Text, BodyText, Blank, BodyOk, ToLower;
    FieldParts(s, n, f);
    LowerAt(s, n, f.key);
    OpenField(s, n + |f.key|, f.gap, f.lead);
    BodyEndOfBody(s, n + f.Start(), f.body);
    AtConcat(s, n + f.Start(), f.Payload(), "\"");
  }

  lemma OpenField(s: string, i: nat, gap: string, lead: string)
    requires At(s, i, gap + ":") && At(s, i + |gap| + 1, lead + "\"") && Blank(gap) && Blank(lead)
    ensures OpenQuote(s, i) == Some(i + |gap| + |lead| + 2)
  {
    SkipBlank(s, i, gap, ':');
    SkipBlank(s, i + |gap| + 1, lead, '"');
  }

  // ---------------------------------------------------------------------------
  // Nothing matches earlier
  // ---------------------------------------------------------------------------

  predicate KeyFree(s: string, key: string) { forall i :: 0 <= i <= |s| ==> !KeyAt(s, i, key) }

  /** Without this letter of the key there is no match. */
  predicate HasNoP(s: string) { forall k :: 0 <= k < |s| ==> LowerChar(s[k]) != 'p' }

  lemma {:induction false} NothingToFind(s: string, i: nat)
    requires i <= |s| && HasNoP(s)
    ensures FindFrom(s, i, PUBLIC_KEY).None?
    decreases |s| - i
  {
    if KeyAt(s, i, PUBLIC_KEY) {
      KeyHasP(s, i);
    } else if i < |s| {
      NothingToFind(s, i + 1);
    }
  }

  lemma KeyHasP(s: string, i: nat)
    requires KeyAt(s, i, PUBLIC_KEY)
    ensures !HasNoP(s)
  {
    assert ToLower(s)[i + 1] == ToLower(s)[i..i + |PUBLIC_KEY|][1];
  }

  lemma KeyHasTwoQuotes(k: nat)
    requires 0 < k < |PUBLIC_KEY| && PUBLIC_KEY[k] == '"'
    ensures k == |PUBLIC_KEY| - 1
  {
  }

  lemma LowerOfPrefix(prefix: string, rest: string, i: nat, key: string)
    requires i + |key| <= |prefix|
    ensures KeyAt(prefix + rest, i, key) == KeyAt(prefix, i, key)
  {
    var s := prefix + rest;
    assert ToLower(s)[i..i + |key|] == ToLower(prefix)[i..i + |key|];
  }

  /** An occurrence of the key that overlaps a field's own key shares one quote with it. */
  lemma OverlapIsOneQuote(s: string, n: nat, key: string, i: nat)
    requires At(s, n, key) && ToLower(key) == PUBLIC_KEY
    requires i < n < i + |PUBLIC_KEY| && KeyAt(s, i, PUBLIC_KEY)
    ensures i + |PUBLIC_KEY| == n + 1 && LowerChar(s[n + 1]) == 'p'
  {
    LowerAt(s, n, key);
    var lower := ToLower(s);
    assert lower[n] == lower[n..n + |key|][0] == '"' && lower[n + 1] == lower[n..n + |key|][1] == 'p';
    assert lower[n] == lower[i..i + |PUBLIC_KEY|][n - i];
    KeyHasTwoQuotes(n - i);
  }

  /** In key-free prose followed by a field no match starts before the field, not even one that overlaps it. */
  lemma NoEarlierMatch(prefix: string, f: Field, suffix: string, i: nat)
    requires f.Ok() && KeyFree(prefix, PUBLIC_KEY) && i < |prefix|
    ensures MatchAt(prefix + f.Text() + suffix, i, PUBLIC_KEY).None?
  {
    var s, n := prefix + f.Text() + suffix, |PUBLIC_KEY|;
    if i + n <= |prefix| {
      assert s == prefix + (f.Text() + suffix);
      LowerOfPrefix(prefix, f.Text() + suffix, i, PUBLIC_KEY);
    } else if KeyAt(s, i, PUBLIC_KEY) {
      FieldStart(prefix, f, suffix);
      OverlapIsOneQuote(s, |prefix|, f.key, i);
      SkipSpacesIs(s, i + n, i + n);
    }
  }

  lemma FieldStart(prefix: string, f: Field, suffix: string)
    ensures At(prefix + f.Text() + suffix, |prefix|, f.Text())
    ensures At(prefix + f.Text() + suffix, |prefix|, f.key)
  {
    var s, rest := prefix + f.Text() + suffix, (f.gap + ":") + ((f.lead + "\"") + (f.Payload() + "\""));
    assert s[|prefix|..|prefix| + |f.Text()|] == f.Text();
    AtConcat(s, |prefix|, f.key, rest);
  }

  lemma {:induction false} FindField(prefix: string, f: Field, suffix: string, i: nat)
    requires f.Ok() && KeyFree(prefix, PUBLIC_KEY) && i <= |prefix|
    ensures var s := prefix + f.Text() + suffix;
            var m := FindFrom(s, i, PUBLIC_KEY);
            m.Some? && s[m.value.from..m.value.to] == f.Payload()
    decreases |prefix| - i
  {
    hide MatchAt, KeyFree, Field.Text, Field.Payload, Field.Ok;
    var s := prefix + f.Text() + suffix;
    if i < |prefix| {
      NoEarlierMatch(prefix, f, suffix, i);
      FindField(prefix, f, suffix, i + 1);
    } else {
      FieldStart(prefix, f, suffix);
      MatchField(s, i, f);
    }
  }

  // ---------------------------------------------------------------------------
  // The round trip
  // ---------------------------------------------------------------------------

  /** Unquoting an escaped text gives the text back, when it succeeds. */
  ghost predicate Inverts(unquote: Unquote) {
    forall t :: InvertsOn(unquote, t)
  }

  predicate InvertsOn(unquote: Unquote, t: string) {
    unquote(Quote(Escape(t))) in {None, Some(t)}
  }

  /** Unquoting a text that holds a backslash shortens it, when it succeeds. */
  ghost predicate Shortens(unquote: Unquote) {
    forall t :: ShortensOn(unquote, t)
  }

  predicate ShortensOn(unquote: Unquote, t: string) {
    var unq := unquote(Quote(EscapeQuotes(t)));
    !Lacks(t, '\\') && unq.Some? ==> |unq.value| < |t|
  }

  /** A field in key-free prose gives what its payload stands for. */
  lemma ExtractPayload(prefix: string, f: Field, suffix: string, unquote: Unquote)
    requires f.Ok() && KeyFree(prefix, PUBLIC_KEY)
    ensures ExtractPublicResponseByRegex(prefix + f.Text() + suffix, unquote) == Decode(f.Payload(), unquote)
  {
    FindField(prefix, f, suffix, 0);
  }

  /** A payload stands for what it unquotes to, and only when it does not unquote for its text with the simple escapes
      undone; either is passed once more through the double-escape repair. */
  lemma PayloadMeans(prefix: string, f: Field, suffix: string, unquote: Unquote)
    requires f.Ok() && KeyFree(prefix, PUBLIC_KEY)
    ensures var unq := unquote(Quote(f.Payload()));
            var text := if unq.Some? then unq.value else UnescapeMinimal(f.Payload());
            Trimmed(text) && text != "" && Lacks(text, '\\') ==>
              ExtractPublicResponseByRegex(prefix + f.Text() + suffix, unquote) == Some(text)
  {
    var unq := unquote(Quote(f.Payload()));
    var text := if unq.Some? then unq.value else UnescapeMinimal(f.Payload());
    ExtractPayload(prefix, f, suffix, unquote);
    if Trimmed(text) {
      TrimmedStays(text);
    }
  }

  /** A field whose payload is an escaped value decodes to that value, passed once more through the double-escape
      repair. */
  lemma ExtractField(prefix: string, f: Field, value: string, suffix: string, unquote: Unquote)
    requires f.Ok() && f.Payload() == Escape(value) && KeyFree(prefix, PUBLIC_KEY) && Inverts(unquote)
    ensures var repaired := TrimSpace(UnescapeMaybeDoubleEscaped(value, unquote));
            ExtractPublicResponseByRegex(prefix + f.Text() + suffix, unquote)
            == if repaired == "" then None else Some(repaired)
  {
    ExtractPayload(prefix, f, suffix, unquote);
    assert InvertsOn(unquote, value);
    UnescapeInvertsEscape(value);
  }

  /** What the double-escape repair leaves alone. */
  ghost predicate Settled(t: string, unquote: Unquote) {
    Lacks(t, '\\') ||
    (unquote(Quote(EscapeQuotes(t))).None? && forall i: nat :: !EscapeStarts(t, i))
  }

  lemma TrimShortens(s: string)
    ensures |TrimSpace(s)| <= |s|
  {
  }

  /** Exactly the trimmed, non-empty texts that the double-escape repair leaves alone come back
      unchanged; a text without backslashes always does. */
  lemma RoundTrip(prefix: string, f: Field, value: string, suffix: string, unquote: Unquote)
    requires f.Ok() && f.Payload() == Escape(value) && KeyFree(prefix, PUBLIC_KEY) && Inverts(unquote) && Shortens(unquote)
    ensures ExtractPublicResponseByRegex(prefix + f.Text() + suffix, unquote) == Some(value)
            <==> value != "" && Trimmed(value) && Settled(value, unquote)
  {
    var t := value;
    var repaired := UnescapeMaybeDoubleEscaped(t, unquote);
    ExtractField(prefix, f, value, suffix, unquote);
    TrimSpaceIsTrimmed(repaired);
    if Trimmed(t) && t != "" {
      TrimmedStays(t);
      UnescapeFixes(t);
      assert ShortensOn(unquote, t);
      var unq := unquote(Quote(EscapeQuotes(t)));
      if !Lacks(t, '\\') && unq.Some? {
        TrimShortens(unq.value);
        TrimShortens(repaired);
      } else {
        RepairSettled(t, repaired);
      }
    }
  }

  /** A bare quote is a syntax error. */
  ghost predicate RejectsBareQuotes(unquote: Unquote) {
    forall t :: RejectsOn(unquote, t)
  }

  predicate RejectsOn(unquote: Unquote, t: string) {
    !Lacks(t, '"') ==> unquote(Quote(EscapeQuotes(Escape(t)))).None?
  }

  /** What the repair is for: an answer that was escaped twice comes back as it was before. */
  lemma TwiceEscapedComesBack(prefix: string, f: Field, suffix: string, text: string, unquote: Unquote)
    requires f.Ok() && f.Payload() == Escape(Escape(text)) && text != "" && Trimmed(text)
    requires KeyFree(prefix, PUBLIC_KEY) && Inverts(unquote) && RejectsBareQuotes(unquote)
    ensures ExtractPublicResponseByRegex(prefix + f.Text() + suffix, unquote) == Some(text)
  {
    ExtractField(prefix, f, Escape(text), suffix, unquote);
    RepairUndoesEscape(text, unquote);
    TrimmedStays(text);
  }

  lemma RepairUndoesEscape(t: string, unquote: Unquote)
    requires t != "" && Trimmed(t) && Inverts(unquote) && RejectsBareQuotes(unquote)
    ensures UnescapeMaybeDoubleEscaped(Escape(t), unquote) == t
  {
    hide Escape, UnescapeMinimal, EscapeQuotes, IsSpace, TrimSpace;
    EscapedIsTrimmed(t);
    TrimmedStays(Escape(t));
    TrimmedStays(t);
    UnescapeInvertsEscape(t);
    assert InvertsOn(unquote, t) && RejectsOn(unquote, t);
    if Lacks(t, '"') {
      NoQuotesToEscape(t);
    }
    if Lacks(Escape(t), '\\') {
      NothingToUnescape(t);
    }
  }

  lemma EscapedIsTrimmed(t: string)
    requires t != "" && Trimmed(t)
    ensures Escape(t) != "" && Trimmed(Escape(t))
  {
    hide IsSpace;
    EscapeStep(t);
    LastOfEscape(t);
    BackslashIsNoSpace();
  }

  lemma BackslashIsNoSpace()
    ensures !IsSpace('\\') && !IsSpace('"') && !IsSpace('n') && !IsSpace('r') && !IsSpace('t')
  {
  }

  /** An escaped text ends with its last character or with the letter of an escape. */
  lemma {:induction false} LastOfEscape(t: string)
    requires t != ""
    ensures var e := Escape(t);
            e != "" && (e[|e| - 1] == t[|t| - 1] || e[|e| - 1] in "nrt")
  {
    EscapeStep(t);
    if |t| > 1 {
      LastOfEscape(t[1..]);
    } else {
      assert t[1..] == "" && Escape("") == "";
    }
  }

  lemma {:induction false} NoQuotesToEscape(t: string)
    requires Lacks(t, '"')
    ensures EscapeQuotes(Escape(t)) == Escape(t)
  {
    if t != "" {
      var e, rest := EscapeChar(t[0]), Escape(t[1..]);
      NoQuotesToEscape(t[1..]);
      assert forall i :: 0 <= i < |e| ==> e[i] != '"';
      QuotesOfConcat(e, rest);
    }
  }

  lemma {:induction false} QuotesOfConcat(a: string, b: string)
    requires Lacks(a, '"')
    ensures EscapeQuotes(a + b) == a + EscapeQuotes(b)
  {
    if a == "" {
      assert a + b == b;
    } else {
      assert (a + b)[1..] == a[1..] + b;
      QuotesOfConcat(a[1..], b);
    }
  }

  lemma {:induction false} NothingToUnescape(t: string)
    requires Lacks(Escape(t), '\\')
    ensures Escape(t) == t
  {
    if t != "" {
      var e, rest := EscapeChar(t[0]), Escape(t[1..]);
      assert e[0] == Escape(t)[0] && forall i :: 0 <= i < |rest| ==> rest[i] == Escape(t)[|e| + i];
      NothingToUnescape(t[1..]);
    }
  }

  lemma RepairSettled(t: string, repaired: string)
    requires Trimmed(t) && (repaired == t || repaired == UnescapeMinimal(t))
    ensures TrimSpace(repaired) == t <==> repaired == t
  {
    TrimmedStays(t);
    TrimShortens(repaired);
  }
}
