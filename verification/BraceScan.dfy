/** The brace-matching extractor: the first `{...}` that is balanced outside string literals. */
module BraceScan {
  import opened Basics
  import opened Text

  // ---------------------------------------------------------------------------
  // The automaton
  // ---------------------------------------------------------------------------

  /** The scanner's three variables.  `depth` is positive from the first brace on. */
  datatype State = State(inString: bool, escape: bool, depth: nat)

  function Outside(depth: nat): State { State(false, false, depth) }

  function Inside(depth: nat): State { State(true, false, depth) }

  function Next(st: State, c: char): State
    requires st.depth > 0
  {
    if st.inString then
      if st.escape then st.(escape := false)
      else if c == '\\' then st.(escape := true)
      else st.(inString := c != '"')
    else if c == '"' then st.(inString := true)
    else if c == '{' then st.(depth := st.depth + 1)
    else if c == '}' then st.(depth := st.depth - 1)
    else st
  }

  /** The end of the object for a scanner in state `st` at position `i`: the position after the brace
      that brings the depth to zero, or None when the text ends first. */
  function Scan(s: string, i: nat, st: State): (r: Option<nat>)
    requires i <= |s| && st.depth > 0
    ensures r.Some? ==> i < r.value <= |s| && s[r.value - 1] == '}'
    decreases |s| - i
  {
    if i == |s| then None
    else
      var next := Next(st, s[i]);
      if next.depth == 0 then Some(i + 1) else Scan(s, i + 1, next)
  }

  /** The position of the first `{` from `i` on, or the length of the text. */
  function FirstBrace(s: string, i: nat := 0): (n: nat)
    requires i <= |s|
    ensures i <= n <= |s|
    ensures forall j :: i <= j < n ==> s[j] != '{'
    ensures n < |s| ==> s[n] == '{'
    decreases |s| - i
  {
    if i == |s| || s[i] == '{' then i else FirstBrace(s, i + 1)
  }

  function Extract(input: string): string {
    var start := FirstBrace(input);
    if start == |input| then ""
    else
      var r := Scan(input, start + 1, Outside(1));
      if r.None? then "" else input[start..r.value]
  }

  method ExtractFirstJSONObject(input: string) returns (r: string)
    ensures r == Extract(input)
  {
    var start := FirstBrace(input);
    if start == |input| {
      return "";
    }
    var inString, escape, depth := false, false, 0;
    var i := start;
    while i < |input|
      invariant start <= i <= |input| && depth >= 0
      invariant i == start ==> !inString && !escape && depth == 0
      invariant i > start ==> depth > 0
      invariant i > start ==> Scan(input, start + 1, Outside(1)) == Scan(input, i, State(inString, escape, depth))
    {
      var ch := input[i];
      i := i + 1;
      if inString {
        if escape {
          escape := false;
          continue;
        }
        if ch == '\\' {
          escape := true;
          continue;
        }
        if ch == '"' {
          inString := false;
        }
        continue;
      }
      match ch
      case '"' =>
        inString := true;
      case '{' =>
        depth := depth + 1;
      case '}' =>
        depth := depth - 1;
        if depth == 0 {
          return input[start..i];
        }
        if depth < 0 {
          assert false;  // the scan starts at an opening brace
        }
      case _ =>
    }
    return "";
  }

  // ---------------------------------------------------------------------------
  // What the scanner passes over
  // ---------------------------------------------------------------------------

  predicate At(s: string, i: nat, t: string) {
    i + |t| <= |s| && s[i..i + |t|] == t
  }

  lemma AtConcat(s: string, i: nat, a: string, b: string)
    requires At(s, i, a + b)
    ensures At(s, i, a) && At(s, i + |a|, b)
  {
    assert s[i..i + |a|] == (a + b)[..|a|] == a;
    assert s[i + |a|..i + |a| + |b|] == (a + b)[|a|..] == b;
  }

  /** Text that leaves the scanner outside strings and at the depth where it found it. */
  ghost predicate Neutral(t: string) {
    forall s: string, i: nat, depth: nat :: Passes(t, s, i, depth)
  }

  ghost predicate Passes(t: string, s: string, i: nat, depth: nat) {
    At(s, i, t) && depth > 0 ==> Scan(s, i, Outside(depth)) == Scan(s, i + |t|, Outside(depth))
  }

  lemma NeutralConcat(a: string, b: string)
    requires Neutral(a) && Neutral(b)
    ensures Neutral(a + b)
  {
    forall s: string, i: nat, depth: nat ensures Passes(a + b, s, i, depth) {
      if At(s, i, a + b) {
        AtConcat(s, i, a, b);
        assert Passes(a, s, i, depth) && Passes(b, s, i + |a|, depth);
      }
    }
  }

  lemma NeutralBraces(t: string)
    requires Neutral(t)
    ensures Neutral("{" + t + "}")
  {
    forall s: string, i: nat, depth: nat ensures Passes("{" + t + "}", s, i, depth) {
      if At(s, i, "{" + t + "}") {
        AtConcat(s, i, "{" + t, "}");
        AtConcat(s, i, "{", t);
        assert s[i] == s[i..i + 1][0] && s[i + |t| + 1] == s[i + |t| + 1..i + |t| + 2][0];
        assert Passes(t, s, i + 1, depth + 1);
      }
    }
  }

  predicate IsPlain(c: char) { c != '"' && c != '{' && c != '}' }

  lemma NeutralChar(c: char)
    requires IsPlain(c)
    ensures Neutral([c])
  {
    forall s: string, i: nat, depth: nat ensures Passes([c], s, i, depth) {
      if At(s, i, [c]) {
        assert s[i] == s[i..i + 1][0];
      }
    }
  }

  lemma {:induction false} NeutralPlain(t: string)
    requires forall i :: 0 <= i < |t| ==> IsPlain(t[i])
    ensures Neutral(t)
  {
    if t != "" {
      NeutralChar(t[0]);
      NeutralPlain(t[1..]);
      NeutralConcat([t[0]], t[1..]);
      assert t == [t[0]] + t[1..];
    }
  }

  /** One character of a string literal: a character by itself, or a backslash and a character. */
  datatype Piece = Raw(c: char) | Escaped(c: char) {
    predicate Ok() { Raw? ==> c != '"' && c != '\\' }

    function Text(): string { if Raw? then [c] else ['\\', c] }
  }

  function BodyText(body: seq<Piece>): string {
    if body == [] then "" else body[0].Text() + BodyText(body[1..])
  }

  lemma BodyTextOfCons(p: Piece, rest: seq<Piece>)
    ensures BodyText([p] + rest) == p.Text() + BodyText(rest)
    ensures p.Ok() && BodyOk(rest) ==> BodyOk([p] + rest)
  {
    assert ([p] + rest)[1..] == rest;
  }

  lemma EmptyBody()
    ensures BodyText([]) == "" && BodyOk([])
  {
  }

  function QuotedText(body: seq<Piece>): string { "\"" + BodyText(body) + "\"" }

  predicate BodyOk(body: seq<Piece>) { forall i :: 0 <= i < |body| ==> body[i].Ok() }

  lemma ScanPiece(p: Piece, s: string, i: nat, depth: nat)
    requires p.Ok() && depth > 0 && At(s, i, p.Text())
    ensures Scan(s, i, Inside(depth)) == Scan(s, i + |p.Text()|, Inside(depth))
  {
    assert s[i] == s[i..i + |p.Text()|][0];
    if p.Escaped? {
      assert s[i + 1] == s[i..i + |p.Text()|][1];
    }
  }

  lemma {:induction false} ScanBody(body: seq<Piece>, s: string, i: nat, depth: nat)
    requires BodyOk(body) && depth > 0 && At(s, i, BodyText(body))
    ensures Scan(s, i, Inside(depth)) == Scan(s, i + |BodyText(body)|, Inside(depth))
  {
    hide Scan;
    if body != [] {
      AtConcat(s, i, body[0].Text(), BodyText(body[1..]));
      ScanPiece(body[0], s, i, depth);
      ScanBody(body[1..], s, i + |body[0].Text()|, depth);
    }
  }

  lemma NeutralQuoted(body: seq<Piece>)
    requires BodyOk(body)
    ensures Neutral(QuotedText(body))
  {
    forall s: string, i: nat, depth: nat ensures Passes(QuotedText(body), s, i, depth) {
      if At(s, i, QuotedText(body)) && depth > 0 {
        ScanQuoted(body, s, i, depth);
      }
    }
  }

  lemma ScanQuoted(body: seq<Piece>, s: string, i: nat, depth: nat)
    requires BodyOk(body) && depth > 0 && At(s, i, QuotedText(body))
    ensures Scan(s, i, Outside(depth)) == Scan(s, i + |QuotedText(body)|, Outside(depth))
  {
    hide Scan, BodyText, BodyOk;
    var t := BodyText(body);
    AtConcat(s, i, "\"" + t, "\"");
    AtConcat(s, i, "\"", t);
    ScanQuote(s, i, Outside(depth));
    ScanBody(body, s, i + 1, depth);
    ScanQuote(s, i + 1 + |t|, Inside(depth));
  }

  lemma ScanQuote(s: string, i: nat, st: State)
    requires At(s, i, "\"") && st.depth > 0 && !st.escape
    ensures Scan(s, i, st) == Scan(s, i + 1, st.(inString := !st.inString))
  {
    assert s[i] == s[i..i + 1][0];
  }

  // ---------------------------------------------------------------------------
  // The grammar of balanced text
  // ---------------------------------------------------------------------------

  datatype Item = Plain(c: char) | Quoted(body: seq<Piece>) | Group(items: Items)
  datatype Items = Nil | Cons(head: Item, tail: Items)

  predicate ItemOk(i: Item) {
    match i
    case Plain(c) => IsPlain(c)
    case Quoted(body) => BodyOk(body)
    case Group(items) => ItemsOk(items)
  }

  predicate ItemsOk(items: Items) {
    items.Cons? ==> ItemOk(items.head) && ItemsOk(items.tail)
  }

  function ItemText(i: Item): string {
    match i
    case Plain(c) => [c]
    case Quoted(body) => QuotedText(body)
    case Group(items) => "{" + ItemsText(items) + "}"
  }

  function ItemsText(items: Items): string {
    match items
    case Nil => ""
    case Cons(head, tail) => ItemText(head) + ItemsText(tail)
  }

  /** `input` is brace-free text, then a balanced group, then anything. */
  ghost predicate Splits(input: string, prefix: string, items: Items, suffix: string) {
    && Lacks(prefix, '{') && ItemsOk(items)
    && input == prefix + ItemText(Group(items)) + suffix
  }

  lemma {:induction false} NeutralItem(i: Item)
    requires ItemOk(i)
    ensures Neutral(ItemText(i))
  {
    match i
    case Plain(c) => NeutralChar(c);
    case Quoted(body) => NeutralQuoted(body);
    case Group(items) =>
      NeutralItems(items);
      NeutralBraces(ItemsText(items));
  }

  lemma {:induction false} NeutralItems(items: Items)
    requires ItemsOk(items)
    ensures Neutral(ItemsText(items))
  {
    match items
    case Nil =>
    case Cons(head, tail) =>
      NeutralItem(head);
      NeutralItems(tail);
      NeutralConcat(ItemText(head), ItemsText(tail));
  }

  lemma {:induction false} FirstBraceIs(s: string, i: nat, n: nat)
    requires i <= n <= |s|
    requires forall j :: i <= j < n ==> s[j] != '{'
    requires n < |s| ==> s[n] == '{'
    ensures FirstBrace(s, i) == n
    decreases n - i
  {
    if i < n {
      FirstBraceIs(s, i + 1, n);
    }
  }

  /** Whatever is neutral between the first brace and a closing one is extracted with its braces. */
  lemma ExtractNeutral(prefix: string, t: string, suffix: string)
    requires Lacks(prefix, '{') && Neutral(t)
    ensures Extract(prefix + ("{" + t + "}") + suffix) == "{" + t + "}"
  {
    var group := "{" + t + "}";
    var input := prefix + group + suffix;
    assert At(input, |prefix|, group) by {
      assert input[|prefix|..|prefix| + |group|] == group;
    }
    assert forall i :: 0 <= i < |prefix| ==> input[i] == prefix[i];
    ExtractAt(input, |prefix|, t);
  }

  lemma ExtractAt(input: string, start: nat, t: string)
    requires At(input, start, "{" + t + "}") && Neutral(t)
    requires forall i :: 0 <= i < start ==> input[i] != '{'
    ensures Extract(input) == "{" + t + "}"
  {
    var end := start + 1 + |t|;
    AtConcat(input, start, "{" + t, "}");
    AtConcat(input, start, "{", t);
    assert input[start] == input[start..start + 1][0] && input[end] == input[end..end + 1][0];
    FirstBraceIs(input, 0, start);
    assert Passes(t, input, start + 1, 1);
    assert Scan(input, end, Outside(1)) == Some(end + 1);
  }

  // ---------------------------------------------------------------------------
  // From the automaton back to the grammar
  // ---------------------------------------------------------------------------

  /** Closing `a + b` levels is closing `a` of them and then the other `b`. */
  lemma {:induction false} ScanLevels(s: string, i: nat, st: State, b: nat)
    requires i <= |s| && st.depth > 0 && b > 0 && (!st.inString ==> !st.escape)
    ensures var first := Scan(s, i, st);
            Scan(s, i, st.(depth := st.depth + b)) == if first.None? then None else Scan(s, first.value, Outside(b))
    decreases |s| - i
  {
    if i < |s| {
      var next := Next(st, s[i]);
      assert Next(st.(depth := st.depth + b), s[i]) == next.(depth := next.depth + b);
      if next.depth > 0 {
        ScanLevels(s, i + 1, next, b);
      }
    }
  }

  lemma JoinSpans(s: string, i: nat, k: nat, n: nat, a: string, b: string)
    requires i <= k <= n <= |s| && s[i..k] == a && s[k..n] == b
    ensures s[i..n] == a + b
  {
  }

  /** The piece of a string literal at a position that is not the closing quote. */
  lemma PieceAt(s: string, i: nat, depth: nat) returns (p: Piece)
    requires i <= |s| && depth > 0 && Scan(s, i, Inside(depth)).Some? && s[i] != '"'
    ensures p.Ok() && At(s, i, p.Text())
    ensures Scan(s, i, Inside(depth)) == Scan(s, i + |p.Text()|, Inside(depth))
  {
    p := if s[i] == '\\' then Escaped(s[i + 1]) else Raw(s[i]);
    ScanPiece(p, s, i, depth);
  }

  lemma {:induction false} ParseBody(s: string, i: nat, depth: nat) returns (body: seq<Piece>, n: nat)
    requires i <= |s| && depth > 0 && Scan(s, i, Inside(depth)).Some?
    ensures i < n <= |s| && BodyOk(body) && s[i..n] == BodyText(body) + "\""
    ensures Scan(s, i, Inside(depth)) == Scan(s, n, Outside(depth))
    decreases |s| - i
  {
    hide Scan, BodyText, BodyOk;
    if s[i] == '"' {
      body, n := [], i + 1;
      assert s[i..n] == "\"" == "" + "\"";
      ScanQuote(s, i, Inside(depth));
      EmptyBody();
    } else {
      var p := PieceAt(s, i, depth);
      var k, rest := i + |p.Text()|, [];
      rest, n := ParseBody(s, k, depth);
      body := [p] + rest;
      BodyTextOfCons(p, rest);
      JoinSpans(s, i, k, n, p.Text(), BodyText(rest) + "\"");
      assert p.Text() + (BodyText(rest) + "\"") == BodyText(body) + "\"";
    }
  }

  lemma ScanStep(s: string, i: nat, st: State)
    requires i < |s| && st.depth > 0
    ensures var next := Next(st, s[i]);
            Scan(s, i, st) == if next.depth == 0 then Some(i + 1) else Scan(s, i + 1, next)
  {
  }

  lemma {:induction false} Parse(s: string, i: nat) returns (items: Items)
    requires i <= |s| && Scan(s, i, Outside(1)).Some?
    ensures ItemsOk(items)
    ensures s[i..Scan(s, i, Outside(1)).value] == ItemsText(items) + "}"
    decreases |s| - i
  {
    hide Scan, ItemText, ItemOk;
    var end := Scan(s, i, Outside(1)).value;
    if s[i] == '}' {
      items := Nil;
      ScanStep(s, i, Outside(1));
    } else {
      var head, n := ParseItem(s, i);
      var tail := Parse(s, n);
      items := Cons(head, tail);
      assert s[i..end] == s[i..n] + s[n..end];
    }
  }

  lemma {:induction false} ParseItem(s: string, i: nat) returns (item: Item, n: nat)
    requires i <= |s| && Scan(s, i, Outside(1)).Some? && s[i] != '}'
    ensures i < n <= |s| && ItemOk(item) && s[i..n] == ItemText(item)
    ensures Scan(s, i, Outside(1)) == Scan(s, n, Outside(1))
    decreases |s| - i, 0
  {
    hide Scan, BodyText, BodyOk;
    ScanStep(s, i, Outside(1));
    if s[i] == '"' {
      var body;
      body, n := ParseBody(s, i + 1, 1);
      item := Quoted(body);
      assert s[i..n] == "\"" + s[i + 1..n];
    } else if s[i] == '{' {
      ScanLevels(s, i + 1, Outside(1), 1);
      n := Scan(s, i + 1, Outside(1)).value;
      var inner := Parse(s, i + 1);
      item := Group(inner);
      assert s[i..n] == "{" + s[i + 1..n];
    } else {
      item, n := Plain(s[i]), i + 1;
    }
  }

  // ---------------------------------------------------------------------------
  // Soundness, completeness, minimality
  // ---------------------------------------------------------------------------

  /** A non-empty result is the balanced group that starts at the first brace. */
  lemma ExtractSound(input: string) returns (prefix: string, items: Items, suffix: string)
    requires Extract(input) != ""
    ensures Splits(input, prefix, items, suffix) && Extract(input) == ItemText(Group(items))
  {
    var start := FirstBrace(input);
    var end := Scan(input, start + 1, Outside(1)).value;
    items := Parse(input, start + 1);
    prefix, suffix := input[..start], input[end..];
    GroupSpan(input, start, end, items);
  }

  lemma GroupSpan(input: string, start: nat, end: nat, items: Items)
    requires start < end <= |input| && input[start] == '{' && ItemsOk(items)
    requires forall i :: 0 <= i < start ==> input[i] != '{'
    requires input[start + 1..end] == ItemsText(items) + "}"
    ensures Splits(input, input[..start], items, input[end..]) && input[start..end] == ItemText(Group(items))
  {
    assert input[start..end] == "{" + input[start + 1..end];
    assert input == input[..start] + input[start..end] + input[end..];
  }

  /** Where the text has such a group the extractor returns it. */
  lemma ExtractComplete(input: string, prefix: string, items: Items, suffix: string)
    requires Splits(input, prefix, items, suffix)
    ensures Extract(input) == ItemText(Group(items))
  {
    NeutralItems(items);
    ExtractNeutral(prefix, ItemsText(items), suffix);
  }

  /** The extractor decides the grammar: it returns "" exactly when no balanced group starts at the first brace. */
  lemma ExtractDecides(input: string)
    ensures Extract(input) != "" <==> exists prefix, items, suffix :: Splits(input, prefix, items, suffix)
  {
    if Extract(input) != "" {
      var prefix, items, suffix := ExtractSound(input);
    }
    forall prefix, items, suffix | Splits(input, prefix, items, suffix) ensures Extract(input) != "" {
      ExtractComplete(input, prefix, items, suffix);
    }
  }

  /** Minimality: balanced groups are prefix-free, so nothing shorter could have been returned. */
  lemma GroupsArePrefixFree(a: Items, b: Items, restA: string, restB: string)
    requires ItemsOk(a) && ItemsOk(b)
    requires ItemText(Group(a)) + restA == ItemText(Group(b)) + restB
    ensures ItemText(Group(a)) == ItemText(Group(b)) && restA == restB
  {
    hide ItemText, ItemsOk, Extract;
    var input := ItemText(Group(a)) + restA;
    assert input == "" + ItemText(Group(a)) + restA && input == "" + ItemText(Group(b)) + restB;
    ExtractComplete(input, "", a, restA);
    ExtractComplete(input, "", b, restB);
    assert restA == input[|ItemText(Group(a))|..] && restB == input[|ItemText(Group(b))|..];
  }

  lemma ExtractIsIdempotent(input: string)
    ensures Extract(Extract(input)) == Extract(input)
  {
    if Extract(input) != "" {
      var prefix, items, suffix := ExtractSound(input);
      assert Extract(input) == "" + ItemText(Group(items)) + "";
      ExtractComplete(Extract(input), "", items, "");
    }
  }

  // ---------------------------------------------------------------------------
  // Cutting the text around the object
  // ---------------------------------------------------------------------------

  /** Scanning a slice is scanning the whole text, unless the slice ends before the closing brace. */
  lemma {:induction false} ScanOfSlice(s: string, a: nat, b: nat, i: nat, st: State)
    requires a <= i <= b <= |s| && st.depth > 0
    ensures var whole := Scan(s, i, st);
            Scan(s[a..b], i - a, st) == if whole.Some? && whole.value <= b then Some(whole.value - a) else None
    decreases b - i
  {
    if i < b {
      assert s[a..b][i - a] == s[i];
      if Next(st, s[i]).depth > 0 {
        ScanOfSlice(s, a, b, i + 1, Next(st, s[i]));
      }
    }
  }

  /** Dropping opening-brace-free text in front and closing-brace-free text behind changes nothing. */
  lemma ExtractOfSlice(s: string, a: nat, b: nat)
    requires a <= b <= |s|
    requires forall i :: 0 <= i < a ==> s[i] != '{'
    requires forall i :: b <= i < |s| ==> s[i] != '}'
    ensures Extract(s[a..b]) == Extract(s)
  {
    var start := FirstBrace(s);
    EndsBefore(s, b);
    if start < b {
      FirstBraceOfSlice(s, a, b, start);
      ExtractInSlice(s, a, b, start);
    } else {
      FirstBraceOfSlice(s, a, b, b);
    }
  }

  lemma EndsBefore(s: string, b: nat)
    requires forall i :: b <= i < |s| ==> s[i] != '}'
    ensures forall i: nat, st: State :: i <= |s| && st.depth > 0 && Scan(s, i, st).Some? ==> Scan(s, i, st).value <= b
  {
  }

  lemma ExtractInSlice(s: string, a: nat, b: nat, start: nat)
    requires a <= start < b <= |s|
    requires start == FirstBrace(s) && start - a == FirstBrace(s[a..b])
    requires Scan(s, start + 1, Outside(1)).Some? ==> Scan(s, start + 1, Outside(1)).value <= b
    ensures Extract(s[a..b]) == Extract(s)
  {
    hide Scan, FirstBrace, Extract;
    var r := Scan(s, start + 1, Outside(1));
    ScanOfSlice(s, a, b, start + 1, Outside(1));
    ExtractIs(s, start);
    ExtractIs(s[a..b], start - a);
    if r.Some? {
      SliceOfSlice(s, a, b, start, r.value);
    }
  }

  lemma ExtractIs(s: string, start: nat)
    requires start < |s| && start == FirstBrace(s)
    ensures var r := Scan(s, start + 1, Outside(1));
            Extract(s) == if r.None? then "" else s[start..r.value]
  {
  }

  lemma SliceOfSlice(s: string, a: nat, b: nat, i: nat, j: nat)
    requires a <= i <= j <= b <= |s|
    ensures s[a..b][i - a..j - a] == s[i..j]
  {
    var t, l, h := s[a..b], i - a, j - a;
    assert forall k :: 0 <= k < j - i ==> t[l..h][k] == t[l + k] == s[i + k] == s[i..j][k];
  }

  lemma FirstBraceOfSlice(s: string, a: nat, b: nat, n: nat)
    requires a <= n <= b <= |s|
    requires forall i :: a <= i < n ==> s[i] != '{'
    requires n < b ==> s[n] == '{'
    ensures FirstBrace(s[a..b]) == n - a
  {
    assert forall i :: a <= i < b ==> s[a..b][i - a] == s[i];
    FirstBraceIs(s[a..b], 0, n - a);
  }
}
