/** JSON texts as defined by RFC 8259, with white space wherever the grammar allows it, and the
    theorem that the extractor inverts their printing inside arbitrary prose. */
module Json {
  import opened BraceScan
  import opened Text

  /** Section 7: an unescaped character, a two-character escape or a \u escape. */
  datatype JsonChar = Unescaped(c: char) | Short(c: char) | Unicode(hex: string) {
    predicate Ok() {
      match this
      case Unescaped(c) => c >= ' ' && c != '"' && c != '\\'
      case Short(c) => c in "\"\\/bfnrt"
      case Unicode(hex) => |hex| == 4 && forall i :: 0 <= i < 4 ==> IsHex(hex[i])
    }

    function Text(): string {
      match this
      case Unescaped(c) => [c]
      case Short(c) => ['\\', c]
      case Unicode(hex) => "\\u" + hex
    }
  }

  function StringText(chars: seq<JsonChar>): string { "\"" + CharsText(chars) + "\"" }

  function CharsText(chars: seq<JsonChar>): string {
    if chars == [] then "" else chars[0].Text() + CharsText(chars[1..])
  }

  predicate StringOk(chars: seq<JsonChar>) { forall i :: 0 <= i < |chars| ==> chars[i].Ok() }

  /** Sections 3 to 6.  The string arguments called `before`, `gap`, `lead`, `after` and `pad` are white space. */
  datatype Value =
    | Scalar(text: string)  // true, false, null or a number
    | Text(chars: seq<JsonChar>)
    | Array(pad: string, elements: Elements)
    | Object(pad: string, members: Members)

  datatype Elements = NoElements | Element(before: string, value: Value, after: string, more: Elements)

  datatype Members =
    | NoMembers
    | Member(before: string, name: seq<JsonChar>, gap: string, lead: string, value: Value, after: string, more: Members)

  predicate IsWs(t: string) { forall i :: 0 <= i < |t| ==> t[i] in " \t\n\r" }

  predicate IsScalar(t: string) {
    || t == "true" || t == "false" || t == "null"
    || (t != "" && forall i :: 0 <= i < |t| ==> t[i] in "-+.eE0123456789")
  }

  predicate ValueOk(v: Value) {
    match v
    case Scalar(text) => IsScalar(text)
    case Text(chars) => StringOk(chars)
    case Array(pad, elements) => IsWs(pad) && ElementsOk(elements)
    case Object(pad, members) => IsWs(pad) && MembersOk(members)
  }

  predicate ElementsOk(e: Elements) {
    e.Element? ==> IsWs(e.before) && ValueOk(e.value) && IsWs(e.after) && ElementsOk(e.more)
  }

  predicate MembersOk(m: Members) {
    m.Member? ==>
      && IsWs(m.before) && StringOk(m.name) && IsWs(m.gap) && IsWs(m.lead)
      && ValueOk(m.value) && IsWs(m.after) && MembersOk(m.more)
  }

  function Print(v: Value): string {
    match v
    case Scalar(text) => text
    case Text(chars) => StringText(chars)
    case Array(pad, elements) => "[" + (pad + PrintElements(elements)) + "]"
    case Object(pad, members) => "{" + (pad + PrintMembers(members)) + "}"
  }

  function PrintElements(e: Elements): string {
    match e
    case NoElements => ""
    case Element(before, value, after, more) =>
      before + (Print(value) + (after + ((if more.Element? then "," else "") + PrintElements(more))))
  }

  function PrintMembers(m: Members): string {
    match m
    case NoMembers => ""
    case Member(before, name, gap, lead, value, after, more) =>
      before + (StringText(name) + (gap + (":" + (lead + (Print(value)
      + (after + ((if more.Member? then "," else "") + PrintMembers(more))))))))
  }

  // ---------------------------------------------------------------------------
  // Printed values are neutral for the scanner
  // ---------------------------------------------------------------------------

  function Pieces(c: JsonChar): seq<Piece> {
    match c
    case Unescaped(c) => [Raw(c)]
    case Short(c) => [Escaped(c)]
    case Unicode(hex) => [Escaped('u')] + seq(|hex|, i requires 0 <= i < |hex| => Raw(hex[i]))
  }

  function AllPieces(chars: seq<JsonChar>): seq<Piece> {
    if chars == [] then [] else Pieces(chars[0]) + AllPieces(chars[1..])
  }

  lemma {:induction false} BodyTextOfRaw(t: string)
    ensures BodyText(seq(|t|, i requires 0 <= i < |t| => Raw(t[i]))) == t
  {
    if t != "" {
      var body := seq(|t|, i requires 0 <= i < |t| => Raw(t[i]));
      var rest := seq(|t[1..]|, i requires 0 <= i < |t[1..]| => Raw(t[1..][i]));
      assert body[1..] == rest;
      BodyTextOfRaw(t[1..]);
    }
  }

  lemma {:induction false} BodyTextOfConcat(a: seq<Piece>, b: seq<Piece>)
    ensures BodyText(a + b) == BodyText(a) + BodyText(b)
  {
    if a == [] {
      assert a + b == b;
    } else {
      assert (a + b)[1..] == a[1..] + b;
      BodyTextOfConcat(a[1..], b);
    }
  }

  predicate IsHex(c: char) { c in "0123456789abcdefABCDEF" }

  lemma HexIsRaw(hex: string)
    requires forall i :: 0 <= i < |hex| ==> IsHex(hex[i])
    ensures BodyOk(seq(|hex|, i requires 0 <= i < |hex| => Raw(hex[i])))
  {
    forall i | 0 <= i < |hex| ensures hex[i] != '"' && hex[i] != '\\' {
      assert IsHex(hex[i]);
    }
  }

  lemma PiecesOfChar(c: JsonChar)
    requires c.Ok()
    ensures BodyOk(Pieces(c)) && BodyText(Pieces(c)) == c.Text()
  {
    match c
    case Unescaped(x) => BodyTextOfCons(Raw(x), []);
    case Short(x) => BodyTextOfCons(Escaped(x), []);
    case Unicode(hex) =>
      HexIsRaw(hex);
      BodyTextOfRaw(hex);
      BodyTextOfCons(Escaped('u'), seq(|hex|, i requires 0 <= i < |hex| => Raw(hex[i])));
  }

  lemma {:induction false} PiecesOfString(chars: seq<JsonChar>)
    requires StringOk(chars)
    ensures BodyOk(AllPieces(chars)) && BodyText(AllPieces(chars)) == CharsText(chars)
  {
    if chars != [] {
      PiecesOfChar(chars[0]);
      PiecesOfString(chars[1..]);
      BodyTextOfConcat(Pieces(chars[0]), AllPieces(chars[1..]));
    }
  }

  lemma NeutralString(chars: seq<JsonChar>)
    requires StringOk(chars)
    ensures Neutral(StringText(chars))
  {
    PiecesOfString(chars);
    NeutralQuoted(AllPieces(chars));
  }

  lemma {:induction false} NeutralValue(v: Value)
    requires ValueOk(v)
    ensures Neutral(Print(v))
  {
    match v
    case Scalar(text) => NeutralScalar(text);
    case Text(chars) => NeutralString(chars);
    case Array(pad, elements) =>
      NeutralElements(elements);
      NeutralBrackets(pad, PrintElements(elements));
    case Object(pad, members) =>
      NeutralBody(pad, members);
      NeutralBraces(pad + PrintMembers(members));
  }

  lemma NeutralScalar(text: string)
    requires IsScalar(text)
    ensures Neutral(text)
  {
    assert forall i :: 0 <= i < |text| ==> IsPlain(text[i]);
    NeutralPlain(text);
  }

  lemma NeutralBrackets(pad: string, t: string)
    requires IsWs(pad) && Neutral(t)
    ensures Neutral("[" + (pad + t) + "]")
  {
    NeutralPlain(pad);
    NeutralConcat(pad, t);
    NeutralPlain("[");
    NeutralPlain("]");
    NeutralConcat("[", pad + t);
    NeutralConcat("[" + (pad + t), "]");
  }

  lemma {:induction false} NeutralBody(pad: string, members: Members)
    requires IsWs(pad) && MembersOk(members)
    ensures Neutral(pad + PrintMembers(members))
    decreases members, 1
  {
    NeutralMembers(members);
    NeutralPlain(pad);
    NeutralConcat(pad, PrintMembers(members));
  }

  lemma {:induction false} NeutralElements(e: Elements)
    requires ElementsOk(e)
    ensures Neutral(PrintElements(e))
  {
    match e
    case NoElements =>
    case Element(before, value, after, more) =>
      var comma := if more.Element? then "," else "";
      NeutralElements(more);
      NeutralValue(value);
      NeutralPlain(before);
      NeutralPlain(after);
      NeutralPlain(comma);
      NeutralConcat(comma, PrintElements(more));
      NeutralConcat(after, comma + PrintElements(more));
      NeutralConcat(Print(value), after + (comma + PrintElements(more)));
      NeutralConcat(before, Print(value) + (after + (comma + PrintElements(more))));
  }

  lemma {:induction false} NeutralMembers(m: Members)
    requires MembersOk(m)
    ensures Neutral(PrintMembers(m))
    decreases m, 0
  {
    match m
    case NoMembers =>
    case Member(before, name, gap, lead, value, after, more) =>
      var comma := if more.Member? then "," else "";
      NeutralMembers(more);
      NeutralValue(value);
      NeutralPlain(after);
      NeutralPlain(comma);
      NeutralConcat(comma, PrintMembers(more));
      NeutralConcat(after, comma + PrintMembers(more));
      NeutralConcat(Print(value), after + (comma + PrintMembers(more)));
      NeutralMember(before, name, gap, lead, Print(value) + (after + (comma + PrintMembers(more))));
  }

  lemma NeutralMember(before: string, name: seq<JsonChar>, gap: string, lead: string, rest: string)
    requires IsWs(before) && StringOk(name) && IsWs(gap) && IsWs(lead) && Neutral(rest)
    ensures Neutral(before + (StringText(name) + (gap + (":" + (lead + rest)))))
  {
    NeutralString(name);
    NeutralPlain(before);
    NeutralPlain(gap);
    NeutralPlain(":");
    NeutralPlain(lead);
    NeutralConcat(lead, rest);
    NeutralConcat(":", lead + rest);
    NeutralConcat(gap, ":" + (lead + rest));
    NeutralConcat(StringText(name), gap + (":" + (lead + rest)));
    NeutralConcat(before, StringText(name) + (gap + (":" + (lead + rest))));
  }

  /** Round trip: any JSON object, formatted in any way, is recovered from any prose around it that
      has no opening brace in front. */
  lemma ExtractInvertsPrint(prefix: string, o: Value, suffix: string)
    requires o.Object? && ValueOk(o) && Lacks(prefix, '{')
    ensures Extract(prefix + Print(o) + suffix) == Print(o)
  {
    NeutralBody(o.pad, o.members);
    ExtractNeutral(prefix, o.pad + PrintMembers(o.members), suffix);
  }
}
