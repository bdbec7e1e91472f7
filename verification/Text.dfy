/** The string operations the services share.  Strings are sequences of characters; case
    mapping is ASCII. */
module Text {

  /** The white space that trimming removes. */
  predicate IsSpace(c: char) {
    || c in " \t\n\r\U{000B}\U{000C}\U{0085}\U{00A0}\U{1680}\U{2028}\U{2029}\U{202F}\U{205F}\U{3000}"
    || '\U{2000}' <= c <= '\U{200A}'
  }

  predicate Lacks(s: string, c: char) { forall i :: 0 <= i < |s| ==> s[i] != c }

  /** The number of leading characters that satisfy `p`. */
  function LeadLen(s: string, p: char -> bool): (n: nat)
    ensures n <= |s|
    ensures forall i :: 0 <= i < n ==> p(s[i])
    ensures n < |s| ==> !p(s[n])
  {
    if s == [] || !p(s[0]) then 0
    else
      var n := LeadLen(s[1..], p);
      assert forall i :: 0 < i < |s| ==> s[i] == s[1..][i - 1];
      n + 1
  }

  /** The length that remains when trailing characters that satisfy `p` are dropped. */
  function KeepLen(s: string, p: char -> bool): (n: nat)
    ensures n <= |s|
    ensures forall i :: n <= i < |s| ==> p(s[i])
    ensures n > 0 ==> !p(s[n - 1])
  {
    if s == [] || !p(s[|s| - 1]) then |s| else KeepLen(s[..|s| - 1], p)
  }

  function TrimLeft(s: string, p: char -> bool): string { s[LeadLen(s, p)..] }

  function TrimRight(s: string, p: char -> bool): string { s[..KeepLen(s, p)] }

  function Trim(s: string, p: char -> bool): string { TrimRight(TrimLeft(s, p), p) }

  function TrimSpace(s: string): string { Trim(s, IsSpace) }

  /** Nothing to trim at either end. */
  predicate Trimmed(s: string) {
    s != "" ==> !IsSpace(s[0]) && !IsSpace(s[|s| - 1])
  }

  lemma TrimSpaceIsTrimmed(s: string)
    ensures Trimmed(TrimSpace(s))
  {
    hide LeadLen, KeepLen, IsSpace;
    var t := TrimLeft(s, IsSpace);
    var n := KeepLen(t, IsSpace);
    if n > 0 {
      assert t[..n][0] == t[0] == s[LeadLen(s, IsSpace)];
    }
  }

  lemma TrimmedStays(s: string)
    requires Trimmed(s)
    ensures TrimSpace(s) == s
  {
    if s != "" {
      assert LeadLen(s, IsSpace) == 0;
      assert TrimLeft(s, IsSpace) == s;
      assert KeepLen(s, IsSpace) == |s|;
    }
  }

  predicate AllSpace(s: string) { forall i :: 0 <= i < |s| ==> IsSpace(s[i]) }

  lemma TrimLeftIs(a: string, t: string, p: char -> bool)
    requires (forall i :: 0 <= i < |a| ==> p(a[i])) && t != "" && !p(t[0])
    ensures TrimLeft(a + t, p) == t
  {
    hide LeadLen;
    var n := LeadLen(a + t, p);
    assert (a + t)[|a|] == t[0];
    assert n == |a|;
  }

  lemma TrimRightIs(t: string, b: string, p: char -> bool)
    requires (forall i :: 0 <= i < |b| ==> p(b[i])) && t != "" && !p(t[|t| - 1])
    ensures TrimRight(t + b, p) == t
  {
    hide KeepLen;
    var n := KeepLen(t + b, p);
    assert (t + b)[|t| - 1] == t[|t| - 1];
    assert n == |t|;
  }

  /** White space around a trimmed text is what trimming removes. */
  lemma TrimIs(a: string, t: string, b: string)
    requires AllSpace(a) && AllSpace(b) && Trimmed(t)
    ensures TrimSpace(a + t + b) == t
  {
    hide IsSpace, LeadLen, KeepLen;
    if t == "" {
      assert LeadLen(a + t + b, IsSpace) == |a + b|;
    } else {
      assert a + t + b == a + (t + b);
      TrimLeftIs(a, t + b, IsSpace);
      TrimRightIs(t, b, IsSpace);
    }
  }

  /** A text is white space, its trimmed form, and white space. */
  lemma TrimParts(s: string) returns (a: string, t: string, b: string)
    ensures s == a + t + b && AllSpace(a) && AllSpace(b) && Trimmed(t) && t == TrimSpace(s)
  {
    hide IsSpace, LeadLen, KeepLen;
    var n := LeadLen(s, IsSpace);
    var rest := s[n..];
    var m := KeepLen(rest, IsSpace);
    a, t, b := s[..n], rest[..m], rest[m..];
    TrimSpaceIsTrimmed(s);
  }

  lemma TrimSpaceIsMiddle(before: string, s: string, after: string)
    requires AllSpace(before) && AllSpace(after)
    ensures TrimSpace(before + s + after) == TrimSpace(s)
  {
    hide IsSpace, TrimSpace;
    var a, t, b := TrimParts(s);
    assert before + s + after == (before + a) + t + (b + after);
    TrimIs(before + a, t, b + after);
    TrimIs(a, t, b);
  }

  function LowerChar(c: char): char {
    if 'A' <= c <= 'Z' then c - 'A' + 'a' else c
  }

  function ToLower(s: string): (r: string)
    ensures |r| == |s|
  { seq(|s|, i requires 0 <= i < |s| => LowerChar(s[i])) }

  lemma LowerStays(s: string)
    requires forall i :: 0 <= i < |s| ==> !('A' <= s[i] <= 'Z')
    ensures ToLower(s) == s
  {
  }

  predicate IsWordChar(c: char) { 'a' <= c <= 'z' || c == '_' }

  lemma WordCharIsNoSpace(c: char)
    ensures IsWordChar(c) ==> !IsSpace(c)
  {
  }

  /** A lower-case word needs no trimming and no case mapping. */
  lemma WordStays(w: string)
    requires w != "" && forall i :: 0 <= i < |w| ==> IsWordChar(w[i])
    ensures Trimmed(w) && TrimSpace(w) == w && ToLower(w) == w
  {
    hide IsSpace, TrimSpace, ToLower;
    WordCharIsNoSpace(w[0]);
    WordCharIsNoSpace(w[|w| - 1]);
    TrimmedStays(w);
    LowerStays(w);
  }

  /** Trimming and mapping to lower case has nothing more to do the second time. */
  lemma LowerTrimTwice(s: string)
    ensures var t := ToLower(TrimSpace(s));
            ToLower(TrimSpace(t)) == t
  {
    hide IsSpace, TrimSpace;
    var u := TrimSpace(s);
    var t := ToLower(u);
    TrimSpaceIsTrimmed(s);
    if t != "" {
      LowerKeepsSpace(u[0]);
      LowerKeepsSpace(u[|u| - 1]);
    }
    TrimmedStays(t);
    LowerStays(t);
  }

  lemma LowerKeepsSpace(c: char)
    ensures IsSpace(LowerChar(c)) <==> IsSpace(c)
  {
  }

  /** `sub` occurs in `s` at position `i`. */
  predicate OccursAt(s: string, sub: string, i: int) {
    0 <= i <= |s| - |sub| && s[i..i + |sub|] == sub
  }

  predicate Contains(s: string, sub: string) {
    exists i :: 0 <= i <= |s| && OccursAt(s, sub, i)
  }
}
