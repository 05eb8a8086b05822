/**
 * The string primitives the server and the client rely on, written as
 * character predicates: JavaScript's notion of white space (what `\s`
 * matches and `String.prototype.trim` removes), `trim` itself, the
 * case-insensitive name search, the e-mail and phone patterns, and the
 * code-unit order `Array.prototype.sort` uses on strings.
 */
module Text {

  /** ECMAScript WhiteSpace and LineTerminator code points. */
  predicate IsSpace(c: char) {
    || c == '\t' || c == '\n' || c == '\U{000B}' || c == '\U{000C}' || c == '\r'
    || c == ' ' || c == '\U{00A0}' || c == '\U{1680}'
    || ('\U{2000}' <= c <= '\U{200A}')
    || c == '\U{2028}' || c == '\U{2029}' || c == '\U{202F}' || c == '\U{205F}'
    || c == '\U{3000}' || c == '\U{FEFF}'
  }

  /** Every character of `s` is white space (the empty string included). */
  predicate Blank(s: string) {
    forall i :: 0 <= i < |s| ==> IsSpace(s[i])
  }

  // ---------------------------------------------------------------- trim

  function TrimStart(s: string): (r: string)
    ensures r != [] ==> !IsSpace(r[0])
    ensures r == [] <==> Blank(s)
  {
    if s != [] && IsSpace(s[0]) then TrimStart(s[1..]) else s
  }

  function TrimEnd(s: string): (r: string)
    ensures r == [] ==> Blank(s)
  {
    if s != [] && IsSpace(s[|s| - 1]) then TrimEnd(s[..|s| - 1]) else s
  }

  /** Trimming the start leaves a suffix of the string. */
  lemma {:induction false} TrimStartIsSuffix(s: string)
    ensures |TrimStart(s)| <= |s| && TrimStart(s) == s[|s| - |TrimStart(s)|..]
  {
    if s != [] && IsSpace(s[0]) {
      TrimStartIsSuffix(s[1..]);
      assert s[1..][|s| - 1 - |TrimStart(s)|..] == s[|s| - |TrimStart(s)|..];
    }
  }

  /** Trimming the end leaves a prefix of the string. */
  lemma {:induction false} TrimEndIsPrefix(s: string)
    ensures |TrimEnd(s)| <= |s| && TrimEnd(s) == s[..|TrimEnd(s)|]
  {
    if s != [] && IsSpace(s[|s| - 1]) {
      TrimEndIsPrefix(s[..|s| - 1]);
    }
  }

  /** `s.trim()`: white space removed from both ends. */
  function Trim(s: string): string {
    TrimEnd(TrimStart(s))
  }

  /** `!s.trim()` holds exactly of the strings made only of white space. */
  lemma TrimEmptyIffBlank(s: string)
    ensures Trim(s) == [] <==> Blank(s)
  {
    var t := TrimStart(s);
    if t != [] {
      assert !IsSpace(t[0]);
      assert !Blank(t);
    }
  }

  // ------------------------------------------------- case-insensitive search

  /** ASCII case folding of one character. */
  function Lower(c: char): char {
    if 'A' <= c <= 'Z' then (c as int + 32) as char else c
  }

  function Fold(s: string): (r: string)
    ensures |r| == |s| && forall i :: 0 <= i < |s| ==> r[i] == Lower(s[i])
  {
    seq(|s|, i requires 0 <= i < |s| => Lower(s[i]))
  }

  /** `needle` occurs in `hay` at position `i`, ignoring case. */
  predicate OccursAt(hay: string, needle: string, i: nat) {
    i + |needle| <= |hay| && Fold(hay[i..i + |needle|]) == Fold(needle)
  }

  function ContainsFrom(hay: string, needle: string, i: nat): (b: bool)
    ensures b <==> exists j: nat :: i <= j && OccursAt(hay, needle, j)
    decreases |hay| - i
  {
    if i + |needle| > |hay| then false
    else OccursAt(hay, needle, i) || ContainsFrom(hay, needle, i + 1)
  }

  /** `new RegExp(needle, 'i').test(hay)` for a needle without metacharacters. */
  function ContainsIgnoreCase(hay: string, needle: string): (b: bool)
    ensures b <==> exists j: nat :: OccursAt(hay, needle, j)
  {
    ContainsFrom(hay, needle, 0)
  }

  /** Folding commutes with taking a slice. */
  lemma FoldSlice(s: string, i: nat, j: nat)
    requires i <= j <= |s|
    ensures Fold(s[i..j]) == Fold(s)[i..j]
  {
  }

  /** Folding twice is folding once. */
  lemma FoldIdempotent(s: string)
    ensures Fold(Fold(s)) == Fold(s)
  {
  }

  /** Changing the case of a name or of the search text never changes the outcome. */
  lemma SearchIgnoresCase(hay: string, needle: string)
    ensures ContainsIgnoreCase(hay, needle) == ContainsIgnoreCase(Fold(hay), Fold(needle))
  {
    FoldIdempotent(needle);
    forall j: nat
      ensures OccursAt(hay, needle, j) <==> OccursAt(Fold(hay), Fold(needle), j)
    {
      if j + |needle| <= |hay| {
        FoldSlice(hay, j, j + |needle|);
        FoldSlice(Fold(hay), j, j + |needle|);
        FoldIdempotent(hay[j..j + |needle|]);
      }
    }
  }

  // ------------------------------------------------------- e-mail and phone

  /** A character of the class `[^\s@]`. */
  predicate EmailChar(c: char) {
    c != '@' && !IsSpace(c)
  }

  /**
   * `/^[^\s@]+@[^\s@]+\.[^\s@]+$/.test(s)`: s is local@domain.tld, each of the
   * three parts non-empty and free of white space and '@'. Position `a` is the
   * '@' and position `k` the '.' the pattern's `\.` matches.
   */
  predicate EmailMatches(s: string) {
    exists a, k :: 0 < a && a + 1 < k < |s| - 1 && s[a] == '@' && s[k] == '.'
      && forall i :: 0 <= i < |s| && i != a ==> EmailChar(s[i])
  }

  /** A character of the class `[\d\s\+\-\(\)]`. */
  predicate PhoneChar(c: char) {
    ('0' <= c <= '9') || IsSpace(c) || c == '+' || c == '-' || c == '(' || c == ')'
  }

  /** `/^[\d\s\+\-\(\)]{7,15}$/.test(s)`. */
  predicate PhoneMatches(s: string) {
    7 <= |s| <= 15 && forall i :: 0 <= i < |s| ==> PhoneChar(s[i])
  }

  /** An address the pattern accepts has exactly one '@', no white space and is never blank. */
  lemma EmailShape(s: string)
    requires EmailMatches(s)
    ensures |s| >= 5 && !Blank(s)
    ensures forall i, j :: 0 <= i < j < |s| && s[i] == '@' ==> s[j] != '@'
  {
    var a, k :| 0 < a && a + 1 < k < |s| - 1 && s[a] == '@' && s[k] == '.'
      && forall i :: 0 <= i < |s| && i != a ==> EmailChar(s[i]);
    assert EmailChar(s[0]);
  }

  // ------------------------------------------------------ code-unit order

  /** `a <= b` in the order JavaScript's default `sort` puts strings in. */
  predicate LexLe(a: string, b: string) {
    a == [] || (b != [] && (a[0] < b[0] || (a[0] == b[0] && LexLe(a[1..], b[1..]))))
  }

  lemma {:induction false} LexLeTotal(a: string, b: string)
    ensures LexLe(a, b) || LexLe(b, a)
  {
    if a != [] && b != [] && a[0] == b[0] {
      LexLeTotal(a[1..], b[1..]);
    }
  }

  lemma {:induction false} LexLeAntisymmetric(a: string, b: string)
    requires LexLe(a, b) && LexLe(b, a)
    ensures a == b
  {
    if a != [] && b != [] {
      LexLeAntisymmetric(a[1..], b[1..]);
      assert a == [a[0]] + a[1..] && b == [b[0]] + b[1..];
    }
  }

  lemma {:induction false} LexLeTransitive(a: string, b: string, c: string)
    requires LexLe(a, b) && LexLe(b, c)
    ensures LexLe(a, c)
  {
    if a != [] && b != [] && c != [] && a[0] == b[0] && b[0] == c[0] {
      LexLeTransitive(a[1..], b[1..], c[1..]);
    }
  }
}
