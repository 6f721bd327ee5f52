/**
 * The JavaScript string operations the chat responder relies on:
 * String.prototype.toLowerCase (ASCII letters), String.prototype.trim,
 * String.prototype.includes and the RegExp word-boundary assertion \b.
 */
module Text {

  /** ECMAScript WhiteSpace and LineTerminator code points, which trim removes. */
  predicate IsWhitespace(c: char) {
    || c == '\t' || c == '\n' || c == '\U{000B}' || c == '\U{000C}' || c == '\r' || c == ' '
    || c == '\U{00A0}' || c == '\U{1680}' || ('\U{2000}' <= c <= '\U{200A}')
    || c == '\U{2028}' || c == '\U{2029}' || c == '\U{202F}' || c == '\U{205F}'
    || c == '\U{3000}' || c == '\U{FEFF}'
  }

  predicate IsBlank(s: string) {
    forall i :: 0 <= i < |s| ==> IsWhitespace(s[i])
  }

  predicate IsUpper(c: char) {
    'A' <= c <= 'Z'
  }

  /** The RegExp class \w of a non-Unicode pattern. */
  predicate IsWordChar(c: char) {
    'a' <= c <= 'z' || 'A' <= c <= 'Z' || '0' <= c <= '9' || c == '_'
  }

  /** toLowerCase on one character: ASCII capitals map to small letters, nothing else moves. */
  function LowerChar(c: char): (d: char)
    ensures !IsUpper(d)
    ensures !IsUpper(c) ==> d == c
    ensures IsUpper(c) ==> 'a' <= d <= 'z' && d as int - 'a' as int == c as int - 'A' as int
    ensures IsWhitespace(d) <==> IsWhitespace(c)
    ensures IsWordChar(d) <==> IsWordChar(c)
  {
    if IsUpper(c) then (c as int + 32) as char else c
  }

  function Lower(s: string): (r: string)
    ensures |r| == |s|
    ensures forall i :: 0 <= i < |s| ==> r[i] == LowerChar(s[i])
  {
    seq(|s|, i requires 0 <= i < |s| => LowerChar(s[i]))
  }

  /** Drops the leading whitespace, and only that. */
  function TrimStart(s: string): (r: string)
    ensures |r| <= |s|
    ensures forall i :: 0 <= i < |r| ==> r[i] == s[|s| - |r| + i]
    ensures forall i :: 0 <= i < |s| - |r| ==> IsWhitespace(s[i])
    ensures r != [] ==> !IsWhitespace(r[0])
  {
    if s != [] && IsWhitespace(s[0]) then TrimStart(s[1..]) else s
  }

  /** Drops the trailing whitespace, and only that. */
  function TrimEnd(s: string): (r: string)
    ensures |r| <= |s|
    ensures forall i :: 0 <= i < |r| ==> r[i] == s[i]
    ensures forall i :: |r| <= i < |s| ==> IsWhitespace(s[i])
    ensures r != [] ==> !IsWhitespace(r[|r| - 1])
  {
    if s != [] && IsWhitespace(s[|s| - 1]) then TrimEnd(s[..|s| - 1]) else s
  }

  /** r is the slice of s starting at a, and everything of s around it is whitespace. */
  ghost predicate Padded(s: string, a: int, r: string) {
    && 0 <= a && a + |r| <= |s|
    && (forall i :: 0 <= i < |r| ==> r[i] == s[a + i])
    && (forall i :: 0 <= i < a ==> IsWhitespace(s[i]))
    && (forall i :: a + |r| <= i < |s| ==> IsWhitespace(s[i]))
  }

  /** String.prototype.trim: TrimOffset says which slice of s it is. */
  function Trim(s: string): (r: string)
    ensures r != [] ==> !IsWhitespace(r[0]) && !IsWhitespace(r[|r| - 1])
  {
    TrimEnd(TrimStart(s))
  }

  /** The trim of s is the slice of s at the returned offset, with only whitespace around it. */
  lemma TrimOffset(s: string) returns (a: int)
    ensures Padded(s, a, Trim(s))
  {
    var t := TrimStart(s);
    var r := TrimEnd(t);
    a := |s| - |t|;
    forall i | 0 <= i < |r| ensures r[i] == s[a + i] {
      assert r[i] == t[i];
    }
    forall i | a + |r| <= i < |s| ensures IsWhitespace(s[i]) {
      assert s[i] == t[i - a];
    }
  }

  /** m[i..] begins with t. */
  predicate OccursAt(m: string, t: string, i: int) {
    0 <= i && i + |t| <= |m| && m[i..i + |t|] == t
  }

  /** String.prototype.includes, searching from position `from` on. */
  function IncludesFrom(m: string, t: string, from: nat): (b: bool)
    requires from <= |m|
    ensures b <==> exists i :: from <= i <= |m| && OccursAt(m, t, i)
    decreases |m| - from
  {
    if OccursAt(m, t, from) then true
    else if from == |m| then false
    else IncludesFrom(m, t, from + 1)
  }

  /** String.prototype.includes */
  function Includes(m: string, t: string): (b: bool)
    ensures b <==> exists i :: 0 <= i <= |m| && OccursAt(m, t, i)
  {
    IncludesFrom(m, t, 0)
  }

  /** The assertion \b at position p: a word character on exactly one side. */
  predicate IsBoundary(m: string, p: int) {
    0 <= p <= |m| && ((p > 0 && IsWordChar(m[p - 1])) != (p < |m| && IsWordChar(m[p])))
  }

  /** The pattern /\b stem (suffix)? \b/ matches with its match starting at i. */
  predicate WordOccursAt(m: string, stem: string, suffix: string, i: int) {
    && IsBoundary(m, i)
    && OccursAt(m, stem, i)
    && (|| IsBoundary(m, i + |stem|)
        || (OccursAt(m, suffix, i + |stem|) && IsBoundary(m, i + |stem| + |suffix|)))
  }

  /** RegExp.prototype.test for /\b stem (suffix)? \b/, trying start positions from `from` on. */
  function TestWordFrom(m: string, stem: string, suffix: string, from: nat): (b: bool)
    requires from <= |m|
    ensures b <==> exists i :: from <= i <= |m| && WordOccursAt(m, stem, suffix, i)
    decreases |m| - from
  {
    if WordOccursAt(m, stem, suffix, from) then true
    else if from == |m| then false
    else TestWordFrom(m, stem, suffix, from + 1)
  }

  /** RegExp.prototype.test for /\b stem (suffix)? \b/ */
  function TestWord(m: string, stem: string, suffix: string): (b: bool)
    ensures b <==> exists i :: 0 <= i <= |m| && WordOccursAt(m, stem, suffix, i)
  {
    TestWordFrom(m, stem, suffix, 0)
  }

  // ---- Properties of toLowerCase and trim ----

  lemma LowerIdempotent(s: string)
    ensures Lower(Lower(s)) == Lower(s)
  {
  }

  lemma LowerConcat(a: string, b: string)
    ensures Lower(a + b) == Lower(a) + Lower(b)
  {
  }

  lemma LowerOfBlank(s: string)
    requires IsBlank(s)
    ensures Lower(s) == s && IsBlank(Lower(s))
  {
  }

  /** A string without whitespace at either end is its own trim. */
  lemma TrimOfUnpadded(s: string)
    requires s == [] || (!IsWhitespace(s[0]) && !IsWhitespace(s[|s| - 1]))
    ensures Trim(s) == s
  {
  }

  lemma TrimIdempotent(s: string)
    ensures Trim(Trim(s)) == Trim(s)
  {
    TrimOfUnpadded(Trim(s));
  }

  /** trim yields the empty string exactly for blank input. */
  lemma TrimEmptyIffBlank(s: string)
    ensures Trim(s) == [] <==> IsBlank(s)
  {
    var a := TrimOffset(s);
    if Trim(s) != [] {
      assert s[a] == Trim(s)[0];
    }
  }

  /** The padded slice of s with non-blank ends is unique: it is Trim(s). */
  lemma {:induction false} TrimUnique(s: string, a: int, r: string)
    requires Padded(s, a, r)
    requires r == [] || (!IsWhitespace(r[0]) && !IsWhitespace(r[|r| - 1]))
    ensures r == Trim(s)
  {
    var t := Trim(s);
    var b := TrimOffset(s);
    if r == [] {
      assert IsBlank(s);
      TrimEmptyIffBlank(s);
    } else if t == [] {
      TrimEmptyIffBlank(s);
    } else {
      assert s[a] == r[0] && s[b] == t[0];
      assert a == b;
      assert s[a + |r| - 1] == r[|r| - 1] && s[b + |t| - 1] == t[|t| - 1];
      assert |r| == |t|;
      forall i | 0 <= i < |r| ensures r[i] == t[i] {
        assert r[i] == s[a + i] && t[i] == s[b + i];
      }
    }
  }

  /** Blank text before s extends the whitespace that leads s. */
  lemma BlankLeadKept(p: string, s: string, q: string, a: int)
    requires IsBlank(p) && 0 <= a <= |s|
    requires forall i :: 0 <= i < a ==> IsWhitespace(s[i])
    ensures forall i :: 0 <= i < |p| + a ==> IsWhitespace((p + s + q)[i])
  {
    forall i | 0 <= i < |p| + a ensures IsWhitespace((p + s + q)[i]) {
      if i >= |p| { assert (p + s + q)[i] == s[i - |p|]; }
    }
  }

  /** Blank text after s extends the whitespace that ends s. */
  lemma BlankTrailKept(p: string, s: string, q: string, b: int)
    requires IsBlank(q) && 0 <= b <= |s|
    requires forall i :: b <= i < |s| ==> IsWhitespace(s[i])
    ensures forall i :: |p| + b <= i < |p + s + q| ==> IsWhitespace((p + s + q)[i])
  {
    forall i | |p| + b <= i < |p + s + q| ensures IsWhitespace((p + s + q)[i]) {
      if i < |p| + |s| { assert (p + s + q)[i] == s[i - |p|]; }
    }
  }

  /** Blank text on both sides keeps a padded slice padded. */
  lemma PaddedInContext(p: string, s: string, q: string, a: int, t: string)
    requires IsBlank(p) && IsBlank(q) && Padded(s, a, t)
    ensures Padded(p + s + q, |p| + a, t)
  {
    forall i | 0 <= i < |t| ensures t[i] == (p + s + q)[|p| + a + i] {
      assert t[i] == s[a + i];
    }
    BlankLeadKept(p, s, q, a);
    BlankTrailKept(p, s, q, a + |t|);
  }

  /** Surrounding whitespace does not change the trim. */
  lemma TrimPadding(p: string, s: string, q: string)
    requires IsBlank(p) && IsBlank(q)
    ensures Trim(p + s + q) == Trim(s)
  {
    var a := TrimOffset(s);
    PaddedInContext(p, s, q, a, Trim(s));
    TrimUnique(p + s + q, |p| + a, Trim(s));
  }

  lemma {:induction false} TrimStartLower(s: string)
    ensures TrimStart(Lower(s)) == Lower(TrimStart(s))
    decreases |s|
  {
    if s != [] {
      assert Lower(s)[1..] == Lower(s[1..]);
      if IsWhitespace(s[0]) {
        TrimStartLower(s[1..]);
      }
    }
  }

  lemma {:induction false} TrimEndLower(s: string)
    ensures TrimEnd(Lower(s)) == Lower(TrimEnd(s))
    decreases |s|
  {
    if s != [] {
      assert Lower(s)[..|s| - 1] == Lower(s[..|s| - 1]);
      if IsWhitespace(s[|s| - 1]) {
        TrimEndLower(s[..|s| - 1]);
      }
    }
  }

  /** Lowercasing and trimming commute: no capital letter is whitespace. */
  lemma LowerTrimCommute(s: string)
    ensures Lower(Trim(s)) == Trim(Lower(s))
  {
    TrimStartLower(s);
    TrimEndLower(TrimStart(s));
  }
}
