/**
 * The few JavaScript string operations the site's logic relies on, written out
 * so that their behaviour is explicit: `trim`, `toLowerCase` (ASCII letters
 * only), `includes`, `startsWith`, `replace` of the first occurrence, `padStart`
 * and the relational comparison `<` on strings.
 */
module Strings {

  /** The characters ECMAScript's `String.prototype.trim` removes: WhiteSpace
      (TAB, VT, FF, SP, NBSP, ZWNBSP and the Zs category) and LineTerminator
      (LF, CR, LS, PS). */
  predicate IsJsWhitespace(c: char) {
    c == '\t' || c == '\n' || c == '\U{B}' || c == '\U{C}' || c == '\r' ||
    c == ' ' || c == '\U{A0}' || c == '\U{1680}' ||
    ('\U{2000}' <= c <= '\U{200A}') ||
    c == '\U{2028}' || c == '\U{2029}' || c == '\U{202F}' || c == '\U{205F}' ||
    c == '\U{3000}' || c == '\U{FEFF}'
  }

  predicate AllWhitespace(s: string) {
    forall i :: 0 <= i < |s| ==> IsJsWhitespace(s[i])
  }

  /** `trimStart`: leading whitespace cut (`TrimStartSpec`). */
  function TrimStart(s: string): (r: string)
    ensures |r| <= |s|
  {
    if |s| > 0 && IsJsWhitespace(s[0]) then TrimStart(s[1..]) else s
  }

  /** The start-trim is a suffix of `s`, preceded only by whitespace, and does
      not itself start with whitespace. */
  lemma {:induction false} TrimStartSpec(s: string)
    ensures var r := TrimStart(s);
            && r == s[|s| - |r|..]
            && (r == [] || !IsJsWhitespace(r[0]))
            && AllWhitespace(s[..|s| - |r|])
            && (r == [] <==> AllWhitespace(s))
  {
    if |s| > 0 && IsJsWhitespace(s[0]) {
      TrimStartSpec(s[1..]);
      var r := TrimStart(s[1..]);
      assert s[..|s| - |r|] == [s[0]] + s[1..][..|s| - 1 - |r|];
    }
  }

  /** `trimEnd`: trailing whitespace cut (`TrimEndSpec`). */
  function TrimEnd(s: string): (r: string)
    ensures |r| <= |s|
  {
    if |s| > 0 && IsJsWhitespace(s[|s| - 1]) then TrimEnd(s[..|s| - 1]) else s
  }

  /** The end-trim is a prefix of `s`, followed only by whitespace, and does not
      itself end with whitespace. */
  lemma {:induction false} TrimEndSpec(s: string)
    ensures var r := TrimEnd(s);
            && r == s[..|r|]
            && (r == [] || !IsJsWhitespace(r[|r| - 1]))
            && AllWhitespace(s[|r|..])
            && (r == [] <==> AllWhitespace(s))
  {
    if |s| > 0 && IsJsWhitespace(s[|s| - 1]) {
      TrimEndSpec(s[..|s| - 1]);
      var r := TrimEnd(s[..|s| - 1]);
      assert s[|r|..] == s[..|s| - 1][|r|..] + [s[|s| - 1]];
    }
  }

  /** `s.trim()`: the slice of `s` left once leading and trailing whitespace is
      cut (`TrimEnds`, `TrimOccursIn`). */
  function Trim(s: string): (r: string)
    ensures |r| <= |s|
    ensures r == [] <==> AllWhitespace(s)
  {
    var t := TrimStart(s);
    TrimStartSpec(s);
    TrimEndSpec(t);
    assert t != [] ==> !IsJsWhitespace(t[0]) && TrimEnd(t) != [];
    TrimEnd(t)
  }

  /** Neither end of a non-empty trim is whitespace. */
  lemma TrimEnds(s: string)
    ensures Trim(s) == [] || (!IsJsWhitespace(Trim(s)[0]) && !IsJsWhitespace(Trim(s)[|Trim(s)| - 1]))
  {
    var t := TrimStart(s);
    var r := TrimEnd(t);
    TrimStartSpec(s);
    TrimEndSpec(t);
    assert Trim(s) == r;
    if r != [] {
      assert r[0] == t[0];
    }
  }

  /** The trim is a slice of the input. */
  lemma TrimOccursIn(s: string)
    ensures exists i :: OccursAt(s, Trim(s), i)
  {
    var t := TrimStart(s);
    TrimStartSpec(s);
    TrimEndSpec(t);
    PrefixOfSuffixOccurs(s, t, TrimEnd(t));
    assert Trim(s) == TrimEnd(t);
    assert OccursAt(s, Trim(s), |s| - |t|);
  }

  /** A prefix of a suffix of `s` occurs in `s` where the suffix starts. */
  lemma PrefixOfSuffixOccurs(s: string, t: string, r: string)
    requires |t| <= |s| && t == s[|s| - |t|..]
    requires |r| <= |t| && r == t[..|r|]
    ensures OccursAt(s, r, |s| - |t|)
  {
    var k := |s| - |t|;
    assert s[k..][..|r|] == s[k..k + |r|];
  }

  /** A string already free of surrounding whitespace is its own trim. */
  lemma TrimIdempotent(s: string)
    ensures Trim(Trim(s)) == Trim(s)
  {
    var r := Trim(s);
    TrimEnds(s);
    if r != [] {
      assert TrimStart(r) == r;
      assert TrimEnd(r) == r;
    }
  }

  /** `toLowerCase` restricted to ASCII: `A`..`Z` become `a`..`z`, all else is kept. */
  function LowerChar(c: char): (r: char)
    ensures ('A' <= c <= 'Z') ==> r as int == c as int + 32
    ensures !('A' <= c <= 'Z') ==> r == c
  {
    if 'A' <= c <= 'Z' then (c as int + 32) as char else c
  }

  function ToLower(s: string): (r: string)
    ensures |r| == |s|
    ensures forall i :: 0 <= i < |s| ==> r[i] == LowerChar(s[i])
  {
    seq(|s|, i requires 0 <= i < |s| => LowerChar(s[i]))
  }

  /** `s.startsWith(p)`. */
  predicate StartsWith(s: string, p: string) {
    |p| <= |s| && s[..|p|] == p
  }

  /** `s.includes(sub)`, scanning left to right. */
  predicate Includes(s: string, sub: string)
    decreases |s|
  {
    StartsWith(s, sub) || (|s| > 0 && Includes(s[1..], sub))
  }

  /** `sub` occurs in `s` at index `i`. */
  predicate OccursAt(s: string, sub: string, i: int) {
    0 <= i && i + |sub| <= |s| && s[i..i + |sub|] == sub
  }

  /** The scan finds `sub` exactly when it occurs at some index. */
  lemma {:induction false} IncludesIff(s: string, sub: string)
    ensures Includes(s, sub) <==> exists i :: OccursAt(s, sub, i)
    decreases |s|
  {
    if StartsWith(s, sub) {
      assert OccursAt(s, sub, 0);
    } else if |s| > 0 {
      IncludesIff(s[1..], sub);
      if Includes(s[1..], sub) {
        var i :| OccursAt(s[1..], sub, i);
        assert s[1..][i..i + |sub|] == s[i + 1..i + 1 + |sub|];
        assert OccursAt(s, sub, i + 1);
      }
      if exists i :: OccursAt(s, sub, i) {
        var i :| OccursAt(s, sub, i);
        assert i != 0;
        assert s[1..][i - 1..i - 1 + |sub|] == s[i..i + |sub|];
        assert OccursAt(s[1..], sub, i - 1);
      }
    }
  }

  /** A string that contains `a` contains everything `a` contains. */
  lemma IncludesTransitive(s: string, a: string, b: string)
    requires Includes(s, a) && Includes(a, b)
    ensures Includes(s, b)
  {
    IncludesIff(s, a);
    IncludesIff(a, b);
    IncludesIff(s, b);
    var i :| OccursAt(s, a, i);
    var j :| OccursAt(a, b, j);
    forall k | 0 <= k < |b| ensures s[i + j + k] == b[k] {
      assert b[k] == a[j + k] == s[i..i + |a|][j + k];
    }
    assert s[i + j..i + j + |b|] == b;
    assert OccursAt(s, b, i + j);
  }

  /** The empty string is included in every string, as in JavaScript. */
  lemma IncludesEmpty(s: string)
    ensures Includes(s, [])
  {
    assert StartsWith(s, []);
  }

  /** `s.replace(pat, "")` for a string pattern: the first occurrence is removed. */
  function RemoveFirst(s: string, pat: string): (r: string)
    requires |pat| > 0
    decreases |s|
  {
    if StartsWith(s, pat) then s[|pat|..]
    else if |s| == 0 then s
    else [s[0]] + RemoveFirst(s[1..], pat)
  }

  /** Removing the first occurrence of a string that is a prefix strips that prefix. */
  lemma RemoveFirstPrefix(s: string, pat: string)
    requires |pat| > 0 && StartsWith(s, pat)
    ensures RemoveFirst(s, pat) == s[|pat|..] && |RemoveFirst(s, pat)| == |s| - |pat|
  {
  }

  /** A string without the pattern is left as it is. */
  lemma {:induction false} RemoveFirstAbsent(s: string, pat: string)
    requires |pat| > 0 && !Includes(s, pat)
    ensures RemoveFirst(s, pat) == s
    decreases |s|
  {
    if |s| > 0 {
      RemoveFirstAbsent(s[1..], pat);
      assert [s[0]] + s[1..] == s;
    }
  }

  /** `s.padStart(n, c)` with a one-character pad. */
  function PadStart(s: string, n: nat, c: char): (r: string)
    ensures |r| == if |s| >= n then |s| else n
    ensures r[|r| - |s|..] == s
    ensures forall i :: 0 <= i < |r| - |s| ==> r[i] == c
  {
    if |s| >= n then s else seq(n - |s|, _ => c) + s
  }

  /** JavaScript's `a < b` on strings: lexicographic order on characters. */
  predicate LexLess(a: string, b: string)
    decreases |a|
  {
    if |a| == 0 then |b| > 0
    else if |b| == 0 then false
    else if a[0] != b[0] then a[0] < b[0]
    else LexLess(a[1..], b[1..])
  }

  predicate LexLe(a: string, b: string) {
    a == b || LexLess(a, b)
  }

  lemma {:induction false} LexLessIrreflexive(a: string)
    ensures !LexLess(a, a)
    decreases |a|
  {
    if |a| > 0 { LexLessIrreflexive(a[1..]); }
  }

  lemma {:induction false} LexLessTransitive(a: string, b: string, c: string)
    requires LexLess(a, b) && LexLess(b, c)
    ensures LexLess(a, c)
    decreases |a|
  {
    if |a| > 0 && a[0] == b[0] && b[0] == c[0] {
      LexLessTransitive(a[1..], b[1..], c[1..]);
    }
  }

  /** Any two different strings are ordered one way round. */
  lemma {:induction false} LexLessTotal(a: string, b: string)
    requires a != b
    ensures LexLess(a, b) || LexLess(b, a)
    decreases |a|
  {
    if |a| > 0 && |b| > 0 && a[0] == b[0] {
      assert a == [a[0]] + a[1..] && b == [b[0]] + b[1..];
      LexLessTotal(a[1..], b[1..]);
    }
  }

  lemma {:induction false} LexLessAsymmetric(a: string, b: string)
    requires LexLess(a, b)
    ensures !LexLess(b, a)
    decreases |a|
  {
    if |a| > 0 && a[0] == b[0] {
      LexLessAsymmetric(a[1..], b[1..]);
    }
  }

  lemma LexLeTransitive(a: string, b: string, c: string)
    requires LexLe(a, b) && LexLe(b, c)
    ensures LexLe(a, c)
  {
    if a != b && b != c { LexLessTransitive(a, b, c); }
  }

  /** Not less means greater or equal. */
  lemma LexNotLess(a: string, b: string)
    requires !LexLess(a, b)
    ensures LexLe(b, a)
  {
    if a != b { LexLessTotal(a, b); }
  }
}
