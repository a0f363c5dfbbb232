/**
 * String helpers the handlers apply to form and query input: Python's
 * `str.strip()` and `str.lower()`, the e-mail normalisation built from them,
 * and the case-insensitive infix test that the feed's `ILIKE '%q%'` performs.
 */
module Text {

  /** The characters Python's `str.isspace()` accepts, which `str.strip()` removes. */
  predicate IsSpace(c: char) {
    || c == ' '
    || '\t' <= c <= '\r'
    || '\U{1c}' <= c <= '\U{1f}'
    || c == '\U{85}' || c == '\U{a0}' || c == '\U{1680}'
    || '\U{2000}' <= c <= '\U{200a}'
    || c == '\U{2028}' || c == '\U{2029}' || c == '\U{202f}' || c == '\U{205f}' || c == '\U{3000}'
  }

  /** The first index at or after `i` that does not hold a space (or `|s|`): where `strip()` starts. */
  function SkipSpaces(s: string, i: nat): (j: nat)
    requires i <= |s|
    ensures i <= j <= |s|
    decreases |s| - i
  {
    if i < |s| && IsSpace(s[i]) then SkipSpaces(s, i + 1) else i
  }

  /** `SkipSpaces` passes over spaces only and stops at a non-space or at the end. */
  lemma {:induction false} SkipSpacesSpaces(s: string, i: nat)
    requires i <= |s|
    ensures forall k :: i <= k < SkipSpaces(s, i) ==> IsSpace(s[k])
    ensures SkipSpaces(s, i) < |s| ==> !IsSpace(s[SkipSpaces(s, i)])
    decreases |s| - i
  {
    if i < |s| && IsSpace(s[i]) {
      SkipSpacesSpaces(s, i + 1);
    }
  }

  /** The end of `s[lo..j]` once its trailing spaces are cut: where `strip()` stops. */
  function TrimEnd(s: string, lo: nat, j: nat): (e: nat)
    requires lo <= j <= |s|
    ensures lo <= e <= j
    decreases j
  {
    if lo < j && IsSpace(s[j - 1]) then TrimEnd(s, lo, j - 1) else j
  }

  /** `TrimEnd` cuts spaces only and stops after a non-space or at `lo`. */
  lemma {:induction false} TrimEndSpaces(s: string, lo: nat, j: nat)
    requires lo <= j <= |s|
    ensures forall k :: TrimEnd(s, lo, j) <= k < j ==> IsSpace(s[k])
    ensures lo < TrimEnd(s, lo, j) ==> !IsSpace(s[TrimEnd(s, lo, j) - 1])
    decreases j
  {
    if lo < j && IsSpace(s[j - 1]) {
      TrimEndSpaces(s, lo, j - 1);
    }
  }

  /** `s.strip()` is the piece `s[i..i + |r|]` with only spaces before and after it. */
  predicate StrippedAt(s: string, r: string, i: int) {
    && 0 <= i && i + |r| <= |s| && r == s[i..i + |r|]
    && (forall k :: 0 <= k < i ==> IsSpace(s[k]))
    && (forall k :: i + |r| <= k < |s| ==> IsSpace(s[k]))
  }

  /** `s.strip()`: `s` without its leading and trailing spaces (`StripSpec` states what that means). */
  function Strip(s: string): (r: string)
    ensures |r| <= |s|
  {
    s[SkipSpaces(s, 0)..TrimEnd(s, SkipSpaces(s, 0), |s|)]
  }

  /** The strip of `s` is a piece of `s` with only spaces around it and no space at either of its ends. */
  lemma StripSpec(s: string)
    ensures exists i :: StrippedAt(s, Strip(s), i)
    ensures Strip(s) != [] ==> !IsSpace(Strip(s)[0]) && !IsSpace(Strip(s)[|Strip(s)| - 1])
  {
    var i := SkipSpaces(s, 0);
    SkipSpacesSpaces(s, 0);
    TrimEndSpaces(s, i, |s|);
    assert StrippedAt(s, Strip(s), i);
  }

  /** A string with no space at either end is its own strip. */
  lemma Trimmed(u: string)
    requires u != [] ==> !IsSpace(u[0]) && !IsSpace(u[|u| - 1])
    ensures Strip(u) == u
  {
    if u != [] {
      assert SkipSpaces(u, 0) == 0;
      assert TrimEnd(u, 0, |u|) == |u|;
    }
  }

  /** A stripped string is stripped again to itself. */
  lemma StripIdempotent(s: string)
    ensures Strip(Strip(s)) == Strip(s)
  {
    StripSpec(s);
    Trimmed(Strip(s));
  }

  /** A form value counts as blank (Python's falsy `''` after `strip()`) exactly when it is all spaces. */
  lemma StripBlank(s: string)
    ensures Strip(s) == [] <==> forall k :: 0 <= k < |s| ==> IsSpace(s[k])
  {
    var r := Strip(s);
    StripSpec(s);
    var i :| StrippedAt(s, r, i);
    if r != [] {
      assert s[i] == r[0];
    }
  }

  /** ASCII lower-casing of one character. */
  function LowerChar(c: char): (d: char)
    ensures !('A' <= d <= 'Z')
  {
    if 'A' <= c <= 'Z' then (c as int - 'A' as int + 'a' as int) as char else c
  }

  /** `s.lower()`, restricted to ASCII letters. */
  function Lower(s: string): string {
    seq(|s|, k requires 0 <= k < |s| => LowerChar(s[k]))
  }

  /** Lower-casing leaves no upper-case ASCII letter, and changes a string exactly when it holds one. */
  lemma LowerIdentity(s: string)
    ensures forall k :: 0 <= k < |s| ==> !('A' <= Lower(s)[k] <= 'Z')
    ensures Lower(s) == s <==> forall k :: 0 <= k < |s| ==> !('A' <= s[k] <= 'Z')
  {
    if forall k :: 0 <= k < |s| ==> !('A' <= s[k] <= 'Z') {
      assert forall k :: 0 <= k < |s| ==> Lower(s)[k] == s[k];
    }
  }

  /** Lower-casing keeps every space a space and every non-space a non-space. */
  lemma LowerKeepsSpaces(c: char)
    ensures IsSpace(LowerChar(c)) == IsSpace(c)
  {
  }

  /** The e-mail key of a user: `email.strip().lower()`. */
  function NormalizeEmail(email: string): string {
    Lower(Strip(email))
  }

  /** Normalising an already normalised e-mail changes nothing, so stored e-mails are their own keys. */
  lemma NormalizeEmailIdempotent(email: string)
    ensures NormalizeEmail(NormalizeEmail(email)) == NormalizeEmail(email)
  {
    var t := Strip(email);
    StripSpec(email);
    var u := Lower(t);
    if u != [] {
      LowerKeepsSpaces(t[0]);
      LowerKeepsSpaces(t[|t| - 1]);
      assert !IsSpace(u[0]) && !IsSpace(u[|u| - 1]);
    }
    Trimmed(u);
    LowerFixed(u, t);
  }

  /** A lower-cased string is its own lower case. */
  lemma LowerFixed(u: string, t: string)
    requires u == Lower(t)
    ensures Lower(u) == u
  {
    forall k | 0 <= k < |u| ensures Lower(u)[k] == u[k] {
      assert u[k] == LowerChar(t[k]);
    }
  }

  /** `t` occurs in `s` starting at index `i`. */
  predicate InfixAt(s: string, t: string, i: int) {
    0 <= i && i + |t| <= |s| && s[i..i + |t|] == t
  }

  /** True when `t` occurs in `s` as a contiguous piece. */
  function HasInfix(s: string, t: string): bool
    decreases |s|
  {
    if |t| > |s| then false
    else if s[..|t|] == t then true
    else HasInfix(s[1..], t)
  }

  /** HasInfix agrees with "`t` occurs in `s` at some index", in both directions. */
  lemma {:induction false} HasInfixIff(s: string, t: string)
    ensures HasInfix(s, t) <==> exists i :: InfixAt(s, t, i)
    decreases |s|
  {
    if |t| > |s| {
    } else if s[..|t|] == t {
      assert InfixAt(s, t, 0);
    } else {
      HasInfixIff(s[1..], t);
      if exists i :: InfixAt(s, t, i) {
        var i :| InfixAt(s, t, i);
        assert i != 0;
        assert InfixAt(s[1..], t, i - 1);
      }
      if HasInfix(s[1..], t) {
        var i :| InfixAt(s[1..], t, i);
        assert InfixAt(s, t, i + 1);
      }
    }
  }

  /** The feed's title match `title ILIKE '%q%'`, read as a case-insensitive infix test. */
  predicate ContainsIgnoreCase(title: string, q: string) {
    HasInfix(Lower(title), Lower(q))
  }

  /** The match does not depend on the case in which the query is typed. */
  lemma ContainsIgnoresQueryCase(title: string, q: string)
    ensures ContainsIgnoreCase(title, Lower(q)) == ContainsIgnoreCase(title, q)
  {
    assert Lower(Lower(q)) == Lower(q);
  }
}
