/**
 * String helpers the page's handlers rely on: `toLowerCase`, `includes`,
 * `endsWith`, `slice(-n)` and `trim`. Strings are sequences of Dafny
 * characters, which are Unicode scalar values; JavaScript strings are
 * sequences of UTF-16 characters, so the two agree on text without
 * characters outside the Basic Multilingual Plane. Case mapping covers the
 * ASCII letters only.
 */
module Text {

  /** `toLowerCase` on one character (ASCII letters only). */
  function LowerChar(c: char): (d: char)
    ensures 'A' <= c <= 'Z' ==> 'a' <= d <= 'z' && d as int - c as int == 32
    ensures !('A' <= c <= 'Z') ==> d == c
  {
    if 'A' <= c <= 'Z' then (c as int + 32) as char else c
  }

  /** `toLowerCase`: the same length, each character lowered. */
  function Lower(s: string): (r: string)
    ensures |r| == |s|
    ensures forall k :: 0 <= k < |s| ==> r[k] == LowerChar(s[k])
  {
    if s == [] then [] else [LowerChar(s[0])] + Lower(s[1..])
  }

  /** A string without upper-case ASCII letters is its own lower case. */
  lemma LowerOfLowerCase(s: string)
    requires forall k :: 0 <= k < |s| ==> !('A' <= s[k] <= 'Z')
    ensures Lower(s) == s
  {
  }

  /** `s.endsWith(t)` */
  predicate EndsWith(s: string, t: string) {
    |t| <= |s| && s[|s| - |t|..] == t
  }

  /** `s.includes(t)` */
  predicate Contains(s: string, t: string) {
    exists k :: 0 <= k <= |s| - |t| && OccursAt(s, t, k)
  }

  /** `t` occurs in `s` starting at index `k`. */
  predicate OccursAt(s: string, t: string, k: int) {
    0 <= k <= |s| - |t| && s[k..k + |t|] == t
  }

  /** An occurrence at the end is an occurrence. */
  lemma EndsWithContains(s: string, t: string)
    requires EndsWith(s, t)
    ensures Contains(s, t)
  {
    assert OccursAt(s, t, |s| - |t|);
  }

  /** `s.slice(-n)` for the case the handlers use it: keep the last `n` characters. */
  function LastN(s: string, n: nat): (r: string)
    ensures |r| == if |s| <= n then |s| else n
    ensures EndsWith(s, r)
  {
    if |s| <= n then s else s[|s| - n..]
  }

  /** Keeping the last `n` characters keeps every suffix of length at most `n`. */
  lemma LastNKeepsShortSuffix(s: string, n: nat, t: string)
    requires EndsWith(s, t) && |t| <= n
    ensures EndsWith(LastN(s, n), t)
  {
  }

  /** An occurrence in a suffix of `s` is an occurrence in `s`. */
  lemma ContainsInSuffix(s: string, r: string, t: string)
    requires EndsWith(s, r) && Contains(r, t)
    ensures Contains(s, t)
  {
    var k :| 0 <= k <= |r| - |t| && OccursAt(r, t, k);
    var d := |s| - |r|;
    assert s[d + k..d + k + |t|] == r[k..k + |t|];
    assert OccursAt(s, t, d + k);
  }

  /**
   * Appending one character to a string that does not contain `t` creates an
   * occurrence only at the very end.
   */
  lemma NewOccurrenceAtEnd(s: string, c: char, t: string)
    requires !Contains(s, t) && Contains(s + [c], t)
    ensures EndsWith(s + [c], t)
  {
    var u := s + [c];
    var k :| 0 <= k <= |u| - |t| && OccursAt(u, t, k);
    if k + |t| <= |s| {
      assert s[k..k + |t|] == u[k..k + |t|];
      assert OccursAt(s, t, k);
      assert false;
    }
  }

  /** Appending the same character to a string and to one of its suffixes keeps the suffix. */
  lemma EndsWithAppend(s: string, t: string, c: char)
    requires EndsWith(s, t)
    ensures EndsWith(s + [c], t + [c])
  {
    var u := s + [c];
    assert u[|u| - |t| - 1..] == s[|s| - |t|..] + [c];
  }

  /** White space and line terminators that `String.prototype.trim` removes (ECMA-262 WhiteSpace and LineTerminator). */
  predicate IsTrimmable(c: char) {
    || c == '\t' || c == '\n' || c == '\U{000B}' || c == '\U{000C}' || c == '\r' || c == ' '
    || c == '\U{00A0}' || c == '\U{1680}' || ('\U{2000}' <= c <= '\U{200A}')
    || c == '\U{2028}' || c == '\U{2029}' || c == '\U{202F}' || c == '\U{205F}'
    || c == '\U{3000}' || c == '\U{FEFF}'
  }

  function TrimStart(s: string): (r: string)
    ensures EndsWith(s, r)
    ensures r != [] ==> !IsTrimmable(r[0])
    ensures forall k :: 0 <= k < |s| - |r| ==> IsTrimmable(s[k])
  {
    if s != [] && IsTrimmable(s[0]) then
      var r := TrimStart(s[1..]);
      assert s[|s| - |r|..] == s[1..][|s| - 1 - |r|..];
      assert forall k :: 1 <= k < |s| - |r| ==> s[k] == s[1..][k - 1];
      r
    else s
  }

  function TrimEnd(s: string): (r: string)
    ensures |r| <= |s| && r == s[..|r|]
    ensures r != [] ==> !IsTrimmable(r[|r| - 1])
    ensures forall k :: |r| <= k < |s| ==> IsTrimmable(s[k])
  {
    if s != [] && IsTrimmable(s[|s| - 1]) then TrimEnd(s[..|s| - 1]) else s
  }

  /** `trim`: drop leading and trailing white space. */
  function Trim(s: string): string {
    TrimEnd(TrimStart(s))
  }

  /** A string trims to nothing exactly when every character in it is white space. */
  lemma TrimEmptyIffBlank(s: string)
    ensures Trim(s) == [] <==> forall k :: 0 <= k < |s| ==> IsTrimmable(s[k])
  {
    var t := TrimStart(s);
    if Trim(s) == [] {
      assert t == [];
    } else {
      var u := Trim(s);
      assert u[0] == t[0] && t[0] == s[|s| - |t|];
    }
  }
}
