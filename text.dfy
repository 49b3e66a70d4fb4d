/**
 * The JavaScript string built-ins that the bookstore scripts rely on:
 * `trim`, `toLowerCase`, `includes`, `startsWith`, `endsWith`, `indexOf`
 * and `replace` with a string pattern.  Strings are sequences of Unicode
 * scalar values.
 */
module Text {
  import opened Wrappers

  /** The characters ECMAScript's `String.prototype.trim` removes:
      WhiteSpace (tab, VT, FF, space, NBSP, BOM and the Zs category)
      and LineTerminator (LF, CR, LS, PS). */
  predicate IsJsWhitespace(c: char) {
    c == '\t' || c == '\n' || c == '\U{000B}' || c == '\U{000C}' || c == '\r' ||
    c == ' ' || c == '\U{00A0}' || c == '\U{1680}' ||
    ('\U{2000}' <= c <= '\U{200A}') ||
    c == '\U{2028}' || c == '\U{2029}' || c == '\U{202F}' || c == '\U{205F}' ||
    c == '\U{3000}' || c == '\U{FEFF}'
  }

  /** The first position at or after `i` that does not hold whitespace. */
  function SkipLeading(s: string, i: nat): (r: nat)
    requires i <= |s|
    ensures i <= r <= |s|
    ensures forall k :: i <= k < r ==> IsJsWhitespace(s[k])
    ensures r < |s| ==> !IsJsWhitespace(s[r])
    decreases |s| - i
  {
    if i < |s| && IsJsWhitespace(s[i]) then SkipLeading(s, i + 1) else i
  }

  /** The end of `s[lo..j]` once trailing whitespace is cut off. */
  function SkipTrailing(s: string, lo: nat, j: nat): (r: nat)
    requires lo <= j <= |s|
    ensures lo <= r <= j
    ensures forall k :: r <= k < j ==> IsJsWhitespace(s[k])
    ensures r > lo ==> !IsJsWhitespace(s[r - 1])
  {
    if j > lo && IsJsWhitespace(s[j - 1]) then SkipTrailing(s, lo, j - 1) else j
  }

  /** `s.trim()`: leading, then trailing whitespace is cut off. */
  function Trim(s: string): string
  {
    var i := SkipLeading(s, 0);
    s[i..SkipTrailing(s, i, |s|)]
  }

  /** `r` is the slice `s[i..j]` and everything cut off is whitespace. */
  predicate TrimmedSlice(s: string, r: string, i: int, j: int) {
    && 0 <= i <= j <= |s| && r == s[i..j]
    && (forall k :: 0 <= k < i ==> IsJsWhitespace(s[k]))
    && (forall k :: j <= k < |s| ==> IsJsWhitespace(s[k]))
  }

  /** `s.trim()` is a slice of `s` that starts and ends with a
      non-whitespace character, every character cut off being whitespace. */
  lemma TrimSpec(s: string)
    ensures exists i, j :: TrimmedSlice(s, Trim(s), i, j)
    ensures var r := Trim(s); r != [] ==> !IsJsWhitespace(r[0]) && !IsJsWhitespace(r[|r| - 1])
  {
    var i := SkipLeading(s, 0);
    var j := SkipTrailing(s, i, |s|);
    assert TrimmedSlice(s, Trim(s), i, j);
  }

  /** The trimmed string is empty exactly when every character is whitespace. */
  lemma TrimEmptyIff(s: string)
    ensures Trim(s) == [] <==> forall k :: 0 <= k < |s| ==> IsJsWhitespace(s[k])
  {
  }

  /** JavaScript truthiness of an optional string: present and non-empty. */
  predicate Truthy(o: Option<string>) {
    o.Some? && o.value != ""
  }

  /** A character of the regular-expression class `[a-z0-9]` under the
      `i` flag: an ASCII letter or digit. */
  predicate IsAsciiAlnum(c: char) {
    ('a' <= c <= 'z') || ('A' <= c <= 'Z') || ('0' <= c <= '9')
  }

  /** `toLowerCase` on one character, restricted to the ASCII letters. */
  function LowerChar(c: char): (d: char)
  {
    if 'A' <= c <= 'Z' then (c as int + 32) as char else c
  }

  /** `s.toLowerCase()`, character by character. */
  function ToLower(s: string): (r: string)
    ensures |r| == |s|
    ensures forall k :: 0 <= k < |s| ==> r[k] == LowerChar(s[k])
  {
    if s == [] then [] else [LowerChar(s[0])] + ToLower(s[1..])
  }

  /** Lower-casing twice is lower-casing once, so lower-casing a search
      term that was stored lower-cased changes nothing. */
  lemma ToLowerIdempotent(s: string)
    ensures ToLower(ToLower(s)) == ToLower(s)
  {
  }

  /** `s.startsWith(p)`. */
  predicate StartsWith(s: string, p: string) {
    |p| <= |s| && s[..|p|] == p
  }

  /** `s.endsWith(p)`. */
  predicate EndsWith(s: string, p: string) {
    |p| <= |s| && s[|s| - |p|..] == p
  }

  /** `p` occurs in `s` at position `i`. */
  predicate OccursAt(s: string, p: string, i: int) {
    0 <= i && i + |p| <= |s| && s[i..i + |p|] == p
  }

  /** `s.indexOf(p)`: the first position at which `p` occurs, if any. */
  function IndexOf(s: string, p: string): (r: Option<nat>)
    ensures r.Some? ==>
              && OccursAt(s, p, r.value)
              && forall k :: 0 <= k < r.value ==> !OccursAt(s, p, k)
    ensures r.None? ==> forall k :: 0 <= k <= |s| ==> !OccursAt(s, p, k)
    decreases |s|
  {
    if StartsWith(s, p) then Some(0)
    else if |s| <= |p| then None
    else
      match IndexOf(s[1..], p)
      case Some(i) =>
        assert forall k :: 1 <= k <= |s| ==> (OccursAt(s, p, k) <==> OccursAt(s[1..], p, k - 1));
        Some(i + 1)
      case None =>
        assert forall k :: 1 <= k <= |s| ==> (OccursAt(s, p, k) <==> OccursAt(s[1..], p, k - 1));
        None
  }

  /** `s.includes(p)`. */
  predicate Includes(s: string, p: string) {
    IndexOf(s, p).Some?
  }

  /** `s.replace(p, q)` with a string pattern `p` and a replacement `q`
      free of `$` patterns: only the first occurrence is replaced. */
  function ReplaceFirst(s: string, p: string, q: string): (r: string)
    ensures IndexOf(s, p).None? ==> r == s
    ensures IndexOf(s, p).Some? ==> |r| == |s| - |p| + |q|
  {
    match IndexOf(s, p)
    case None => s
    case Some(i) => s[..i] + q + s[i + |p|..]
  }

  /** Replacing the first `p` by `p + q` inserts `q` right after that
      occurrence; deleting `q` again gives back `s`. */
  lemma ReplaceFirstInserts(s: string, p: string, q: string, i: nat)
    requires IndexOf(s, p) == Some(i)
    ensures var h := ReplaceFirst(s, p, p + q);
      && |h| == |s| + |q|
      && h[..i + |p|] == s[..i + |p|]
      && h[i + |p|..i + |p| + |q|] == q
      && h[..i + |p|] + h[i + |p| + |q|..] == s
  {
    var h := ReplaceFirst(s, p, p + q);
    assert h == s[..i] + (p + q) + s[i + |p|..];
    assert s[i..i + |p|] == p;
    assert h[..i + |p|] == s[..i] + p == s[..i + |p|];
    assert h[i + |p| + |q|..] == s[i + |p|..];
    assert s == s[..i + |p|] + s[i + |p|..];
  }
}
