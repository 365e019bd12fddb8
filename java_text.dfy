/**
 * The parts of java.lang.String and java.lang.Character the core relies on:
 * Character.isWhitespace, String.isBlank and String.trim.
 */
module JavaText {

  /** Character.isWhitespace: the Unicode space, line and paragraph separators
      other than the three no-break spaces, plus U+0009..U+000D and U+001C..U+001F. */
  predicate IsWhitespace(c: char) {
    || c == ' '
    || ('\t' <= c <= '\r')
    || ('\U{1C}' <= c <= '\U{1F}')
    || c == '\U{1680}'
    || ('\U{2000}' <= c <= '\U{2006}')
    || ('\U{2008}' <= c <= '\U{200A}')
    || c == '\U{2028}'
    || c == '\U{2029}'
    || c == '\U{205F}'
    || c == '\U{3000}'
  }

  /** String.isBlank: empty, or only whitespace code points. */
  predicate IsBlank(s: string) {
    forall i :: 0 <= i < |s| ==> IsWhitespace(s[i])
  }

  /** String.trim treats every code point up to U+0020 as removable. */
  predicate IsTrimmable(c: char) {
    c <= ' '
  }

  /** Number of removable characters at the front of s. */
  function LeadingTrimmable(s: string): (n: nat)
    ensures n <= |s|
    ensures forall k :: 0 <= k < n ==> IsTrimmable(s[k])
    ensures n < |s| ==> !IsTrimmable(s[n])
  {
    if s == [] || !IsTrimmable(s[0]) then 0 else 1 + LeadingTrimmable(s[1..])
  }

  /** Number of removable characters at the back of s. */
  function TrailingTrimmable(s: string): (n: nat)
    ensures n <= |s|
    ensures forall k :: |s| - n <= k < |s| ==> IsTrimmable(s[k])
    ensures n < |s| ==> !IsTrimmable(s[|s| - 1 - n])
  {
    if s == [] || !IsTrimmable(s[|s| - 1]) then 0 else 1 + TrailingTrimmable(s[..|s| - 1])
  }

  /** The bounds String.trim keeps: [lo, hi) is s without its removable ends. */
  function TrimBounds(s: string): (b: (nat, nat))
    ensures b.0 <= b.1 <= |s|
    ensures forall k :: 0 <= k < b.0 ==> IsTrimmable(s[k])
    ensures forall k :: b.1 <= k < |s| ==> IsTrimmable(s[k])
    ensures b.0 < b.1 ==> !IsTrimmable(s[b.0]) && !IsTrimmable(s[b.1 - 1])
  {
    var lo := LeadingTrimmable(s);
    if lo == |s| then (lo, lo)
    else
      var hi := |s| - TrailingTrimmable(s);
      assert !IsTrimmable(s[lo]);
      (lo, hi)
  }

  /** String.trim. */
  function Trim(s: string): string {
    s[TrimBounds(s).0..TrimBounds(s).1]
  }

  /** Trimming keeps a contiguous part of s whose ends are not removable, so a
      second trim changes nothing. */
  lemma TrimIdempotent(s: string)
    ensures Trim(s) == [] || (!IsTrimmable(Trim(s)[0]) && !IsTrimmable(Trim(s)[|Trim(s)| - 1]))
    ensures Trim(Trim(s)) == Trim(s)
  {
    var t := Trim(s);
    var b := TrimBounds(t);
    if t != [] {
      assert t[0] == s[TrimBounds(s).0];
      assert t[|t| - 1] == s[TrimBounds(s).1 - 1];
    }
  }
}
