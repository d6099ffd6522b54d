/** The JavaScript string primitives the parsers rely on: the `\s` character
    class (which is also the set `String.prototype.trim` removes), the line
    terminators that `.` refuses, ASCII case-insensitive comparison as the
    non-Unicode `i` flag performs it on ASCII pattern characters, and `trim`. */
module JsText {

  /** LineTerminator: the characters a regular-expression `.` does not match. */
  predicate IsLineTerminator(c: char) {
    c == '\n' || c == '\r' || c == '\U{2028}' || c == '\U{2029}'
  }

  /** `\s`: WhiteSpace (tab, vertical tab, form feed, space, no-break space,
      byte-order mark and the other space separators) plus LineTerminator. */
  predicate IsSpace(c: char) {
    || IsLineTerminator(c)
    || c == '\t' || c == '\U{B}' || c == '\U{C}' || c == ' '
    || c == '\U{A0}' || c == '\U{FEFF}' || c == '\U{1680}'
    || ('\U{2000}' <= c <= '\U{200A}')
    || c == '\U{202F}' || c == '\U{205F}' || c == '\U{3000}'
  }

  /** Maps `A`..`Z` to `a`..`z` and leaves every other character alone. */
  function LowerAscii(c: char): (d: char)
    ensures 'A' <= c <= 'Z' ==> 'a' <= d <= 'z'
    ensures !('A' <= c <= 'Z') ==> d == c
  {
    if 'A' <= c <= 'Z' then (c as int + 32) as char else c
  }

  /** Whether text character `c` matches pattern character `p` under the `i` flag. */
  predicate SameIgnoringCase(c: char, p: char) {
    LowerAscii(c) == LowerAscii(p)
  }

  /** Under the `i` flag, a pattern character that is not a letter matches only itself. */
  lemma SameAsSymbol(c: char, p: char)
    requires !('A' <= p <= 'Z') && !('a' <= p <= 'z') && SameIgnoringCase(c, p)
    ensures c == p
  {
  }

  /** The literal `lit` occurs at position `x` of `s`, ignoring ASCII case. */
  predicate LitAt(s: string, x: nat, lit: string) {
    && x + |lit| <= |s|
    && forall k :: 0 <= k < |lit| ==> SameIgnoringCase(s[x + k], lit[k])
  }

  /** `s[x..y]` consists of `\s` characters only. */
  predicate SpaceRun(s: string, x: nat, y: nat) {
    x <= y <= |s| && forall k :: x <= k < y ==> IsSpace(s[k])
  }

  /** `s[x..y]` holds no line terminator, so `.*` can span it. */
  predicate NoBreakRun(s: string, x: nat, y: nat) {
    x <= y <= |s| && forall k :: x <= k < y ==> !IsLineTerminator(s[k])
  }

  /** `s[x..y]` holds no `>`, so `[^>]*` can span it. */
  predicate NoGtRun(s: string, x: nat, y: nat) {
    x <= y <= |s| && forall k :: x <= k < y ==> s[k] != '>'
  }

  /** A literal whose first character is not white space; a `\s*` in front of
      such a literal can only end where the white space ends. */
  predicate StartsSolid(lit: string) {
    |lit| > 0 && !IsSpace(lit[0])
  }

  predicate NoLineTerminator(s: string) {
    forall k :: 0 <= k < |s| ==> !IsLineTerminator(s[k])
  }

  /** Neither end of `s` is white space. */
  predicate IsTrimmed(s: string) {
    s == [] || (!IsSpace(s[0]) && !IsSpace(s[|s| - 1]))
  }

  predicate AllSpace(s: string) {
    forall k :: 0 <= k < |s| ==> IsSpace(s[k])
  }

  /** The end of the longest run of white space starting at `x`: where a greedy `\s*` stops. */
  function SkipSpace(s: string, x: nat): (y: nat)
    requires x <= |s|
    ensures SpaceRun(s, x, y)
    ensures y == |s| || !IsSpace(s[y])
    decreases |s| - x
  {
    if x < |s| && IsSpace(s[x]) then SkipSpace(s, x + 1) else x
  }

  /** A white-space run that stops at a non-space character is the longest one. */
  lemma SpaceRunIsMaximal(s: string, x: nat, y: nat)
    requires SpaceRun(s, x, y)
    requires y < |s| && !IsSpace(s[y])
    ensures SkipSpace(s, x) == y
  {
  }

  /** Every white-space run from `x` lies within the longest one. */
  lemma SpaceRunWithinSkip(s: string, x: nat, y: nat)
    requires SpaceRun(s, x, y)
    ensures y <= SkipSpace(s, x)
  {
  }

  /** A literal that starts solid, found somewhere, begins with a non-space character. */
  lemma LitAtSolid(s: string, x: nat, lit: string)
    requires LitAt(s, x, lit) && StartsSolid(lit)
    ensures x < |s| && !IsSpace(s[x])
  {
    assert SameIgnoringCase(s[x + 0], lit[0]);
  }

  /** A white-space run followed by a solid literal is exactly the longest run. */
  lemma SpaceThenSolid(s: string, x: nat, y: nat, lit: string)
    requires SpaceRun(s, x, y) && LitAt(s, y, lit) && StartsSolid(lit)
    ensures SkipSpace(s, x) == y
  {
    LitAtSolid(s, y, lit);
    SpaceRunIsMaximal(s, x, y);
  }

  /** The end of `s[a..y]` once trailing white space is dropped. */
  function TrimEnd(s: string, a: nat, y: nat): (z: nat)
    requires a <= y <= |s|
    ensures a <= z <= y
    ensures SpaceRun(s, z, y)
    ensures z == a || !IsSpace(s[z - 1])
    decreases y
  {
    if y > a && IsSpace(s[y - 1]) then TrimEnd(s, a, y - 1) else y
  }

  /** `String.prototype.trim`: `s` without its leading and trailing white space. */
  function Trim(s: string): (r: string)
    ensures IsTrimmed(r)
    ensures exists a: nat :: a + |r| <= |s| && r == s[a..a + |r|] && AllSpace(s[..a]) && AllSpace(s[a + |r|..])
  {
    var a := SkipSpace(s, 0);
    var b := TrimEnd(s, a, |s|);
    assert a < b ==> !IsSpace(s[a]);
    assert AllSpace(s[..a]) && AllSpace(s[b..]);
    s[a..b]
  }

  /** Trimming keeps an already trimmed string as it is. */
  lemma TrimTrimmed(s: string)
    requires IsTrimmed(s)
    ensures Trim(s) == s
  {
    if s != [] {
      assert SkipSpace(s, 0) == 0;
      assert TrimEnd(s, 0, |s|) == |s|;
    }
  }

  /** Trimming drops trailing white space after a trimmed, non-empty text. */
  lemma TrimTrailingSpace(a: string, w: string)
    requires a != [] && IsTrimmed(a) && AllSpace(w)
    ensures Trim(a + w) == a
  {
    var s := a + w;
    assert SkipSpace(s, 0) == 0 by { assert s[0] == a[0]; }
    TrimEndAt(s, 0, |a|, |s|);
    assert s[..|a|] == a;
  }

  /** `TrimEnd` stops at the last non-space character. */
  lemma {:induction false} TrimEndAt(s: string, a: nat, z: nat, y: nat)
    requires a < z && SpaceRun(s, z, y) && !IsSpace(s[z - 1])
    ensures TrimEnd(s, a, y) == z
    decreases y
  {
    if y > z {
      TrimEndAt(s, a, z, y - 1);
    }
  }

  /** `trim` is idempotent. */
  lemma TrimIdempotent(s: string)
    ensures Trim(Trim(s)) == Trim(s)
  {
    TrimTrimmed(Trim(s));
  }

  /** Trimming never introduces a line terminator. */
  lemma TrimNoLineTerminator(s: string)
    requires NoLineTerminator(s)
    ensures NoLineTerminator(Trim(s))
  {
    var r := Trim(s);
    var a: nat :| a + |r| <= |s| && r == s[a..a + |r|] && AllSpace(s[..a]) && AllSpace(s[a + |r|..]);
    forall k | 0 <= k < |r| ensures !IsLineTerminator(r[k]) {
      assert r[k] == s[a + k];
    }
  }
}
