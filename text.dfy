/** The string operations the task manager applies to names and search terms:
    `trim` (validation of names), `toLowerCase` and `includes` (search). */
module Text {

  /** The white-space code points `String.prototype.trim` removes that this
      model recognises: ASCII blanks and line breaks, no-break space, the byte
      order mark and the Unicode line and paragraph separators. */
  predicate IsSpace(c: char)
  {
    || c == ' ' || c == '\t' || c == '\n' || c == '\r' || c == '\U{B}' || c == '\U{C}'
    || c == '\U{A0}' || c == '\U{FEFF}' || c == '\U{2028}' || c == '\U{2029}'
  }

  /** Every character of `s` is white space (so the empty string is blank). */
  predicate IsBlank(s: string)
  {
    forall i :: 0 <= i < |s| ==> IsSpace(s[i])
  }

  /** Every character of `s` from index `lo` up to (not including) `hi` is
      white space. */
  predicate BlankBetween(s: string, lo: int, hi: int)
  {
    forall k :: lo <= k < hi && 0 <= k < |s| ==> IsSpace(s[k])
  }

  /** Where the text of `s` starts when scanning forward from `i`: the first
      index at or after `i` that is not white space, or `|s|`. */
  function SkipSpaces(s: string, i: nat): (n: nat)
    requires i <= |s|
    ensures i <= n <= |s|
    ensures BlankBetween(s, i, n)
    ensures n < |s| ==> !IsSpace(s[n])
    decreases |s| - i
  {
    if i < |s| && IsSpace(s[i]) then SkipSpaces(s, i + 1) else i
  }

  /** Where the text of `s` ends when scanning back from `j`, stopping at
      `lo`: the white space just before `j` is skipped. */
  function SkipSpacesBack(s: string, lo: nat, j: nat): (m: nat)
    requires lo <= j <= |s|
    ensures lo <= m <= j
    ensures BlankBetween(s, m, j)
    ensures m > lo ==> !IsSpace(s[m - 1])
  {
    if lo < j && IsSpace(s[j - 1]) then SkipSpacesBack(s, lo, j - 1) else j
  }

  /** `s.trim()`: the slice of `s` left once its blank prefix and its blank
      suffix are cut off. It is empty exactly when `s` is blank, and
      otherwise starts and ends with a character that is not white space. */
  function Trim(s: string): (r: string)
    ensures var a := SkipSpaces(s, 0); var b := SkipSpacesBack(s, a, |s|);
      && a <= b <= |s| && r == s[a..b]
      && BlankBetween(s, 0, a) && BlankBetween(s, b, |s|)
    ensures r == [] <==> IsBlank(s)
    ensures r != [] ==> !IsSpace(r[0]) && !IsSpace(r[|r| - 1])
  {
    var a := SkipSpaces(s, 0);
    var b := SkipSpacesBack(s, a, |s|);
    if a == b then
      assert forall k :: 0 <= k < |s| ==> IsSpace(s[k]);
      []
    else
      assert !IsSpace(s[b - 1]);
      s[a..b]
  }

  /** ASCII `toLowerCase` of one character. */
  function ToLower(c: char): char
  {
    if 'A' <= c <= 'Z' then (c as int + 32) as char else c
  }

  /** ASCII `toLowerCase` of a string. */
  function Lower(s: string): string
  {
    seq(|s|, i requires 0 <= i < |s| => ToLower(s[i]))
  }

  /** `hay.includes(needle)`, by scanning `hay` from the front. */
  predicate Includes(hay: string, needle: string)
    decreases |hay|
  {
    needle <= hay || (hay != [] && Includes(hay[1..], needle))
  }

  /** `needle` occurs in `hay` starting at offset `k`. */
  predicate OccursAt(hay: string, needle: string, k: int)
  {
    0 <= k <= |hay| - |needle| && hay[k..k + |needle|] == needle
  }

  /** `Includes` agrees with the textbook definition: `needle` occurs in
      `hay` at some offset. In particular the empty needle occurs everywhere. */
  lemma {:induction false} IncludesIffOccurs(hay: string, needle: string)
    ensures Includes(hay, needle) <==> exists k :: OccursAt(hay, needle, k)
    decreases |hay|
  {
    if needle <= hay {
      assert OccursAt(hay, needle, 0);
    } else if hay == [] {
      // An empty needle is a prefix of every string, so it is not empty here.
    } else {
      IncludesIffOccurs(hay[1..], needle);
      if Includes(hay[1..], needle) {
        var k :| OccursAt(hay[1..], needle, k);
        assert hay[k + 1..k + 1 + |needle|] == hay[1..][k..k + |needle|];
        assert OccursAt(hay, needle, k + 1);
      }
      if exists k :: OccursAt(hay, needle, k) {
        var k :| OccursAt(hay, needle, k);
        // k == 0 would make needle a prefix of hay, which it is not.
        if k != 0 {
          assert hay[1..][k - 1..k - 1 + |needle|] == hay[k..k + |needle|];
          assert OccursAt(hay[1..], needle, k - 1);
        }
      }
    }
  }
}
