/**
 * The two string operations the sidebar text filter relies on:
 * `String.prototype.toLowerCase` (restricted to ASCII letters) and
 * `String.prototype.includes`.
 */
module Text {

  /** ASCII lower-casing of one character; every other character is left alone. */
  function LowerChar(c: char): (d: char)
    ensures !('A' <= d <= 'Z')
    ensures !('A' <= c <= 'Z') ==> d == c
    ensures 'A' <= c <= 'Z' ==> d as int == c as int + 32 && 'a' <= d <= 'z'
  {
    if 'A' <= c <= 'Z' then (c as int - 'A' as int + 'a' as int) as char else c
  }

  /** `s.toLowerCase()`, character by character. */
  function Lower(s: string): (r: string)
    ensures |r| == |s|
    ensures forall i :: 0 <= i < |s| ==> !('A' <= r[i] <= 'Z')
    ensures forall i :: 0 <= i < |s| && !('A' <= s[i] <= 'Z') ==> r[i] == s[i]
    ensures forall i :: 0 <= i < |s| && 'A' <= s[i] <= 'Z' ==> r[i] as int == s[i] as int + 32
  {
    seq(|s|, i requires 0 <= i < |s| => LowerChar(s[i]))
  }

  /** `hay.includes(needle)`: `needle` occurs somewhere in `hay` as a contiguous block. */
  function Includes(hay: string, needle: string): (r: bool)
    ensures |needle| == 0 ==> r
    ensures r ==> |needle| <= |hay|
    decreases |hay|
  {
    needle <= hay || (|hay| > 0 && Includes(hay[1..], needle))
  }

  /** Every character of a needle that `Includes` finds occurs in the haystack. */
  lemma {:induction false} IncludedCharsOccur(hay: string, needle: string, k: int)
    requires 0 <= k < |needle|
    ensures Includes(hay, needle) ==> needle[k] in hay
    decreases |hay|
  {
    if needle <= hay {
      assert hay[k] == needle[k];
    }
    if |hay| > 0 {
      IncludedCharsOccur(hay[1..], needle, k);
      assert forall x :: x in hay[1..] ==> x in hay;
    }
  }

  /** An occurrence found by `Includes` starts at some position of `hay`. */
  lemma {:induction false} IncludesGivesPosition(hay: string, needle: string) returns (i: nat)
    requires Includes(hay, needle)
    ensures i <= |hay| && needle <= hay[i..]
    decreases |hay|
  {
    if needle <= hay {
      i := 0;
    } else {
      var j := IncludesGivesPosition(hay[1..], needle);
      assert hay[1..][j..] == hay[j + 1..];
      i := j + 1;
    }
  }

  /** An occurrence at any position of `hay` is found by `Includes`. */
  lemma {:induction false} PositionGivesIncludes(hay: string, needle: string, i: nat)
    requires i <= |hay| && needle <= hay[i..]
    ensures Includes(hay, needle)
    decreases i
  {
    if i > 0 {
      assert hay[1..][i - 1..] == hay[i..];
      PositionGivesIncludes(hay[1..], needle, i - 1);
    }
  }

  /** `Includes` holds exactly when some suffix of `hay` starts with `needle`. */
  lemma IncludesAt(hay: string, needle: string)
    ensures Includes(hay, needle) <==> exists i :: 0 <= i <= |hay| && needle <= hay[i..]
  {
    if Includes(hay, needle) {
      var i := IncludesGivesPosition(hay, needle);
    }
    if exists i :: 0 <= i <= |hay| && needle <= hay[i..] {
      var i :| 0 <= i <= |hay| && needle <= hay[i..];
      PositionGivesIncludes(hay, needle, i);
    }
  }
}
