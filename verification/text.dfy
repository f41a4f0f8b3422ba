/**
 * The string operations the relay applies to message text: Python's
 * `str.strip()` with no argument, `str.lower()` restricted to the Latin and
 * basic Cyrillic alphabets, and the `in` substring test on strings.
 */
module Text {

  /** The characters for which Python's `str.isspace()` is true. */
  predicate IsSpace(c: char)
  {
    || ('\t' <= c <= '\r')
    || ('\U{1C}' <= c <= '\U{1F}')
    || c == ' '
    || c == '\U{85}'
    || c == '\U{A0}'
    || c == '\U{1680}'
    || ('\U{2000}' <= c <= '\U{200A}')
    || c == '\U{2028}'
    || c == '\U{2029}'
    || c == '\U{202F}'
    || c == '\U{205F}'
    || c == '\U{3000}'
  }

  /** Every character of `s` at an index in `lo..hi` is whitespace. */
  predicate SpaceBetween(s: string, lo: int, hi: int)
  {
    forall k :: 0 <= lo <= k < hi <= |s| ==> IsSpace(s[k])
  }

  /** `s` neither starts nor ends with whitespace. */
  predicate Trimmed(s: string)
  {
    |s| > 0 ==> !IsSpace(s[0]) && !IsSpace(s[|s| - 1])
  }

  /** The length of the whitespace run that starts `s`. */
  function LeadingSpaces(s: string): (n: nat)
    ensures n <= |s|
    ensures SpaceBetween(s, 0, n)
    ensures n < |s| ==> !IsSpace(s[n])
  {
    if |s| == 0 || !IsSpace(s[0]) then 0
    else
      var m := LeadingSpaces(s[1..]);
      assert forall k :: 1 <= k < 1 + m ==> s[k] == s[1..][k - 1];
      1 + m
  }

  /** The length of the whitespace run that ends `s`. */
  function TrailingSpaces(s: string): (n: nat)
    ensures n <= |s|
    ensures SpaceBetween(s, |s| - n, |s|)
    ensures n < |s| ==> !IsSpace(s[|s| - 1 - n])
  {
    if |s| == 0 || !IsSpace(s[|s| - 1]) then 0
    else
      var p := s[..|s| - 1];
      var m := TrailingSpaces(p);
      assert forall k :: |p| - m <= k < |p| ==> s[k] == p[k];
      1 + m
  }

  /** `r` is `s` with a whitespace prefix and a whitespace suffix removed. */
  ghost predicate StripsTo(s: string, r: string)
  {
    exists i, j :: 0 <= i <= j <= |s| && r == s[i..j] && SpaceBetween(s, 0, i) && SpaceBetween(s, j, |s|)
  }

  /** Python's `s.strip()`: removes leading and trailing whitespace. */
  function Strip(s: string): (r: string)
    ensures Trimmed(r)
    ensures StripsTo(s, r)
  {
    var i := LeadingSpaces(s);
    var t := s[i..];
    var k := TrailingSpaces(t);
    var j := |s| - k;
    assert forall x :: j <= x < |s| ==> s[x] == t[x - i];
    s[i..j]
  }

  /** The leading whitespace run ends exactly at the first non-space character. */
  lemma LeadingSpacesExact(s: string, i: nat)
    requires i <= |s|
    requires SpaceBetween(s, 0, i)
    requires i < |s| ==> !IsSpace(s[i])
    ensures LeadingSpaces(s) == i
  {
  }

  /** The trailing whitespace run starts exactly after the last non-space character. */
  lemma TrailingSpacesExact(s: string, j: nat)
    requires j <= |s|
    requires SpaceBetween(s, j, |s|)
    requires j > 0 ==> !IsSpace(s[j - 1])
    ensures TrailingSpaces(s) == |s| - j
  {
  }

  /** Cutting whitespace runs that end at non-space characters is stripping. */
  lemma StripBetween(s: string, i: nat, j: nat)
    requires i < j <= |s|
    requires SpaceBetween(s, 0, i) && SpaceBetween(s, j, |s|)
    requires !IsSpace(s[i]) && !IsSpace(s[j - 1])
    ensures Strip(s) == s[i..j]
  {
    LeadingSpacesExact(s, i);
    var t := s[i..];
    assert SpaceBetween(t, j - i, |t|) by {
      assert forall x :: j - i <= x < |t| ==> t[x] == s[x + i];
    }
    assert t[j - i - 1] == s[j - 1];
    TrailingSpacesExact(t, j - i);
  }

  /** Stripping is the unique way to cut `s` down to a non-empty trimmed middle part. */
  lemma StripUnique(s: string, r: string)
    requires StripsTo(s, r)
    requires Trimmed(r)
    requires |r| > 0
    ensures Strip(s) == r
  {
    var i, j :| 0 <= i <= j <= |s| && r == s[i..j] && SpaceBetween(s, 0, i) && SpaceBetween(s, j, |s|);
    assert s[i] == r[0] && s[j - 1] == r[|r| - 1];
    StripBetween(s, i, j);
  }

  /** Where stripping cuts `s`. */
  lemma StripIndices(s: string) returns (i: nat, j: nat)
    ensures i <= j <= |s| && Strip(s) == s[i..j]
    ensures SpaceBetween(s, 0, i) && SpaceBetween(s, j, |s|)
  {
    i, j :| i <= j <= |s| && Strip(s) == s[i..j] && SpaceBetween(s, 0, i) && SpaceBetween(s, j, |s|);
  }

  /** Whitespace runs at the ends cannot reach past a non-space character
      inside `lo..hi`. */
  lemma SpaceRunsOutside(s: string, i: nat, j: nat, lo: nat, hi: nat)
    requires i <= j <= |s| && SpaceBetween(s, 0, i) && SpaceBetween(s, j, |s|)
    requires lo < hi <= |s| && !IsSpace(s[lo]) && !IsSpace(s[hi - 1])
    ensures i <= lo && hi <= j
  {
  }

  /** Stripping never cuts into a part that starts and ends with a non-space
      character: it only removes text around it. */
  lemma StripKeepsInner(before: string, w: string, after: string)
    requires |w| > 0 && !IsSpace(w[0]) && !IsSpace(w[|w| - 1])
    ensures exists b, a :: Strip(before + w + after) == b + w + a
  {
    var b, a := StripAround(before, w, after);
  }

  /** The text that stripping leaves around such a part. */
  lemma StripAround(before: string, w: string, after: string) returns (b: string, a: string)
    requires |w| > 0 && !IsSpace(w[0]) && !IsSpace(w[|w| - 1])
    ensures Strip(before + w + after) == b + w + a
  {
    var s := before + w + after;
    var lo, hi := |before|, |before| + |w|;
    MiddleSlice(before, w, after);
    var i, j := StripIndices(s);
    SpaceRunsOutside(s, i, j, lo, hi);
    SliceAround(s, i, lo, hi, j, w);
    b, a := s[i..lo], s[hi..j];
  }

  /** The middle part of a concatenation of three, and its end characters. */
  lemma MiddleSlice(before: string, w: string, after: string)
    requires |w| > 0
    ensures var s := before + w + after;
            && s[|before|..|before| + |w|] == w
            && s[|before|] == w[0]
            && s[|before| + |w| - 1] == w[|w| - 1]
  {
  }

  /** A slice around the part `w` at `lo..hi` is what precedes `w`, then `w`,
      then what follows it. */
  lemma SliceAround(s: string, i: nat, lo: nat, hi: nat, j: nat, w: string)
    requires i <= lo <= hi <= j <= |s| && s[lo..hi] == w
    ensures s[i..j] == s[i..lo] + w + s[hi..j]
  {
    assert s[i..j] == s[i..lo] + s[lo..hi] + s[hi..j];
  }

  /** Stripping an already stripped string changes nothing. */
  lemma StripIdempotent(s: string)
    ensures Strip(Strip(s)) == Strip(s)
  {
    var r := Strip(s);
    if |r| > 0 {
      assert r[0..|r|] == r;
      StripUnique(r, r);
    } else {
      assert LeadingSpaces(r) == 0;
    }
  }

  /** The upper-case letters the model folds: Latin A-Z and Cyrillic U+0400-U+042F. */
  predicate IsUpper(c: char)
  {
    || ('A' <= c <= 'Z')
    || ('\U{400}' <= c <= '\U{42F}')
  }

  /** Python's `str.lower()` on one character, restricted to Latin and basic Cyrillic. */
  function LowerChar(c: char): (d: char)
    ensures !IsUpper(d)
    ensures !IsUpper(c) ==> d == c
    ensures 'A' <= c <= 'Z' ==> d as int == c as int + 0x20
    ensures '\U{410}' <= c <= '\U{42F}' ==> d as int == c as int + 0x20
    ensures '\U{400}' <= c <= '\U{40F}' ==> d as int == c as int + 0x50
  {
    if 'A' <= c <= 'Z' then (c as int + 0x20) as char
    else if '\U{410}' <= c <= '\U{42F}' then (c as int + 0x20) as char
    else if '\U{400}' <= c <= '\U{40F}' then (c as int + 0x50) as char
    else c
  }

  /** Python's `s.lower()`, character by character. */
  function Lower(s: string): (r: string)
    ensures |r| == |s|
    ensures forall i :: 0 <= i < |s| ==> r[i] == LowerChar(s[i])
  {
    seq(|s|, i requires 0 <= i < |s| => LowerChar(s[i]))
  }

  /** Lower-casing twice is lower-casing once. */
  lemma LowerIdempotent(s: string)
    ensures Lower(Lower(s)) == Lower(s)
  {
    assert forall i :: 0 <= i < |s| ==> Lower(Lower(s))[i] == Lower(s)[i];
  }

  /** Lower-casing distributes over concatenation. */
  lemma LowerConcat(a: string, b: string)
    ensures Lower(a + b) == Lower(a) + Lower(b)
  {
    assert forall i :: 0 <= i < |a + b| ==> Lower(a + b)[i] == (Lower(a) + Lower(b))[i];
  }

  /** A string with no folded upper-case letter is its own lower case. */
  lemma LowerOfLowercase(s: string)
    requires forall i :: 0 <= i < |s| ==> !IsUpper(s[i])
    ensures Lower(s) == s
  {
    assert forall i :: 0 <= i < |s| ==> Lower(s)[i] == s[i];
  }

  /** `pat` sits in `t` starting at index `i`. */
  ghost predicate OccursAt(pat: string, t: string, i: int)
  {
    0 <= i <= |t| - |pat| && t[i..i + |pat|] == pat
  }

  /** Reference meaning of Python's `pat in t`: `pat` is a contiguous slice of `t`. */
  ghost predicate Occurs(pat: string, t: string)
  {
    exists i :: OccursAt(pat, t, i)
  }

  /** An occurrence is found at the front of `t` or in the rest of it. */
  lemma OccursStep(pat: string, t: string)
    requires |pat| <= |t|
    requires t[..|pat|] != pat
    ensures Occurs(pat, t) <==> Occurs(pat, t[1..])
  {
    if Occurs(pat, t) {
      var i :| OccursAt(pat, t, i);
      assert i != 0;
      assert OccursAt(pat, t[1..], i - 1) by {
        assert t[1..][i - 1..i - 1 + |pat|] == t[i..i + |pat|];
      }
    }
    if Occurs(pat, t[1..]) {
      var i :| OccursAt(pat, t[1..], i);
      assert OccursAt(pat, t, i + 1) by {
        assert t[1..][i..i + |pat|] == t[i + 1..i + 1 + |pat|];
      }
    }
  }

  /** Python's `pat in t` on strings, by scanning `t` from the left. */
  function Contains(t: string, pat: string): (r: bool)
    ensures r <==> Occurs(pat, t)
    decreases |t|
  {
    if |pat| > |t| then false
    else if t[..|pat|] == pat then
      assert OccursAt(pat, t, 0);
      true
    else
      OccursStep(pat, t);
      Contains(t[1..], pat)
  }

  /** A pattern placed anywhere inside a longer string occurs in it. */
  lemma OccursInside(a: string, pat: string, b: string)
    ensures Occurs(pat, a + pat + b)
  {
    var t := a + pat + b;
    assert t[|a|..|a| + |pat|] == pat;
    assert OccursAt(pat, t, |a|);
  }
}
