/** The three string operations the answer comparisons use:
    `str.lower()`, `str.strip()` and the containment test `needle in hay`. */
module Text {

  /** The characters for which Python's `str.isspace()` holds, which are the
      characters `str.strip()` with no argument removes. */
  predicate IsSpace(c: char) {
    || c == ' '
    || ('\U{9}' <= c <= '\U{D}')
    || ('\U{1C}' <= c <= '\U{1F}')
    || c == '\U{85}' || c == '\U{A0}' || c == '\U{1680}'
    || ('\U{2000}' <= c <= '\U{200A}')
    || c == '\U{2028}' || c == '\U{2029}' || c == '\U{202F}' || c == '\U{205F}' || c == '\U{3000}'
  }

  predicate IsUpper(c: char) {
    'A' <= c <= 'Z'
  }

  /** Lower-cases one character; only ASCII letters change. */
  function LowerChar(c: char): (d: char)
    ensures !IsUpper(d)
    ensures IsSpace(d) == IsSpace(c)
    ensures c != d ==> IsUpper(c) && d as int == c as int + 32
  {
    if IsUpper(c) then (c as int + 32) as char else c
  }

  /** `s.lower()`, restricted to ASCII case folding. */
  function Lower(s: string): (r: string)
    ensures |r| == |s|
    ensures forall i :: 0 <= i < |s| ==> r[i] == LowerChar(s[i])
  {
    seq(|s|, i requires 0 <= i < |s| => LowerChar(s[i]))
  }

  /** `s[i..j]` is what stripping `s` keeps: only whitespace lies outside
      it, and when it is not empty it neither starts nor ends with whitespace. */
  ghost predicate StripsTo(s: string, i: int, j: int) {
    && 0 <= i <= j <= |s|
    && (forall k :: 0 <= k < i ==> IsSpace(s[k]))
    && (forall k :: j <= k < |s| ==> IsSpace(s[k]))
    && (i < j ==> !IsSpace(s[i]) && !IsSpace(s[j - 1]))
  }

  /** The independent description of `s.strip()`. */
  ghost predicate IsStripOf(r: string, s: string) {
    exists i, j :: StripsTo(s, i, j) && r == s[i..j]
  }

  /** Number of leading whitespace characters of `s`. */
  function LeadCount(s: string): (n: nat)
    ensures n <= |s|
    ensures forall i :: 0 <= i < n ==> IsSpace(s[i])
    ensures n < |s| ==> !IsSpace(s[n])
  {
    if s == [] || !IsSpace(s[0]) then 0 else 1 + LeadCount(s[1..])
  }

  /** Number of trailing whitespace characters of `s`. */
  function TrailCount(s: string): (n: nat)
    ensures n <= |s|
    ensures forall i :: |s| - n <= i < |s| ==> IsSpace(s[i])
    ensures n < |s| ==> !IsSpace(s[|s| - 1 - n])
  {
    if s == [] || !IsSpace(s[|s| - 1]) then 0 else 1 + TrailCount(s[..|s| - 1])
  }

  /** `s.strip()`: `s` without its leading and trailing whitespace. */
  function Strip(s: string): (r: string)
    ensures |r| <= |s|
  {
    var lead := LeadCount(s);
    if lead == |s| then [] else s[lead..|s| - TrailCount(s)]
  }

  /** `Strip` meets the independent description of stripping. */
  lemma StripIsStrip(s: string)
    ensures IsStripOf(Strip(s), s)
  {
    var lead := LeadCount(s);
    if lead == |s| {
      assert StripsTo(s, 0, 0) && s[0..0] == [];
    } else {
      assert StripsTo(s, lead, |s| - TrailCount(s));
    }
  }

  /** Wherever the description places the kept slice, it is the one `Strip` keeps. */
  lemma StripAt(s: string, i: int, j: int)
    requires StripsTo(s, i, j)
    ensures Strip(s) == s[i..j]
  {
    if i < j {
      assert LeadCount(s) == i;
      assert TrailCount(s) == |s| - j;
    }
  }

  /** At most one string is the strip of `s`, so `Strip` is exactly `IsStripOf`. */
  lemma StripUnique(r: string, s: string)
    requires IsStripOf(r, s)
    ensures r == Strip(s)
  {
    var i, j :| StripsTo(s, i, j) && r == s[i..j];
    StripAt(s, i, j);
  }

  lemma {:induction false} LeadCountLower(s: string)
    ensures LeadCount(Lower(s)) == LeadCount(s)
  {
    if s != [] {
      assert Lower(s)[1..] == Lower(s[1..]);
      LeadCountLower(s[1..]);
    }
  }

  lemma {:induction false} TrailCountLower(s: string)
    ensures TrailCount(Lower(s)) == TrailCount(s)
  {
    if s != [] {
      var init := s[..|s| - 1];
      assert Lower(s)[..|s| - 1] == Lower(init);
      TrailCountLower(init);
    }
  }

  /** Lower-casing a slice is slicing the lower-cased string. */
  lemma LowerSlice(s: string, i: nat, j: nat)
    requires i <= j <= |s|
    ensures Lower(s[i..j]) == Lower(s)[i..j]
  {
    assert forall k :: 0 <= k < j - i ==> Lower(s[i..j])[k] == LowerChar(s[i + k]);
  }

  /** Lower-casing keeps whitespace where it is, so stripping and
      lower-casing can be done in either order. */
  lemma StripLowerCommute(s: string)
    ensures Lower(Strip(s)) == Strip(Lower(s))
  {
    LeadCountLower(s);
    TrailCountLower(s);
    var lead, trail := LeadCount(s), TrailCount(s);
    if lead < |s| {
      var j := |s| - trail;
      assert Strip(s) == s[lead..j];
      LowerSlice(s, lead, j);
      assert Strip(Lower(s)) == Lower(s)[lead..j];
    }
  }

  /** Whitespace added around a string does not change its strip. */
  lemma StripPadded(pre: string, s: string, post: string)
    requires forall k :: 0 <= k < |pre| ==> IsSpace(pre[k])
    requires forall k :: 0 <= k < |post| ==> IsSpace(post[k])
    ensures Strip(pre + s + post) == Strip(s)
  {
    var t := pre + s + post;
    var lead := LeadCount(s);
    var i, j := lead, if lead == |s| then lead else |s| - TrailCount(s);
    assert StripsTo(s, i, j);
    var i', j' := |pre| + i, |pre| + j;
    forall k | 0 <= k < i'
      ensures IsSpace(t[k])
    {
      if k >= |pre| {
        assert t[k] == s[k - |pre|];
      }
    }
    forall k | j' <= k < |t|
      ensures IsSpace(t[k])
    {
      if k < |pre| + |s| {
        assert t[k] == s[k - |pre|];
      } else {
        assert t[k] == post[k - |pre| - |s|];
      }
    }
    assert t[i'..j'] == s[i..j];
    StripAt(t, i', j');
  }

  /** `needle` occurs in `hay` at position 0. */
  predicate StartsWith(hay: string, needle: string) {
    |needle| <= |hay| && hay[..|needle|] == needle
  }

  /** Python's `needle in hay` for strings. */
  predicate Contains(hay: string, needle: string)
    decreases |hay|
  {
    StartsWith(hay, needle) || (hay != [] && Contains(hay[1..], needle))
  }

  /** A string never contains a longer one. */
  lemma {:induction false} ContainsShorter(hay: string, needle: string)
    requires Contains(hay, needle)
    ensures |needle| <= |hay|
    decreases |hay|
  {
    if !StartsWith(hay, needle) {
      ContainsShorter(hay[1..], needle);
    }
  }

  /** `needle` is the slice of `hay` that starts at offset `i`. */
  ghost predicate OccursAt(hay: string, needle: string, i: int) {
    0 <= i && i + |needle| <= |hay| && hay[i..i + |needle|] == needle
  }

  /** An occurrence past the first character is an occurrence in the tail. */
  lemma OccursShift(hay: string, needle: string, i: int)
    requires hay != [] && 1 <= i
    ensures OccursAt(hay, needle, i) <==> OccursAt(hay[1..], needle, i - 1)
  {
    if i + |needle| <= |hay| {
      assert hay[1..][i - 1..i - 1 + |needle|] == hay[i..i + |needle|];
    }
  }

  /** `needle in hay` holds exactly when `needle` occurs in `hay` at some offset. */
  lemma {:induction false} ContainsIff(hay: string, needle: string)
    ensures Contains(hay, needle) <==> exists i :: OccursAt(hay, needle, i)
    decreases |hay|
  {
    assert OccursAt(hay, needle, 0) <==> StartsWith(hay, needle) by {
      if |needle| <= |hay| {
        assert hay[0..|needle|] == hay[..|needle|];
      }
    }
    if StartsWith(hay, needle) {
      assert OccursAt(hay, needle, 0);
    } else if hay != [] {
      ContainsIff(hay[1..], needle);
      if Contains(hay[1..], needle) {
        var i :| OccursAt(hay[1..], needle, i);
        OccursShift(hay, needle, i + 1);
      } else {
        forall i | OccursAt(hay, needle, i)
          ensures false
        {
          if i != 0 {
            OccursShift(hay, needle, i);
          }
        }
      }
    } else {
      forall i | OccursAt(hay, needle, i)
        ensures false
      {
      }
    }
  }
}
