/** The two text formatters of the utilities module: truncating with an
    ellipsis, and turning a title into a URL slug. */
module Format {
  import opened JsText

  // ---------------------------------------------------------------------
  // truncate

  /** The end index String.prototype.slice(0, end) uses on a string of
      length n: a negative end counts back from the end of the string, and
      the index is clamped to [0, n]. */
  function SliceEnd(n: nat, end: int): (k: nat)
    ensures k <= n
    ensures 0 <= end <= n ==> k == end
    ensures end > n ==> k == n
    ensures end < 0 ==> k == (if n + end < 0 then 0 else n + end)
  {
    if end < 0 then (if n + end < 0 then 0 else n + end)
    else if end > n then n
    else end
  }

  /** truncate: the string itself when it fits in maxLength, else its first
      maxLength characters followed by "...". */
  function Truncate(s: string, maxLength: int): (r: string)
    ensures |s| <= maxLength ==> r == s
    ensures |s| > maxLength ==> |r| >= 3 && r[|r| - 3..] == "..." && r[..|r| - 3] <= s
    ensures |s| > maxLength >= 0 ==> |r| == maxLength + 3
    ensures |s| > maxLength && maxLength < 0 ==> |r| == (if |s| + maxLength < 0 then 0 else |s| + maxLength) + 3
  {
    if |s| <= maxLength then s
    else s[..SliceEnd(|s|, maxLength)] + "..."
  }

  /** A truncated string truncates to itself: its first maxLength
      characters are the same prefix, followed by the same "...". */
  lemma TruncateIdempotent(s: string, maxLength: nat)
    ensures Truncate(Truncate(s, maxLength), maxLength) == Truncate(s, maxLength)
  {
    if |s| > maxLength {
      var r := Truncate(s, maxLength);
      assert r[..maxLength] == s[..maxLength];
    }
  }

  // ---------------------------------------------------------------------
  // slugify: lower-case, trim, drop what is not [\w\s-], collapse each
  // run of [\s_-] into one '-', strip leading and trailing '-'.

  /** toLowerCase on one character as far as slugify can see it: ASCII
      capitals, KELVIN SIGN (lower case k) and LATIN CAPITAL LETTER I WITH
      DOT ABOVE (lower case i followed by COMBINING DOT ABOVE). Every other
      character is kept; toLowerCase maps no other character to an ASCII
      or whitespace character, so the difference is removed by the next
      steps. */
  function SlugLowerChar(c: char): (r: string)
    ensures forall i :: 0 <= i < |r| ==> !('A' <= r[i] <= 'Z')
    ensures !('A' <= c <= 'Z') && c != '\U{212A}' && c != '\U{130}' ==> r == [c]
  {
    if c == '\U{212A}' then "k"
    else if c == '\U{130}' then "i\U{307}"
    else [LowerChar(c)]
  }

  function SlugLower(s: string): (r: string)
    ensures NoUpper(r)
  {
    if s == [] then [] else SlugLowerChar(s[0]) + SlugLower(s[1..])
  }

  /** The class [\w\s-]: what the first replace keeps. */
  predicate Kept(c: char) {
    IsWordChar(c) || IsSpace(c) || c == '-'
  }

  /** The class [\s_-]: what the second replace collapses. */
  predicate IsSeparator(c: char) {
    IsSpace(c) || c == '_' || c == '-'
  }

  /** `replace(/[^\w\s-]/g, '')` */
  function KeepSlugChars(s: string): (r: string)
    ensures forall i :: 0 <= i < |r| ==> Kept(r[i])
    ensures NoUpper(s) ==> NoUpper(r)
  {
    if s == [] then []
    else if Kept(s[0]) then [s[0]] + KeepSlugChars(s[1..])
    else KeepSlugChars(s[1..])
  }

  /** The characters that can reach the collapse step: kept ones that are
      not ASCII capitals. */
  predicate SlugSource(c: char) {
    Kept(c) && !('A' <= c <= 'Z')
  }

  predicate NoUpper(s: string) {
    forall i :: 0 <= i < |s| ==> !('A' <= s[i] <= 'Z')
  }

  predicate AllSlugSource(s: string) {
    forall i :: 0 <= i < |s| ==> SlugSource(s[i])
  }

  /** The longest prefix of separators is dropped. */
  function DropSeparators(s: string): (r: string)
    ensures |r| <= |s|
    ensures r == [] || !IsSeparator(r[0])
  {
    if s != [] && IsSeparator(s[0]) then DropSeparators(s[1..]) else s
  }

  /** What DropSeparators keeps is the end of s. */
  lemma {:induction false} DropSeparatorsIsSuffix(s: string)
    ensures DropSeparators(s) == s[|s| - |DropSeparators(s)|..]
  {
    if s != [] && IsSeparator(s[0]) {
      DropSeparatorsIsSuffix(s[1..]);
      assert s[1..][|s| - 1 - |DropSeparators(s)|..] == s[|s| - |DropSeparators(s)|..];
    }
  }

  /** `replace(/[\s_-]+/g, '-')`: each maximal run of separators becomes
      one '-'. */
  function Collapse(s: string): (r: string)
    ensures AllSlugSource(s) ==> forall i :: 0 <= i < |r| ==> SlugChar(r[i])
    ensures NoDoubleDash(r)
    ensures s == [] <==> r == []
    ensures s != [] ==> (r[0] == '-' <==> IsSeparator(s[0]))
    decreases |s|
  {
    if s == [] then []
    else if IsSeparator(s[0]) then
      var rest := DropSeparators(s[1..]);
      SourceAfterSeparators(s);
      "-" + Collapse(rest)
    else
      SourceOfSlice(s, 1);
      [s[0]] + Collapse(s[1..])
  }

  /** What follows a run of separators is made of the same characters. */
  lemma SourceAfterSeparators(s: string)
    requires s != []
    ensures AllSlugSource(s) ==> AllSlugSource(DropSeparators(s[1..]))
  {
    DropSeparatorsIsSuffix(s[1..]);
    SourceOfSlice(s[1..], |s| - 1 - |DropSeparators(s[1..])|);
    SourceOfSlice(s, 1);
  }

  lemma SourceOfSlice(s: string, k: nat)
    requires k <= |s|
    ensures AllSlugSource(s) ==> AllSlugSource(s[k..])
  {
    if AllSlugSource(s) {
      forall i | 0 <= i < |s| - k
        ensures SlugSource(s[k..][i])
      {
        assert s[k..][i] == s[k + i];
      }
    }
  }

  /** `replace(/^-+/, '')` */
  function DropLeadingDashes(s: string): (r: string)
    ensures |r| <= |s|
    ensures r == [] || r[0] != '-'
  {
    if s != [] && s[0] == '-' then DropLeadingDashes(s[1..]) else s
  }

  /** What DropLeadingDashes keeps is the end of s. */
  lemma {:induction false} DropLeadingDashesIsSuffix(s: string)
    ensures DropLeadingDashes(s) == s[|s| - |DropLeadingDashes(s)|..]
  {
    if s != [] && s[0] == '-' {
      DropLeadingDashesIsSuffix(s[1..]);
      assert s[1..][|s| - 1 - |DropLeadingDashes(s)|..] == s[|s| - |DropLeadingDashes(s)|..];
    }
  }

  /** `replace(/-+$/, '')` */
  function DropTrailingDashes(s: string): (r: string)
    ensures r <= s
    ensures r == [] || r[|r| - 1] != '-'
  {
    if s != [] && s[|s| - 1] == '-' then DropTrailingDashes(s[..|s| - 1]) else s
  }

  /** `replace(/^-+|-+$/g, '')`: both ends stripped of '-'; a string of
      dashes only becomes empty. */
  function StripDashes(s: string): (r: string)
    ensures r == [] || (r[0] != '-' && r[|r| - 1] != '-')
  {
    var t := DropLeadingDashes(s);
    var r := DropTrailingDashes(t);
    assert r != [] ==> r[0] == t[0];
    r
  }

  /** slugify: every output is a slug. */
  function Slugify(s: string): (r: string)
    ensures IsSlug(r)
  {
    SlugStepsGiveSlug(s);
    StripDashes(Collapse(KeepSlugChars(Trim(SlugLower(s)))))
  }

  // ---------------------------------------------------------------------
  // What a slug looks like

  predicate SlugChar(c: char) {
    'a' <= c <= 'z' || '0' <= c <= '9' || c == '-'
  }

  predicate NoDoubleDash(t: string) {
    forall i :: 0 <= i < |t| - 1 ==> !(t[i] == '-' && t[i + 1] == '-')
  }

  /** Lower-case ASCII letters, digits and '-', with no '-' at either end
      and never two in a row. */
  predicate IsSlug(t: string) {
    && (forall i :: 0 <= i < |t| ==> SlugChar(t[i]))
    && (t == [] || (t[0] != '-' && t[|t| - 1] != '-'))
    && NoDoubleDash(t)
  }

  lemma TrimKeepsNoUpper(s: string)
    requires NoUpper(s)
    ensures NoUpper(Trim(s))
  {
    var t := TrimStart(s);
    var k := |s| - |t|;
    TrimStartIsSuffix(s);
    forall i | 0 <= i < |t|
      ensures !('A' <= t[i] <= 'Z')
    {
      assert t[i] == s[k + i];
    }
    var r := TrimEnd(t);
    forall i | 0 <= i < |r|
      ensures !('A' <= r[i] <= 'Z')
    {
      assert r[i] == t[i];
    }
  }

  /** A slice of a string of slug characters without "--" is one too. */
  lemma SliceKeepsSlugChars(s: string, a: nat, b: nat)
    requires a <= b <= |s|
    requires forall i :: 0 <= i < |s| ==> SlugChar(s[i])
    requires NoDoubleDash(s)
    ensures forall i :: 0 <= i < b - a ==> SlugChar(s[a..b][i])
    ensures NoDoubleDash(s[a..b])
  {
    var r := s[a..b];
    forall i | 0 <= i < |r|
      ensures SlugChar(r[i])
    {
      assert r[i] == s[a + i];
    }
    forall i | 0 <= i < |r| - 1
      ensures !(r[i] == '-' && r[i + 1] == '-')
    {
      assert r[i] == s[a + i];
      assert r[i + 1] == s[a + i + 1];
    }
  }

  /** Stripping dashes keeps a slice, so the characters and the absence of
      "--" carry over. */
  lemma StripDashesKeeps(s: string)
    requires forall i :: 0 <= i < |s| ==> SlugChar(s[i])
    requires NoDoubleDash(s)
    ensures IsSlug(StripDashes(s))
  {
    var t := DropLeadingDashes(s);
    var k := |s| - |t|;
    DropLeadingDashesIsSuffix(s);
    var r := DropTrailingDashes(t);
    assert r == s[k..k + |r|];
    SliceKeepsSlugChars(s, k, k + |r|);
  }

  /** The steps of slugify, applied in turn, leave a slug. */
  lemma SlugStepsGiveSlug(s: string)
    ensures IsSlug(StripDashes(Collapse(KeepSlugChars(Trim(SlugLower(s))))))
  {
    var l := SlugLower(s);
    var t := Trim(l);
    TrimKeepsNoUpper(l);
    var k := KeepSlugChars(t);
    assert AllSlugSource(k);
    var c := Collapse(k);
    StripDashesKeeps(c);
  }

  // ---------------------------------------------------------------------
  // A slug is left as it is

  lemma {:induction false} SlugLowerOfSlugChars(t: string)
    requires forall i :: 0 <= i < |t| ==> SlugChar(t[i])
    ensures SlugLower(t) == t
  {
    if t != [] {
      SlugLowerOfSlugChars(t[1..]);
    }
  }

  lemma {:induction false} KeepOfSlugChars(t: string)
    requires forall i :: 0 <= i < |t| ==> SlugChar(t[i])
    ensures KeepSlugChars(t) == t
  {
    if t != [] {
      KeepOfSlugChars(t[1..]);
    }
  }

  lemma {:induction false} CollapseOfSlugChars(t: string)
    requires forall i :: 0 <= i < |t| ==> SlugChar(t[i])
    requires NoDoubleDash(t)
    ensures Collapse(t) == t
    decreases |t|
  {
    if t != [] {
      var rest := t[1..];
      assert t[1..|t|] == rest;
      SliceKeepsSlugChars(t, 1, |t|);
      CollapseOfSlugChars(rest);
      CollapseOfHead(t, rest);
    }
  }

  /** One step of CollapseOfSlugChars: a slug character in front of a tail
      that Collapse leaves alone is kept, a '-' because no separator
      follows it. */
  lemma CollapseOfHead(t: string, rest: string)
    requires t != [] && rest == t[1..] && SlugChar(t[0])
    requires rest == [] || SlugChar(rest[0])
    requires t[0] == '-' && rest != [] ==> rest[0] != '-'
    requires Collapse(rest) == rest
    ensures Collapse(t) == t
  {
    SlugSeparator(t[0]);
    if t[0] == '-' {
      if rest != [] {
        SlugSeparator(rest[0]);
      }
      assert DropSeparators(rest) == rest;
    }
    assert t == [t[0]] + rest;
  }

  /** Among slug characters only '-' is a separator. */
  lemma SlugSeparator(c: char)
    requires SlugChar(c)
    ensures IsSeparator(c) <==> c == '-'
  {
  }

  lemma TrimOfSlug(t: string)
    requires IsSlug(t)
    ensures Trim(t) == t
  {
    if t != [] {
      assert !IsSpace(t[0]) && !IsSpace(t[|t| - 1]);
      assert TrimStart(t) == t;
      assert TrimEnd(t) == t;
    }
  }

  lemma StripOfSlug(t: string)
    requires IsSlug(t)
    ensures StripDashes(t) == t
  {
    assert DropLeadingDashes(t) == t;
    assert DropTrailingDashes(t) == t;
  }

  /** A slug is its own slug. */
  lemma SlugIsFixed(t: string)
    requires IsSlug(t)
    ensures Slugify(t) == t
  {
    SlugLowerOfSlugChars(t);
    var l := SlugLower(t);
    TrimOfSlug(l);
    var m := Trim(l);
    KeepOfSlugChars(m);
    var k := KeepSlugChars(m);
    CollapseOfSlugChars(k);
    var c := Collapse(k);
    StripOfSlug(c);
    assert Slugify(t) == StripDashes(c);
  }

  /** slugify is idempotent. */
  lemma SlugifyIdempotent(s: string)
    ensures Slugify(Slugify(s)) == Slugify(s)
  {
    SlugIsFixed(Slugify(s));
  }
}
