/** The parts of JavaScript's string semantics that the validators, prompt
    builders and utilities rely on: the whitespace set of trim() and \s,
    ASCII case mapping, substring search, split on /\s+/, split('.').pop(),
    number-to-string conversion and toFixed(2). A Dafny char is a Unicode
    scalar value; for text in the Basic Multilingual Plane that is one
    UTF-16 code unit, as in JavaScript. */
module JsText {

  // ---------------------------------------------------------------------
  // Character classes

  /** ECMAScript WhiteSpace and LineTerminator code points: the set that
      String.prototype.trim removes and that the class \s matches. */
  predicate IsSpace(c: char) {
    || c == '\t' || c == '\n' || c == '\U{B}' || c == '\U{C}' || c == '\r' || c == ' '
    || c == '\U{A0}' || c == '\U{1680}' || ('\U{2000}' <= c <= '\U{200A}')
    || c == '\U{2028}' || c == '\U{2029}' || c == '\U{202F}' || c == '\U{205F}'
    || c == '\U{3000}' || c == '\U{FEFF}'
  }

  /** The class [a-zA-Z]. */
  predicate IsAsciiLetter(c: char) {
    'a' <= c <= 'z' || 'A' <= c <= 'Z'
  }

  /** The class [0-9]. */
  predicate IsDigit(c: char) {
    '0' <= c <= '9'
  }

  /** The class \w. */
  predicate IsWordChar(c: char) {
    IsAsciiLetter(c) || IsDigit(c) || c == '_'
  }

  predicate AllSpace(s: string) {
    forall i :: 0 <= i < |s| ==> IsSpace(s[i])
  }

  // ---------------------------------------------------------------------
  // String.prototype.trim

  function TrimStart(s: string): (r: string)
    ensures |r| <= |s|
    ensures r == [] || !IsSpace(r[0])
    ensures AllSpace(s[..|s| - |r|])
  {
    if s != [] && IsSpace(s[0]) then
      var r := TrimStart(s[1..]);
      var n := |s| - |r|;
      assert AllSpace(s[..n]) by {
        forall i | 0 <= i < n ensures IsSpace(s[..n][i]) {
          if i > 0 {
            assert s[..n][i] == s[1..][..n - 1][i - 1];
          }
        }
      }
      r
    else s
  }

  /** What trimStart keeps is the end of s. */
  lemma {:induction false} TrimStartIsSuffix(s: string)
    ensures TrimStart(s) == s[|s| - |TrimStart(s)|..]
  {
    if s != [] && IsSpace(s[0]) {
      TrimStartIsSuffix(s[1..]);
      assert s[1..][|s| - 1 - |TrimStart(s)|..] == s[|s| - |TrimStart(s)|..];
    }
  }

  function TrimEnd(s: string): (r: string)
    ensures r <= s
    ensures r == [] || !IsSpace(r[|r| - 1])
    ensures forall i :: |r| <= i < |s| ==> IsSpace(s[i])
  {
    if s != [] && IsSpace(s[|s| - 1]) then
      var r := TrimEnd(s[..|s| - 1]);
      assert forall i :: 0 <= i < |s| - 1 ==> s[i] == s[..|s| - 1][i];
      r
    else s
  }

  /** String.prototype.trim: the longest infix that neither starts nor ends
      with whitespace. */
  function Trim(s: string): (r: string)
    ensures |r| <= |s|
    ensures r == [] || (!IsSpace(r[0]) && !IsSpace(r[|r| - 1]))
  {
    TrimEnd(TrimStart(s))
  }

  /** trim() gives the empty string exactly when every character is
      whitespace. */
  lemma TrimEmptyIff(s: string)
    ensures Trim(s) == [] <==> AllSpace(s)
  {
    var t := TrimStart(s);
    var k := |s| - |t|;
    TrimStartIsSuffix(s);
    if t != [] {
      assert s[k] == t[0];
    } else {
      forall i | 0 <= i < |s| ensures IsSpace(s[i]) {
      }
    }
  }

  lemma TrimStartSkipsSpace(c: char, s: string)
    requires IsSpace(c)
    ensures TrimStart([c] + s) == TrimStart(s)
  {
    assert ([c] + s)[1..] == s;
  }

  lemma {:induction false} TrimEndDropsPadding(s: string, pad: string)
    requires AllSpace(pad)
    ensures TrimEnd(s + pad) == TrimEnd(s)
    decreases |pad|
  {
    if pad != [] {
      var shorter := pad[..|pad| - 1];
      assert IsSpace((s + pad)[|s + pad| - 1]);
      calc {
        TrimEnd(s + pad);
        TrimEnd((s + pad)[..|s + pad| - 1]);
        { assert (s + pad)[..|s + pad| - 1] == s + shorter; }
        TrimEnd(s + shorter);
        { TrimEndDropsPadding(s, shorter); }
        TrimEnd(s);
      }
    } else {
      assert s + pad == s;
    }
  }

  /** Trimming the end never cuts into text that is followed by a
      non-whitespace character. */
  lemma TrimEndKeepsPrefix(x: string, y: string, j: nat)
    requires j < |y| && !IsSpace(y[j])
    ensures x <= TrimEnd(x + y)
  {
    assert (x + y)[|x| + j] == y[j];
  }

  /** Trimming the end keeps every character up to a non-whitespace one. */
  lemma TrimEndKeepsUpToLast(x: string, y: string)
    requires x != [] && !IsSpace(x[|x| - 1])
    ensures x <= TrimEnd(x + y)
  {
    var r := TrimEnd(x + y);
    assert (x + y)[|x| - 1] == x[|x| - 1];
    assert |r| >= |x|;
    assert r[..|x|] == (x + y)[..|x|];
  }

  /** Leading whitespace in front of a word is all that trimStart removes. */
  lemma {:induction false} TrimStartDropsLead(lead: string, s: string)
    requires AllSpace(lead)
    requires s == [] || !IsSpace(s[0])
    ensures TrimStart(lead + s) == s
    decreases |lead|
  {
    if lead == [] {
      assert lead + s == s;
    } else {
      assert lead + s == [lead[0]] + (lead[1..] + s);
      TrimStartSkipsSpace(lead[0], lead[1..] + s);
      TrimStartDropsLead(lead[1..], s);
    }
  }

  /** Text with whitespace-free ends is recovered from any whitespace
      padding around it. */
  lemma TrimOfPadded(lead: string, mid: string, tail: string)
    requires AllSpace(lead) && AllSpace(tail)
    requires mid != [] && !IsSpace(mid[0]) && !IsSpace(mid[|mid| - 1])
    ensures Trim(lead + mid + tail) == mid
  {
    assert lead + mid + tail == lead + (mid + tail);
    TrimStartDropsLead(lead, mid + tail);
    TrimEndDropsPadding(mid, tail);
  }

  /** How many whitespace characters trim() removes from the front. */
  function LeadingSpaceCount(s: string): nat {
    |s| - |TrimStart(s)|
  }

  /** trim() returns the slice of s that starts after the leading
      whitespace, and that slice reaches past every non-whitespace
      character of s. */
  lemma TrimWindow(s: string, i: int)
    requires 0 <= i < |s| && !IsSpace(s[i])
    ensures LeadingSpaceCount(s) <= i < LeadingSpaceCount(s) + |Trim(s)|
    ensures Trim(s) == s[LeadingSpaceCount(s)..LeadingSpaceCount(s) + |Trim(s)|]
  {
    var k := LeadingSpaceCount(s);
    var t := TrimStart(s);
    TrimStartIsSuffix(s);
    assert t == s[k..];
    var r := TrimEnd(t);
    assert t[i - k] == s[i];
    assert r == t[..|r|];
  }

  /** Whatever stands between whitespace-free ends survives trimming, with
      the characters around it (if trimming keeps them). */
  lemma TrimKeepsInfix(a: string, x: string, b: string) returns (m: nat)
    requires x != [] && !IsSpace(x[0]) && !IsSpace(x[|x| - 1])
    ensures m <= |a| && OccursAt(Trim(a + x + b), x, m)
    ensures m > 0 ==> Trim(a + x + b)[m - 1] == a[|a| - 1]
    ensures m + |x| < |Trim(a + x + b)| ==> b != [] && Trim(a + x + b)[m + |x|] == b[0]
    ensures Contains(Trim(a + x + b), x)
  {
    var k := TrimSpan(a + x + b, |a|, |a| + |x| - 1);
    m := |a| - k;
    InfixOfWindow(a, x, b, Trim(a + x + b), k, m);
  }

  /** Two non-whitespace positions i <= j of s both lie in the slice that
      trim() keeps; k is where that slice starts. */
  lemma TrimSpan(s: string, i: int, j: int) returns (k: nat)
    requires 0 <= i <= j < |s| && !IsSpace(s[i]) && !IsSpace(s[j])
    ensures k <= i && j < k + |Trim(s)| <= |s|
    ensures Trim(s) == s[k..k + |Trim(s)|]
  {
    TrimWindow(s, i);
    TrimWindow(s, j);
    k := LeadingSpaceCount(s);
  }

  /** A window of a + x + b that covers x holds x, and the characters
      around it. */
  lemma InfixOfWindow(a: string, x: string, b: string, r: string, k: nat, m: nat)
    requires k <= |a| && |a| + |x| <= k + |r| <= |a + x + b|
    requires r == (a + x + b)[k..k + |r|] && m == |a| - k
    ensures OccursAt(r, x, m) && Contains(r, x)
    ensures m > 0 ==> r[m - 1] == a[|a| - 1]
    ensures m + |x| < |r| ==> b != [] && r[m + |x|] == b[0]
  {
    var s := a + x + b;
    assert s[|a|..|a| + |x|] == x;
    assert r[m..m + |x|] == x by {
      forall j | 0 <= j < |x| ensures r[m..m + |x|][j] == x[j] {
        assert r[m + j] == s[|a| + j];
      }
    }
    assert OccursAt(r, x, m);
    if m > 0 {
      assert r[m - 1] == s[|a| - 1] == a[|a| - 1];
    }
    if m + |x| < |r| {
      assert r[m + |x|] == s[|a| + |x|] == b[0];
    }
  }

  // ---------------------------------------------------------------------
  // Case mapping

  /** String.prototype.toLowerCase on one character, for the ASCII range. */
  function LowerChar(c: char): (d: char)
    ensures IsAsciiLetter(c) ==> 'a' <= d <= 'z'
    ensures !('A' <= c <= 'Z') ==> d == c
  {
    if 'A' <= c <= 'Z' then (c as int - 'A' as int + 'a' as int) as char else c
  }

  /** String.prototype.toLowerCase, for the ASCII range. */
  function Lower(s: string): (r: string)
    ensures |r| == |s|
    ensures forall i :: 0 <= i < |s| ==> r[i] == LowerChar(s[i])
  {
    if s == [] then [] else [LowerChar(s[0])] + Lower(s[1..])
  }

  lemma LowerDistributes(a: string, b: string)
    ensures Lower(a + b) == Lower(a) + Lower(b)
  {
  }

  /** Lower-casing keeps an occurrence where it was. */
  lemma LowerKeepsOccurrence(s: string, x: string, i: int)
    requires OccursAt(s, x, i)
    ensures OccursAt(Lower(s), Lower(x), i)
  {
    assert forall j :: 0 <= j < |x| ==> Lower(s)[i..i + |x|][j] == LowerChar(s[i + j]) == LowerChar(x[j]);
  }

  // ---------------------------------------------------------------------
  // Substring search

  predicate OccursAt(s: string, t: string, i: int) {
    0 <= i <= |s| - |t| && s[i..i + |t|] == t
  }

  /** String.prototype.includes (and a regular expression that is a plain
      literal). */
  predicate Contains(s: string, t: string) {
    exists i :: 0 <= i <= |s| - |t| && OccursAt(s, t, i)
  }

  /** An occurrence after the first character is an occurrence in the
      whole string. */
  lemma ContainsInTail(s: string, t: string)
    requires s != [] && Contains(s[1..], t)
    ensures Contains(s, t)
  {
    var i :| 0 <= i <= |s[1..]| - |t| && OccursAt(s[1..], t, i);
    assert s[i + 1..i + 1 + |t|] == s[1..][i..i + |t|];
    assert OccursAt(s, t, i + 1);
  }

  lemma OccursInConcat(a: string, x: string, b: string)
    ensures OccursAt(a + x + b, x, |a|)
  {
    assert (a + x + b)[|a|..|a| + |x|] == x;
  }

  /** An occurrence inside a prefix is an occurrence in the whole string. */
  lemma OccursInLonger(p: string, s: string, x: string, i: int)
    requires p <= s && OccursAt(p, x, i)
    ensures OccursAt(s, x, i)
  {
    assert s[i..i + |x|] == p[i..i + |x|];
  }

  /** No character c of s is directly followed by d. */
  predicate PairFree(s: string, c: char, d: char) {
    forall i :: 0 <= i < |s| - 1 ==> s[i] != c || s[i + 1] != d
  }

  /** Two pair-free strings stay pair-free when joined, unless the first
      ends in c and the second starts with d. */
  lemma PairFreeConcat(s1: string, s2: string, c: char, d: char)
    requires PairFree(s1, c, d) && PairFree(s2, c, d)
    requires s1 == [] || s2 == [] || s1[|s1| - 1] != c || s2[0] != d
    ensures PairFree(s1 + s2, c, d)
  {
    var s := s1 + s2;
    forall i | 0 <= i < |s| - 1
      ensures s[i] != c || s[i + 1] != d
    {
      if i + 1 < |s1| {
        assert s[i] == s1[i] && s[i + 1] == s1[i + 1];
      } else if i >= |s1| {
        assert s[i] == s2[i - |s1|] && s[i + 1] == s2[i + 1 - |s1|];
      }
    }
  }

  /** A string cannot contain t when two adjacent characters of t never
      appear next to each other in it. */
  lemma PairAbsent(s: string, t: string, k: nat)
    requires k + 1 < |t|
    requires PairFree(s, t[k], t[k + 1])
    ensures !Contains(s, t)
  {
    forall i | 0 <= i <= |s| - |t|
      ensures !OccursAt(s, t, i)
    {
      assert s[i..i + |t|][k] == s[i + k] && s[i..i + |t|][k + 1] == s[i + k + 1];
    }
  }

  /** An occurrence of t in a + x + b cannot meet x when x is non-empty and
      shares no character with t, so it lies in a or in b. */
  lemma ContainsAroundForeign(a: string, x: string, b: string, t: string)
    requires x != [] && Contains(a + x + b, t)
    requires forall i, j :: 0 <= i < |x| && 0 <= j < |t| ==> x[i] != t[j]
    ensures Contains(a, t) || Contains(b, t)
  {
    var s := a + x + b;
    var p :| 0 <= p <= |s| - |t| && OccursAt(s, t, p);
    if t == [] {
      assert OccursAt(a, t, 0);
    } else if p + |t| <= |a| {
      assert a[p..p + |t|] == s[p..p + |t|];
      assert OccursAt(a, t, p);
    } else if p >= |a| + |x| {
      var q := p - |a| - |x|;
      assert b[q..q + |t|] == s[p..p + |t|];
      assert OccursAt(b, t, q);
    } else {
      OverlapSharesChar(a, x, b, t, p);
      assert false;
    }
  }

  /** An occurrence of t that overlaps x puts a character of x in t. */
  lemma OverlapSharesChar(a: string, x: string, b: string, t: string, p: int)
    requires OccursAt(a + x + b, t, p)
    requires x != [] && t != [] && |a| < p + |t| && p < |a| + |x|
    ensures exists i, j :: 0 <= i < |x| && 0 <= j < |t| && x[i] == t[j]
  {
    var s := a + x + b;
    var q := if p < |a| then |a| else p;
    assert s[q] == s[p..p + |t|][q - p];
    assert s[q] == x[q - |a|];
    assert x[q - |a|] == t[q - p];
  }

  // ---------------------------------------------------------------------
  // Splitting

  /** A word: no whitespace in it. */
  predicate NoSpace(w: string) {
    forall j :: 0 <= j < |w| ==> !IsSpace(w[j])
  }

  function IndexOfSpace(s: string): (i: nat)
    ensures i <= |s| && (i < |s| ==> IsSpace(s[i]))
    ensures forall j :: 0 <= j < i ==> !IsSpace(s[j])
  {
    if s == [] || IsSpace(s[0]) then 0 else 1 + IndexOfSpace(s[1..])
  }

  /** String.prototype.split(/\s+/): the pieces between maximal runs of
      whitespace, with an empty first (last) piece when s starts (ends) with
      whitespace. */
  function SplitOnSpaces(s: string): (r: seq<string>)
    ensures r != []
    decreases |s|
  {
    var i := IndexOfSpace(s);
    if i == |s| then [s] else [s[..i]] + SplitOnSpaces(TrimStart(s[i + 1..]))
  }

  /** No piece of split(/\s+/) holds whitespace. */
  lemma {:induction false} SplitPiecesHaveNoSpace(s: string)
    ensures forall k :: 0 <= k < |SplitOnSpaces(s)| ==> NoSpace(SplitOnSpaces(s)[k])
    decreases |s|
  {
    var i := IndexOfSpace(s);
    if i < |s| {
      var first := s[..i];
      assert NoSpace(first) by {
        forall j | 0 <= j < |first| ensures !IsSpace(first[j]) {
          assert first[j] == s[j];
        }
      }
      var rest := TrimStart(s[i + 1..]);
      SplitPiecesHaveNoSpace(rest);
      SplitStep(s, i);
      forall k | 0 <= k < |SplitOnSpaces(s)| ensures NoSpace(SplitOnSpaces(s)[k]) {
        if k > 0 {
          assert SplitOnSpaces(s)[k] == SplitOnSpaces(rest)[k - 1];
        }
      }
    }
  }

  /** Joining the pieces with single spaces gives back s, when s has no
      leading or trailing whitespace and only single spaces between words. */
  function JoinWithSpace(words: seq<string>): string {
    if words == [] then [] else if |words| == 1 then words[0] else words[0] + " " + JoinWithSpace(words[1..])
  }

  /** A word followed by a run of whitespace splits off as the first
      piece, however long the run and whatever whitespace it holds; a run
      at the very end leaves an empty last piece. */
  lemma SplitAfterWord(w: string, run: string, rest: string)
    requires NoSpace(w) && run != [] && AllSpace(run)
    requires rest == [] || !IsSpace(rest[0])
    ensures SplitOnSpaces(w + run + rest) == [w] + SplitOnSpaces(rest)
  {
    var s := w + run + rest;
    CutAfterWord(w, run, rest);
    IndexAfterWord(w, run + rest);
    TrimStartAfterFirst(run, rest);
    SplitStep(s, |w|);
  }

  /** The pieces of w + run + rest on either side of run's first
      character. */
  lemma CutAfterWord(w: string, run: string, rest: string)
    requires run != []
    ensures w + run + rest == w + (run + rest)
    ensures (w + run + rest)[..|w|] == w
    ensures (w + run + rest)[|w| + 1..] == run[1..] + rest
  {
    assert run == [run[0]] + run[1..];
    assert w + run + rest == (w + [run[0]]) + (run[1..] + rest);
  }

  /** After the first character of a whitespace run, trimStart skips the
      rest of the run. */
  lemma TrimStartAfterFirst(run: string, rest: string)
    requires run != [] && AllSpace(run)
    requires rest == [] || !IsSpace(rest[0])
    ensures TrimStart(run[1..] + rest) == rest
  {
    assert AllSpace(run[1..]) by {
      assert forall j :: 0 <= j < |run| - 1 ==> run[1..][j] == run[j + 1];
    }
    TrimStartDropsLead(run[1..], rest);
  }

  /** The first whitespace of w + t, for a word w, is the first character
      of t when that is whitespace. */
  lemma IndexAfterWord(w: string, t: string)
    requires NoSpace(w) && t != [] && IsSpace(t[0])
    ensures IndexOfSpace(w + t) == |w|
  {
    assert forall j :: 0 <= j < |w| ==> (w + t)[j] == w[j];
    assert (w + t)[|w|] == t[0];
  }

  /** One step of split(/\s+/): the piece before the first whitespace,
      then the split of what follows the run it starts. */
  lemma SplitStep(s: string, i: nat)
    requires i == IndexOfSpace(s) && i < |s|
    ensures SplitOnSpaces(s) == [s[..i]] + SplitOnSpaces(TrimStart(s[i + 1..]))
  {
  }

  /** A word with no whitespace is a single piece. */
  lemma SplitOfWord(w: string)
    requires NoSpace(w)
    ensures SplitOnSpaces(w) == [w]
  {
    assert IndexOfSpace(w) == |w|;
  }

  /** Non-empty words without whitespace. */
  predicate Words(words: seq<string>) {
    forall k :: 0 <= k < |words| ==> words[k] != [] && NoSpace(words[k])
  }

  /** Non-empty runs of whitespace. */
  predicate Gaps(gaps: seq<string>) {
    forall k :: 0 <= k < |gaps| ==> gaps[k] != [] && AllSpace(gaps[k])
  }

  lemma JoinStartsWithFirstWord(words: seq<string>)
    requires words != [] && words[0] != []
    ensures JoinWithSpace(words) != [] && JoinWithSpace(words)[0] == words[0][0]
  {
    if |words| > 1 {
      assert JoinWithSpace(words) == words[0] + " " + JoinWithSpace(words[1..]);
    }
  }

  lemma {:induction false} SplitJoinRoundTrip(words: seq<string>)
    requires words != [] && Words(words)
    ensures SplitOnSpaces(JoinWithSpace(words)) == words
    decreases |words|
  {
    if |words| == 1 {
      SplitOfWord(words[0]);
    } else {
      WordsTail(words);
      SplitAfterWord(words[0], " ", JoinWithSpace(words[1..]));
      SplitJoinRoundTrip(words[1..]);
      assert [words[0]] + words[1..] == words;
    }
  }

  /** What SplitJoinRoundTrip needs of the first word and the rest. */
  lemma WordsTail(words: seq<string>)
    requires |words| > 1 && Words(words)
    ensures JoinWithSpace(words) == words[0] + " " + JoinWithSpace(words[1..])
    ensures NoSpace(words[0]) && AllSpace(" ")
    ensures !IsSpace(JoinWithSpace(words[1..])[0])
    ensures Words(words[1..])
  {
    assert forall k :: 0 <= k < |words| - 1 ==> words[1..][k] == words[k + 1];
    assert words[1] != [] && NoSpace(words[1]);
    JoinStartsWithFirstWord(words[1..]);
  }

  /** Words with a non-empty run of whitespace between each two of them. */
  function JoinWithGaps(words: seq<string>, gaps: seq<string>): string
    requires |words| == |gaps| + 1
    decreases |gaps|
  {
    if gaps == [] then words[0] else words[0] + gaps[0] + JoinWithGaps(words[1..], gaps[1..])
  }

  lemma JoinWithGapsStartsWithFirstWord(words: seq<string>, gaps: seq<string>)
    requires |words| == |gaps| + 1 && words[0] != []
    ensures JoinWithGaps(words, gaps) != [] && JoinWithGaps(words, gaps)[0] == words[0][0]
  {
    if gaps != [] {
      assert JoinWithGaps(words, gaps) == words[0] + (gaps[0] + JoinWithGaps(words[1..], gaps[1..]));
    }
  }

  /** split(/\s+/) recovers the words whatever runs of whitespace (spaces,
      tabs, line breaks, several in a row) stand between them. */
  lemma {:induction false} SplitJoinWithGapsRoundTrip(words: seq<string>, gaps: seq<string>)
    requires |words| == |gaps| + 1 && Words(words) && Gaps(gaps)
    ensures SplitOnSpaces(JoinWithGaps(words, gaps)) == words
    decreases |gaps|
  {
    if gaps == [] {
      SplitOfWord(words[0]);
    } else {
      GapsTail(words, gaps);
      SplitAfterWord(words[0], gaps[0], JoinWithGaps(words[1..], gaps[1..]));
      SplitJoinWithGapsRoundTrip(words[1..], gaps[1..]);
      assert [words[0]] + words[1..] == words;
    }
  }

  /** What SplitJoinWithGapsRoundTrip needs of the first word, the first
      gap and the rest. */
  lemma GapsTail(words: seq<string>, gaps: seq<string>)
    requires |words| == |gaps| + 1 && gaps != [] && Words(words) && Gaps(gaps)
    ensures NoSpace(words[0]) && gaps[0] != [] && AllSpace(gaps[0])
    ensures !IsSpace(JoinWithGaps(words[1..], gaps[1..])[0])
    ensures Words(words[1..]) && Gaps(gaps[1..])
  {
    assert forall k :: 0 <= k < |words| - 1 ==> words[1..][k] == words[k + 1];
    assert forall k :: 0 <= k < |gaps| - 1 ==> gaps[1..][k] == gaps[k + 1];
    assert words[1] != [] && NoSpace(words[1]);
    JoinWithGapsStartsWithFirstWord(words[1..], gaps[1..]);
  }

  /** The last element of s.split(sep): everything after the last sep, or
      all of s when it has none. */
  function AfterLast(s: string, sep: char): (r: string)
    ensures |r| <= |s| && r == s[|s| - |r|..]
    ensures sep !in r
    ensures |r| < |s| ==> s[|s| - |r| - 1] == sep
  {
    if s == [] then []
    else if s[|s| - 1] == sep then []
    else
      var r := AfterLast(s[..|s| - 1], sep) + [s[|s| - 1]];
      assert s[..|s| - 1][|s| - |r|..] + [s[|s| - 1]] == s[|s| - |r|..];
      r
  }

  // ---------------------------------------------------------------------
  // Numbers as text

  function DigitChar(d: nat): (c: char)
    requires d < 10
    ensures IsDigit(c) && c as int - '0' as int == d
  {
    ('0' as int + d) as char
  }

  /** Number.prototype.toString() of a non-negative integer. */
  function NatToString(n: nat): (r: string)
    ensures r != [] && forall i :: 0 <= i < |r| ==> IsDigit(r[i])
    decreases n
  {
    if n < 10 then [DigitChar(n)] else NatToString(n / 10) + [DigitChar(n % 10)]
  }

  /** String(n) of an integer. */
  function IntToString(n: int): (r: string)
    ensures r != []
    ensures n < 0 <==> r[0] == '-'
  {
    if n < 0 then "-" + NatToString(-n) else NatToString(n)
  }

  /** The value of a string of decimal digits (the inverse of NatToString). */
  function DigitsValue(s: string): nat
    requires forall i :: 0 <= i < |s| ==> IsDigit(s[i])
  {
    if s == [] then 0
    else
      var last := s[|s| - 1];
      assert IsDigit(last);
      DigitsValue(s[..|s| - 1]) * 10 + (last as int - '0' as int)
  }

  lemma {:induction false} NatToStringRoundTrip(n: nat)
    ensures DigitsValue(NatToString(n)) == n
    decreases n
  {
    if n >= 10 {
      var r := NatToString(n);
      assert r[..|r| - 1] == NatToString(n / 10);
      NatToStringRoundTrip(n / 10);
    }
  }

  lemma NatToStringInjective(a: nat, b: nat)
    requires NatToString(a) == NatToString(b)
    ensures a == b
  {
    NatToStringRoundTrip(a);
    NatToStringRoundTrip(b);
  }

  /** The nearest integer to num / den, ties going up: the hundredths that
      toFixed(2) prints for num / den when 100 * num / den is meant. */
  function RoundHalfUp(num: nat, den: nat): (h: nat)
    requires den > 0
    ensures 2 * h * den <= 2 * num + den < 2 * (h + 1) * den
  {
    (2 * num + den) / (2 * den)
  }

  /** Number.prototype.toFixed(2) of the quotient num / den. It is exact
      when den is a power of two (the double division is then exact) and
      the quotient is below 10^21. */
  function ToFixed2(num: nat, den: nat): (r: string)
    requires den > 0
    ensures |r| >= 4 && r[|r| - 3] == '.'
  {
    var h := RoundHalfUp(100 * num, den);
    NatToString(h / 100) + "." + [DigitChar(h % 100 / 10), DigitChar(h % 10)]
  }

  /** Reading toFixed(2) back: the digits before the point are the whole
      part and the two after it the hundredths of the quotient rounded to
      the nearest hundredth, ties going up. */
  lemma ToFixed2Reads(num: nat, den: nat)
    requires den > 0
    ensures var r := ToFixed2(num, den);
      var h := RoundHalfUp(100 * num, den);
      && (forall i :: 0 <= i < |r| && i != |r| - 3 ==> IsDigit(r[i]))
      && DigitsValue(r[..|r| - 3]) == h / 100
      && DigitsValue(r[|r| - 2..]) == h % 100
  {
    var h := RoundHalfUp(100 * num, den);
    var whole := NatToString(h / 100);
    var hundredths := [DigitChar(h % 100 / 10), DigitChar(h % 10)];
    var r := ToFixed2(num, den);
    assert r == whole + "." + hundredths;
    assert r[..|r| - 3] == whole;
    assert r[|r| - 2..] == hundredths;
    NatToStringRoundTrip(h / 100);
    TwoDigitsValue(h);
  }

  lemma TwoDigitsValue(h: nat)
    ensures DigitsValue([DigitChar(h % 100 / 10), DigitChar(h % 10)]) == h % 100
  {
    var tens, ones := DigitChar(h % 100 / 10), DigitChar(h % 10);
    assert [tens, ones][..1] == [tens];
    assert [tens][..0] == [];
    assert DigitsValue([tens]) == h % 100 / 10;
    var a := h % 100;
    assert h % 10 == a % 10 by {
      assert h == h / 100 * 100 + a;
      assert h / 100 * 100 == (h / 100 * 10) * 10;
    }
  }
}
