/**
 * The cleaning that `transform` applies, in order, to the body text of
 * every post (main.py:110-117): three regular-expression substitutions,
 * then `lower().strip()`:
 *   1. `http\S+|www.\S+`   deleted      (StripUrls)
 *   2. `[^a-zA-Z\s]`       deleted      (KeepLettersAndSpaces)
 *   3. `\s+`               -> " "       (CollapseSpaces)
 *   4. `.lower().strip()`               (Lower, Strip)
 * Each step is a leftmost scan, as Python's `re.sub` performs it.
 */
module Cleaning {
  import opened Posts

  /**
   * Python's `str.isspace()`; a `\s` in a `str` pattern matches exactly
   * these characters, and `str.strip()` removes exactly these.
   */
  predicate IsSpace(c: char) {
    ('\t' <= c <= '\r') || ('\U{1C}' <= c <= ' ') || c == '\U{85}' || c == '\U{A0}'
    || c == '\U{1680}' || ('\U{2000}' <= c <= '\U{200A}') || c == '\U{2028}' || c == '\U{2029}'
    || c == '\U{202F}' || c == '\U{205F}' || c == '\U{3000}'
  }

  predicate IsAsciiLetter(c: char) {
    ('a' <= c <= 'z') || ('A' <= c <= 'Z')
  }

  // ---------------------------------------------------------------------
  // Step 1: URL removal
  // ---------------------------------------------------------------------

  /** `http\S+` matches at the start of s. */
  predicate HttpAt(s: Text) {
    |s| >= 5 && s[0] == 'h' && s[1] == 't' && s[2] == 't' && s[3] == 'p' && !IsSpace(s[4])
  }

  /** `www.\S+` matches at the start of s; the `.` is any character but a newline. */
  predicate WwwAt(s: Text) {
    |s| >= 5 && s[0] == 'w' && s[1] == 'w' && s[2] == 'w' && s[3] != '\n' && !IsSpace(s[4])
  }

  /** The URL pattern matches at the start of s: "http" or "www" and any character but a newline, then at least one non-whitespace character. */
  predicate LinkAt(s: Text): (b: bool)
    ensures b <==> |s| >= 5 && !IsSpace(s[4]) && (s[..4] == "http" || (s[..3] == "www" && s[3] != '\n'))
  {
    HttpAt(s) || WwwAt(s)
  }

  /** No position of s starts a match of the URL pattern. */
  ghost predicate LinkFree(s: Text) {
    forall k :: 0 <= k < |s| ==> !LinkAt(s[k..])
  }

  /** The number of characters a greedy `\S+` (or `\S*`) takes from the front of s. */
  function NonSpaceRun(s: Text): (n: nat)
    ensures n <= |s|
    ensures forall i :: 0 <= i < n ==> !IsSpace(s[i])
    ensures n == |s| || IsSpace(s[n])
  {
    if s == [] || IsSpace(s[0]) then 0 else 1 + NonSpaceRun(s[1..])
  }

  /**
   * Where a URL match that starts at s[0] ends.  Both alternatives take
   * four characters and then the longest run of non-whitespace, so the
   * match always stops at a whitespace character or at the end.
   */
  function LinkEnd(s: Text): (n: nat)
    requires LinkAt(s)
    ensures 5 <= n <= |s|
    ensures n == |s| || IsSpace(s[n])
  {
    4 + NonSpaceRun(s[4..])
  }

  /** Step 1: delete every URL match, scanning left to right. */
  function StripUrls(s: Text): (r: Text)
    ensures |r| <= |s|
    decreases |s|
  {
    if s == [] then []
    else if LinkAt(s) then StripUrls(s[LinkEnd(s)..])
    else [s[0]] + StripUrls(s[1..])
  }

  /** What the front of StripUrls(t) looks like: either t[0] is kept, or a match was deleted and a whitespace character (or nothing) follows. */
  lemma StripUrlsHead(t: Text)
    ensures var r := StripUrls(t);
      r == []
      || (LinkAt(t) && IsSpace(r[0]))
      || (!LinkAt(t) && r == [t[0]] + StripUrls(t[1..]))
  {
    if t != [] && LinkAt(t) {
      var u := t[LinkEnd(t)..];
      if u != [] {
        assert IsSpace(u[0]) && !LinkAt(u);
      }
    }
  }

  /** If StripUrls(t) starts with a non-whitespace character, that character is t[0], kept. */
  lemma StripUrlsKeepsHead(t: Text)
    requires |StripUrls(t)| > 0 && !IsSpace(StripUrls(t)[0])
    ensures t != [] && !LinkAt(t) && StripUrls(t) == [t[0]] + StripUrls(t[1..])
  {
    StripUrlsHead(t);
  }

  /** No URL match survives step 1 (and no new one is created by the deletions). */
  lemma {:induction false} StripUrlsLinkFree(s: Text)
    ensures LinkFree(StripUrls(s))
    decreases |s|
  {
    if s == [] {
    } else if LinkAt(s) {
      StripUrlsLinkFree(s[LinkEnd(s)..]);
    } else {
      var r := StripUrls(s);
      var rest := StripUrls(s[1..]);
      assert r == [s[0]] + rest;
      StripUrlsLinkFree(s[1..]);
      forall k | 1 <= k < |r| ensures !LinkAt(r[k..]) {
        assert r[k..] == rest[k - 1..];
      }
      if LinkAt(r) {
        NoLinkAtKeptHead(s);
      }
    }
  }

  /** A run of kept non-whitespace characters at the front of the output is copied from the front of the input. */
  lemma {:induction false} StripUrlsKeepsPrefix(t: Text, n: nat)
    requires n <= |StripUrls(t)|
    requires forall i :: 0 <= i < n ==> !IsSpace(StripUrls(t)[i])
    ensures n <= |t|
    ensures forall i :: 0 <= i < n ==> StripUrls(t)[i] == t[i]
    ensures StripUrls(t)[n..] == StripUrls(t[n..])
    decreases n
  {
    if n > 0 {
      var r := StripUrls(t);
      assert !IsSpace(r[0]);
      StripUrlsKeepsHead(t);
      var r1 := StripUrls(t[1..]);
      assert r1 == r[1..];
      assert forall i :: 0 <= i < n - 1 ==> r1[i] == r[i + 1];
      StripUrlsKeepsPrefix(t[1..], n - 1);
      assert t[1..][n - 1..] == t[n..];
      assert forall i :: 1 <= i < n ==> t[1..][i - 1] == t[i];
    }
  }

  /** Whether the URL pattern matches depends on the first five characters only. */
  lemma LinkAtFirstFive(a: Text, b: Text)
    requires |a| >= 5 && |b| >= 5
    requires a[0] == b[0] && a[1] == b[1] && a[2] == b[2] && a[3] == b[3] && a[4] == b[4]
    ensures LinkAt(a) == LinkAt(b)
  {
  }

  /** The two characters after a kept `www` in the output: the first is not a newline and the second not whitespace in the input either. */
  lemma StripUrlsWwwTail(u: Text)
    requires |StripUrls(u)| >= 2 && StripUrls(u)[0] != '\n' && !IsSpace(StripUrls(u)[1])
    ensures |u| >= 2 && u[0] != '\n' && !IsSpace(u[1])
  {
    StripUrlsHead(u);
    if !LinkAt(u) {
      var r := StripUrls(u);
      var r1 := StripUrls(u[1..]);
      assert r1 == r[1..];
      StripUrlsKeepsHead(u[1..]);
    }
  }

  /** A match at the front of the output whose first character was kept is a match at the front of the input. */
  lemma KeptHeadLink(s: Text)
    requires s != [] && StripUrls(s) == [s[0]] + StripUrls(s[1..])
    requires LinkAt(StripUrls(s))
    ensures LinkAt(s)
  {
    var r := StripUrls(s);
    if !IsSpace(r[3]) {
      KeptHeadLinkPlain(s);
    } else {
      KeptHeadLinkSpaced(s);
    }
  }

  /** KeptHeadLink when the fourth character of the match is not whitespace: the first five characters were all kept. */
  lemma KeptHeadLinkPlain(s: Text)
    requires s != [] && StripUrls(s) == [s[0]] + StripUrls(s[1..])
    requires LinkAt(StripUrls(s)) && !IsSpace(StripUrls(s)[3])
    ensures LinkAt(s)
  {
    var r := StripUrls(s);
    var r1 := StripUrls(s[1..]);
    NoSpaceInPlainLink(r);
    assert forall i :: 0 <= i < 4 ==> r1[i] == r[i + 1];
    StripUrlsKeepsPrefix(s[1..], 4);
    SameFirstFive(s, r, r1);
    LinkAtFirstFive(r, s);
  }

  /** A match whose fourth character is not whitespace has no whitespace in its first five characters. */
  lemma NoSpaceInPlainLink(r: Text)
    requires LinkAt(r) && !IsSpace(r[3])
    ensures forall i :: 0 <= i < 5 ==> !IsSpace(r[i])
  {
  }

  /** Gluing a kept first character to four copied ones. */
  lemma SameFirstFive(s: Text, r: Text, r1: Text)
    requires |s| >= 5 && |r1| >= 4 && r == [s[0]] + r1
    requires forall i :: 0 <= i < 4 ==> r1[i] == s[1..][i]
    ensures r[0] == s[0] && r[1] == s[1] && r[2] == s[2] && r[3] == s[3] && r[4] == s[4]
  {
    assert forall i :: 0 <= i < 4 ==> s[1..][i] == s[i + 1];
  }

  /** KeptHeadLink when the fourth character is whitespace: only `www` can match, and the character after it decides. */
  lemma KeptHeadLinkSpaced(s: Text)
    requires s != [] && StripUrls(s) == [s[0]] + StripUrls(s[1..])
    requires LinkAt(StripUrls(s)) && IsSpace(StripUrls(s)[3])
    ensures LinkAt(s)
  {
    var r := StripUrls(s);
    var r1 := StripUrls(s[1..]);
    assert WwwAt(r);
    assert r1[0] == 'w' && r1[1] == 'w';
    StripUrlsKeepsPrefix(s[1..], 2);
    TailSlices(s);
    assert r1[2..] == r[3..];
    StripUrlsWwwTail(s[3..]);
  }

  /** Indexing into the tails of a text of at least three characters. */
  lemma TailSlices(s: Text)
    requires |s| >= 3
    ensures s[1..][0] == s[1] && s[1..][1] == s[2] && s[1..][2..] == s[3..]
    ensures |s| >= 5 ==> s[3..][0] == s[3] && s[3..][1] == s[4]
  {
  }

  /** The contradiction at the heart of StripUrlsLinkFree: a kept first character cannot begin a match in the output. */
  lemma NoLinkAtKeptHead(s: Text)
    requires s != [] && !LinkAt(s)
    ensures !LinkAt(StripUrls(s))
  {
    if LinkAt(StripUrls(s)) {
      KeptHeadLink(s);
    }
  }

  /** Text without any match is left alone by step 1. */
  lemma {:induction false} LinkFreeFixed(s: Text)
    requires LinkFree(s)
    ensures StripUrls(s) == s
    decreases |s|
  {
    if s != [] {
      assert s[0..] == s;
      forall k | 0 <= k < |s[1..]| ensures !LinkAt(s[1..][k..]) {
        assert s[1..][k..] == s[k + 1..];
      }
      LinkFreeFixed(s[1..]);
    }
  }

  /** Step 1 on its own is idempotent (the whole cleaning is not: see CleaningNotIdempotent). */
  lemma StripUrlsIdempotent(s: Text)
    ensures StripUrls(StripUrls(s)) == StripUrls(s)
  {
    StripUrlsLinkFree(s);
    LinkFreeFixed(StripUrls(s));
  }

  // ---------------------------------------------------------------------
  // Step 2: delete everything but ASCII letters and whitespace
  // ---------------------------------------------------------------------

  /** Step 2: `[^a-zA-Z\s]` replaced by the empty string. */
  function KeepLettersAndSpaces(s: Text): (r: Text)
    ensures |r| <= |s|
    ensures forall i :: 0 <= i < |r| ==> IsAsciiLetter(r[i]) || IsSpace(r[i])
  {
    if s == [] then []
    else if IsAsciiLetter(s[0]) || IsSpace(s[0]) then [s[0]] + KeepLettersAndSpaces(s[1..])
    else KeepLettersAndSpaces(s[1..])
  }

  // ---------------------------------------------------------------------
  // Step 3: collapse whitespace runs
  // ---------------------------------------------------------------------

  /** No two adjacent single spaces. */
  predicate NoDoubleSpace(s: Text) {
    forall i :: 0 <= i < |s| - 1 ==> !(s[i] == ' ' && s[i + 1] == ' ')
  }

  /** The number of leading whitespace characters of s. */
  function LeadingSpaces(s: Text): (n: nat)
    ensures n <= |s|
    ensures forall i :: 0 <= i < n ==> IsSpace(s[i])
    ensures n == |s| || !IsSpace(s[n])
  {
    if s != [] && IsSpace(s[0]) then 1 + LeadingSpaces(s[1..]) else 0
  }

  /** Step 3: every maximal run of whitespace becomes one space. */
  function CollapseSpaces(s: Text): (r: Text)
    ensures |r| <= |s|
    ensures forall i :: 0 <= i < |r| ==> IsSpace(r[i]) ==> r[i] == ' '
    ensures NoDoubleSpace(r)
    ensures s != [] && !IsSpace(s[0]) ==> r != [] && r[0] == s[0]
    decreases |s|
  {
    if s == [] then []
    else if IsSpace(s[0]) then [' '] + CollapseSpaces(s[LeadingSpaces(s)..])
    else [s[0]] + CollapseSpaces(s[1..])
  }

  /** Step 3 turns text of letters and whitespace into text of letters and single spaces. */
  lemma {:induction false} CollapsedLettersOnly(k: Text)
    requires forall i :: 0 <= i < |k| ==> IsAsciiLetter(k[i]) || IsSpace(k[i])
    ensures forall i :: 0 <= i < |CollapseSpaces(k)| ==> IsAsciiLetter(CollapseSpaces(k)[i]) || CollapseSpaces(k)[i] == ' '
    decreases |k|
  {
    if k != [] {
      var n := if IsSpace(k[0]) then LeadingSpaces(k) else 1;
      var rest := k[n..];
      assert forall i :: 0 <= i < |rest| ==> rest[i] == k[i + n];
      CollapsedLettersOnly(rest);
      var head := if IsSpace(k[0]) then ' ' else k[0];
      assert CollapseSpaces(k) == [head] + CollapseSpaces(rest);
    }
  }

  // ---------------------------------------------------------------------
  // Step 4: lower-case and strip
  // ---------------------------------------------------------------------

  /**
   * ASCII lower-casing.  Python's `lower()` also maps non-ASCII letters,
   * but after step 2 only ASCII letters and whitespace are left.
   */
  function LowerChar(c: char): (d: char)
    ensures 'A' <= c <= 'Z' ==> 'a' <= d <= 'z'
    ensures 'A' <= c <= 'Z' ==> d as int == c as int + 32
    ensures !('A' <= c <= 'Z') ==> d == c
  {
    if 'A' <= c <= 'Z' then (c as int - 'A' as int + 'a' as int) as char else c
  }

  /** `str.lower()` on ASCII text: no capital is left, each capital becomes its own small letter, and every other character stays. */
  function Lower(s: Text): (r: Text)
    ensures |r| == |s|
    ensures forall i :: 0 <= i < |r| ==> !('A' <= r[i] <= 'Z')
    ensures forall i :: 0 <= i < |s| && 'A' <= s[i] <= 'Z' ==> r[i] as int == s[i] as int + 32
    ensures forall i :: 0 <= i < |s| && !('A' <= s[i] <= 'Z') ==> r[i] == s[i]
  {
    seq(|s|, i requires 0 <= i < |s| => LowerChar(s[i]))
  }

  /** No whitespace at either end. */
  predicate Stripped(s: Text) {
    s == [] || (!IsSpace(s[0]) && !IsSpace(s[|s| - 1]))
  }

  /** The number of trailing whitespace characters of s. */
  function TrailingSpaces(s: Text): (n: nat)
    ensures n <= |s|
    ensures forall i :: |s| - n <= i < |s| ==> IsSpace(s[i])
    ensures n == |s| || !IsSpace(s[|s| - 1 - n])
  {
    if s != [] && IsSpace(s[|s| - 1]) then 1 + TrailingSpaces(s[..|s| - 1]) else 0
  }

  /** Python's `str.strip()`: the slice between the leading and the trailing whitespace. */
  function Strip(s: Text): (r: Text)
    ensures Stripped(r)
    ensures LeadingSpaces(s) + |r| <= |s|
    ensures r == s[LeadingSpaces(s)..LeadingSpaces(s) + |r|]
    ensures forall i :: 0 <= i < |s| && !IsSpace(s[i]) ==> LeadingSpaces(s) <= i < LeadingSpaces(s) + |r|
  {
    var t := s[LeadingSpaces(s)..];
    t[..|t| - TrailingSpaces(t)]
  }

  // ---------------------------------------------------------------------
  // The whole cleaning
  // ---------------------------------------------------------------------

  /** Steps 1 to 4 in order; whatever the input, the result is normalized. */
  function CleanText(s: Text): (r: Text)
    ensures Normalized(r)
  {
    var k := KeepLettersAndSpaces(StripUrls(s));
    var c := CollapseSpaces(k);
    CollapsedLettersOnly(k);
    LowerKeepsShape(c);
    StripNormalizes(Lower(c));
    Strip(Lower(c))
  }

  /** What a cleaned body looks like: lower-case ASCII letters and single spaces, no space at either end. */
  predicate Normalized(t: Text) {
    && (forall i :: 0 <= i < |t| ==> ('a' <= t[i] <= 'z') || t[i] == ' ')
    && (t != [] ==> t[0] != ' ' && t[|t| - 1] != ' ')
    && NoDoubleSpace(t)
  }

  /** Lower-casing letters and single spaces gives lower-case letters and single spaces. */
  lemma LowerKeepsShape(c: Text)
    requires forall i :: 0 <= i < |c| ==> IsAsciiLetter(c[i]) || c[i] == ' '
    requires NoDoubleSpace(c)
    ensures var l := Lower(c);
      (forall i :: 0 <= i < |l| ==> ('a' <= l[i] <= 'z') || l[i] == ' ') && NoDoubleSpace(l)
  {
    var l := Lower(c);
    assert forall i :: 0 <= i < |l| ==> l[i] == LowerChar(c[i]);
    assert forall i :: 0 <= i < |l| ==> (l[i] == ' ' <==> c[i] == ' ');
  }

  /** Stripping a text of lower-case letters and single spaces normalizes it. */
  lemma StripNormalizes(l: Text)
    requires forall i :: 0 <= i < |l| ==> ('a' <= l[i] <= 'z') || l[i] == ' '
    requires NoDoubleSpace(l)
    ensures Normalized(Strip(l))
  {
    var r := Strip(l);
    var a := LeadingSpaces(l);
    assert forall i :: 0 <= i < |r| ==> r[i] == l[a + i];
  }

  // ---------------------------------------------------------------------
  // Cleaning a cleaned text
  // ---------------------------------------------------------------------

  /** Step 2 leaves text of letters and whitespace alone. */
  lemma {:induction false} KeepLettersAndSpacesFixed(x: Text)
    requires forall i :: 0 <= i < |x| ==> IsAsciiLetter(x[i]) || IsSpace(x[i])
    ensures KeepLettersAndSpaces(x) == x
  {
    if x != [] {
      assert forall i :: 0 <= i < |x[1..]| ==> x[1..][i] == x[i + 1];
      KeepLettersAndSpacesFixed(x[1..]);
    }
  }

  /** Step 3 leaves text whose only whitespace is single spaces alone. */
  lemma {:induction false} CollapseSpacesFixed(x: Text)
    requires forall i :: 0 <= i < |x| ==> IsSpace(x[i]) ==> x[i] == ' '
    requires NoDoubleSpace(x)
    ensures CollapseSpaces(x) == x
  {
    if x != [] {
      assert forall i :: 0 <= i < |x[1..]| ==> x[1..][i] == x[i + 1];
      CollapseSpacesFixed(x[1..]);
      if IsSpace(x[0]) {
        assert LeadingSpaces(x) == 1;
      }
    }
  }

  /** Step 4 leaves stripped text without capitals alone. */
  lemma StripLowerFixed(x: Text)
    requires forall i :: 0 <= i < |x| ==> !('A' <= x[i] <= 'Z')
    requires Stripped(x)
    ensures Strip(Lower(x)) == x
  {
    assert Lower(x) == x;
    assert LeadingSpaces(x) == 0;
  }

  /** Steps 2 to 4 leave a normalized text alone. */
  lemma LaterStepsFixNormalized(x: Text)
    requires Normalized(x)
    ensures Strip(Lower(CollapseSpaces(KeepLettersAndSpaces(x)))) == x
  {
    KeepLettersAndSpacesFixed(x);
    CollapseSpacesFixed(x);
    StripLowerFixed(x);
  }

  /** Step 1 deletes something from every text that holds a match. */
  lemma {:induction false} StripUrlsShortens(x: Text, k: nat)
    requires k < |x| && LinkAt(x[k..])
    ensures |StripUrls(x)| < |x|
    decreases k
  {
    if !LinkAt(x) {
      assert x[1..][k - 1..] == x[k..];
      StripUrlsShortens(x[1..], k - 1);
    }
  }

  /**
   * Cleaning a normalized text (a cleaned body, say) leaves it alone exactly
   * when no URL match occurs in it.  So cleaning is idempotent on an input
   * exactly when its cleaned text holds no `http` or `www` match.
   */
  lemma CleanTextFixedIffLinkFree(x: Text)
    requires Normalized(x)
    ensures CleanText(x) == x <==> LinkFree(x)
  {
    if LinkFree(x) {
      LinkFreeFixed(x);
      LaterStepsFixNormalized(x);
    } else {
      var k :| 0 <= k < |x| && LinkAt(x[k..]);
      StripUrlsShortens(x, k);
    }
  }

  // ---------------------------------------------------------------------
  // Worked examples
  // ---------------------------------------------------------------------

  /** StripUrls keeps a first character that cannot start a match. */
  lemma StripUrlsCons(c: char, t: Text)
    requires !LinkAt([c] + t)
    ensures StripUrls([c] + t) == [c] + StripUrls(t)
  {
    assert ([c] + t)[1..] == t;
  }

  /** A greedy `\S+` stops at the first whitespace character. */
  lemma {:induction false} NonSpaceRunAppend(x: Text, t: Text)
    requires forall i :: 0 <= i < |x| ==> !IsSpace(x[i])
    requires t == [] || IsSpace(t[0])
    ensures NonSpaceRun(x + t) == |x|
  {
    if x != [] {
      assert (x + t)[1..] == x[1..] + t;
      assert forall i :: 0 <= i < |x[1..]| ==> x[1..][i] == x[i + 1];
      NonSpaceRunAppend(x[1..], t);
    } else {
      assert x + t == t;
    }
  }

  /** A match that starts a whole non-whitespace token ends where the token does. */
  lemma LinkEndOfToken(u: Text, rest: Text)
    requires LinkAt(u) && forall i :: 0 <= i < |u| ==> !IsSpace(u[i])
    requires rest == [] || IsSpace(rest[0])
    ensures LinkAt(u + rest) && LinkEnd(u + rest) == |u|
  {
    var s := u + rest;
    assert s[0] == u[0] && s[1] == u[1] && s[2] == u[2] && s[3] == u[3] && s[4] == u[4];
    LinkAtFirstFive(s, u);
    var v := u[4..];
    assert forall i :: 0 <= i < |v| ==> v[i] == u[i + 4];
    NonSpaceRunAppend(v, rest);
    assert s[4..] == v + rest;
  }

  /** A whole URL token followed by whitespace (or nothing) is deleted. */
  lemma StripUrlsToken(u: Text, rest: Text)
    requires LinkAt(u) && forall i :: 0 <= i < |u| ==> !IsSpace(u[i])
    requires rest == [] || IsSpace(rest[0])
    ensures StripUrls(u + rest) == StripUrls(rest)
  {
    LinkEndOfToken(u, rest);
    assert (u + rest)[|u|..] == rest;
  }

  /** A non-empty text joined to another, regrouped around its first character. */
  lemma HeadSplit(a: Text, t: Text)
    requires a != []
    ensures a + t == [a[0]] + (a[1..] + t)
    ensures forall i :: 0 <= i < |a[1..]| ==> a[1..][i] == a[i + 1]
  {
  }

  /** The last three characters are `www`: followed by a space and a non-whitespace character, they start a match. */
  predicate EndsWithWww(a: Text) {
    |a| >= 3 && a[|a| - 3] == 'w' && a[|a| - 2] == 'w' && a[|a| - 1] == 'w'
  }

  /** A text without a match holds none from its second character on either. */
  lemma LinkFreeTail(a: Text)
    requires a != [] && LinkFree(a)
    ensures LinkFree(a[1..])
  {
    forall k | 0 <= k < |a[1..]| ensures !LinkAt(a[1..][k..]) {
      assert a[1..][k..] == a[k + 1..];
    }
  }

  /**
   * No match starts at the front of a followed by a space, when a holds no
   * match and does not end in `www`: a match needs four characters before
   * any whitespace, except `www` followed by a space.
   */
  lemma NoLinkBeforeSpace(a: Text, t: Text)
    requires a != [] && LinkFree(a) && !EndsWithWww(a)
    requires t != [] && t[0] == ' '
    ensures !LinkAt(a + t)
  {
    var s := a + t;
    assert s[|a|] == ' ';
    if |a| >= 5 {
      assert !LinkAt(a[0..]);
      assert a[0..] == a;
      LinkAtFirstFive(s, a);
    } else if |a| == 3 {
      assert s[0] == a[0] && s[1] == a[1] && s[2] == a[2];
    }
  }

  /** Step 1 keeps a text that holds no match and does not end in `www`, when a space follows it. */
  lemma {:induction false} StripUrlsPlainWord(a: Text, t: Text)
    requires LinkFree(a) && !EndsWithWww(a)
    requires t != [] && t[0] == ' '
    ensures StripUrls(a + t) == a + StripUrls(t)
    decreases |a|
  {
    if a != [] {
      var tail := a[1..] + t;
      HeadSplit(a, t);
      NoLinkBeforeSpace(a, t);
      StripUrlsCons(a[0], tail);
      LinkFreeTail(a);
      StripUrlsPlainWord(a[1..], t);
      HeadSplit(a, StripUrls(t));
    } else {
      assert a + t == t;
    }
  }

  /** Lower-case letters only. */
  predicate LowerWord(w: Text) {
    forall i :: 0 <= i < |w| ==> 'a' <= w[i] <= 'z'
  }

  /** Step 1 on two plain words around a URL token: the token goes, both spaces stay. */
  lemma StripLinkBetweenWords(a: Text, u: Text, b: Text)
    requires LinkFree(a) && !EndsWithWww(a)
    requires LinkFree(b)
    requires LinkAt(u) && forall i :: 0 <= i < |u| ==> !IsSpace(u[i])
    ensures StripUrls(a + ([' '] + (u + ([' '] + b)))) == a + ([' '] + ([' '] + b))
  {
    var t3 := [' '] + b;
    var t2 := u + t3;
    var t1 := [' '] + t2;
    StripUrlsPlainWord(a, t1);
    StripUrlsCons(' ', t2);
    StripUrlsToken(u, t3);
    StripUrlsCons(' ', b);
    LinkFreeFixed(b);
  }

  /** Step 2 keeps two lower-case words around a double space. */
  lemma KeepTwoWords(a: Text, b: Text)
    requires LowerWord(a) && LowerWord(b)
    ensures KeepLettersAndSpaces(a + "  " + b) == a + "  " + b
  {
    var k := a + "  " + b;
    forall i | 0 <= i < |k| ensures IsAsciiLetter(k[i]) || IsSpace(k[i]) {
      if i < |a| { assert k[i] == a[i]; }
      else if i >= |a| + 2 { assert k[i] == b[i - |a| - 2]; }
    }
    KeepLettersAndSpacesFixed(k);
  }

  /** Step 3 merges the double space between two lower-case words. */
  lemma CollapseTwoWords(a: Text, b: Text)
    requires b != [] && LowerWord(a) && LowerWord(b)
    ensures CollapseSpaces(a + ([' '] + ([' '] + b))) == a + ([' '] + b)
  {
    CollapseSpacesWord(a, [' '] + ([' '] + b));
    CollapseBeforeWord(b);
  }

  /** Two spaces before a lower-case word collapse into one. */
  lemma CollapseBeforeWord(b: Text)
    requires b != [] && LowerWord(b)
    ensures CollapseSpaces([' '] + ([' '] + b)) == [' '] + b
  {
    var sb := [' '] + b;
    assert sb[1] == b[0];
    CollapseSpacesPair(sb);
    forall i | 1 <= i < |sb| ensures sb[i] == b[i - 1] { }
    CollapseSpacesFixed(sb);
  }

  /** Step 4 keeps two lower-case words joined by one space. */
  lemma StripLowerTwoWords(a: Text, b: Text)
    requires a != [] && b != [] && LowerWord(a) && LowerWord(b)
    ensures Strip(Lower(a + " " + b)) == a + " " + b
  {
    var r := a + " " + b;
    forall i | 0 <= i < |r| ensures !('A' <= r[i] <= 'Z') {
      if i < |a| { assert r[i] == a[i]; }
      else if i > |a| { assert r[i] == b[i - |a| - 1]; }
    }
    assert r[0] == a[0];
    assert r[|r| - 1] == b[|b| - 1];
    StripLowerFixed(r);
  }

  /**
   * A URL token between two words disappears, and the spaces on either side
   * of it collapse into one.  Neither word may hold a match itself, since
   * step 1 deletes that too (`"go http://x httpx"` cleans to `"go"`), and
   * the first word must not end in `www`: `www` followed by the space and
   * the token is one match, and step 1 deletes the word's tail with the
   * token.
   */
  lemma CleanLinkBetweenWords(a: Text, u: Text, b: Text)
    requires a != [] && b != [] && LowerWord(a) && LowerWord(b)
    requires LinkFree(a) && !EndsWithWww(a)
    requires LinkFree(b)
    requires LinkAt(u) && forall i :: 0 <= i < |u| ==> !IsSpace(u[i])
    ensures CleanText(a + " " + u + " " + b) == a + " " + b
  {
    StripLinkSpaced(a, u, b);
    KeepTwoWords(a, b);
    CollapseTwoWordsSpaced(a, b);
    StripLowerTwoWords(a, b);
  }

  /** StripLinkBetweenWords, with the strings written as joined by the callers. */
  lemma StripLinkSpaced(a: Text, u: Text, b: Text)
    requires LinkFree(a) && !EndsWithWww(a)
    requires LinkFree(b)
    requires LinkAt(u) && forall i :: 0 <= i < |u| ==> !IsSpace(u[i])
    ensures StripUrls(a + " " + u + " " + b) == a + "  " + b
  {
    StripLinkBetweenWords(a, u, b);
    SpacedParts(a, u, b);
  }

  /** CollapseTwoWords, with the strings written as joined by the callers. */
  lemma CollapseTwoWordsSpaced(a: Text, b: Text)
    requires b != [] && LowerWord(a) && LowerWord(b)
    ensures CollapseSpaces(a + "  " + b) == a + " " + b
  {
    CollapseTwoWords(a, b);
    SpacedParts(a, [], b);
  }

  /** The joins of the text around a token, regrouped. */
  lemma SpacedParts(a: Text, u: Text, b: Text)
    ensures a + " " + u + " " + b == a + ([' '] + (u + ([' '] + b)))
    ensures a + ([' '] + ([' '] + b)) == a + "  " + b
    ensures a + ([' '] + b) == a + " " + b
  {
  }

  /** A link in the middle of a sentence disappears, and the spaces on either side collapse into one. */
  lemma UrlExample(s: Text)
    requires s == "check http://example.com/x now"
    ensures CleanText(s) == "check now"
  {
    var a, u, b := "check", "http://example.com/x", "now";
    SplitUrlExample(s, a, u, b);
    ExampleWords(a, b);
    ExampleLink(u);
    CleanLinkBetweenWords(a, u, b);
  }

  /** The example sentence is the word "check", a URL token and the word "now", joined by spaces. */
  lemma SplitUrlExample(s: Text, a: Text, u: Text, b: Text)
    requires s == "check http://example.com/x now"
    requires a == "check" && u == "http://example.com/x" && b == "now"
    ensures s == a + " " + u + " " + b
    ensures a + " " + b == "check now"
  {
  }

  /** The two words of the example are plain lower-case words; no match starts in "now". */
  lemma ExampleWords(a: Text, b: Text)
    requires a == "check" && b == "now"
    ensures a != [] && b != [] && LowerWord(a) && LowerWord(b)
    ensures LinkFree(a) && !EndsWithWww(a)
    ensures LinkFree(b)
  {
    assert !LinkAt(b[0..]) && !LinkAt(b[1..]) && !LinkAt(b[2..]);
    assert !LinkAt(a[0..]) && !LinkAt(a[1..]) && !LinkAt(a[2..]) && !LinkAt(a[3..]) && !LinkAt(a[4..]);
  }

  /** The URL of the example starts a match and holds no whitespace. */
  lemma ExampleLink(u: Text)
    requires u == "http://example.com/x"
    ensures LinkAt(u) && forall i :: 0 <= i < |u| ==> !IsSpace(u[i])
  {
  }

  /** Step 3 copies a word that contains no whitespace. */
  lemma {:induction false} CollapseSpacesWord(w: Text, t: Text)
    requires forall i :: 0 <= i < |w| ==> !IsSpace(w[i])
    ensures CollapseSpaces(w + t) == w + CollapseSpaces(t)
  {
    if w != [] {
      assert (w + t)[1..] == w[1..] + t;
      CollapseSpacesWord(w[1..], t);
    } else {
      assert w + t == t;
    }
  }

  /** Step 3 turns a doubled space before non-whitespace into one. */
  lemma CollapseSpacesPair(t: Text)
    requires t != [] && t[0] == ' ' && (|t| == 1 || !IsSpace(t[1]))
    ensures CollapseSpaces([' '] + t) == CollapseSpaces(t)
  {
    assert LeadingSpaces([' '] + t) == 2;
    assert ([' '] + t)[2..] == t[1..];
  }

  /** The non-whitespace characters of s, in order: what step 3 must not touch. */
  function NonSpaces(s: Text): Text {
    if s == [] then []
    else if IsSpace(s[0]) then NonSpaces(s[1..])
    else [s[0]] + NonSpaces(s[1..])
  }

  /** Dropping leading whitespace does not change the non-whitespace characters. */
  lemma {:induction false} NonSpacesSkip(s: Text, n: nat)
    requires n <= |s| && forall i :: 0 <= i < n ==> IsSpace(s[i])
    ensures NonSpaces(s) == NonSpaces(s[n..])
    decreases n
  {
    if n > 0 {
      assert s[1..][n - 1..] == s[n..];
      NonSpacesSkip(s[1..], n - 1);
    }
  }

  /** Step 3 keeps every non-whitespace character, in order, and adds none. */
  lemma {:induction false} CollapseKeepsNonSpaces(s: Text)
    ensures NonSpaces(CollapseSpaces(s)) == NonSpaces(s)
    decreases |s|
  {
    if s != [] {
      if IsSpace(s[0]) {
        var n := LeadingSpaces(s);
        CollapseKeepsNonSpaces(s[n..]);
        NonSpacesSkip(s, n);
        assert NonSpaces([' '] + CollapseSpaces(s[n..])) == NonSpaces(CollapseSpaces(s[n..]));
      } else {
        CollapseKeepsNonSpaces(s[1..]);
        assert NonSpaces([s[0]] + CollapseSpaces(s[1..])) == [s[0]] + NonSpaces(CollapseSpaces(s[1..]));
      }
    }
  }

  /** A whitespace run counts up to the first non-whitespace character after it. */
  lemma {:induction false} LeadingSpacesRun(w: Text, t: Text)
    requires forall i :: 0 <= i < |w| ==> IsSpace(w[i])
    requires t == [] || !IsSpace(t[0])
    ensures LeadingSpaces(w + t) == |w|
    decreases |w|
  {
    if w != [] {
      assert (w + t)[1..] == w[1..] + t;
      LeadingSpacesRun(w[1..], t);
    } else {
      assert w + t == t;
    }
  }

  /** Step 3 turns a whole whitespace run, however long and of whatever characters, into one space. */
  lemma CollapseSpacesRun(w: Text, t: Text)
    requires w != [] && forall i :: 0 <= i < |w| ==> IsSpace(w[i])
    requires t == [] || !IsSpace(t[0])
    ensures CollapseSpaces(w + t) == [' '] + CollapseSpaces(t)
  {
    LeadingSpacesRun(w, t);
    assert (w + t)[0] == w[0];
    assert (w + t)[|w|..] == t;
  }

  /**
   * Cleaning is not idempotent: deleting the `.` in step 2 turns
   * "htt.pfoo" into "httpfoo", a URL match that a second cleaning removes
   * (and the shortened body would then fail the length filter).
   */
  lemma CleaningNotIdempotent(s: Text)
    requires s == "htt.pfoo is great"
    ensures CleanText(s) == "httpfoo is great"
    ensures CleanText(CleanText(s)) != CleanText(s)
  {
    var a, b, x := "htt", "pfoo is great", "httpfoo is great";
    NotIdempotentFacts(s, a, b, x);
    LinkBehindSymbol(s, a, '.', b, x);
  }

  /** The pieces of the input and output of CleaningNotIdempotent. */
  lemma NotIdempotentFacts(s: Text, a: Text, b: Text, x: Text)
    requires s == "htt.pfoo is great"
    requires a == "htt" && b == "pfoo is great" && x == "httpfoo is great"
    ensures s != [] && !LinkAt(s)
    ensures forall i :: 1 <= i < |s| ==> s[i] != 'h' && s[i] != 'w'
    ensures s == a + (['.'] + b) && a + b == x
    ensures forall i :: 0 <= i < |a| ==> IsAsciiLetter(a[i]) || IsSpace(a[i])
    ensures forall i :: 0 <= i < |b| ==> IsAsciiLetter(b[i]) || IsSpace(b[i])
    ensures Normalized(x) && !LinkFree(x)
  {
    NotIdempotentLinks(s, x);
    NotIdempotentLetters(a, b, x);
  }

  /** The two halves are letters and spaces, and their join is normalized. */
  lemma NotIdempotentLetters(a: Text, b: Text, x: Text)
    requires a == "htt" && b == "pfoo is great" && x == "httpfoo is great"
    ensures forall i :: 0 <= i < |a| ==> IsAsciiLetter(a[i]) || IsSpace(a[i])
    ensures forall i :: 0 <= i < |b| ==> IsAsciiLetter(b[i]) || IsSpace(b[i])
    ensures Normalized(x)
  {
  }

  /** "htt.pfoo is great" starts no match, and "httpfoo is great" starts one. */
  lemma NotIdempotentLinks(s: Text, x: Text)
    requires s == "htt.pfoo is great" && x == "httpfoo is great"
    ensures !LinkAt(s) && LinkAt(x[0..])
  {
    assert s[..3] == "htt" && s[3] == '.';
    assert x[0..] == x && x[..4] == "http";
  }

  /**
   * A text with no match, whose only non-letter is one symbol between a and
   * b, cleans to a + b; if that joined text holds a match, a second cleaning
   * changes it again.
   */
  lemma LinkBehindSymbol(s: Text, a: Text, c: char, b: Text, x: Text)
    requires s == a + ([c] + b) && x == a + b
    requires s != [] && !LinkAt(s)
    requires forall i :: 1 <= i < |s| ==> s[i] != 'h' && s[i] != 'w'
    requires !IsAsciiLetter(c) && !IsSpace(c)
    requires forall i :: 0 <= i < |a| ==> IsAsciiLetter(a[i]) || IsSpace(a[i])
    requires forall i :: 0 <= i < |b| ==> IsAsciiLetter(b[i]) || IsSpace(b[i])
    requires Normalized(x) && !LinkFree(x)
    ensures CleanText(s) == x
    ensures CleanText(x) != x
  {
    StripUrlsNoLinkAfterHead(s);
    KeepDropsOne(a, c, b);
    assert KeepLettersAndSpaces(StripUrls(s)) == x;
    LaterStepsFixNormalized(x);
    KeepLettersAndSpacesFixed(x);
    CleanTextFixedIffLinkFree(x);
  }

  /** Step 1 keeps a text where no match starts at the front and no later character is `h` or `w`. */
  lemma StripUrlsNoLinkAfterHead(s: Text)
    requires s != [] && !LinkAt(s)
    requires forall i :: 1 <= i < |s| ==> s[i] != 'h' && s[i] != 'w'
    ensures StripUrls(s) == s
  {
    var t := s[1..];
    assert [s[0]] + t == s;
    StripUrlsCons(s[0], t);
    assert forall i :: 0 <= i < |t| ==> t[i] == s[i + 1];
    StripUrlsNoLinkStart(t);
  }

  /** Step 2 deletes a single character that is neither a letter nor whitespace. */
  lemma KeepDropsOne(a: Text, c: char, b: Text)
    requires !IsAsciiLetter(c) && !IsSpace(c)
    requires forall i :: 0 <= i < |a| ==> IsAsciiLetter(a[i]) || IsSpace(a[i])
    requires forall i :: 0 <= i < |b| ==> IsAsciiLetter(b[i]) || IsSpace(b[i])
    ensures KeepLettersAndSpaces(a + ([c] + b)) == a + b
  {
    KeepLettersAndSpacesAppend(a, [c] + b);
    assert ([c] + b)[1..] == b;
    KeepLettersAndSpacesFixed(a);
    KeepLettersAndSpacesFixed(b);
  }

  /** Step 1 keeps a text none of whose characters is `h` or `w`. */
  lemma {:induction false} StripUrlsNoLinkStart(x: Text)
    requires forall i :: 0 <= i < |x| ==> x[i] != 'h' && x[i] != 'w'
    ensures StripUrls(x) == x
  {
    if x != [] {
      assert forall i :: 0 <= i < |x[1..]| ==> x[1..][i] == x[i + 1];
      StripUrlsNoLinkStart(x[1..]);
    }
  }

  /** Step 2 is a filter, so it distributes over concatenation. */
  lemma {:induction false} KeepLettersAndSpacesAppend(a: Text, b: Text)
    ensures KeepLettersAndSpaces(a + b) == KeepLettersAndSpaces(a) + KeepLettersAndSpaces(b)
  {
    if a != [] {
      assert (a + b)[1..] == a[1..] + b;
      KeepLettersAndSpacesAppend(a[1..], b);
    } else {
      assert a + b == b;
    }
  }
}
