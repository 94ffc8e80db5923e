/**
 * Character classes and string primitives with the meaning Python gives them
 * for `str` values and `str` regular expressions: `\s`, `\w`, `\b`, `\d`,
 * `str.strip`, `str.lower`, `str.replace`, `in` on strings, and the leftmost
 * search that `re.search` performs.
 */
module Text {
  import opened Wrappers

  // ---------------------------------------------------------------------
  // Character classes
  // ---------------------------------------------------------------------

  /** `str.isspace()`, which is also what `\s` matches in a `str` pattern. */
  predicate IsSpace(c: char)
  {
    c == ' ' || ('\t' <= c <= '\r') || ('\U{1C}' <= c <= '\U{1F}')
    || c == '\U{85}' || c == '\U{A0}' || c == '\U{1680}'
    || ('\U{2000}' <= c <= '\U{200A}') || c == '\U{2028}' || c == '\U{2029}'
    || c == '\U{202F}' || c == '\U{205F}' || c == '\U{3000}'
  }

  /** `\d` and `[0-9]`, restricted to ASCII digits. */
  predicate IsDigit(c: char)
  {
    '0' <= c <= '9'
  }

  /**
   * `\w`: letters and digits of the scripts the parser meets (ASCII, Latin-1,
   * Latin Extended-A/B, Latin Extended Additional, which holds the Vietnamese
   * letters with two diacritics) and the underscore.
   */
  predicate IsWordChar(c: char)
  {
    ('a' <= c <= 'z') || ('A' <= c <= 'Z') || IsDigit(c) || c == '_'
    || c == '\U{AA}' || c == '\U{B2}' || c == '\U{B3}' || c == '\U{B5}'
    || c == '\U{B9}' || c == '\U{BA}' || ('\U{BC}' <= c <= '\U{BE}')
    || ('\U{C0}' <= c <= '\U{D6}') || ('\U{D8}' <= c <= '\U{F6}')
    || ('\U{F8}' <= c <= '\U{24F}') || ('\U{1E00}' <= c <= '\U{1EFF}')
  }

  /** The upper-case letters that `LowerChar` maps to a different character. */
  predicate IsUpper(c: char)
  {
    ('A' <= c <= 'Z')
    || ('\U{C0}' <= c <= '\U{DE}' && c != '\U{D7}')
    || ('\U{100}' <= c <= '\U{137}' && c != '\U{130}' && c as int % 2 == 0)
    || ('\U{139}' <= c <= '\U{148}' && c as int % 2 == 1)
    || ('\U{14A}' <= c <= '\U{177}' && c as int % 2 == 0)
    || c == '\U{178}'
    || ('\U{179}' <= c <= '\U{17E}' && c as int % 2 == 1)
    || c == '\U{1A0}' || c == '\U{1AF}'
    || ('\U{1E00}' <= c <= '\U{1E95}' && c as int % 2 == 0)
    || ('\U{1EA0}' <= c <= '\U{1EFF}' && c as int % 2 == 0)
  }

  /** One character of `str.lower()`. */
  function LowerChar(c: char): (r: char)
    ensures !IsUpper(r)
    ensures IsSpace(r) == IsSpace(c)
    ensures !IsUpper(c) ==> r == c
  {
    if ('A' <= c <= 'Z') || ('\U{C0}' <= c <= '\U{DE}' && c != '\U{D7}') then (c as int + 32) as char
    else if c == '\U{178}' then '\U{FF}'
    else if c == '\U{1AF}' then '\U{1B0}'
    else if IsUpper(c) then (c as int + 1) as char
    else c
  }

  /** `str.lower()`: no upper-case letter is left, and every other character stays where it was. */
  function Lower(s: string): (r: string)
    ensures |r| == |s|
    ensures NoUpper(r)
    ensures forall i :: 0 <= i < |s| && !IsUpper(s[i]) ==> r[i] == s[i]
    ensures forall i :: 0 <= i < |s| ==> r[i] == LowerChar(s[i])
  {
    seq(|s|, i requires 0 <= i < |s| => LowerChar(s[i]))
  }

  predicate NoUpper(s: string)
  {
    forall i :: 0 <= i < |s| ==> !IsUpper(s[i])
  }

  lemma NoUpperIn(s: string, c: char)
    requires NoUpper(s) && c in s
    ensures !IsUpper(c)
  {
    var i :| 0 <= i < |s| && s[i] == c;
  }

  // ---------------------------------------------------------------------
  // strip and whitespace collapsing
  // ---------------------------------------------------------------------

  /** No whitespace at either end: what `str.strip()` guarantees. */
  predicate Trimmed(s: string)
  {
    s == [] || (!IsSpace(s[0]) && !IsSpace(s[|s| - 1]))
  }

  predicate AllSpace(s: string)
  {
    forall i :: 0 <= i < |s| ==> IsSpace(s[i])
  }

  /** Drops the leading run of whitespace (`str.lstrip()`, and what `\s+` consumes). */
  function StripLeft(s: string): (r: string)
    decreases |s|
    ensures |r| <= |s| && r == s[|s| - |r|..]
    ensures r == [] || !IsSpace(r[0])
    ensures AllSpace(s[..|s| - |r|])
  {
    if s != [] && IsSpace(s[0]) then
      var r := StripLeft(s[1..]);
      var n := |s| - |r|;
      assert s[1..][n - 1..] == s[n..];
      assert forall k :: 1 <= k < n ==> s[k] == s[1..][..n - 1][k - 1];
      r
    else
      assert s[0..] == s && s[..0] == [];
      s
  }

  /** Drops the trailing run of whitespace (`str.rstrip()`). */
  function StripRight(s: string): (r: string)
    decreases |s|
    ensures |r| <= |s| && r == s[..|r|]
    ensures r == [] || !IsSpace(r[|r| - 1])
    ensures AllSpace(s[|r|..])
  {
    if s != [] && IsSpace(s[|s| - 1]) then
      var r := StripRight(s[..|s| - 1]);
      assert s[..|s| - 1][..|r|] == s[..|r|];
      assert forall k :: |r| <= k < |s| - 1 ==> s[k] == s[..|s| - 1][|r|..][k - |r|];
      r
    else
      assert s[..|s|] == s && s[|s|..] == [];
      s
  }

  /** `str.strip()` with no argument. */
  function Strip(s: string): (r: string)
    ensures Trimmed(r)
    ensures r == [] <==> AllSpace(s)
    ensures Trimmed(s) ==> r == s
  {
    var l := StripLeft(s);
    var r := StripRight(l);
    assert r == [] ==> AllSpace(s) by {
      if r == [] {
        assert l[|r|..] == l;
        assert l == [];
        assert s[..|s| - |l|] == s;
      }
    }
    r
  }

  lemma SliceHead(s: string, a: nat, b: nat, rest: string)
    requires a < b <= |s|
    ensures s[a..b] + rest == [s[a]] + (s[a + 1..b] + rest)
  {
    assert s[a..b] == [s[a]] + s[a + 1..b];
  }

  /** A prefix of `[c] + x` is `c` followed by a prefix of `x`. */
  lemma ConsPrefix(c: char, x: string, w: string)
    requires w != [] && |w| <= 1 + |x| && ([c] + x)[..|w|] == w
    ensures c == w[0] && x[..|w| - 1] == w[1..]
  {
    assert ([c] + x)[..|w|][0] == c;
    forall k | 0 <= k < |w| - 1 ensures x[k] == w[1..][k] {
      assert ([c] + x)[..|w|][k + 1] == x[k];
    }
  }

  /** `w` starts `s` when its head and its tail line up with those of `s`. */
  lemma PrefixFromTail(s: string, w: string)
    requires s != [] && w != [] && |w| <= |s| && s[0] == w[0] && s[1..][..|w| - 1] == w[1..]
    ensures s[..|w|] == w
  {
    forall k | 0 <= k < |w| ensures s[k] == w[k] {
      if k > 0 {
        assert s[1..][..|w| - 1][k - 1] == w[1..][k - 1];
      }
    }
  }

  /** `b` holds `a` as one contiguous piece. */
  predicate IsSegment(a: string, b: string)
  {
    exists i: nat, j: nat :: i <= j <= |b| && a == b[i..j]
  }

  lemma SegmentTrans(a: string, b: string, c: string)
    requires IsSegment(a, b) && IsSegment(b, c)
    ensures IsSegment(a, c)
  {
    var i: nat, j: nat :| i <= j <= |b| && a == b[i..j];
    var k: nat, l: nat :| k <= l <= |c| && b == c[k..l];
    assert |b| == l - k;
    forall m | 0 <= m < j - i
      ensures a[m] == c[k + i + m]
    {
      assert a[m] == b[i + m] == c[k + i + m];
    }
    assert a == c[k + i..k + j];
  }

  /** Stripping keeps one piece of the text. */
  lemma StripIsSegment(s: string)
    ensures IsSegment(Strip(s), s)
  {
    var l := StripLeft(s);
    var a := |s| - |l|;
    var r := Strip(s);
    assert r == StripRight(l) == l[..|r|];
    assert r == s[a..a + |r|];
  }

  /** Text that does not start with a blank loses only trailing blanks to `strip`. */
  lemma StripPrefix(x: string)
    requires x == [] || !IsSpace(x[0])
    ensures Strip(x) <= x
  {
    assert StripLeft(x) == x;
  }

  lemma PrefixOfTake(a: string, s: string, k: nat)
    requires k <= |s| && a <= s[..k]
    ensures a <= s
  {
    assert a == s[..k][..|a|] == s[..|a|];
  }

  lemma StripLeftIndex(s: string, i: int)
    requires 0 <= i < |StripLeft(s)|
    ensures StripLeft(s)[i] == s[|s| - |StripLeft(s)| + i]
  {
  }

  lemma StripRightIndex(s: string, i: int)
    requires 0 <= i < |StripRight(s)|
    ensures StripRight(s)[i] == s[i]
  {
  }

  lemma StripAt(s: string, i: int)
    requires 0 <= i < |Strip(s)|
    ensures |s| - |StripLeft(s)| + i < |s|
    ensures Strip(s)[i] == s[|s| - |StripLeft(s)| + i]
  {
    var l := StripLeft(s);
    assert Strip(s) == StripRight(l);
    StripRightIndex(l, i);
    StripLeftIndex(s, i);
  }

  /** `strip` keeps only characters of its argument. */
  lemma StripChars(s: string)
    ensures forall c :: c in Strip(s) ==> c in s
  {
    forall c | c in Strip(s) ensures c in s {
      var i :| 0 <= i < |Strip(s)| && Strip(s)[i] == c;
      StripAt(s, i);
    }
  }

  /** `re.sub(r"\s+", " ", s)`: every run of whitespace becomes one blank. */
  function Collapse(s: string): (r: string)
    decreases |s|
  {
    if s == [] then []
    else if IsSpace(s[0]) then [' '] + Collapse(StripLeft(s[1..]))
    else [s[0]] + Collapse(s[1..])
  }

  /** The shape `Collapse` leaves: whitespace only as single blanks. */
  predicate Collapsed(s: string)
    decreases |s|
  {
    s == [] || ((IsSpace(s[0]) ==> s[0] == ' ' && (|s| == 1 || !IsSpace(s[1]))) && Collapsed(s[1..]))
  }

  /** Every suffix of collapsed text is collapsed. */
  lemma {:induction false} CollapsedDrop(s: string, k: nat)
    requires Collapsed(s) && k <= |s|
    ensures Collapsed(s[k..])
    decreases k
  {
    if k > 0 {
      CollapsedDrop(s[1..], k - 1);
      assert s[1..][k - 1..] == s[k..];
    }
  }

  /** Every prefix of collapsed text is collapsed. */
  lemma {:induction false} CollapsedTake(s: string, k: nat)
    requires Collapsed(s) && k <= |s|
    ensures Collapsed(s[..k])
    decreases k
  {
    if k > 0 {
      CollapsedTake(s[1..], k - 1);
      assert s[..k][1..] == s[1..][..k - 1];
    }
  }

  // ---------------------------------------------------------------------
  // Substrings
  // ---------------------------------------------------------------------

  /** Python's `pat in s`. */
  predicate Contains(s: string, pat: string)
    decreases |s|
  {
    |pat| <= |s| && (s[..|pat|] == pat || (|s| > 0 && Contains(s[1..], pat)))
  }

  /** `s.replace(a, b)` for single characters. */
  function ReplaceChar(s: string, a: char, b: char): (r: string)
    ensures |r| == |s|
    ensures a != b ==> a !in r
    ensures forall c :: c in r ==> c in s || c == b
    ensures forall i :: 0 <= i < |s| && s[i] != a ==> r[i] == s[i]
    ensures forall i :: 0 <= i < |s| ==> r[i] == if s[i] == a then b else s[i]
  {
    seq(|s|, i requires 0 <= i < |s| => if s[i] == a then b else s[i])
  }

  /** `s.replace(pat, rep)`: leftmost, non-overlapping occurrences. */
  function ReplaceAll(s: string, pat: string, rep: string): string
    requires pat != []
    decreases |s|
  {
    if |s| < |pat| then s
    else if s[..|pat|] == pat then rep + ReplaceAll(s[|pat|..], pat, rep)
    else [s[0]] + ReplaceAll(s[1..], pat, rep)
  }

  /** `a` is what is left of `b` after deleting some of its characters. */
  predicate IsSubseq(a: string, b: string)
    decreases |b|
  {
    a == [] || (b != [] && ((a[0] == b[0] && IsSubseq(a[1..], b[1..])) || IsSubseq(a, b[1..])))
  }

  lemma {:induction false} SubseqRefl(a: string)
    decreases |a|
    ensures IsSubseq(a, a)
  {
    if a != [] {
      SubseqRefl(a[1..]);
    }
  }

  lemma SubseqCons(x: char, a: string, b: string)
    requires IsSubseq(a, b)
    ensures IsSubseq([x] + a, [x] + b)
  {
    assert ([x] + a)[1..] == a;
    assert ([x] + b)[1..] == b;
  }

  /** Deleting a whole prefix keeps a subsequence a subsequence. */
  lemma {:induction false} SubseqSkip(a: string, c: string, b: string)
    requires IsSubseq(a, b)
    ensures IsSubseq(a, c + b)
    decreases |c|
  {
    if c != [] {
      SubseqSkip(a, c[1..], b);
      assert (c + b)[1..] == c[1..] + b;
    } else {
      assert c + b == b;
    }
  }

  lemma {:induction false} SubseqTrans(a: string, b: string, c: string)
    requires IsSubseq(a, b) && IsSubseq(b, c)
    ensures IsSubseq(a, c)
    decreases |c|
  {
    if a != [] {
      if b[0] == c[0] && IsSubseq(b[1..], c[1..]) {
        if a[0] == b[0] && IsSubseq(a[1..], b[1..]) {
          SubseqTrans(a[1..], b[1..], c[1..]);
        } else {
          SubseqTrans(a, b[1..], c[1..]);
        }
      } else {
        SubseqTrans(a, b, c[1..]);
      }
    }
  }

  // ---------------------------------------------------------------------
  // Regular-expression building blocks, position by position
  // ---------------------------------------------------------------------

  /** The literal `w` occurs at position `i` of `s`. */
  predicate At(s: string, i: nat, w: string)
  {
    i + |w| <= |s| && s[i..i + |w|] == w
  }

  /** `\b` at position `i`: a word character on exactly one side. */
  predicate Boundary(s: string, i: nat)
  {
    (0 < i <= |s| && IsWordChar(s[i - 1])) != (i < |s| && IsWordChar(s[i]))
  }

  /** Length of the longest run of characters satisfying `p` that starts at `i`: a greedy `p*`. */
  function Run(s: string, i: nat, p: char -> bool): (n: nat)
    decreases |s| - i
    ensures n == 0 || i + n <= |s|
    ensures forall k :: i <= k < i + n ==> p(s[k])
    ensures i + n < |s| ==> !p(s[i + n])
  {
    if i < |s| && p(s[i]) then 1 + Run(s, i + 1, p) else 0
  }

  function SpaceRun(s: string, i: nat): (n: nat)
    ensures n == 0 || i + n <= |s|
    ensures forall k :: i <= k < i + n ==> IsSpace(s[k])
    ensures i + n < |s| ==> !IsSpace(s[i + n])
  {
    Run(s, i, IsSpace)
  }

  function DigitRun(s: string, i: nat): (n: nat)
    ensures n == 0 || i + n <= |s|
    ensures forall k :: i <= k < i + n ==> IsDigit(s[k])
    ensures i + n < |s| ==> !IsDigit(s[i + n])
  {
    Run(s, i, IsDigit)
  }

  predicate AllDigits(d: string)
  {
    forall k :: 0 <= k < |d| ==> IsDigit(d[k])
  }

  function Pow10(n: nat): (r: nat)
    ensures r >= 1
  {
    if n == 0 then 1 else 10 * Pow10(n - 1)
  }

  /** `int(d)` for a string of ASCII digits. */
  function DigitsValue(d: string): (r: nat)
    requires AllDigits(d)
    ensures r < Pow10(|d|)
  {
    if d == [] then 0
    else DigitsValue(d[..|d| - 1]) * 10 + (d[|d| - 1] as int - '0' as int)
  }

  /** `int(...)` of the `k` digits of `s` that start at `i`. */
  function NumberAt(s: string, i: nat, k: nat): (r: nat)
    requires 0 < k <= DigitRun(s, i)
    ensures r < Pow10(k)
  {
    var d := s[i..i + k];
    assert forall j :: 0 <= j < |d| ==> d[j] == s[i + j];
    DigitsValue(d)
  }

  /** `\s*` spans `s[a..b]`: every character there is a blank. */
  predicate BlanksBetween(s: string, a: nat, b: nat)
  {
    a <= b <= |s| && forall m :: a <= m < b ==> IsSpace(s[m])
  }

  /** `\d{k}` spans `s[a..a+k]`, and `int()` of those digits is `v`. */
  predicate DigitsGroup(s: string, a: nat, k: nat, v: nat)
  {
    a + k <= |s| && AllDigits(s[a..a + k]) && v == DigitsValue(s[a..a + k])
  }

  /** A greedy `\s*` stops exactly at the first character that is not a blank. */
  lemma SpaceRunIs(s: string, a: nat, b: nat)
    requires BlanksBetween(s, a, b) && (b == |s| || !IsSpace(s[b]))
    ensures SpaceRun(s, a) == b - a
  {
  }

  /** Where a greedy `\s*` that starts at `j` stops. */
  function SkipBlanks(s: string, j: nat): (r: nat)
    ensures j <= |s| ==> BlanksBetween(s, j, r) && (r == |s| || !IsSpace(s[r]))
  {
    j + SpaceRun(s, j)
  }

  lemma SkipBlanksIs(s: string, a: nat, b: nat)
    requires BlanksBetween(s, a, b) && (b == |s| || !IsSpace(s[b]))
    ensures SkipBlanks(s, a) == b
  {
    SpaceRunIs(s, a, b);
  }

  /** The number read at `i` is the value of a digit group there, and conversely. */
  lemma NumberAtIsGroup(s: string, i: nat, k: nat)
    requires 0 < k
    ensures k <= DigitRun(s, i) ==> DigitsGroup(s, i, k, NumberAt(s, i, k))
    ensures forall v :: DigitsGroup(s, i, k, v) ==> k <= DigitRun(s, i) && v == NumberAt(s, i, k)
  {
  }

  /** Alternative `a` matches at `i`, followed by `\b` when `wordEnd` is set. */
  predicate AltMatches(s: string, i: nat, a: string, wordEnd: bool)
  {
    At(s, i, a) && (wordEnd ==> Boundary(s, i + |a|))
  }

  /**
   * The first alternative of a group `(a|b|...)` that matches at `i`, in the
   * order the alternatives are written; with `wordEnd` the group is followed
   * by `\b`, so an alternative whose end is not a word boundary is passed over.
   */
  function FirstAlt(s: string, i: nat, alts: seq<string>, wordEnd: bool): (r: Option<string>)
    decreases |alts|
    ensures r.Some? ==> r.value in alts && At(s, i, r.value) && (wordEnd ==> Boundary(s, i + |r.value|))
    ensures r.None? ==> forall a :: a in alts ==> !(At(s, i, a) && (wordEnd ==> Boundary(s, i + |a|)))
  {
    if alts == [] then None
    else if AltMatches(s, i, alts[0], wordEnd) then Some(alts[0])
    else FirstAlt(s, i, alts[1..], wordEnd)
  }

  /** The alternative `FirstAlt` returns is one of `alts` and matches at `i`. */
  lemma FirstAltMatch(s: string, i: nat, alts: seq<string>, wordEnd: bool)
    requires FirstAlt(s, i, alts, wordEnd).Some?
    ensures FirstAlt(s, i, alts, wordEnd).value in alts
    ensures At(s, i, FirstAlt(s, i, alts, wordEnd).value)
    ensures wordEnd ==> Boundary(s, i + |FirstAlt(s, i, alts, wordEnd).value|)
  {
  }

  /** The alternative found is the first one, in written order, that matches. */
  lemma {:induction false} FirstAltIsFirst(s: string, i: nat, alts: seq<string>, wordEnd: bool)
    decreases |alts|
    ensures var r := FirstAlt(s, i, alts, wordEnd);
      r.Some? ==> exists j :: (0 <= j < |alts| && alts[j] == r.value
        && forall k :: 0 <= k < j ==> !AltMatches(s, i, alts[k], wordEnd))
  {
    if alts != [] && !AltMatches(s, i, alts[0], wordEnd) {
      var tail := alts[1..];
      FirstAltIsFirst(s, i, tail, wordEnd);
      var r := FirstAlt(s, i, tail, wordEnd);
      if r.Some? {
        var j :| 0 <= j < |tail| && tail[j] == r.value
          && forall k :: 0 <= k < j ==> !AltMatches(s, i, tail[k], wordEnd);
        assert alts[j + 1] == r.value;
        assert forall k :: 0 < k < j + 1 ==> alts[k] == tail[k - 1];
      }
    }
  }

  /**
   * `re.search`: the leftmost position at or after `from` where the matcher `m`
   * succeeds, with what it captured. Positions run up to `|s|` inclusive.
   */
  function FindFirst<T>(s: string, from: nat, m: (string, nat) -> Option<T>): (r: Option<(nat, T)>)
    decreases |s| + 1 - from
    ensures r.Some? ==> from <= r.value.0 <= |s| && m(s, r.value.0) == Some(r.value.1)
    ensures r.Some? ==> forall k :: from <= k < r.value.0 ==> m(s, k).None?
    ensures r.None? ==> forall k :: from <= k <= |s| ==> m(s, k).None?
  {
    if from > |s| then None
    else
      match m(s, from)
      case Some(v) => Some((from, v))
      case None => FindFirst(s, from + 1, m)
  }

  /** A matcher that succeeds somewhere makes the search succeed there or earlier. */
  lemma FindFirstFinds<T>(s: string, from: nat, m: (string, nat) -> Option<T>, k: nat)
    requires from <= k <= |s| && m(s, k).Some?
    ensures FindFirst(s, from, m).Some? && FindFirst(s, from, m).value.0 <= k
  {
  }

  /** A scanner for `re.sub`: each match it reports ends after its start and inside the text. */
  ghost predicate Advances(m: (string, nat) -> Option<nat>, s: string)
  {
    forall i: nat :: m(s, i).Some? ==> i < m(s, i).value <= |s|
  }

  /**
   * `re.sub` driven by the scanner `m`, from `from` on, with the boundaries
   * still judged on the whole of `s`: leftmost matches, non-overlapping,
   * scanning on after each one.
   */
  function SubWith(m: (string, nat) -> Option<nat>, s: string, from: nat, rep: string): string
    requires Advances(m, s)
    decreases |s| - from
  {
    if from >= |s| then []
    else
      match m(s, from)
      case Some(e) => rep + SubWith(m, s, e, rep)
      case None => [s[from]] + SubWith(m, s, from + 1, rep)
  }

  /** Substitution only keeps characters of the subject or of the replacement. */
  lemma {:induction false} SubWithChars(m: (string, nat) -> Option<nat>, s: string, from: nat, rep: string)
    requires Advances(m, s)
    decreases |s| - from
    ensures forall c :: c in SubWith(m, s, from, rep) ==> c in s || c in rep
  {
    if from < |s| {
      match m(s, from)
      case Some(e) => SubWithChars(m, s, e, rep);
      case None => SubWithChars(m, s, from + 1, rep);
    }
  }

  /** Substituting matches with nothing only deletes characters: the rest keep their order. */
  lemma {:induction false} SubWithSubseq(m: (string, nat) -> Option<nat>, s: string, from: nat)
    requires Advances(m, s) && from <= |s|
    decreases |s| - from
    ensures IsSubseq(SubWith(m, s, from, []), s[from..])
  {
    if from < |s| {
      match m(s, from)
      case Some(e) =>
        SubWithSubseq(m, s, e);
        assert SubWith(m, s, from, []) == SubWith(m, s, e, []);
        SubseqSkip(SubWith(m, s, e, []), s[from..e], s[e..]);
        assert s[from..e] + s[e..] == s[from..];
      case None =>
        SubWithSubseq(m, s, from + 1);
        SubseqCons(s[from], SubWith(m, s, from + 1, []), s[from + 1..]);
        assert [s[from]] + s[from + 1..] == s[from..];
    }
  }

  /** Where `m` matches nowhere from `from` on, substitution leaves the text as it is. */
  lemma {:induction false} SubWithNoMatch(m: (string, nat) -> Option<nat>, s: string, from: nat, rep: string)
    requires Advances(m, s) && from <= |s|
    requires forall i :: from <= i < |s| ==> m(s, i).None?
    decreases |s| - from
    ensures SubWith(m, s, from, rep) == s[from..]
  {
    if from < |s| {
      SubWithNoMatch(m, s, from + 1, rep);
      assert s[from..] == [s[from]] + s[from + 1..];
    }
  }

  /** Up to the first match, substitution copies the text. */
  lemma {:induction false} SubWithSkip(m: (string, nat) -> Option<nat>, s: string, from: nat, k: nat, rep: string)
    requires Advances(m, s) && from <= k <= |s|
    requires forall i :: from <= i < k ==> m(s, i).None?
    decreases k - from
    ensures SubWith(m, s, from, rep) == s[from..k] + SubWith(m, s, k, rep)
  {
    if from < k {
      SubWithSkip(m, s, from + 1, k, rep);
      SliceHead(s, from, k, SubWith(m, s, k, rep));
    }
  }

  /** At the first match, substitution writes `rep` over the matched text and goes on after it. */
  lemma SubWithFirst(m: (string, nat) -> Option<nat>, s: string, from: nat, k: nat, e: nat, rep: string)
    requires Advances(m, s) && from <= k < |s|
    requires forall i :: from <= i < k ==> m(s, i).None?
    requires m(s, k) == Some(e)
    ensures SubWith(m, s, from, rep) == s[from..k] + rep + SubWith(m, s, e, rep)
  {
    SubWithSkip(m, s, from, k, rep);
  }

  /**
   * `\b(w1|w2|...)\b` at `i`: the end of the first alternative, in written
   * order, that sits between two word boundaries.
   */
  function WordsAt(s: string, i: nat, ws: seq<string>): (r: Option<nat>)
    ensures r.Some? ==> exists w :: w in ws && At(s, i, w) && r.value == i + |w|
    ensures r.Some? ==> i <= r.value <= |s| && (r.value == i ==> [] in ws)
    ensures r.Some? ==> Boundary(s, i) && Boundary(s, r.value)
    ensures r.None? ==> !Boundary(s, i) || forall w :: w in ws ==> !(At(s, i, w) && Boundary(s, i + |w|))
  {
    if !Boundary(s, i) then None
    else
      match FirstAlt(s, i, ws, true)
      case None => None
      case Some(w) => Some(i + |w|)
  }

  /** `re.search(r"\b(w1|w2|...)\b", s)` succeeds. */
  predicate HasAnyWord(s: string, ws: seq<string>)
  {
    FindFirst(s, 0, (x: string, k: nat) => WordsAt(x, k, ws)).Some?
  }

  /** `re.search(r"\bw\b", s)` succeeds. */
  predicate HasWord(s: string, w: string)
  {
    HasAnyWord(s, [w])
  }

  function Min(a: int, b: int): int
  {
    if a <= b then a else b
  }

  function Max(a: int, b: int): int
  {
    if a >= b then a else b
  }
}
