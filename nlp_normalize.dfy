/**
 * The normaliser `_norm` of the Vietnamese phrase parser and the shape of the
 * text it produces: trimmed, lower-case, single blanks, no "giờ" and no ".".
 * Every extractor of the parser works on this normalised text.
 */
module NlpNormalize {
  import opened Text

  /** The word for "hour", which the normaliser rewrites to "h". */
  const Gio: string := "giờ"

  /** `_norm`: strip, lower-case, "giờ" to "h", "." to ":", whitespace runs to one blank. */
  function Norm(text: string): string
  {
    Collapse(ReplaceChar(ReplaceAll(Lower(Strip(text)), Gio, "h"), '.', ':'))
  }

  /** Everything `_norm` promises about its output. */
  predicate Normalised(t: string)
  {
    && Trimmed(t)
    && Collapsed(t)
    && NoUpper(t)
    && !Contains(t, Gio)
    && '.' !in t
  }

  predicate NoSpace(w: string)
  {
    forall i :: 0 <= i < |w| ==> !IsSpace(w[i])
  }

  // ---------------------------------------------------------------------
  // Substring facts
  // ---------------------------------------------------------------------

  /** An occurrence in `[c] + x` starts at the front or lies in `x`. */
  lemma ContainsCons(c: char, x: string, w: string)
    requires w != [] && Contains([c] + x, w)
    ensures (|w| <= 1 + |x| && ([c] + x)[..|w|] == w) || Contains(x, w)
  {
    assert ([c] + x)[1..] == x;
  }

  lemma {:induction false} ContainsInSuffix(s: string, k: nat, pat: string)
    requires k <= |s| && Contains(s[k..], pat)
    ensures Contains(s, pat)
    decreases k
  {
    if k > 0 {
      assert s[1..][k - 1..] == s[k..];
      ContainsInSuffix(s[1..], k - 1, pat);
    }
  }

  lemma {:induction false} ReplaceAllNoMatch(s: string, pat: string, rep: string)
    requires pat != [] && !Contains(s, pat)
    ensures ReplaceAll(s, pat, rep) == s
    decreases |s|
  {
    if |s| >= |pat| {
      ReplaceAllNoMatch(s[1..], pat, rep);
      assert [s[0]] + s[1..] == s;
    }
  }

  // ---------------------------------------------------------------------
  // "giờ" -> "h" leaves no "giờ"
  // ---------------------------------------------------------------------

  lemma ReplaceGioHead(x: string)
    ensures (ReplaceAll(x, Gio, "h") == []) == (x == [])
    ensures x != [] ==> ReplaceAll(x, Gio, "h")[0] == if At(x, 0, Gio) then 'h' else x[0]
  {
  }

  lemma {:induction false} ReplaceGioFree(s: string)
    ensures !Contains(ReplaceAll(s, Gio, "h"), Gio)
    decreases |s|
  {
    var r := ReplaceAll(s, Gio, "h");
    if |s| < |Gio| {
    } else if s[..|Gio|] == Gio {
      var rest := ReplaceAll(s[|Gio|..], Gio, "h");
      ReplaceGioFree(s[|Gio|..]);
      assert r == "h" + rest;
      assert r[1..] == rest;
      assert |r| >= |Gio| ==> r[..|Gio|][0] != Gio[0];
    } else {
      var rest := ReplaceAll(s[1..], Gio, "h");
      ReplaceGioFree(s[1..]);
      assert r == [s[0]] + rest;
      assert r[1..] == rest;
      if |r| >= 3 && r[..3] == Gio {
        ReplaceGioHead(s[1..]);
        assert false;
      }
    }
  }

  /** A character of a suffix is a character of the whole. */
  lemma SuffixChars(s: string, k: nat)
    requires k <= |s|
    ensures forall c :: c in s[k..] ==> c in s
  {
    forall c | c in s[k..] ensures c in s {
      var i :| 0 <= i < |s[k..]| && s[k..][i] == c;
      assert s[k + i] == c;
    }
  }

  lemma {:induction false} ReplaceGioChars(s: string)
    ensures forall c :: c in ReplaceAll(s, Gio, "h") ==> c in s || c == 'h'
    decreases |s|
  {
    if |s| >= |Gio| {
      if s[..|Gio|] == Gio {
        ReplaceGioChars(s[|Gio|..]);
        SuffixChars(s, |Gio|);
      } else {
        ReplaceGioChars(s[1..]);
        SuffixChars(s, 1);
      }
    }
  }

  lemma {:induction false} ReplaceGioLast(s: string)
    requires s != []
    ensures ReplaceAll(s, Gio, "h") != []
    ensures Last(ReplaceAll(s, Gio, "h")) in {Last(s), 'h'}
    decreases |s|
  {
    if |s| >= |Gio| {
      if s[..|Gio|] == Gio {
        if |s| > |Gio| {
          ReplaceGioLast(s[|Gio|..]);
        }
      } else if |s| > 1 {
        ReplaceGioLast(s[1..]);
      }
    }
  }

  function Last(s: string): char
    requires s != []
  {
    s[|s| - 1]
  }

  // ---------------------------------------------------------------------
  // "." -> ":" keeps every other character in place
  // ---------------------------------------------------------------------

  lemma {:induction false} ReplaceCharKeepsAbsence(s: string, w: string, a: char, b: char)
    requires b !in w && Contains(ReplaceChar(s, a, b), w)
    ensures Contains(s, w)
    decreases |s|
  {
    var r := ReplaceChar(s, a, b);
    if r[..|w|] == w {
      assert s[..|w|] == w by {
        forall i | 0 <= i < |w| ensures s[i] == w[i] {
          assert r[i] == w[i];
        }
      }
    } else {
      assert r[1..] == ReplaceChar(s[1..], a, b);
      ReplaceCharKeepsAbsence(s[1..], w, a, b);
    }
  }

  // ---------------------------------------------------------------------
  // Collapsing whitespace
  // ---------------------------------------------------------------------

  lemma {:induction false} CollapseChars(s: string)
    ensures forall c :: c in Collapse(s) ==> c in s || c == ' '
    decreases |s|
  {
    if s != [] {
      if IsSpace(s[0]) {
        var d := StripLeft(s[1..]);
        CollapseChars(d);
        assert d == s[|s| - |d|..];
        SuffixChars(s, |s| - |d|);
        assert Collapse(s) == [' '] + Collapse(d);
      } else {
        CollapseChars(s[1..]);
        SuffixChars(s, 1);
        assert Collapse(s) == [s[0]] + Collapse(s[1..]);
      }
    }
  }

  lemma CollapseHead(s: string)
    ensures (Collapse(s) == []) == (s == [])
    ensures s != [] ==> Collapse(s)[0] == if IsSpace(s[0]) then ' ' else s[0]
  {
  }

  lemma {:induction false} CollapseEnds(s: string)
    requires s != [] && !IsSpace(Last(s))
    ensures Collapse(s) != [] && !IsSpace(Last(Collapse(s)))
    decreases |s|
  {
    if IsSpace(s[0]) {
      var d := StripLeft(s[1..]);
      assert d != [];
      assert Last(d) == Last(s);
      CollapseEnds(d);
      assert Collapse(s) == [' '] + Collapse(d);
    } else if |s| > 1 {
      CollapseEnds(s[1..]);
      assert Collapse(s) == [s[0]] + Collapse(s[1..]);
    }
  }

  lemma ConsCollapsed(c: char, t: string)
    requires Collapsed(t)
    requires IsSpace(c) ==> c == ' ' && (t == [] || !IsSpace(t[0]))
    ensures Collapsed([c] + t)
  {
    assert ([c] + t)[1..] == t;
  }

  lemma {:induction false} CollapseIsCollapsed(s: string)
    ensures Collapsed(Collapse(s))
    decreases |s|
  {
    if s != [] {
      if IsSpace(s[0]) {
        var d := StripLeft(s[1..]);
        CollapseIsCollapsed(d);
        CollapseHead(d);
        ConsCollapsed(' ', Collapse(d));
      } else {
        CollapseIsCollapsed(s[1..]);
        ConsCollapsed(s[0], Collapse(s[1..]));
      }
    }
  }

  lemma {:induction false} CollapsedIsFixed(s: string)
    requires Collapsed(s)
    ensures Collapse(s) == s
    decreases |s|
  {
    if s != [] {
      CollapsedIsFixed(s[1..]);
      if IsSpace(s[0]) {
        assert s[1..] == [] || !IsSpace(s[1..][0]) by {
          if |s| > 1 { assert s[1..][0] == s[1]; }
        }
        assert StripLeft(s[1..]) == s[1..];
        assert Collapse(s) == [' '] + Collapse(s[1..]);
      } else {
        assert Collapse(s) == [s[0]] + Collapse(s[1..]);
      }
      assert [s[0]] + s[1..] == s;
    }
  }

  lemma NoSpaceTail(w: string)
    requires w != [] && NoSpace(w)
    ensures NoSpace(w[1..])
  {
    forall i | 0 <= i < |w[1..]| ensures !IsSpace(w[1..][i]) {
      assert w[1..][i] == w[i + 1];
    }
  }

  /** Text without whitespace is collapsed. */
  lemma {:induction false} NoSpaceCollapsed(w: string)
    requires NoSpace(w)
    ensures Collapsed(w)
    decreases |w|
  {
    if w != [] {
      NoSpaceTail(w);
      NoSpaceCollapsed(w[1..]);
    }
  }

  lemma {:induction false} CollapsePrefix(x: string, w: string)
    requires NoSpace(w) && |w| <= |Collapse(x)| && Collapse(x)[..|w|] == w
    ensures |w| <= |x| && x[..|w|] == w
    decreases |w|
  {
    if w != [] {
      CollapseHead(x);
      assert x != [];
      assert !IsSpace(x[0]) by {
        assert Collapse(x)[0] == w[0] && !IsSpace(w[0]);
      }
      assert Collapse(x) == [x[0]] + Collapse(x[1..]);
      assert Collapse(x[1..])[..|w| - 1] == w[1..];
      NoSpaceTail(w);
      CollapsePrefix(x[1..], w[1..]);
      assert x[..|w|] == [x[0]] + x[1..][..|w| - 1];
    }
  }

  lemma {:induction false} CollapseKeepsAbsence(s: string, w: string)
    requires w != [] && NoSpace(w) && Contains(Collapse(s), w)
    ensures Contains(s, w)
    decreases |s|
  {
    assert s != [];
    if IsSpace(s[0]) {
      var d := StripLeft(s[1..]);
      assert Collapse(s) == [' '] + Collapse(d);
      ContainsCons(' ', Collapse(d), w);
      assert ([' '] + Collapse(d))[..|w|][0] != w[0];
      CollapseKeepsAbsence(d, w);
      assert s[|s| - |d|..] == d;
      ContainsInSuffix(s, |s| - |d|, w);
    } else {
      assert Collapse(s) == [s[0]] + Collapse(s[1..]);
      ContainsCons(s[0], Collapse(s[1..]), w);
      if Collapse(s)[..|w|] == w {
        CollapseHeadMatch(s, w);
      } else {
        CollapseKeepsAbsence(s[1..], w);
        ContainsInSuffix(s, 1, w);
      }
    }
  }

  /** A blank-free word at the very front of the collapsed text was already there. */
  lemma CollapseHeadMatch(s: string, w: string)
    requires s != [] && !IsSpace(s[0]) && w != [] && NoSpace(w)
    requires |w| <= |Collapse(s)| && Collapse(s)[..|w|] == w
    ensures Contains(s, w)
  {
    assert Collapse(s) == [s[0]] + Collapse(s[1..]);
    ConsPrefix(s[0], Collapse(s[1..]), w);
    NoSpaceTail(w);
    CollapsePrefix(s[1..], w[1..]);
    PrefixFromTail(s, w);
  }

  // ---------------------------------------------------------------------
  // The properties of _norm
  // ---------------------------------------------------------------------

  /** The stages of `_norm`, in the order the source applies them. */
  function Stripped(text: string): string { Strip(text) }
  function Lowered(text: string): string { Lower(Stripped(text)) }
  function HoursRewritten(text: string): string { ReplaceAll(Lowered(text), Gio, "h") }
  function ColonsRewritten(text: string): string { ReplaceChar(HoursRewritten(text), '.', ':') }

  lemma NormStages(text: string)
    ensures Norm(text) == Collapse(ColonsRewritten(text))
  {
  }

  lemma LowerTrimmed(s: string)
    requires Trimmed(s)
    ensures Trimmed(Lower(s))
  {
    if s != [] {
      assert Lower(s)[0] == LowerChar(s[0]);
      assert Lower(s)[|s| - 1] == LowerChar(s[|s| - 1]);
    }
  }

  lemma ReplaceGioTrimmed(b: string)
    requires Trimmed(b)
    ensures Trimmed(ReplaceAll(b, Gio, "h"))
  {
    if b != [] {
      ReplaceGioHead(b);
      ReplaceGioLast(b);
    }
  }

  lemma ReplaceCharTrimmed(c: string, a: char, b: char)
    requires Trimmed(c) && !IsSpace(b)
    ensures Trimmed(ReplaceChar(c, a, b))
  {
    if c != [] {
      assert ReplaceChar(c, a, b)[0] == if c[0] == a then b else c[0];
      assert ReplaceChar(c, a, b)[|c| - 1] == if c[|c| - 1] == a then b else c[|c| - 1];
    }
  }

  lemma CollapseTrimmed(d: string)
    requires Trimmed(d)
    ensures Trimmed(Collapse(d))
  {
    if d != [] {
      CollapseHead(d);
      CollapseEnds(d);
    }
  }

  lemma NormTrimmed(text: string)
    ensures Trimmed(Norm(text))
  {
    LowerTrimmed(Stripped(text));
    ReplaceGioTrimmed(Lowered(text));
    ReplaceCharTrimmed(HoursRewritten(text), '.', ':');
    CollapseTrimmed(ColonsRewritten(text));
  }

  lemma NormCharacters(text: string)
    ensures forall ch :: ch in Norm(text) ==> ch == ' ' || ch == ':' || ch == 'h' || (ch != '.' && ch in Lowered(text))
  {
    var b := Lowered(text);
    var c := HoursRewritten(text);
    var d := ColonsRewritten(text);
    ReplaceGioChars(b);
    CollapseChars(d);
    forall ch | ch in Norm(text) ensures ch == ' ' || ch == ':' || ch == 'h' || (ch != '.' && ch in b) {
      if ch != ' ' {
        assert ch in d;
        var j :| 0 <= j < |d| && d[j] == ch;
        if c[j] != '.' {
          assert c[j] in c;
        }
      }
    }
  }

  lemma NormNoUpper(text: string)
    ensures NoUpper(Norm(text))
  {
    var n := Norm(text);
    NormCharacters(text);
    forall i | 0 <= i < |n| ensures !IsUpper(n[i]) {
      assert n[i] in n;
      if n[i] in Lowered(text) {
        var j :| 0 <= j < |Lowered(text)| && Lowered(text)[j] == n[i];
      }
    }
  }

  lemma GioShape()
    ensures Gio != [] && NoSpace(Gio) && ':' !in Gio
  {
  }

  lemma ColonsNoGio(text: string)
    ensures !Contains(ColonsRewritten(text), Gio)
  {
    ReplaceGioFree(Lowered(text));
    GioShape();
    if Contains(ColonsRewritten(text), Gio) {
      ReplaceCharKeepsAbsence(HoursRewritten(text), Gio, '.', ':');
    }
  }

  lemma NormNoGio(text: string)
    ensures !Contains(Norm(text), Gio)
  {
    ColonsNoGio(text);
    GioShape();
    NormStages(text);
    if Contains(Norm(text), Gio) {
      CollapseKeepsAbsence(ColonsRewritten(text), Gio);
    }
  }

  /** The output of `_norm` has the shape `Normalised` describes. */
  lemma NormIsNormalised(text: string)
    ensures Normalised(Norm(text))
  {
    NormTrimmed(text);
    CollapseIsCollapsed(ColonsRewritten(text));
    NormNoUpper(text);
    NormNoGio(text);
    NormCharacters(text);
  }

  lemma LowerFixed(s: string)
    requires NoUpper(s)
    ensures Lower(s) == s
  {
    assert forall i :: 0 <= i < |s| ==> Lower(s)[i] == s[i];
  }

  lemma ReplaceCharFixed(s: string, a: char, b: char)
    requires a !in s
    ensures ReplaceChar(s, a, b) == s
  {
    assert forall i :: 0 <= i < |s| ==> ReplaceChar(s, a, b)[i] == s[i];
  }

  /** Any text already in normal form is its own normal form. */
  lemma NormalisedIsFixed(t: string)
    requires Normalised(t)
    ensures Norm(t) == t
  {
    assert Strip(t) == t;
    LowerFixed(t);
    ReplaceAllNoMatch(t, Gio, "h");
    ReplaceCharFixed(t, '.', ':');
    CollapsedIsFixed(t);
  }

  /** `_norm` is idempotent: normalising normalised text changes nothing. */
  lemma NormIdempotent(text: string)
    ensures Norm(Norm(text)) == Norm(text)
  {
    NormIsNormalised(text);
    NormalisedIsFixed(Norm(text));
  }
}
