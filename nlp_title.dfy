/**
 * The event title `parse_text` derives from the normalised phrase: every
 * location phrase, reminder phrase, reminder word, clock time, hour, day word
 * and weekday name is cut out, dashes and colons become blanks, whitespace is
 * collapsed and trimmed, and an empty result falls back to "Sự kiện".
 */
module NlpTitle {
  import opened Text
  import opened NlpPatterns
  import opened NlpNormalize

  /** The title used when nothing is left after the cuts. */
  const DefaultTitle: string := "Sự kiện"

  /** The patterns cut from the title, in the order they are applied. */
  const Cuts: seq<Pattern> :=
    [LocationPhrase, ReminderPhrase, ReminderWord, ClockTime, HourTime, DayWord, WeekdayWord]

  /** Applies each cut in turn, replacing its matches with nothing. */
  function CutAll(t: string, cuts: seq<Pattern>): string
    decreases |cuts|
  {
    if cuts == [] then t else CutAll(Sub(cuts[0], t, []), cuts[1..])
  }

  /** The text left once the cuts are made and dashes and colons are blanked. */
  function Cleaned(t: string): string
  {
    Strip(Collapse(Sub(Dash, CutAll(t, Cuts), " ")))
  }

  /** The event name of `parse_text`. */
  function Title(t: string): string
  {
    var cleaned := Cleaned(t);
    if cleaned == [] then DefaultTitle else cleaned
  }

  // ---------------------------------------------------------------------
  // Characters
  // ---------------------------------------------------------------------

  /** The cuts only delete: what is left is a subsequence of the phrase. */
  lemma {:induction false} CutAllChars(t: string, cuts: seq<Pattern>)
    decreases |cuts|
    ensures IsSubseq(CutAll(t, cuts), t)
    ensures forall c :: c in CutAll(t, cuts) ==> c in t
  {
    if cuts != [] {
      var once := Sub(cuts[0], t, []);
      SubFromChars(cuts[0], t, 0, []);
      SubFromSubseq(cuts[0], t, 0);
      assert t[0..] == t;
      CutAllChars(once, cuts[1..]);
      SubseqTrans(CutAll(t, cuts), once, t);
    } else {
      SubseqRefl(t);
    }
  }

  /** Blanking dashes leaves no dash, colon or en dash behind. */
  lemma {:induction false} DashFree(s: string, from: nat)
    decreases |s| - from
    ensures forall c :: c in SubFrom(Dash, s, from, " ") ==> !IsDash(c)
  {
    if from < |s| {
      match MatchEnd(Dash, s, from)
      case Some(e) => DashFree(s, e);
      case None => DashFree(s, from + 1);
    }
  }

  lemma CleanedChars(t: string)
    ensures forall c :: c in Cleaned(t) ==> (c in t || c == ' ') && !IsDash(c)
  {
    CutAllChars(t, Cuts);
    BlankedChars(CutAll(t, Cuts));
  }

  /** Blanking dashes, collapsing and stripping add only spaces, and leave no dash. */
  lemma BlankedChars(cut: string)
    ensures forall c :: c in Strip(Collapse(Sub(Dash, cut, " "))) ==> (c in cut || c == ' ') && !IsDash(c)
  {
    var dashed := Sub(Dash, cut, " ");
    SubFromChars(Dash, cut, 0, " ");
    DashFree(cut, 0);
    CollapseChars(dashed);
    StripChars(Collapse(dashed));
    forall c | c in Strip(Collapse(dashed)) ensures (c in cut || c == ' ') && !IsDash(c) {
      assert c in Collapse(dashed);
      if c != ' ' {
        assert c in dashed;
      }
    }
  }

  // ---------------------------------------------------------------------
  // Ink: the characters that survive blanking and collapsing
  // ---------------------------------------------------------------------

  /** The characters of `s` that are neither whitespace nor a dash, en dash or colon. */
  function Ink(s: string): string
    decreases |s|
  {
    if s == [] then []
    else (if IsSpace(s[0]) || IsDash(s[0]) then [] else [s[0]]) + Ink(s[1..])
  }

  lemma {:induction false} InkAppend(a: string, b: string)
    decreases |a|
    ensures Ink(a + b) == Ink(a) + Ink(b)
  {
    if a == [] {
      assert a + b == b;
    } else {
      InkAppend(a[1..], b);
      assert (a + b)[0] == a[0] && (a + b)[1..] == a[1..] + b;
      var h := if IsSpace(a[0]) || IsDash(a[0]) then [] else [a[0]];
      assert Ink(a + b) == h + (Ink(a[1..]) + Ink(b));
      assert h + (Ink(a[1..]) + Ink(b)) == (h + Ink(a[1..])) + Ink(b);
    }
  }

  lemma {:induction false} InkOfBlanks(s: string)
    requires AllSpace(s)
    decreases |s|
    ensures Ink(s) == []
  {
    if s != [] {
      InkOfBlanks(s[1..]);
    }
  }

  lemma InkStripLeft(s: string)
    ensures Ink(StripLeft(s)) == Ink(s)
  {
    var l := StripLeft(s);
    var dropped := s[..|s| - |l|];
    assert s == dropped + l;
    InkAppend(dropped, l);
    InkOfBlanks(dropped);
  }

  lemma InkStripRight(s: string)
    ensures Ink(StripRight(s)) == Ink(s)
  {
    var r := StripRight(s);
    var dropped := s[|r|..];
    assert s == r + dropped;
    InkAppend(r, dropped);
    InkOfBlanks(dropped);
  }

  lemma InkStrip(s: string)
    ensures Ink(Strip(s)) == Ink(s)
  {
    InkStripLeft(s);
    InkStripRight(StripLeft(s));
  }

  lemma {:induction false} InkCollapse(s: string)
    decreases |s|
    ensures Ink(Collapse(s)) == Ink(s)
  {
    if s != [] {
      if IsSpace(s[0]) {
        var rest := StripLeft(s[1..]);
        InkCollapse(rest);
        InkCons(' ', Collapse(rest));
        var dropped := s[1..][..|s[1..]| - |rest|];
        assert s[1..] == dropped + rest;
        InkAppend(dropped, rest);
        InkOfBlanks(dropped);
        assert Ink(s) == Ink(s[1..]);
      } else {
        InkCollapse(s[1..]);
        InkCons(s[0], Collapse(s[1..]));
      }
    }
  }

  /** The ink of a string with a character in front. */
  lemma InkCons(c: char, s: string)
    ensures Ink([c] + s) == (if IsSpace(c) || IsDash(c) then [] else [c]) + Ink(s)
  {
    assert ([c] + s)[0] == c && ([c] + s)[1..] == s;
  }

  /** Blanking dashes and colons changes no ink. */
  lemma {:induction false} InkDash(s: string, from: nat)
    requires from <= |s|
    decreases |s| - from
    ensures Ink(SubFrom(Dash, s, from, " ")) == Ink(s[from..])
  {
    if from < |s| {
      assert s[from..][1..] == s[from + 1..];
      InkDash(s, from + 1);
      if IsDash(s[from]) {
        assert SubFrom(Dash, s, from, " ") == " " + SubFrom(Dash, s, from + 1, " ");
        assert (" " + SubFrom(Dash, s, from + 1, " "))[1..] == SubFrom(Dash, s, from + 1, " ");
      } else {
        assert SubFrom(Dash, s, from, " ") == [s[from]] + SubFrom(Dash, s, from + 1, " ");
        assert ([s[from]] + SubFrom(Dash, s, from + 1, " "))[1..] == SubFrom(Dash, s, from + 1, " ");
      }
    }
  }

  /** Deleting characters keeps the ink in order. */
  lemma {:induction false} InkSubseq(a: string, b: string)
    requires IsSubseq(a, b)
    decreases |b|
    ensures IsSubseq(Ink(a), Ink(b))
  {
    if a == [] {
    } else if b != [] && a[0] == b[0] && IsSubseq(a[1..], b[1..]) {
      InkSubseq(a[1..], b[1..]);
      assert [a[0]] + a[1..] == a && [b[0]] + b[1..] == b;
      InkCons(a[0], a[1..]);
      InkCons(b[0], b[1..]);
      if IsSpace(a[0]) || IsDash(a[0]) {
        assert Ink(a) == Ink(a[1..]) && Ink(b) == Ink(b[1..]);
      } else {
        SubseqCons(a[0], Ink(a[1..]), Ink(b[1..]));
        assert Ink(a) == [a[0]] + Ink(a[1..]) && Ink(b) == [a[0]] + Ink(b[1..]);
      }
    } else {
      assert b != [] && IsSubseq(a, b[1..]);
      InkSubseq(a, b[1..]);
      assert [b[0]] + b[1..] == b;
      InkCons(b[0], b[1..]);
      var head := if IsSpace(b[0]) || IsDash(b[0]) then [] else [b[0]];
      SubseqSkip(Ink(a), head, Ink(b[1..]));
      assert Ink(b) == head + Ink(b[1..]);
    }
  }

  /** The cleaned title holds exactly the ink the cuts leave. */
  lemma CleanedInk(t: string)
    ensures Ink(Cleaned(t)) == Ink(CutAll(t, Cuts))
  {
    var cut := CutAll(t, Cuts);
    var dashed := Sub(Dash, cut, " ");
    InkDash(cut, 0);
    assert cut[0..] == cut;
    InkCollapse(dashed);
    InkStrip(Collapse(dashed));
  }

  // ---------------------------------------------------------------------
  // Shape
  // ---------------------------------------------------------------------

  /** Stripping collapsed text leaves it collapsed. */
  lemma StripCollapsed(c: string)
    requires Collapsed(c)
    ensures Collapsed(Strip(c))
  {
    var l := StripLeft(c);
    CollapsedDrop(c, |c| - |l|);
    CollapsedTake(l, |StripRight(l)|);
  }

  lemma CleanedCollapsed(t: string)
    ensures Collapsed(Cleaned(t))
  {
    CollapseIsCollapsed(Sub(Dash, CutAll(t, Cuts), " "));
    StripCollapsed(Collapse(Sub(Dash, CutAll(t, Cuts), " ")));
  }

  lemma DefaultTitleShape()
    ensures Trimmed(DefaultTitle) && Collapsed(DefaultTitle)
    ensures forall c :: c in DefaultTitle ==> !IsDash(c)
  {
    assert Collapsed("kiện") by { NoSpaceCollapsed("kiện"); }
    assert " kiện"[1..] == "kiện";
    assert "ự kiện"[1..] == " kiện";
    assert DefaultTitle[1..] == "ự kiện";
  }

  /**
   * The fallback name is used exactly when the cuts leave no ink; otherwise
   * the title holds precisely the ink the cuts leave, which is the phrase's
   * ink with some characters deleted and the rest in their order.
   */
  lemma TitleInk(t: string)
    ensures Ink(CutAll(t, Cuts)) == [] ==> Title(t) == DefaultTitle
    ensures Ink(CutAll(t, Cuts)) != [] ==> Title(t) == Cleaned(t) && Ink(Title(t)) == Ink(CutAll(t, Cuts))
    ensures IsSubseq(Ink(CutAll(t, Cuts)), Ink(t))
  {
    var c := Cleaned(t);
    CleanedInk(t);
    CleanedChars(t);
    if c != [] {
      assert c[0] in c;
      assert Ink(c) == [c[0]] + Ink(c[1..]);
    }
    CutAllChars(t, Cuts);
    InkSubseq(CutAll(t, Cuts), t);
  }

  /**
   * The title is never empty, has no leading or trailing blank, no run of
   * blanks, no dash, en dash or colon; unless it is the fallback name it is
   * made only of characters of the normalised phrase and blanks, and its ink
   * is a subsequence of the phrase's.
   */
  lemma TitleShape(t: string)
    ensures var r := Title(t);
      && r != []
      && Trimmed(r)
      && Collapsed(r)
      && (forall c :: c in r ==> !IsDash(c))
      && (r == DefaultTitle || forall c :: c in r ==> c in t || c == ' ')
      && (Ink(CutAll(t, Cuts)) != [] ==> r != [] && IsSubseq(Ink(r), Ink(t)))
  {
    CleanedChars(t);
    CleanedCollapsed(t);
    DefaultTitleShape();
    TitleInk(t);
  }

  /** None of the patterns `cuts` matches anywhere in `t`. */
  predicate NoCutMatches(t: string, cuts: seq<Pattern>)
  {
    forall p, i :: p in cuts && 0 <= i < |t| ==> MatchEnd(p, t, i).None?
  }

  lemma {:induction false} CutAllNoMatch(t: string, cuts: seq<Pattern>)
    requires NoCutMatches(t, cuts)
    decreases |cuts|
    ensures CutAll(t, cuts) == t
  {
    if cuts != [] {
      assert forall i :: 0 <= i < |t| ==> MatchEnd(cuts[0], t, i).None?;
      SubFromNoMatch(cuts[0], t, 0, []);
      assert t[0..] == t;
      assert NoCutMatches(t, cuts[1..]);
      CutAllNoMatch(t, cuts[1..]);
    }
  }

  /**
   * Cleaning a phrase in which none of `cuts` matches, with no dash or colon,
   * already collapsed and trimmed, gives the phrase back.
   */
  lemma CleanedOfPlainText(t: string, cuts: seq<Pattern>)
    requires Trimmed(t) && Collapsed(t)
    requires forall i :: 0 <= i < |t| ==> !IsDash(t[i])
    requires NoCutMatches(t, cuts)
    ensures Strip(Collapse(Sub(Dash, CutAll(t, cuts), " "))) == t
  {
    CutAllNoMatch(t, cuts);
    BlankingNoDash(t);
    CollapsedIsFixed(t);
  }

  lemma BlankingNoDash(t: string)
    requires forall i :: 0 <= i < |t| ==> !IsDash(t[i])
    ensures Sub(Dash, t, " ") == t
  {
    assert forall i :: 0 <= i < |t| ==> MatchEnd(Dash, t, i).None?;
    SubFromNoMatch(Dash, t, 0, " ");
    assert t[0..] == t;
  }

  /** Apart from the fallback name, a title cut from lower-case text is lower-case. */
  lemma TitleLowerCase(t: string)
    requires NoUpper(t)
    ensures Title(t) == DefaultTitle || NoUpper(Title(t))
  {
    var r := Title(t);
    if r != DefaultTitle {
      assert r == Cleaned(t);
      CleanedChars(t);
      forall i | 0 <= i < |r| ensures !IsUpper(r[i]) {
        assert r[i] in Cleaned(t);
        if r[i] != ' ' {
          NoUpperIn(t, r[i]);
        }
      }
    }
  }
}
