/**
 * The extractors of the phrase parser (nlp.py:39-147): what each one computes
 * once its pattern has matched on the normalised sentence. `today` and the
 * current year are parameters.
 */
module NlpExtract {
  import opened Wrappers
  import opened Text
  import opened Calendar
  import opened NlpPatterns
  import NlpNormalize

  // ---------------------------------------------------------------------
  // Reminder lead time (nlp.py:39-51)
  // ---------------------------------------------------------------------

  const DefaultReminder: nat := 15

  /** The unit test of `_extract_reminder`: substring tests, then a membership test. */
  function ReminderMinutes(num: nat, unit: string): nat
  {
    if Contains(unit, "ngày") then num * 24 * 60
    else if Contains(unit, "giờ") || unit == "g" || unit == "ph" then num * 60
    else num
  }

  /** How many minutes one of each unit the search can capture stands for. */
  function UnitMinutes(unit: string): nat
  {
    if unit == "ngày" then 1440
    else if unit == "giờ" || unit == "g" || unit == "ph" then 60
    else 1
  }

  /** On every unit of the alternation, the substring tests agree with the table. */
  lemma ReminderUnitTable(num: nat, unit: string)
    requires unit in ReminderUnits
    ensures ReminderMinutes(num, unit) == num * UnitMinutes(unit)
  {
    PhutTests();
    assert Contains("giờ", "giờ") && Contains("ngày", "ngày");
    assert !Contains("giờ", "ngày");
  }

  /** Neither substring test fires on "phút". */
  lemma PhutTests()
    ensures !Contains("phút", "ngày") && !Contains("phút", "giờ")
  {
    assert "phút"[..4][0] == 'p' && |"phút"[1..]| < |"ngày"|;
    assert "phút"[..3][0] == 'p' && "phút"[1..][..3][0] == 'h';
    assert |"phút"[1..][1..]| < |"giờ"|;
  }

  /** `_extract_reminder`: the leftmost reminder phrase, or the default of 15. */
  function ExtractReminder(t: string): (r: nat)
    ensures FindFirst(t, 0, ReminderAt).None? ==> r == DefaultReminder
    ensures FindFirst(t, 0, ReminderAt).Some? ==>
      var m := FindFirst(t, 0, ReminderAt).value.1;
      r == m.0 * UnitMinutes(m.1)
  {
    match FindFirst(t, 0, ReminderAt)
    case None => DefaultReminder
    case Some(found) =>
      ReminderUnitTable(found.1.0, found.1.1);
      ReminderMinutes(found.1.0, found.1.1)
  }

  lemma UnitPrefix(s: string, q: nat)
    requires At(s, q, "ph")
    ensures At(s, q, "p")
  {
    assert s[q..q + 1] == s[q..q + 2][..1];
  }

  /** `ph` is never captured: `p` stands before it in the alternation. */
  lemma UnitPhNeverCaptured(s: string, q: nat)
    ensures FirstAlt(s, q, ReminderUnits, false) != Some("ph")
  {
    if At(s, q, "ph") {
      UnitPrefix(s, q);
      assert FirstAlt(s, q, ReminderUnits[1..], false) == Some("p");
    }
  }

  lemma AtContains(s: string, i: nat, w: string)
    requires At(s, i, w)
    ensures Contains(s, w)
  {
    assert s[i..][..|w|] == w;
    NlpNormalize.ContainsInSuffix(s, i, w);
  }

  /**
   * On a normalised sentence `giờ` has already become `h`, so the unit `giờ`
   * is never captured either: an hour-based lead time is only written `g`.
   */
  lemma UnitGioNeverCaptured(t: string, q: nat)
    requires NlpNormalize.Normalised(t)
    ensures FirstAlt(t, q, ReminderUnits, false) != Some("giờ")
  {
    if FirstAlt(t, q, ReminderUnits, false) == Some("giờ") {
      AtContains(t, q, "giờ");
      assert false;
    }
  }

  // ---------------------------------------------------------------------
  // Location (nlp.py:53-61)
  // ---------------------------------------------------------------------

  /** Without a filler word anywhere, deleting filler tails changes nothing. */
  lemma FillerFreeSub(s: string)
    ensures FirstFiller(s).None? ==> Sub(FillerTail, s, []) == s
  {
    if FirstFiller(s).None? {
      assert forall i :: 0 <= i < |s| ==> MatchEnd(FillerTail, s, i).None?;
      SubFromNoMatch(FillerTail, s, 0, []);
      assert s[0..] == s;
    }
  }

  /**
   * The first filler word cuts the text: what precedes it is kept, and the
   * match runs to the end of the line, so on one line nothing after it is left.
   */
  lemma FillerCut(s: string)
    requires FirstFiller(s).Some?
    ensures Sub(FillerTail, s, []) == s[..FirstFiller(s).value.0] + SubFrom(FillerTail, s, FirstFiller(s).value.1, [])
  {
    var f := FirstFiller(s).value;
    var k := f.0;
    forall i | 0 <= i <= k
      ensures MatchEnd(FillerTail, s, i) == FillerAt(s, i)
    {
      FillerTailIs(s, i);
    }
    SubFromFirst(FillerTail, s, 0, k, f.1, []);
    assert s[0..k] + [] == s[..k];
  }

  lemma FillerCutLine(s: string)
    requires FirstFiller(s).Some? && '\n' !in s
    ensures FirstFiller(s).value.1 == |s|
    ensures Sub(FillerTail, s, []) == s[..FirstFiller(s).value.0]
  {
    var f := FirstFiller(s).value;
    FillerCut(s);
    FillerToEnd(s, f.0);
    assert s[..f.0] + [] == s[..f.0];
  }

  /** The tidying `_extract_location` applies to the captured text. */
  function CleanLocation(captured: string): (r: string)
    ensures Trimmed(r)
    ensures forall c :: c in r ==> c in captured
    ensures FirstFiller(Strip(captured)).None? ==> r == Strip(captured)
  {
    var stripped := Strip(captured);
    var cut := Sub(FillerTail, stripped, []);
    StripChars(captured);
    SubFromChars(FillerTail, stripped, 0, []);
    StripChars(cut);
    FillerFreeSub(stripped);
    Strip(cut)
  }

  /**
   * With a filler word in the stripped capture, the location is what comes
   * before the first one, stripped again; on one line, a stretch of the capture.
   */
  lemma CleanLocationCut(captured: string)
    requires FirstFiller(Strip(captured)).Some?
    ensures var st := Strip(captured); var f := FirstFiller(st).value;
      f.0 < f.1 <= |st| && CleanLocation(captured) == Strip(st[..f.0] + SubFrom(FillerTail, st, f.1, []))
    ensures '\n' !in captured ==>
      CleanLocation(captured) == Strip(Strip(captured)[..FirstFiller(Strip(captured)).value.0])
  {
    var st := Strip(captured);
    FillerCut(st);
    if '\n' !in captured {
      StripChars(captured);
      FillerCutLine(st);
    }
  }

  /** On one line, the cleaned location is a prefix of the stripped capture. */
  lemma CleanLocationPrefix(captured: string)
    requires '\n' !in captured
    ensures CleanLocation(captured) <= Strip(captured)
  {
    var st := Strip(captured);
    if FirstFiller(st).Some? {
      CleanLocationCut(captured);
      var k := FirstFiller(st).value.0;
      StripPrefix(st[..k]);
      PrefixOfTake(Strip(st[..k]), st, k);
    }
  }

  /** On one line, the cleaned location is one contiguous stretch of the capture. */
  lemma CleanLocationSegment(captured: string)
    requires '\n' !in captured
    ensures IsSegment(CleanLocation(captured), captured)
  {
    var st := Strip(captured);
    StripIsSegment(captured);
    StripChars(captured);
    var kept := if FirstFiller(st).Some? then st[..FirstFiller(st).value.0] else st;
    if FirstFiller(st).Some? {
      CleanLocationCut(captured);
    }
    assert CleanLocation(captured) == Strip(kept);
    StripIsSegment(kept);
    assert IsSegment(kept, st) by {
      assert kept == st[0..|kept|];
    }
    SegmentTrans(Strip(kept), kept, st);
    SegmentTrans(Strip(kept), st, captured);
  }

  lemma NheFillerAt0()
    ensures FillerAt("nhà nhé", 0).None?
  {
    var s := "nhà nhé";
    assert s[0..3] == "nhà" && s[0..4] == "nhà ";
    assert !AltMatches(s, 0, "nhé", true) && !AltMatches(s, 0, " nhé", true);
    assert !AltMatches(s, 0, "giúp", true) && !AltMatches(s, 0, "giùm", true);
  }

  lemma NheFillerAt3()
    ensures FillerAt("nhà nhé", 3) == Some(7)
  {
    var s := "nhà nhé";
    assert Boundary(s, 3);
    assert s[3..6] == " nh";
    assert !AltMatches(s, 3, "nhé", true);
    assert s[3..7] == " nhé";
    assert AltMatches(s, 3, " nhé", true);
    assert FirstAlt(s, 3, Fillers, true) == Some(" nhé");
  }

  lemma NheFirstFiller()
    ensures FirstFiller("nhà nhé") == Some((3, 7))
  {
    var s := "nhà nhé";
    NheFillerAt0();
    NheFillerAt3();
    assert !Boundary(s, 1) && !Boundary(s, 2);
    assert FillerAt(s, 1).None? && FillerAt(s, 2).None?;
  }

  /** The example the filler rule is written for: `nhà nhé` leaves `nhà`. */
  lemma CleanLocationDropsNhe()
    ensures CleanLocation("nhà nhé") == "nhà"
  {
    var s := "nhà nhé";
    var kept := s[..3];
    assert kept == "nhà" && Trimmed(kept);
    assert Trimmed(s) && '\n' !in s;
    NheFirstFiller();
    CleanLocationCut(s);
  }



  lemma SpanChars(t: string, b: nat, e: nat, p: char -> bool)
    requires b <= e <= |t| && forall k :: b <= k < e ==> p(t[k])
    ensures forall c :: c in t[b..e] ==> p(c)
  {
    forall c | c in t[b..e] ensures p(c) {
      var k :| 0 <= k < e - b && t[b..e][k] == c;
      assert t[b + k] == c;
    }
  }

  /** The captured span holds no `.`, `,`, `;` or `:`. */
  lemma LocationSpanChars(t: string, i: nat)
    requires LocationAt(t, i).Some?
    ensures var span := LocationAt(t, i).value;
      forall c :: c in t[span.0..span.1] ==> !IsLocationStop(c)
  {
    var span := LocationAt(t, i).value;
    assert forall k :: span.0 <= k < span.1 ==> NotLocationStop(t[k]);
    SpanChars(t, span.0, span.1, NotLocationStop);
  }

  /**
   * `_extract_location`: the text after the leftmost `ở` / `tại`, stripped, with
   * everything from a trailing `nhé` / `giúp` / `giùm` on removed.
   */
  function ExtractLocation(t: string): (r: Option<string>)
    ensures r.Some? <==> exists i: nat :: i <= |t| && LocationAt(t, i).Some?
    ensures r.Some? ==> Trimmed(r.value)
    ensures r.Some? ==> forall c :: c in r.value ==> !IsLocationStop(c)
  {
    match FindFirst(t, 0, LocationAt)
    case None =>
      assert forall i: nat :: i <= |t| ==> LocationAt(t, i).None?;
      None
    case Some(found) =>
      LocationSpanChars(t, found.0);
      Some(CleanLocation(t[found.1.0..found.1.1]))
  }

  /**
   * The location comes from the leftmost match of `ở` / `tại`: it is the
   * cleaned text of that match's capture.
   */
  lemma LocationWrittenInText(t: string)
    ensures ExtractLocation(t).Some? ==>
      (exists i: nat, w: string, b: nat, e: nat ::
        LocationMatch(t, i, w, b, e) && (forall j :: 0 <= j < i ==> LocationAt(t, j).None?)
        && ExtractLocation(t).value == CleanLocation(t[b..e]))
  {
    if ExtractLocation(t).Some? {
      LocationAtCaptures(t, FindFirst(t, 0, LocationAt).value.0);
    }
  }

  lemma SliceNoChar(t: string, b: nat, e: nat, c: char)
    requires b <= e <= |t| && c !in t
    ensures c !in t[b..e]
  {
  }

  /** On one line, the location is one contiguous stretch of the sentence. */
  lemma LocationIsSegment(t: string)
    requires '\n' !in t
    ensures ExtractLocation(t).Some? ==> IsSegment(ExtractLocation(t).value, t)
  {
    if ExtractLocation(t).Some? {
      var found := FindFirst(t, 0, LocationAt).value;
      var b, e := found.1.0, found.1.1;
      var captured := t[b..e];
      assert ExtractLocation(t).value == CleanLocation(captured);
      SliceNoChar(t, b, e, '\n');
      CleanLocationSegment(captured);
      assert IsSegment(captured, t);
      SegmentTrans(CleanLocation(captured), captured, t);
    }
  }

  // ---------------------------------------------------------------------
  // Time of day (nlp.py:63-93)
  // ---------------------------------------------------------------------

  datatype Modifier = NoModifier | Morning | Afternoon

  datatype TimeInfo = TimeInfo(hour: nat, minute: nat, modifier: Modifier)

  const AfternoonWords: seq<string> := ["trưa", "chiều", "tối"]

  /** The day segment named anywhere in the sentence; `sáng` wins. */
  function ModifierOf(t: string): (r: Modifier)
    ensures r == Morning <==> HasWord(t, "sáng")
    ensures r == Afternoon <==> !HasWord(t, "sáng") && HasAnyWord(t, AfternoonWords)
  {
    if HasWord(t, "sáng") then Morning
    else if HasAnyWord(t, AfternoonWords) then Afternoon
    else NoModifier
  }

  /** `_extract_time_simple`: an `HH:MM` time first, else a bare hour with minute 0. */
  function ExtractTime(t: string): (r: Option<TimeInfo>)
    ensures r.Some? ==> r.value.hour < 100 && r.value.minute < 100 && r.value.modifier == ModifierOf(t)
    ensures r.Some? && FindFirst(t, 0, ClockAt).None? ==> r.value.minute == 0
    ensures r.None? <==> FindFirst(t, 0, ClockAt).None? && FindFirst(t, 0, HourAt).None?
  {
    match FindFirst(t, 0, ClockAt)
    case Some(found) => Some(TimeInfo(found.1.0, found.1.1, ModifierOf(t)))
    case None =>
      match FindFirst(t, 0, HourAt)
      case Some(found) => Some(TimeInfo(found.1.0, 0, ModifierOf(t)))
      case None => None
  }

  /**
   * An `HH:MM` time written in the sentence wins: hour and minute are the two
   * groups of the leftmost match of the clock pattern.
   */
  lemma TimeFromClock(t: string)
    requires FindFirst(t, 0, ClockAt).Some?
    ensures ExtractTime(t).Some?
    ensures exists i: nat, d1: nat, p: nat, q: nat, d2: nat ::
      ClockMatch(t, i, d1, p, q, d2, ExtractTime(t).value.hour, ExtractTime(t).value.minute)
      && forall j :: 0 <= j < i ==> ClockAt(t, j).None?
  {
    var found := FindFirst(t, 0, ClockAt).value;
    ClockAtCaptures(t, found.0);
    assert ExtractTime(t).value.hour == found.1.0 && ExtractTime(t).value.minute == found.1.1;
  }

  /** Any match of the clock pattern gives a time, from that match or an earlier one. */
  lemma ClockMatchGivesTime(t: string, i: nat, d1: nat, p: nat, q: nat, d2: nat, hour: nat, minute: nat)
    requires ClockMatch(t, i, d1, p, q, d2, hour, minute)
    ensures FindFirst(t, 0, ClockAt).Some? && FindFirst(t, 0, ClockAt).value.0 <= i
    ensures ExtractTime(t).Some?
  {
    ClockAtCaptures(t, i);
    FindFirstFinds(t, 0, ClockAt, i);
  }

  /**
   * With no `HH:MM` anywhere, the hour is the number of the leftmost bare
   * hour (`10h`, `7 giờ`) and the minute is 0.
   */
  lemma TimeFromHour(t: string)
    requires FindFirst(t, 0, ClockAt).None? && FindFirst(t, 0, HourAt).Some?
    ensures ExtractTime(t).Some? && ExtractTime(t).value.minute == 0
    ensures exists i: nat, d: nat, q: nat, w: string ::
      HourMatch(t, i, d, q, w, ExtractTime(t).value.hour)
      && forall j :: 0 <= j < i ==> HourAt(t, j).None?
    ensures forall i: nat, d1: nat, p: nat, q: nat, d2: nat, hour: nat, minute: nat ::
      !ClockMatch(t, i, d1, p, q, d2, hour, minute)
  {
    var found := FindFirst(t, 0, HourAt).value;
    HourAtCaptures(t, found.0);
    assert ExtractTime(t).value.hour == found.1.0;
    forall i: nat, d1: nat, p: nat, q: nat, d2: nat, hour: nat, minute: nat
      ensures !ClockMatch(t, i, d1, p, q, d2, hour, minute)
    {
      if ClockMatch(t, i, d1, p, q, d2, hour, minute) {
        ClockMatchGivesTime(t, i, d1, p, q, d2, hour, minute);
      }
    }
  }

  /** Any match of the bare-hour pattern gives a time. */
  lemma HourMatchGivesTime(t: string, i: nat, d: nat, q: nat, w: string, hour: nat)
    requires HourMatch(t, i, d, q, w, hour)
    ensures ExtractTime(t).Some?
  {
    HourAtCaptures(t, i);
    FindFirstFinds(t, 0, HourAt, i);
  }

  // ---------------------------------------------------------------------
  // Explicit date (nlp.py:95-120)
  // ---------------------------------------------------------------------

  /** A captured year below 100 is read as 20xx. */
  function WidenYear(y: nat): (r: nat)
    ensures y < 100 ==> 2000 <= r < 2100 && r % 100 == y
    ensures y >= 100 ==> r == y
  {
    if y < 100 then y + 2000 else y
  }

  /** `datetime(year=..., month=..., day=...)` on the captured numbers, `None` where it raises. */
  function DateFromParts(p: DmyParts, currentYear: int): (r: Option<Date>)
    ensures r.Some? ==> ValidDate(r.value) && r.value.day == p.day && r.value.month == p.month
    ensures r.Some? && p.year.Some? ==> r.value.year == WidenYear(p.year.value)
    ensures r.Some? && p.year.None? ==> r.value.year == currentYear
    ensures r.None? <==> !ValidDate(Date(if p.year.Some? then WidenYear(p.year.value) else currentYear, p.month, p.day))
  {
    var y := if p.year.Some? then WidenYear(p.year.value) else currentYear;
    var d := Date(y, p.month, p.day);
    if ValidDate(d) then Some(d) else None
  }

  function IsoDate(p: IsoParts): (r: Option<Date>)
    ensures r.Some? ==> ValidDate(r.value)
  {
    var d := Date(p.year, p.month, p.day);
    if ValidDate(d) then Some(d) else None
  }

  /** `_extract_date_explicit` */
  function ExtractDateExplicit(t: string, currentYear: int): (r: Option<Date>)
    ensures r.Some? ==> ValidDate(r.value)
  {
    match FindFirst(t, 0, DmyAt)
    case Some(found) => DateFromParts(found.1, currentYear)
    case None =>
      match FindFirst(t, 0, IsoAt)
      case Some(found) => IsoDate(found.1)
      case None => None
  }

  lemma DigitRunStep(s: string, i: nat)
    requires DigitRun(s, i) > 0
    ensures DigitRun(s, i + 1) == DigitRun(s, i) - 1
  {
  }

  /**
   * Wherever `yyyy-mm-dd` matches, `dd/mm/yy` matches two characters later: on
   * `2025-11-01` it reads day 25, month 11, year 01.
   */
  lemma IsoImpliesDmy(s: string, i: nat)
    requires IsoAt(s, i).Some?
    ensures DmyAt(s, i + 2).Some?
  {
    DigitRunStep(s, i);
    DigitRunStep(s, i + 1);
    var j := i + 5;
    assert DigitRun(s, i + 2) >= 2 && s[i + 4] == '-';
    assert DigitRun(s, j) >= 1;
    assert DmyMonth(s, i + 2, 2, j, 1).Some?;
  }

  /** The `yyyy-mm-dd` branch of `_extract_date_explicit` is never reached with a match. */
  lemma IsoBranchShadowed(t: string, currentYear: int)
    ensures FindFirst(t, 0, IsoAt).Some? ==> FindFirst(t, 0, DmyAt).Some?
    ensures ExtractDateExplicit(t, currentYear) ==
      match FindFirst(t, 0, DmyAt)
      case Some(found) => DateFromParts(found.1, currentYear)
      case None => None
  {
    var iso := FindFirst(t, 0, IsoAt);
    if iso.Some? {
      IsoImpliesDmy(t, iso.value.0);
      FindFirstFinds(t, 0, DmyAt, iso.value.0 + 2);
    }
  }

  // ---------------------------------------------------------------------
  // Relative date (nlp.py:122-147)
  // ---------------------------------------------------------------------

  /** `WEEKDAY_MAP` in its insertion order, which is the order it is scanned in. */
  const WeekdayKeys: seq<(string, int)> := [
    ("hai", 0), ("thứ hai", 0), ("th2", 0), ("thứ 2", 0), ("t2", 0),
    ("ba", 1), ("thứ ba", 1), ("th3", 1), ("thứ 3", 1),
    ("tư", 2), ("thứ tư", 2), ("th4", 2), ("thứ 4", 2),
    ("năm", 3), ("thứ năm", 3), ("th5", 3), ("thứ 5", 3),
    ("sáu", 4), ("thứ sáu", 4), ("th6", 4), ("thứ 6", 4),
    ("bảy", 5), ("thứ bảy", 5), ("th7", 5), ("thứ 7", 5),
    ("chủ nhật", 6), ("cn", 6), ("chủnhật", 6)
  ]

  /** The weekday of the first key, in map order, that occurs anywhere in `t`. */
  function WeekdayKeyIn(t: string, keys: seq<(string, int)>): Option<int>
  {
    if keys == [] then None
    else if Contains(t, keys[0].0) then Some(keys[0].1)
    else WeekdayKeyIn(t, keys[1..])
  }

  /** The scan returns the weekday of the first key present, and fails only when none is. */
  lemma {:induction false} WeekdayKeyInFirst(t: string, keys: seq<(string, int)>)
    ensures var r := WeekdayKeyIn(t, keys);
      r.Some? ==> exists k :: (0 <= k < |keys| && Contains(t, keys[k].0) && keys[k].1 == r.value
        && forall j :: 0 <= j < k ==> !Contains(t, keys[j].0))
    ensures WeekdayKeyIn(t, keys).None? <==> forall k :: 0 <= k < |keys| ==> !Contains(t, keys[k].0)
  {
    if keys != [] && !Contains(t, keys[0].0) {
      WeekdayKeyInFirst(t, keys[1..]);
      var r := WeekdayKeyIn(t, keys[1..]);
      if r.Some? {
        var k :| 0 <= k < |keys[1..]| && Contains(t, keys[1..][k].0) && keys[1..][k].1 == r.value
          && forall j :: 0 <= j < k ==> !Contains(t, keys[1..][j].0);
        assert keys[k + 1] == keys[1..][k];
        forall j | 0 <= j < k + 1 ensures !Contains(t, keys[j].0) {
          if j > 0 { assert keys[j] == keys[1..][j - 1]; }
        }
      } else {
        forall k | 0 <= k < |keys| ensures !Contains(t, keys[k].0) {
          if k > 0 { assert keys[k] == keys[1..][k - 1]; }
        }
      }
    }
  }

  /** Every weekday the map holds is a `date.weekday()` value. */
  predicate WeekdaysInRange(keys: seq<(string, int)>)
  {
    forall k :: 0 <= k < |keys| ==> 0 <= keys[k].1 < 7
  }

  lemma {:induction false} WeekdayKeyInRange(t: string, keys: seq<(string, int)>)
    requires WeekdaysInRange(keys)
    ensures var r := WeekdayKeyIn(t, keys); r.Some? ==> 0 <= r.value < 7
  {
    if keys != [] && !Contains(t, keys[0].0) {
      assert WeekdaysInRange(keys[1..]) by {
        forall k | 0 <= k < |keys[1..]| ensures 0 <= keys[1..][k].1 < 7 {
          assert keys[1..][k] == keys[k + 1];
        }
      }
      WeekdayKeyInRange(t, keys[1..]);
    }
  }

  lemma WeekdayKeysInRange(t: string)
    ensures var r := WeekdayKeyIn(t, WeekdayKeys); r.Some? ==> 0 <= r.value < 7
  {
    WeekdayKeyInRange(t, WeekdayKeys);
  }

  /** Days from a day with weekday `dow` to the next day with weekday `wd`, never 0. */
  function DaysAhead(wd: int, dow: int): int
  {
    var a := (wd - dow + 7) % 7;
    if a == 0 then 7 else a
  }

  /** The weekend branch writes its own formula for the coming Saturday. */
  function WeekendAhead(dow: int): int
  {
    var a := (5 - dow) % 7;
    if a == 0 then 7 else a
  }

  lemma WeekendIsSaturday(dow: int)
    ensures WeekendAhead(dow) == DaysAhead(5, dow)
  {
  }

  lemma DaysAheadArithmetic(wd: int, dow: int)
    requires 0 <= wd < 7 && 0 <= dow < 7
    ensures 1 <= DaysAhead(wd, dow) <= 7 && (dow + DaysAhead(wd, dow)) % 7 == wd
  {
    if wd > dow {
      assert DaysAhead(wd, dow) == wd - dow;
    } else {
      assert DaysAhead(wd, dow) == wd - dow + 7;
    }
  }

  lemma DaysAheadNotSooner(wd: int, dow: int, k: int)
    requires 0 <= wd < 7 && 0 <= dow < 7 && 1 <= k < DaysAhead(wd, dow)
    ensures (dow + k) % 7 != wd
  {
    if dow + k >= 7 {
      assert (dow + k) % 7 == dow + k - 7;
    }
  }

  lemma DaysAheadLands(wd: int, dow: int, n: int, w: int)
    requires 0 <= wd < 7 && 0 <= dow < 7 && n == DaysAhead(wd, dow) && w == (dow + n) % 7
    ensures 1 <= n <= 7 && w == wd
  {
    DaysAheadArithmetic(wd, dow);
  }

  lemma LandsOn(today: Date, wd: int)
    requires Proper(today) && 0 <= wd < 7
    ensures 1 <= DaysAhead(wd, Weekday(today)) <= 7
    ensures Weekday(AddDays(today, DaysAhead(wd, Weekday(today)))) == wd
  {
    var dow := Weekday(today);
    var n := DaysAhead(wd, dow);
    DaysAheadLands(wd, dow, n, (dow + n) % 7);
    AddDaysOnWeekday(today, n, wd);
  }

  lemma NotOnDay(today: Date, wd: int, k: nat)
    requires Proper(today) && 0 <= wd < 7 && 1 <= k < DaysAhead(wd, Weekday(today))
    ensures Weekday(AddDays(today, k)) != wd
  {
    var dow := Weekday(today);
    AddDaysWeekday(today, k);
    DaysAheadNotSooner(wd, dow, k);
    assert Weekday(AddDays(today, k)) == (dow + k) % 7;
  }

  /**
   * `DaysAhead` lands on the asked weekday one to seven days later, and no
   * day in between has that weekday: it is the next such day after today.
   */
  lemma DaysAheadIsNextWeekday(today: Date, wd: int)
    requires Proper(today) && 0 <= wd < 7
    ensures 1 <= DaysAhead(wd, Weekday(today)) <= 7
    ensures Weekday(AddDays(today, DaysAhead(wd, Weekday(today)))) == wd
    ensures forall k: nat :: 1 <= k < DaysAhead(wd, Weekday(today)) ==> Weekday(AddDays(today, k)) != wd
  {
    LandsOn(today, wd);
    forall k: nat | 1 <= k < DaysAhead(wd, Weekday(today)) ensures Weekday(AddDays(today, k)) != wd {
      NotOnDay(today, wd, k);
    }
  }

  /** `_extract_relative_date`: the first keyword group that occurs decides. */
  function ExtractRelativeDate(t: string, today: Date): (r: Option<Date>)
    requires Proper(today)
    ensures r.Some? ==> Proper(r.value) && 0 <= Ordinal(r.value) - Ordinal(today) <= 7
    ensures r == Some(today) <==> HasWord(t, "hôm nay")
  {
    if HasWord(t, "hôm nay") then Some(today)
    else if HasWord(t, "mai") || HasWord(t, "ngày mai") then Some(AddDays(today, 1))
    else if HasWord(t, "ngày mốt") || HasWord(t, "mốt") then Some(AddDays(today, 2))
    else if Contains(t, "cuối tuần") then
      WeekendIsSaturday(Weekday(today));
      Some(AddDays(today, WeekendAhead(Weekday(today))))
    else
      match WeekdayKeyIn(t, WeekdayKeys)
      case Some(wd) => Some(AddDays(today, DaysAhead(wd, Weekday(today))))
      case None => None
  }

  /**
   * The keyword groups in order: `mai` beats `mốt`, which beats the weekend,
   * which beats every weekday name; a weekend or weekday date is the next such
   * day strictly after today.
   */
  lemma RelativeDatePrecedence(t: string, today: Date)
    requires Proper(today)
    ensures !HasWord(t, "hôm nay") && (HasWord(t, "mai") || HasWord(t, "ngày mai")) ==>
      ExtractRelativeDate(t, today) == Some(AddDays(today, 1))
    ensures (!HasWord(t, "hôm nay") && !HasWord(t, "mai") && !HasWord(t, "ngày mai")
      && (HasWord(t, "ngày mốt") || HasWord(t, "mốt"))) ==>
      ExtractRelativeDate(t, today) == Some(AddDays(today, 2))
    ensures (!HasWord(t, "hôm nay") && !HasWord(t, "mai") && !HasWord(t, "ngày mai")
      && !HasWord(t, "ngày mốt") && !HasWord(t, "mốt") && Contains(t, "cuối tuần")) ==>
      var r := ExtractRelativeDate(t, today);
      r.Some? && Weekday(r.value) == 5 && 1 <= Ordinal(r.value) - Ordinal(today) <= 7
    ensures (!HasWord(t, "hôm nay") && !HasWord(t, "mai") && !HasWord(t, "ngày mai")
      && !HasWord(t, "ngày mốt") && !HasWord(t, "mốt") && !Contains(t, "cuối tuần")
      && WeekdayKeyIn(t, WeekdayKeys).Some?) ==>
      var r := ExtractRelativeDate(t, today);
      r.Some? && Weekday(r.value) == WeekdayKeyIn(t, WeekdayKeys).value
      && 1 <= Ordinal(r.value) - Ordinal(today) <= 7
  {
    DaysAheadIsNextWeekday(today, 5);
    WeekendIsSaturday(Weekday(today));
    var wk := WeekdayKeyIn(t, WeekdayKeys);
    WeekdayKeysInRange(t);
    if wk.Some? {
      DaysAheadIsNextWeekday(today, wk.value);
    }
  }
}
