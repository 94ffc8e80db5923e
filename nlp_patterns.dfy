/**
 * The regular expressions of the phrase parser (nlp.py), each written out as a
 * scanner that tries its alternatives and repetition counts in the order
 * Python's backtracking engine does. A scanner looks at one start position;
 * `Text.FindFirst` turns it into `re.search`, and `Sub` below turns a
 * non-empty pattern into `re.sub`.
 *
 * Where a greedy repetition is followed by something that can only begin with
 * a character the repetition does not match (a unit after `\s*`, a digit after
 * `\s*`), giving characters back cannot produce a match, so the scanner takes
 * the whole run; where giving back can matter (`\d{1,2}` followed by a
 * separator, `\s*\d{0,2}\b`), the scanner tries the counts one by one.
 */
module NlpPatterns {
  import opened Wrappers
  import opened Text

  // ---------------------------------------------------------------------
  // Words the patterns spell out
  // ---------------------------------------------------------------------

  const Nhac: string := "nhắc"
  const Truoc: string := " trước"
  /** The unit group of the reminder search, duplicates included (nlp.py:41). */
  const ReminderUnits: seq<string> := ["phút", "p", "phút", "ph", "giờ", "g", "ngày", "ngày"]
  /** The unit group of the reminder cut (nlp.py:183). */
  const CutUnits: seq<string> := ["phút", "p", "giờ", "ngày"]
  const LocationWords: seq<string> := ["ở", "tại"]
  const Fillers: seq<string> := ["nhé", " nhé", "giúp", "giùm"]
  const HourUnits: seq<string> := ["h", "giờ", "g"]
  const ReminderWords: seq<string> := ["nhắc tôi", "nhắc"]
  const DayWords: seq<string> := ["hôm nay", "mai", "ngày mai", "ngày mốt", "mốt", "cuối tuần"]

  predicate IsLocationStop(c: char)
  {
    c == '.' || c == ',' || c == ';' || c == ':'
  }

  /** `[^\.,;:]` */
  predicate NotLocationStop(c: char)
  {
    !IsLocationStop(c)
  }

  /** `.`, which stops at a line feed. */
  predicate NotNewline(c: char)
  {
    c != '\n'
  }

  predicate IsDateSep(c: char)
  {
    c == '/' || c == '-'
  }

  predicate IsClockSep(c: char)
  {
    c == ':' || c == 'h'
  }

  /** `[-–:]` */
  predicate IsDash(c: char)
  {
    c == '-' || c == '–' || c == ':'
  }

  // ---------------------------------------------------------------------
  // nhắc(?: trước)?\s*([0-9]+)\s*(phút|p|phút|ph|giờ|g|ngày|ngày)   (nlp.py:41)
  // ---------------------------------------------------------------------

  /** The unit after the number `s[p..p+k]`, looked for at `q`. */
  function ReminderUnit(s: string, p: nat, k: nat, q: nat): Option<(nat, string)>
    requires 0 < k <= DigitRun(s, p)
  {
    match FirstAlt(s, q, ReminderUnits, false)
    case None => None
    case Some(u) => Some((NumberAt(s, p, k), u))
  }

  /** `([0-9]+)\s*(unit)` at `p`: the number and the unit captured. */
  function ReminderNumber(s: string, p: nat): Option<(nat, string)>
  {
    if DigitRun(s, p) == 0 then None
    else ReminderUnit(s, p, DigitRun(s, p), SkipBlanks(s, p + DigitRun(s, p)))
  }

  /** The part after `nhắc` / `nhắc trước`: the number and the unit captured. */
  function ReminderTail(s: string, j: nat): (r: Option<(nat, string)>)
    requires j <= |s|
    ensures r.Some? ==> r.value.1 in ReminderUnits
  {
    ReminderNumber(s, SkipBlanks(s, j))
  }

  function ReminderAt(s: string, i: nat): (r: Option<(nat, string)>)
    ensures r.Some? ==> At(s, i, Nhac) && r.value.1 in ReminderUnits
  {
    if !At(s, i, Nhac) then None
    else
      var j := i + |Nhac|;
      OrElse(if At(s, j, Truoc) then ReminderTail(s, j + |Truoc|) else None, ReminderTail(s, j))
  }

  /**
   * `\s*([0-9]+)\s*(unit)` from `j`: blanks up to `p`, all the digits there
   * (`k` of them, worth `v.0`), blanks up to `q`, and there `v.1`, the first
   * unit in written order that matches.
   */
  predicate ReminderTailMatch(s: string, j: nat, p: nat, k: nat, q: nat, v: (nat, string))
  {
    BlanksBetween(s, j, p) && k > 0 && DigitsGroup(s, p, k, v.0)
    && (p + k == |s| || !IsDigit(s[p + k]))
    && BlanksBetween(s, p + k, q) && FirstAlt(s, q, ReminderUnits, false) == Some(v.1)
  }

  /**
   * One way `nhắc(?: trước)?\s*([0-9]+)\s*(unit)` matches at `i`, the tail
   * starting at `j`, right after `nhắc` or after `nhắc trước`.
   */
  predicate ReminderMatch(s: string, i: nat, j: nat, p: nat, k: nat, q: nat, v: (nat, string))
  {
    At(s, i, Nhac)
    && (j == i + |Nhac| || (At(s, i + |Nhac|, Truoc) && j == i + |Nhac| + |Truoc|))
    && ReminderTailMatch(s, j, p, k, q, v)
  }

  /** What `ReminderNumber` finds at `p`: all the digits there, blanks, then the first unit. */
  lemma ReminderNumberMatch(s: string, p: nat)
    requires ReminderNumber(s, p).Some?
    ensures DigitRun(s, p) > 0
    ensures ReminderTailMatch(s, p, p, DigitRun(s, p), SkipBlanks(s, p + DigitRun(s, p)), ReminderNumber(s, p).value)
  {
    ReminderNumberSteps(s, p);
    ReminderUnitOf(s, p, DigitRun(s, p), SkipBlanks(s, p + DigitRun(s, p)));
    NumberAtIsGroup(s, p, DigitRun(s, p));
  }

  lemma ReminderUnitOf(s: string, p: nat, k: nat, q: nat)
    requires 0 < k <= DigitRun(s, p) && ReminderUnit(s, p, k, q).Some?
    ensures FirstAlt(s, q, ReminderUnits, false) == Some(ReminderUnit(s, p, k, q).value.1)
    ensures ReminderUnit(s, p, k, q).value.0 == NumberAt(s, p, k)
  {
  }

  lemma ReminderNumberSteps(s: string, p: nat)
    requires DigitRun(s, p) > 0
    ensures ReminderNumber(s, p) == ReminderUnit(s, p, DigitRun(s, p), SkipBlanks(s, p + DigitRun(s, p)))
  {
  }

  lemma ReminderTailSound(s: string, j: nat)
    requires j <= |s|
    ensures ReminderTail(s, j).Some? ==>
      exists p: nat, k: nat, q: nat :: ReminderTailMatch(s, j, p, k, q, ReminderTail(s, j).value)
  {
    if ReminderTail(s, j).Some? {
      ReminderNumberMatch(s, SkipBlanks(s, j));
      assert ReminderTailMatch(s, j, SkipBlanks(s, j), DigitRun(s, SkipBlanks(s, j)),
        SkipBlanks(s, SkipBlanks(s, j) + DigitRun(s, SkipBlanks(s, j))), ReminderTail(s, j).value);
    }
  }

  /** `ReminderAt` reads the number and the unit of a match of the reminder pattern at `i`. */
  lemma ReminderAtCaptures(s: string, i: nat)
    ensures ReminderAt(s, i).Some? ==>
      exists j: nat, p: nat, k: nat, q: nat :: ReminderMatch(s, i, j, p, k, q, ReminderAt(s, i).value)
  {
    if ReminderAt(s, i).Some? {
      var j0 := i + |Nhac|;
      var j := if At(s, j0, Truoc) && ReminderTail(s, j0 + |Truoc|).Some? then j0 + |Truoc| else j0;
      assert ReminderAt(s, i) == ReminderTail(s, j);
      ReminderTailSound(s, j);
      var p: nat, k: nat, q: nat :| ReminderTailMatch(s, j, p, k, q, ReminderTail(s, j).value);
      assert ReminderMatch(s, i, j, p, k, q, ReminderAt(s, i).value);
    }
  }

  // ---------------------------------------------------------------------
  // \b(?:ở|tại)\s+([^\.,;:]+)   (nlp.py:55, and nlp.py:181 without the group)
  // ---------------------------------------------------------------------

  /**
   * The captured span `[b, e)`. When no character follows the blanks that
   * `[^\.,;:]+` could take, `\s+` gives its last blank back to it.
   */
  function LocationAt(s: string, i: nat): (r: Option<(nat, nat)>)
    ensures r.Some? ==> i < r.value.0 < r.value.1 <= |s|
  {
    if !Boundary(s, i) then None
    else
      match FirstAlt(s, i, LocationWords, false)
      case None => None
      case Some(w) => LocationTail(s, i + |w|)
  }

  /** `\s+([^\.,;:]+)` at `j`: the span of the capture, after the blanks. */
  function LocationTail(s: string, j: nat): (r: Option<(nat, nat)>)
    ensures r.Some? ==> j < r.value.0 < r.value.1 <= |s|
  {
    var n := SpaceRun(s, j);
    if n == 0 then None
    else
      var l := Run(s, j + n, NotLocationStop);
      if l > 0 then Some((j + n, j + n + l))
      else if n >= 2 then Some((j + n - 1, j + n))
      else None
  }

  /**
   * The match of `\b(?:ở|tại)\s+([^\.,;:]+)` at `i` that captures `s[b..e]`:
   * the place word `w`, at least one blank, then the longest run of
   * characters that are not `.`, `,`, `;` or `:`. The capture starts after the
   * last blank, or is that last blank when nothing else follows.
   */
  predicate LocationMatch(s: string, i: nat, w: string, b: nat, e: nat)
  {
    Boundary(s, i) && FirstAlt(s, i, LocationWords, false) == Some(w)
    && i + |w| < b && BlanksBetween(s, i + |w|, b)
    && b < e <= |s| && (forall m :: b <= m < e ==> NotLocationStop(s[m]))
    && (e == |s| || IsLocationStop(s[e]))
    && (!IsSpace(s[b]) || b + 1 == e)
  }

  /** `LocationAt` returns the span captured by a match of the location pattern at `i`. */
  lemma LocationAtCaptures(s: string, i: nat)
    ensures LocationAt(s, i).Some? ==>
      exists w: string :: LocationMatch(s, i, w, LocationAt(s, i).value.0, LocationAt(s, i).value.1)
  {
    if LocationAt(s, i).Some? {
      var w := FirstAlt(s, i, LocationWords, false).value;
      assert LocationAt(s, i) == LocationTail(s, i + |w|);
      LocationTailMatch(s, i + |w|);
      var b, e := LocationAt(s, i).value.0, LocationAt(s, i).value.1;
      assert LocationMatch(s, i, w, b, e);
    }
  }

  /** The span `LocationTail` returns: blanks, then stop-free text up to a stop or the end. */
  lemma LocationTailMatch(s: string, j: nat)
    requires LocationTail(s, j).Some?
    ensures var (b, e) := LocationTail(s, j).value;
      j < b && BlanksBetween(s, j, b) && b < e <= |s| && (forall m :: b <= m < e ==> NotLocationStop(s[m]))
      && (e == |s| || IsLocationStop(s[e])) && (!IsSpace(s[b]) || b + 1 == e)
  {
    var n := SpaceRun(s, j);
    var l := Run(s, j + n, NotLocationStop);
    if l == 0 {
      assert LocationTail(s, j).value == (j + n - 1, j + n);
    }
  }

  // ---------------------------------------------------------------------
  // \b(nhé| nhé|giúp|giùm)\b.*   (nlp.py:59)
  // ---------------------------------------------------------------------

  function FillerAt(s: string, i: nat): (r: Option<nat>)
    ensures r.Some? ==> i < r.value <= |s|
  {
    if !Boundary(s, i) then None
    else
      match FirstAlt(s, i, Fillers, true)
      case None => None
      case Some(w) =>
        var q := i + |w|;
        Some(q + Run(s, q, NotNewline))
  }

  // ---------------------------------------------------------------------
  // (\d{1,2})\s*[:h]\s*(\d{1,2})\b   (nlp.py:69)
  // ---------------------------------------------------------------------

  /** The minute group with `d2` digits, then `\b`. */
  function MinuteWith(s: string, i: nat, d1: nat, q: nat, d2: nat): Option<(nat, nat)>
    requires 0 < d1 <= DigitRun(s, i) && d2 > 0
  {
    if DigitRun(s, q) >= d2 && Boundary(s, q + d2) then Some((NumberAt(s, i, d1), NumberAt(s, q, d2)))
    else None
  }

  /** `(\d{1,2})\b` at `q`, two digits tried before one. */
  function ClockMinutes(s: string, i: nat, d1: nat, q: nat): Option<(nat, nat)>
    requires 0 < d1 <= DigitRun(s, i)
  {
    OrElse(MinuteWith(s, i, d1, q, 2), MinuteWith(s, i, d1, q, 1))
  }

  /** The separator `[:h]` at `p`, then `\s*` and the minute group. */
  function ClockSep(s: string, i: nat, d1: nat, p: nat): Option<(nat, nat)>
    requires 0 < d1 <= DigitRun(s, i)
  {
    if p < |s| && IsClockSep(s[p]) then ClockMinutes(s, i, d1, SkipBlanks(s, p + 1)) else None
  }

  /** The hour group with `d1` digits, then `\s*` and the rest. */
  function ClockWith(s: string, i: nat, d1: nat): Option<(nat, nat)>
    requires d1 > 0
  {
    if DigitRun(s, i) < d1 then None else ClockSep(s, i, d1, SkipBlanks(s, i + d1))
  }

  /** Hour and minute of an `HH:MM` / `HhMM` time starting at `i`. */
  function ClockAt(s: string, i: nat): (r: Option<(nat, nat)>)
    ensures r.Some? ==> r.value.0 < 100 && r.value.1 < 100
  {
    OrElse(ClockWith(s, i, 2), ClockWith(s, i, 1))
  }

  /**
   * One way `(\d{1,2})\s*[:h]\s*(\d{1,2})\b` matches at `i`: the hour digits
   * `s[i..i+d1]`, blanks, the separator at `p`, blanks, the minute digits
   * `s[q..q+d2]`, then a word boundary.
   */
  predicate ClockMatch(s: string, i: nat, d1: nat, p: nat, q: nat, d2: nat, hour: nat, minute: nat)
  {
    1 <= d1 <= 2 && DigitsGroup(s, i, d1, hour)
    && BlanksBetween(s, i + d1, p) && p < |s| && IsClockSep(s[p])
    && BlanksBetween(s, p + 1, q)
    && 1 <= d2 <= 2 && DigitsGroup(s, q, d2, minute) && Boundary(s, q + d2)
  }

  lemma MinuteWithMatch(s: string, i: nat, d1: nat, p: nat, q: nat, d2: nat)
    requires 1 <= d1 <= 2 && d1 <= DigitRun(s, i) && 1 <= d2 <= 2
    requires p == SkipBlanks(s, i + d1) && p < |s| && IsClockSep(s[p])
    requires q == SkipBlanks(s, p + 1)
    requires MinuteWith(s, i, d1, q, d2).Some?
    ensures ClockMatch(s, i, d1, p, q, d2, MinuteWith(s, i, d1, q, d2).value.0, MinuteWith(s, i, d1, q, d2).value.1)
  {
    NumberAtIsGroup(s, i, d1);
    NumberAtIsGroup(s, q, d2);
  }

  lemma ClockWithSteps(s: string, i: nat, d1: nat, p: nat)
    requires 0 < d1 <= DigitRun(s, i) && p == SkipBlanks(s, i + d1)
    ensures ClockWith(s, i, d1) == ClockSep(s, i, d1, p)
  {
  }

  lemma ClockSepSteps(s: string, i: nat, d1: nat, p: nat, q: nat)
    requires 0 < d1 <= DigitRun(s, i) && q == SkipBlanks(s, p + 1)
    requires ClockSep(s, i, d1, p).Some? || (p < |s| && IsClockSep(s[p]))
    ensures p < |s| && IsClockSep(s[p]) && ClockSep(s, i, d1, p) == ClockMinutes(s, i, d1, q)
  {
  }

  lemma ClockWithSound(s: string, i: nat, d1: nat)
    requires 1 <= d1 <= 2
    ensures ClockWith(s, i, d1).Some? ==>
      exists p: nat, q: nat, d2: nat :: ClockMatch(s, i, d1, p, q, d2, ClockWith(s, i, d1).value.0, ClockWith(s, i, d1).value.1)
  {
    if ClockWith(s, i, d1).Some? {
      var p := SkipBlanks(s, i + d1);
      var q := SkipBlanks(s, p + 1);
      assert d1 <= DigitRun(s, i);
      ClockWithSteps(s, i, d1, p);
      ClockSepSteps(s, i, d1, p, q);
      if MinuteWith(s, i, d1, q, 2).Some? {
        MinuteWithMatch(s, i, d1, p, q, 2);
      } else {
        MinuteWithMatch(s, i, d1, p, q, 1);
      }
    }
  }

  /** The minute group of a match is the one `ClockMinutes` reads. */
  lemma ClockMinutesComplete(s: string, i: nat, d1: nat, q: nat, d2: nat, minute: nat)
    requires 0 < d1 <= DigitRun(s, i) && 1 <= d2 <= 2
    requires DigitsGroup(s, q, d2, minute) && Boundary(s, q + d2)
    ensures ClockMinutes(s, i, d1, q) == Some((NumberAt(s, i, d1), minute))
  {
    NumberAtIsGroup(s, q, d2);
  }

  /** A match with `d1` hour digits is the one `ClockWith` reads, and two hour digits rule out one. */
  lemma ClockWithComplete(s: string, i: nat, d1: nat, p: nat, q: nat, d2: nat, hour: nat, minute: nat)
    requires ClockMatch(s, i, d1, p, q, d2, hour, minute)
    ensures ClockWith(s, i, d1) == Some((hour, minute))
    ensures d1 == 1 ==> ClockWith(s, i, 2).None?
  {
    ClockWithReads(s, i, d1, p, q, d2, hour, minute);
    if d1 == 1 {
      ClockOneHourDigit(s, i, p, q, d2, hour, minute);
    }
  }

  lemma ClockWithReads(s: string, i: nat, d1: nat, p: nat, q: nat, d2: nat, hour: nat, minute: nat)
    requires ClockMatch(s, i, d1, p, q, d2, hour, minute)
    ensures ClockWith(s, i, d1) == Some((hour, minute))
  {
    NumberAtIsGroup(s, i, d1);
    SkipBlanksIs(s, i + d1, p);
    SkipBlanksIs(s, p + 1, q);
    ClockWithSteps(s, i, d1, p);
    ClockSepSteps(s, i, d1, p, q);
    ClockMinutesComplete(s, i, d1, q, d2, minute);
  }

  /** After one hour digit the match has a blank or the separator, so the digit run stops there. */
  lemma ClockOneHourDigit(s: string, i: nat, p: nat, q: nat, d2: nat, hour: nat, minute: nat)
    requires ClockMatch(s, i, 1, p, q, d2, hour, minute)
    ensures DigitRun(s, i) < 2
  {
    if p > i + 1 {
      assert IsSpace(s[i + 1]);
    }
  }

  /**
   * `ClockAt` reads the groups of a match of the clock pattern at `i`, and
   * every match there has the hour and minute it reads.
   */
  lemma ClockAtCaptures(s: string, i: nat)
    ensures ClockAt(s, i).Some? ==>
      exists d1: nat, p: nat, q: nat, d2: nat :: ClockMatch(s, i, d1, p, q, d2, ClockAt(s, i).value.0, ClockAt(s, i).value.1)
    ensures forall d1: nat, p: nat, q: nat, d2: nat, hour: nat, minute: nat :: ClockMatch(s, i, d1, p, q, d2, hour, minute) ==>
      ClockAt(s, i) == Some((hour, minute))
  {
    ClockWithSound(s, i, 2);
    ClockWithSound(s, i, 1);
    forall d1: nat, p: nat, q: nat, d2: nat, hour: nat, minute: nat | ClockMatch(s, i, d1, p, q, d2, hour, minute)
      ensures ClockAt(s, i) == Some((hour, minute))
    {
      ClockWithComplete(s, i, d1, p, q, d2, hour, minute);
    }
  }

  // ---------------------------------------------------------------------
  // \b(\d{1,2})\s*(?:h|giờ|g)\b   (nlp.py:82, and nlp.py:188 without the group)
  // ---------------------------------------------------------------------

  /** The unit `(?:h|giờ|g)\b` at `q`, after the hour group of `d1` digits. */
  function HourUnit(s: string, i: nat, d1: nat, q: nat): Option<(nat, nat)>
    requires 0 < d1 <= DigitRun(s, i)
  {
    match FirstAlt(s, q, HourUnits, true)
    case None => None
    case Some(w) => Some((NumberAt(s, i, d1), q + |w|))
  }

  function HourWith(s: string, i: nat, d1: nat): (r: Option<(nat, nat)>)
    requires d1 > 0
    ensures r.Some? ==> i < r.value.1 <= |s|
  {
    if DigitRun(s, i) < d1 then None else HourUnit(s, i, d1, SkipBlanks(s, i + d1))
  }

  /** The hour captured and the end of the match. */
  function HourAt(s: string, i: nat): (r: Option<(nat, nat)>)
    ensures r.Some? ==> r.value.0 < 100 && i < r.value.1 <= |s|
  {
    if !Boundary(s, i) then None
    else OrElse(HourWith(s, i, 2), HourWith(s, i, 1))
  }

  /**
   * One way `\b(\d{1,2})\s*(?:h|giờ|g)\b` matches at `i`: the hour digits
   * `s[i..i+d]`, blanks up to `q`, and there `w`, the first unit in written
   * order that is followed by a word boundary.
   */
  predicate HourMatch(s: string, i: nat, d: nat, q: nat, w: string, hour: nat)
  {
    Boundary(s, i) && HourBody(s, i, d, q, w, hour)
  }

  /** The part of an hour match after the leading `\b`. */
  predicate HourBody(s: string, i: nat, d: nat, q: nat, w: string, hour: nat)
  {
    1 <= d <= 2 && DigitsGroup(s, i, d, hour)
    && BlanksBetween(s, i + d, q) && FirstAlt(s, q, HourUnits, true) == Some(w)
  }

  lemma HourWithSteps(s: string, i: nat, d: nat, q: nat)
    requires 0 < d <= DigitRun(s, i) && SkipBlanks(s, i + d) == q
    ensures HourWith(s, i, d) == HourUnit(s, i, d, q)
  {
  }

  lemma HourUnitOf(s: string, i: nat, d: nat, q: nat, w: string)
    requires 0 < d <= DigitRun(s, i) && FirstAlt(s, q, HourUnits, true) == Some(w)
    ensures HourUnit(s, i, d, q) == Some((NumberAt(s, i, d), q + |w|))
  {
  }

  lemma HourWithSound(s: string, i: nat, d: nat)
    requires 1 <= d <= 2
    ensures HourWith(s, i, d).Some? ==>
      exists q: nat, w: string :: HourBody(s, i, d, q, w, HourWith(s, i, d).value.0) && HourWith(s, i, d).value.1 == q + |w|
  {
    if HourWith(s, i, d).Some? {
      assert d <= DigitRun(s, i);
      var q := SkipBlanks(s, i + d);
      HourWithSteps(s, i, d, q);
      assert FirstAlt(s, q, HourUnits, true).Some?;
      var w := FirstAlt(s, q, HourUnits, true).value;
      HourUnitOf(s, i, d, q, w);
      NumberAtIsGroup(s, i, d);
      assert HourBody(s, i, d, q, w, NumberAt(s, i, d));
    }
  }

  /** Every unit starts with `h` or `g`, so neither a blank nor a digit. */
  lemma HourUnitStart(s: string, q: nat)
    requires FirstAlt(s, q, HourUnits, true).Some?
    ensures q < |s| && (s[q] == 'h' || s[q] == 'g')
  {
    var w := FirstAlt(s, q, HourUnits, true).value;
    FirstAltMatch(s, q, HourUnits, true);
    assert s[q] == s[q..q + |w|][0];
  }

  /** A match with `d` hour digits is read by `HourWith`, and two hour digits rule out one. */
  lemma HourWithComplete(s: string, i: nat, d: nat, q: nat, w: string, hour: nat)
    requires HourBody(s, i, d, q, w, hour)
    ensures HourWith(s, i, d).Some? && HourWith(s, i, d).value.0 == hour
    ensures d == 1 ==> HourWith(s, i, 2).None?
  {
    HourUnitStart(s, q);
    NumberAtIsGroup(s, i, d);
    assert d <= DigitRun(s, i) && hour == NumberAt(s, i, d);
    SkipBlanksIs(s, i + d, q);
    HourWithSteps(s, i, d, q);
    HourUnitOf(s, i, d, q, w);
    if d == 1 && q > i + 1 {
      assert IsSpace(s[i + 1]);
    }
  }

  /** What `HourAt` returns when `HourWith` reads `hour` with `d` digits and, for one digit, two do not match. */
  lemma HourAtFrom(s: string, i: nat, d: nat, hour: nat)
    requires Boundary(s, i) && 1 <= d <= 2
    requires HourWith(s, i, d).Some? && HourWith(s, i, d).value.0 == hour
    requires d == 1 ==> HourWith(s, i, 2).None?
    ensures HourAt(s, i).Some? && HourAt(s, i).value.0 == hour
  {
    if d == 2 {
      assert HourAt(s, i) == HourWith(s, i, 2);
    } else {
      assert HourAt(s, i) == HourWith(s, i, 1);
    }
  }

  /**
   * `HourAt` reads the hour of a match of the hour pattern at `i` and returns
   * where that match ends; every match there has the hour it reads.
   */
  lemma HourAtCaptures(s: string, i: nat)
    ensures HourAt(s, i).Some? ==>
      exists d: nat, q: nat, w: string :: HourMatch(s, i, d, q, w, HourAt(s, i).value.0) && HourAt(s, i).value.1 == q + |w|
    ensures forall d: nat, q: nat, w: string, hour: nat :: HourMatch(s, i, d, q, w, hour) ==>
      HourAt(s, i).Some? && HourAt(s, i).value.0 == hour
  {
    if HourAt(s, i).Some? {
      var d := if HourWith(s, i, 2).Some? then 2 else 1;
      assert HourAt(s, i) == HourWith(s, i, d);
      HourWithSound(s, i, d);
      var q: nat, w: string :| HourBody(s, i, d, q, w, HourWith(s, i, d).value.0) && HourWith(s, i, d).value.1 == q + |w|;
      assert HourMatch(s, i, d, q, w, HourAt(s, i).value.0);
    }
    forall d: nat, q: nat, w: string, hour: nat | HourMatch(s, i, d, q, w, hour)
      ensures HourAt(s, i).Some? && HourAt(s, i).value.0 == hour
    {
      HourWithComplete(s, i, d, q, w, hour);
      HourAtFrom(s, i, d, hour);
    }
  }

  // ---------------------------------------------------------------------
  // (\d{1,2})[/-](\d{1,2})(?:[/-](\d{2,4}))?   (nlp.py:97)
  // ---------------------------------------------------------------------

  /** The numbers captured: day, month and, when the group took part, the year. */
  datatype DmyParts = DmyParts(day: nat, month: nat, year: Option<nat>)

  /** `(?:[/-](\d{2,4}))?` at `p`: greedy, so up to four digits. */
  function YearAt(s: string, p: nat): (r: Option<nat>)
    ensures r.Some? ==> r.value < 10000
  {
    if p < |s| && IsDateSep(s[p]) && DigitRun(s, p + 1) >= 2 then
      var k := Min(4, DigitRun(s, p + 1));
      assert Pow10(k) <= 10000 by {
        assert Pow10(2) == 100 && Pow10(3) == 1000 && Pow10(4) == 10000;
      }
      Some(NumberAt(s, p + 1, k))
    else None
  }

  function DmyMonth(s: string, i: nat, d1: nat, j: nat, d2: nat): (r: Option<DmyParts>)
    requires 0 < d1 <= DigitRun(s, i) && d2 > 0
  {
    if DigitRun(s, j) < d2 then None
    else Some(DmyParts(NumberAt(s, i, d1), NumberAt(s, j, d2), YearAt(s, j + d2)))
  }

  function DmyWith(s: string, i: nat, d1: nat): Option<DmyParts>
    requires d1 > 0
  {
    if DigitRun(s, i) < d1 || !(i + d1 < |s| && IsDateSep(s[i + d1])) then None
    else OrElse(DmyMonth(s, i, d1, i + d1 + 1, 2), DmyMonth(s, i, d1, i + d1 + 1, 1))
  }

  function DmyAt(s: string, i: nat): (r: Option<DmyParts>)
    ensures r.Some? ==> r.value.day < 100 && r.value.month < 100
  {
    OrElse(DmyWith(s, i, 2), DmyWith(s, i, 1))
  }

  /** The greedy `(\d{2,4})` after the separator at `p`: `k` digits worth `year`, and no fifth digit taken. */
  predicate YearGroup(s: string, p: nat, k: nat, year: nat)
  {
    2 <= k <= 4 && DigitsGroup(s, p + 1, k, year)
    && (k == 4 || p + 1 + k == |s| || !IsDigit(s[p + 1 + k]))
  }

  /**
   * `(?:[/-](\d{2,4}))?` at `p`: the group takes part exactly when a
   * separator and two digits follow, and then it holds as many digits as
   * there are, up to four.
   */
  lemma YearAtCaptures(s: string, p: nat)
    ensures YearAt(s, p).Some? <==> (p < |s| && IsDateSep(s[p]) && DigitRun(s, p + 1) >= 2)
    ensures YearAt(s, p).Some? ==> exists k: nat :: YearGroup(s, p, k, YearAt(s, p).value)
  {
    if YearAt(s, p).Some? {
      var k := Min(4, DigitRun(s, p + 1));
      NumberAtIsGroup(s, p + 1, k);
      assert YearGroup(s, p, k, YearAt(s, p).value);
    }
  }

  /**
   * The match of `(\d{1,2})[/-](\d{1,2})(?:[/-](\d{2,4}))?` at `i` with
   * `d1` day digits and `d2` month digits: the day, the separator, the month,
   * where the month takes a second digit whenever there is one, and the
   * optional year after it.
   */
  predicate DmyMatch(s: string, i: nat, d1: nat, d2: nat, parts: DmyParts)
  {
    1 <= d1 <= 2 && DigitsGroup(s, i, d1, parts.day)
    && i + d1 < |s| && IsDateSep(s[i + d1])
    && 1 <= d2 <= 2 && DigitsGroup(s, i + d1 + 1, d2, parts.month)
    && (d2 == 2 || i + d1 + 2 == |s| || !IsDigit(s[i + d1 + 2]))
    && parts.year == YearAt(s, i + d1 + 1 + d2)
  }

  lemma DmyMonthMatch(s: string, i: nat, d1: nat, d2: nat)
    requires 1 <= d1 <= 2 && d1 <= DigitRun(s, i) && i + d1 < |s| && IsDateSep(s[i + d1])
    requires 1 <= d2 <= 2 && DmyMonth(s, i, d1, i + d1 + 1, d2).Some?
    requires d2 == 1 ==> DmyMonth(s, i, d1, i + d1 + 1, 2).None?
    ensures DmyMatch(s, i, d1, d2, DmyMonth(s, i, d1, i + d1 + 1, d2).value)
  {
    NumberAtIsGroup(s, i, d1);
    NumberAtIsGroup(s, i + d1 + 1, d2);
  }

  lemma DmyWithSound(s: string, i: nat, d1: nat)
    requires 1 <= d1 <= 2
    ensures DmyWith(s, i, d1).Some? ==> exists d2: nat :: DmyMatch(s, i, d1, d2, DmyWith(s, i, d1).value)
  {
    if DmyWith(s, i, d1).Some? {
      assert d1 <= DigitRun(s, i) && i + d1 < |s| && IsDateSep(s[i + d1]);
      if DmyMonth(s, i, d1, i + d1 + 1, 2).Some? {
        DmyMonthMatch(s, i, d1, 2);
      } else {
        DmyMonthMatch(s, i, d1, 1);
      }
    }
  }

  /** A match is the one `DmyWith` reads, and with one day digit two do not match. */
  lemma DmyWithComplete(s: string, i: nat, d1: nat, d2: nat, parts: DmyParts)
    requires DmyMatch(s, i, d1, d2, parts)
    ensures DmyWith(s, i, d1) == Some(parts)
    ensures d1 == 1 ==> DmyWith(s, i, 2).None?
  {
    NumberAtIsGroup(s, i, d1);
    NumberAtIsGroup(s, i + d1 + 1, d2);
    assert DmyMonth(s, i, d1, i + d1 + 1, d2) == Some(parts);
  }

  /**
   * `DmyAt` reads the groups of the match of the date pattern at `i`, and
   * every match there (the month taking all the digits it can) is the one
   * it reads.
   */
  lemma DmyAtCaptures(s: string, i: nat)
    ensures DmyAt(s, i).Some? ==> exists d1: nat, d2: nat :: DmyMatch(s, i, d1, d2, DmyAt(s, i).value)
    ensures forall d1: nat, d2: nat, parts: DmyParts :: DmyMatch(s, i, d1, d2, parts) ==> DmyAt(s, i) == Some(parts)
  {
    if DmyAt(s, i).Some? {
      var d1 := if DmyWith(s, i, 2).Some? then 2 else 1;
      assert DmyAt(s, i) == DmyWith(s, i, d1);
      DmyWithSound(s, i, d1);
    }
    forall d1: nat, d2: nat, parts: DmyParts | DmyMatch(s, i, d1, d2, parts)
      ensures DmyAt(s, i) == Some(parts)
    {
      DmyWithComplete(s, i, d1, d2, parts);
    }
  }

  // ---------------------------------------------------------------------
  // (\d{4})-(\d{1,2})-(\d{1,2})   (nlp.py:113)
  // ---------------------------------------------------------------------

  /** The numbers captured: year, month and day. */
  datatype IsoParts = IsoParts(year: nat, month: nat, day: nat)

  function IsoWith(s: string, i: nat, j: nat, d2: nat): Option<IsoParts>
    requires DigitRun(s, i) >= 4 && d2 > 0
  {
    if DigitRun(s, j) < d2 || !At(s, j + d2, "-") then None
    else
      var k := j + d2 + 1;
      var n := DigitRun(s, k);
      if n == 0 then None
      else Some(IsoParts(NumberAt(s, i, 4), NumberAt(s, j, d2), NumberAt(s, k, Min(2, n))))
  }

  function IsoAt(s: string, i: nat): Option<IsoParts>
  {
    if DigitRun(s, i) < 4 || !At(s, i + 4, "-") then None
    else OrElse(IsoWith(s, i, i + 5, 2), IsoWith(s, i, i + 5, 1))
  }

  // ---------------------------------------------------------------------
  // The patterns parse_text removes from the title (nlp.py:181-191)
  // ---------------------------------------------------------------------

  /** `\s*(phút|p|giờ|ngày)?` and what precedes it, after `nhắc` / `nhắc trước`. */
  function ReminderCutTail(s: string, j: nat): (r: Option<nat>)
    requires j <= |s|
    ensures r.Some? ==> j < r.value <= |s|
  {
    var p := j + SpaceRun(s, j);
    var k := DigitRun(s, p);
    if k == 0 then None
    else
      var q := p + k + SpaceRun(s, p + k);
      match FirstAlt(s, q, CutUnits, false)
      case None => Some(q)
      case Some(u) => Some(q + |u|)
  }

  /** nhắc(?: trước)?\s*[0-9]+\s*(phút|p|giờ|ngày)? */
  function ReminderCutAt(s: string, i: nat): (r: Option<nat>)
    ensures r.Some? ==> i < r.value <= |s|
  {
    if !At(s, i, Nhac) then None
    else
      var j := i + |Nhac|;
      OrElse(if At(s, j, Truoc) then ReminderCutTail(s, j + |Truoc|) else None, ReminderCutTail(s, j))
  }

  /** `\d{0,2}\b` at `q`: two digits, one, or none, whichever is first followed by a boundary. */
  function CutMinutes(s: string, q: nat): (r: Option<nat>)
    requires q <= |s|
    ensures r.Some? ==> q <= r.value <= |s|
  {
    var n := DigitRun(s, q);
    if n >= 2 && Boundary(s, q + 2) then Some(q + 2)
    else if n >= 1 && Boundary(s, q + 1) then Some(q + 1)
    else if Boundary(s, q) then Some(q)
    else None
  }

  /** `\s*\d{0,2}\b` at `p`, giving back blanks from the greedy `n` down to none. */
  function CutSpaces(s: string, p: nat, n: nat): (r: Option<nat>)
    requires p <= |s| && n <= SpaceRun(s, p)
    decreases n
    ensures r.Some? ==> p <= r.value <= |s|
  {
    OrElse(CutMinutes(s, p + n), if n == 0 then None else CutSpaces(s, p, n - 1))
  }

  function ClockCutWith(s: string, i: nat, d1: nat): (r: Option<nat>)
    requires d1 > 0
    ensures r.Some? ==> i < r.value <= |s|
  {
    if DigitRun(s, i) < d1 || !(i + d1 < |s| && IsClockSep(s[i + d1])) then None
    else
      var p := i + d1 + 1;
      CutSpaces(s, p, SpaceRun(s, p))
  }

  /** \b\d{1,2}[:h]\s*\d{0,2}\b */
  function ClockCutAt(s: string, i: nat): (r: Option<nat>)
    ensures r.Some? ==> i < r.value <= |s|
  {
    if !Boundary(s, i) then None
    else OrElse(ClockCutWith(s, i, 2), ClockCutWith(s, i, 1))
  }

  function WeekdayCutWith(s: string, i: nat, w: string): (r: Option<nat>)
    requires w != []
    ensures r.Some? ==> i < r.value <= |s|
  {
    if !At(s, i, w) then None
    else
      var q := i + |w| + SpaceRun(s, i + |w|);
      if q < |s| && IsDigit(s[q]) && Boundary(s, q + 1) then Some(q + 1) else None
  }

  /** \b(thứ|th)\s*\d\b */
  function WeekdayCutAt(s: string, i: nat): (r: Option<nat>)
    ensures r.Some? ==> i < r.value <= |s|
  {
    if !Boundary(s, i) then None
    else OrElse(WeekdayCutWith(s, i, "thứ"), WeekdayCutWith(s, i, "th"))
  }

  // ---------------------------------------------------------------------
  // re.sub
  // ---------------------------------------------------------------------

  /** The patterns that are substituted; none of them matches the empty string. */
  datatype Pattern =
    | LocationPhrase   // \b(?:ở|tại)\s+[^\.,;:]+
    | ReminderPhrase   // nhắc(?: trước)?\s*[0-9]+\s*(phút|p|giờ|ngày)?
    | ReminderWord     // \b(nhắc tôi|nhắc)\b
    | ClockTime        // \b\d{1,2}[:h]\s*\d{0,2}\b
    | HourTime         // \b\d{1,2}\s*(?:h|giờ|g)\b
    | DayWord          // \b(hôm nay|mai|ngày mai|ngày mốt|mốt|cuối tuần)\b
    | WeekdayWord      // \b(thứ|th)\s*\d\b
    | Dash             // [-–:]
    | FillerTail       // \b(nhé| nhé|giúp|giùm)\b.*

  /** End of a location phrase starting at `i`. */
  function LocationCutAt(s: string, i: nat): (r: Option<nat>)
    ensures r.Some? ==> i < r.value <= |s|
  {
    match LocationAt(s, i)
    case None => None
    case Some(span) => Some(span.1)
  }

  /** End of an hour mark starting at `i`. */
  function HourCutAt(s: string, i: nat): (r: Option<nat>)
    ensures r.Some? ==> i < r.value <= |s|
  {
    match HourAt(s, i)
    case None => None
    case Some(m) => Some(m.1)
  }

  /** End of one of the non-empty words `ws` starting at `i`. */
  function WordCutAt(s: string, i: nat, ws: seq<string>): (r: Option<nat>)
    requires [] !in ws
    ensures r.Some? ==> i < r.value <= |s|
  {
    WordsAt(s, i, ws)
  }

  /** A dash, en dash or colon at `i`. */
  function DashCutAt(s: string, i: nat): (r: Option<nat>)
    ensures r.Some? ==> i < r.value <= |s|
  {
    if i < |s| && IsDash(s[i]) then Some(i + 1) else None
  }

  /** End of the match of `p` that starts at `i`, if there is one. */
  function MatchEnd(p: Pattern, s: string, i: nat): (r: Option<nat>)
    ensures r.Some? ==> i < r.value <= |s|
  {
    match p
    case LocationPhrase => LocationCutAt(s, i)
    case ReminderPhrase => ReminderCutAt(s, i)
    case ReminderWord => WordCutAt(s, i, ReminderWords)
    case ClockTime => ClockCutAt(s, i)
    case HourTime => HourCutAt(s, i)
    case DayWord => WordCutAt(s, i, DayWords)
    case WeekdayWord => WeekdayCutAt(s, i)
    case Dash => DashCutAt(s, i)
    case FillerTail => FillerAt(s, i)
  }

  /** The scanner of a cut pattern, as `re.sub` drives it. */
  function Cut(p: Pattern): (string, nat) -> Option<nat>
  {
    (x: string, i: nat) => MatchEnd(p, x, i)
  }

  lemma CutAdvances(p: Pattern, s: string)
    ensures Advances(Cut(p), s)
  {
  }

  /** `re.sub(p, rep, s[from:])`, with the boundaries still judged on the whole of `s`. */
  function SubFrom(p: Pattern, s: string, from: nat, rep: string): string
  {
    CutAdvances(p, s);
    SubWith(Cut(p), s, from, rep)
  }

  function Sub(p: Pattern, s: string, rep: string): string
  {
    SubFrom(p, s, 0, rep)
  }

  /** Substitution only keeps characters of the subject or of the replacement. */
  lemma SubFromChars(p: Pattern, s: string, from: nat, rep: string)
    ensures forall c :: c in SubFrom(p, s, from, rep) ==> c in s || c in rep
  {
    CutAdvances(p, s);
    SubWithChars(Cut(p), s, from, rep);
  }

  /** Substituting matches with nothing only deletes characters: the rest keep their order. */
  lemma SubFromSubseq(p: Pattern, s: string, from: nat)
    requires from <= |s|
    ensures IsSubseq(SubFrom(p, s, from, []), s[from..])
  {
    CutAdvances(p, s);
    SubWithSubseq(Cut(p), s, from);
  }

  /** Where `p` matches nowhere from `from` on, substitution leaves the text as it is. */
  lemma SubFromNoMatch(p: Pattern, s: string, from: nat, rep: string)
    requires from <= |s|
    requires forall i :: from <= i < |s| ==> MatchEnd(p, s, i).None?
    ensures SubFrom(p, s, from, rep) == s[from..]
  {
    CutAdvances(p, s);
    SubWithNoMatch(Cut(p), s, from, rep);
  }

  /** Substitution copies the text up to the first match of `p`, then writes `rep` over it. */
  lemma SubFromFirst(p: Pattern, s: string, from: nat, k: nat, e: nat, rep: string)
    requires from <= k < |s|
    requires forall i :: from <= i < k ==> MatchEnd(p, s, i).None?
    requires MatchEnd(p, s, k) == Some(e)
    ensures SubFrom(p, s, from, rep) == s[from..k] + rep + SubFrom(p, s, e, rep)
  {
    CutAdvances(p, s);
    SubWithFirst(Cut(p), s, from, k, e, rep);
  }

  /** `re.search` for the filler pattern: where the first filler word starts and where its match ends. */
  function FirstFiller(s: string): (r: Option<(nat, nat)>)
    ensures r.Some? ==> r.value.0 < r.value.1 <= |s| && FillerAt(s, r.value.0) == Some(r.value.1)
    ensures r.Some? ==> forall i :: 0 <= i < r.value.0 ==> FillerAt(s, i).None?
    ensures r.None? ==> forall i :: 0 <= i <= |s| ==> FillerAt(s, i).None?
  {
    FindFirst(s, 0, FillerAt)
  }

  lemma FillerTailIs(s: string, i: nat)
    ensures MatchEnd(FillerTail, s, i) == FillerAt(s, i)
  {
  }

  /** On one line, a filler match runs to the end of the text. */
  lemma FillerToEnd(s: string, k: nat)
    requires FillerAt(s, k).Some? && '\n' !in s
    ensures FillerAt(s, k).value == |s|
  {
    var w := FirstAlt(s, k, Fillers, true).value;
    FirstAltMatch(s, k, Fillers, true);
    var q := k + |w|;
    var n := Run(s, q, NotNewline);
    if q + n < |s| {
      assert s[q + n] in s;
    }
  }
}
