/**
 * `parse_text`, the entry point of the phrase parser: it normalises the
 * sentence, runs every extractor on it, picks the date (explicit, else
 * relative, else today), shifts the hour by the day segment, builds the start
 * and end, falls back on dateutil, and assembles the event.
 *
 * The three calls into dateutil are not part of this model: what they return
 * is an input (`LibraryAnswers`). The clock is the parameter `now`.
 */
module NlpParse {
  import opened Wrappers
  import opened Text
  import opened Calendar
  import opened NlpNormalize
  import opened NlpExtract
  import opened NlpTitle

  /** What dateutil answers on the strings `parse_text` hands it. */
  datatype LibraryAnswers = LibraryAnswers(
    timeRange: Option<(ClockTime, ClockTime)>,  // `_extract_time_range(text)`
    combined: Option<DateTime>,                 // `dateparser.parse(f"{date} {hour}:{minute}")`
    wholeText: Option<DateTime>)                // `dateparser.parse(text, default=now)`

  /** The dictionary `parse_text` returns, with its times kept as dates and clock times. */
  datatype ParsedEvent = ParsedEvent(
    event: string,
    start: DateTime,
    end: Option<DateTime>,
    location: Option<string>,
    reminderMinutes: nat)

  /** The time of day `cả ngày` ("all day") stands for. */
  const AllDayTime: ClockTime := ClockTime(9, 0, 0)

  /**
   * The 12 to 24-hour heuristic: a morning hour from 1 to 5 and an afternoon or
   * evening hour from 1 to 11 move on by twelve hours; nothing else changes.
   */
  function AdjustHour(hour: nat, m: Modifier): (r: nat)
    ensures r != hour <==> (m == Morning && 1 <= hour <= 5) || (m == Afternoon && 1 <= hour <= 11)
    ensures r != hour ==> r == hour + 12 && 13 <= r <= 23
  {
    match m
    case Morning => if 1 <= hour <= 5 then hour + 12 else hour
    case Afternoon => if 1 <= hour <= 11 && hour < 12 then hour % 12 + 12 else hour
    case NoModifier => hour
  }

  /** The date of the start and end: the explicit date, else the relative one, else today. */
  function DatePart(explicit: Option<Date>, relative: Option<Date>, today: Date): Date
  {
    if explicit.Some? then explicit.value
    else if relative.Some? then relative.value
    else today
  }

  /** `DatePart` on the normalised sentence. */
  function DateOf(t: string, now: DateTime): Date
    requires ValidDateTime(now)
  {
    DatePart(ExtractDateExplicit(t, now.date.year), ExtractRelativeDate(t, now.date), now.date)
  }

  /**
   * The start read from the sentence, before the whole-text fallback:
   * `datetime.combine` on the adjusted hour when `time()` accepts it, else the
   * dateutil reading of the date and clock; 09:00 for `cả ngày`; else none.
   */
  function SentenceStart(t: string, datePart: Date, lib: LibraryAnswers): Option<DateTime>
  {
    match ExtractTime(t)
    case Some(ti) =>
      var h := AdjustHour(ti.hour, ti.modifier);
      if h < 24 && ti.minute < 60 then Some(Combine(datePart, ClockTime(h, ti.minute, 0)))
      else lib.combined
    case None =>
      if Contains(t, "cả ngày") then Some(Combine(datePart, AllDayTime)) else None
  }

  /** The end: the second time of the range on the same date, when the sentence gave a start. */
  function EndOf(datePart: Date, sentenceStart: Option<DateTime>, lib: LibraryAnswers): Option<DateTime>
  {
    if lib.timeRange.Some? && sentenceStart.Some? then Some(Combine(datePart, lib.timeRange.value.1))
    else None
  }

  /** `parse_text` once the sentence is normalised to `t`. */
  function Assemble(t: string, now: DateTime, lib: LibraryAnswers): Option<ParsedEvent>
    requires ValidDateTime(now)
  {
    var datePart := DateOf(t, now);
    var fromSentence := SentenceStart(t, datePart, lib);
    match OrElse(fromSentence, lib.wholeText)
    case None => None
    case Some(start) =>
      Some(ParsedEvent(Strip(Title(t)), start, EndOf(datePart, fromSentence, lib), ExtractLocation(t), ExtractReminder(t)))
  }

  /** `parse_text`: blank input is refused, anything else is normalised and assembled. */
  function ParseText(text: string, now: DateTime, lib: LibraryAnswers): Option<ParsedEvent>
    requires ValidDateTime(now)
  {
    if AllSpace(text) then None else Assemble(Norm(text), now, lib)
  }

  // ---------------------------------------------------------------------
  // Properties
  // ---------------------------------------------------------------------

  /** Empty and whitespace-only input is refused. */
  lemma BlankIsRefused(text: string, now: DateTime, lib: LibraryAnswers)
    requires ValidDateTime(now) && AllSpace(text)
    ensures ParseText(text, now, lib).None?
  {
  }

  /**
   * The sentence yields no start exactly when it names no time and no `cả ngày`,
   * or names a time `time()` refuses that dateutil cannot read either. This
   * states the failure in terms of what the extractors found, which
   * `ParseFailsIff` leaves as `SentenceStart(..).None?`.
   */
  lemma SentenceStartMissing(t: string, datePart: Date, lib: LibraryAnswers)
    ensures SentenceStart(t, datePart, lib).None? <==>
      (ExtractTime(t).None? && !Contains(t, "cả ngày"))
      || (ExtractTime(t).Some? && lib.combined.None?
          && (AdjustHour(ExtractTime(t).value.hour, ExtractTime(t).value.modifier) >= 24
              || ExtractTime(t).value.minute >= 60))
  {
  }

  /**
   * On a normalised sentence there is no event exactly when neither the
   * sentence nor the whole-text fallback gives a start: the step after the
   * blank check that `ParseFailsIff` builds on.
   */
  lemma AssembleFailsIff(t: string, now: DateTime, lib: LibraryAnswers)
    requires ValidDateTime(now)
    ensures Assemble(t, now, lib).None? <==> SentenceStart(t, DateOf(t, now), lib).None? && lib.wholeText.None?
  {
  }

  /**
   * `parse_text` fails exactly on blank input and when neither the sentence nor
   * the whole-text fallback gives a start.
   */
  lemma ParseFailsIff(text: string, now: DateTime, lib: LibraryAnswers)
    requires ValidDateTime(now)
    ensures ParseText(text, now, lib).None? <==>
      AllSpace(text) || (SentenceStart(Norm(text), DateOf(Norm(text), now), lib).None? && lib.wholeText.None?)
  {
    if !AllSpace(text) {
      AssembleFailsIff(Norm(text), now, lib);
    }
  }

  /**
   * A parsed event carries a non-empty, trimmed title with single blanks, the
   * lead time of `_extract_reminder` and the place of `_extract_location`.
   */
  lemma ParsedFields(t: string, now: DateTime, lib: LibraryAnswers)
    requires ValidDateTime(now)
    ensures var r := Assemble(t, now, lib);
      r.Some? ==>
        && r.value.event == Title(t)
        && r.value.event != [] && Trimmed(r.value.event) && Collapsed(r.value.event)
        && r.value.reminderMinutes == ExtractReminder(t)
        && r.value.location == ExtractLocation(t)
  {
    TitleShape(t);
  }

  /**
   * The date part is the explicit date, else the relative date, else today;
   * without an explicit date it lies zero to seven days ahead.
   */
  lemma DatePrecedence(t: string, now: DateTime)
    requires ValidDateTime(now)
    ensures ExtractDateExplicit(t, now.date.year).Some? ==> DateOf(t, now) == ExtractDateExplicit(t, now.date.year).value
    ensures ExtractDateExplicit(t, now.date.year).None? && ExtractRelativeDate(t, now.date).Some? ==>
      DateOf(t, now) == ExtractRelativeDate(t, now.date).value
    ensures ExtractDateExplicit(t, now.date.year).None? && ExtractRelativeDate(t, now.date).None? ==>
      DateOf(t, now) == now.date
    ensures ExtractDateExplicit(t, now.date.year).Some? ==> ValidDate(DateOf(t, now))
    ensures ExtractDateExplicit(t, now.date.year).None? ==>
      Proper(DateOf(t, now)) && 0 <= Ordinal(DateOf(t, now)) - Ordinal(now.date) <= 7
  {
  }

  /**
   * A start taken from a clock time in the sentence sits on the date part at
   * the adjusted hour and the written minute, with no seconds; `cả ngày` gives
   * 09:00 on the date part.
   */
  lemma StartFromSentence(t: string, now: DateTime, lib: LibraryAnswers)
    requires ValidDateTime(now)
    ensures var r := Assemble(t, now, lib);
      ExtractTime(t).Some?
      && AdjustHour(ExtractTime(t).value.hour, ExtractTime(t).value.modifier) < 24
      && ExtractTime(t).value.minute < 60 ==>
        r.Some? && r.value.start == DateTime(DateOf(t, now),
          ClockTime(AdjustHour(ExtractTime(t).value.hour, ExtractTime(t).value.modifier), ExtractTime(t).value.minute, 0))
        && ValidTime(r.value.start.time)
    ensures var r := Assemble(t, now, lib);
      ExtractTime(t).None? && Contains(t, "cả ngày") ==>
        r.Some? && r.value.start == DateTime(DateOf(t, now), AllDayTime)
  {
  }

  /**
   * There is an end exactly when dateutil found a time range and the sentence
   * itself gave the start; it lies on the same date as the date part. No other
   * lemma speaks of the end: a start from the whole-text fallback never has one.
   */
  lemma EndOnDatePart(t: string, now: DateTime, lib: LibraryAnswers)
    requires ValidDateTime(now)
    ensures var r := Assemble(t, now, lib);
      r.Some? ==>
        (r.value.end.Some? <==> lib.timeRange.Some? && SentenceStart(t, DateOf(t, now), lib).Some?)
        && (r.value.end.Some? ==>
              r.value.end.value.date == DateOf(t, now) && r.value.end.value.time == lib.timeRange.value.1)
  {
  }
}
