/**
 * What the reminder poller decides for one event on one tick: skip it,
 * auto-mark it, fire it (re-nag a minute later, roll it to its next
 * occurrence, or finalise it), let it wait, or hold it. Instants are integer
 * milliseconds of local wall-clock time in the single zone the poller runs in.
 */
module ReminderRules {
  import opened Wrappers
  import opened Text
  import opened Calendar

  /** `CHECK_INTERVAL`: the longest sleep between two ticks. */
  const CheckIntervalMs: int := 5000
  /** `REPEAT_DELAY`: the gap between two notifications of the same event. */
  const RepeatDelayMs: int := 60000
  /** The shortest sleep between two ticks. */
  const MinWakeMs: int := 500

  /** The `next_notify` column: empty, an instant, or text `isoparse` rejects. */
  datatype Stamp = Unset | At(ms: int) | Unreadable

  /**
   * One row of the events table, with the `ev.get(...)` defaults applied: a
   * missing `importance` reads as "normal", a missing `repeat` as "", and
   * missing counters and flags as 0. `start` is `None` when `start_time` is
   * not an ISO 8601 date and time.
   */
  datatype Event = Event(
    title: string,
    start: Option<DateTime>,
    location: Option<string>,
    reminderMinutes: int,
    importance: string,
    repeat: string,
    repeatCount: int,
    notified: int,
    isStop: int,
    nextNotify: Stamp,
    pendingAutoMark: int)

  /** What the poller did with an event. */
  datatype Action =
    | Skip        // stopped, unreadable start, or a reminder instant out of range
    | AutoMark    // due with an auto-mark pending
    | Renag       // fired, and will fire again a minute later
    | Roll        // fired for the last time, moved to its next occurrence
    | Finalise    // fired for the last time, stopped for good
    | FireFailed  // fired and counted, then the follow-up update raised
    | Wait        // not due yet
    | Hold        // due, but already fired as often as its importance allows

  /** One event after the tick, what was done, and its bid for the next sleep. */
  datatype StepResult = StepResult(event: Event, action: Action, wake: Option<int>)

  predicate Fired(a: Action)
  {
    a == Renag || a == Roll || a == Finalise || a == FireFailed
  }

  /** The `max_repeat` table keyed by importance; unknown values count as "normal". */
  function MaxRepeat(importance: string): (r: nat)
    ensures 1 <= r <= 3
  {
    if importance == "important" then 2
    else if importance == "critical" then 3
    else 1
  }

  lemma MaxRepeatTable(importance: string)
    ensures MaxRepeat("normal") == 1 && MaxRepeat("important") == 2 && MaxRepeat("critical") == 3
    ensures importance !in {"normal", "important", "critical"} ==> MaxRepeat(importance) == 1
  {
  }

  // ---------------------------------------------------------------------
  // The next occurrence of a repeating event
  // ---------------------------------------------------------------------

  datatype Occurrence = NotRecurring | OutOfRange | Next(start: DateTime)

  /**
   * `_schedule_next_occurrence`'s date arithmetic: a day, a week or a calendar
   * month later; any other `repeat` value does not recur, and a date past year
   * 9999 raises.
   */
  function NextOccurrence(repeat: string, start: DateTime): Occurrence
    requires ValidDateTime(start)
  {
    var next :=
      if repeat == "daily" then Some(AddDays(start.date, 1))
      else if repeat == "weekly" then Some(AddDays(start.date, 7))
      else if repeat == "monthly" then Some(AddOneMonth(start.date))
      else None;
    match next
    case None => NotRecurring
    case Some(d) => if d.year <= MaxYear then Next(DateTime(d, start.time)) else OutOfRange
  }

  /**
   * Daily and weekly events move on by exactly one day and seven days; monthly
   * ones to the same day of the next month, or its last day; the time of day is
   * kept, and only the last days of year 9999 have no next occurrence.
   */
  lemma NextOccurrenceMeaning(repeat: string, start: DateTime)
    requires ValidDateTime(start)
    ensures var o := NextOccurrence(repeat, start);
      && (o.NotRecurring? <==> repeat !in {"daily", "weekly", "monthly"})
      && (o.OutOfRange? ==> start.date.year == MaxYear)
      && (o.Next? ==> ValidDateTime(o.start) && o.start.time == start.time)
      && (o.Next? && repeat == "daily" ==> Instant(o.start) == Instant(start) + MsPerDay)
      && (o.Next? && repeat == "weekly" ==> Instant(o.start) == Instant(start) + 7 * MsPerDay)
      && (o.Next? && repeat == "monthly" ==>
            (o.start.date == AddOneMonth(start.date)
             && 28 * MsPerDay <= Instant(o.start) - Instant(start) <= 31 * MsPerDay))
  {
    AddDaysInstant(start, 1);
    AddDaysInstant(start, 7);
    AddOneMonthMeaning(start.date);
    var o := NextOccurrence(repeat, start);
    if o.OutOfRange? {
      if repeat == "monthly" {
        assert AddOneMonth(start.date).year > MaxYear;
      } else {
        var n := if repeat == "daily" then 1 else 7;
        assert AddDays(start.date, n).year > MaxYear;
        YearAfterDays(start.date, n);
      }
    }
  }

  /** A week or less later is at most the next year. */
  lemma {:induction false} YearAfterDays(d: Date, n: nat)
    requires Proper(d) && n <= 7
    ensures AddDays(d, n).year <= d.year + 1
    decreases n
  {
    if n > 0 {
      var e := NextDay(d);
      assert AddDays(d, n) == AddDays(e, n - 1);
      if e.year == d.year {
        YearAfterDays(e, n - 1);
      } else {
        assert e == Date(d.year + 1, 1, 1);
        AddDaysInJanuary(e, n - 1);
      }
    }
  }

  /** Within January, adding days only moves the day of the month. */
  lemma {:induction false} AddDaysInJanuary(d: Date, n: nat)
    requires Proper(d) && d.month == 1 && d.day + n <= 31
    ensures AddDays(d, n) == Date(d.year, 1, d.day + n)
    decreases n
  {
    if n > 0 {
      AddDaysInJanuary(NextDay(d), n - 1);
    }
  }

  // ---------------------------------------------------------------------
  // The decision for one event
  // ---------------------------------------------------------------------

  /** The start floored to the minute, when `start_time` parses. */
  function StartOf(e: Event): Option<DateTime>
  {
    if e.start.Some? && ValidDateTime(e.start.value) then Some(FloorDateTime(e.start.value)) else None
  }

  /**
   * The event takes part in the tick: not stopped, its start parses, and its
   * default reminder instant `start - reminder_minutes` can be represented.
   */
  predicate Active(e: Event)
  {
    && e.isStop != 1
    && StartOf(e).Some?
    && InRange(Instant(StartOf(e).value) - e.reminderMinutes * MsPerMinute)
  }

  /** When the event is next to be notified: `next_notify`, else the default reminder instant. */
  function NextNotifyOf(e: Event): (r: Option<int>)
    requires Active(e)
    ensures r.Some? ==> r.value % MsPerMinute == 0
    ensures r.None? <==> e.nextNotify.Unreadable?
    ensures e.nextNotify.Unset? ==> r == Some(FloorToMinute(Instant(StartOf(e).value) - e.reminderMinutes * MsPerMinute))
    ensures e.nextNotify.At? ==> r == Some(FloorToMinute(e.nextNotify.ms))
  {
    match e.nextNotify
    case Unset =>
      FloorIdempotent(Instant(StartOf(e).value) - e.reminderMinutes * MsPerMinute);
      Some(FloorToMinute(FloorToMinute(Instant(StartOf(e).value) - e.reminderMinutes * MsPerMinute)))
    case At(t) => Some(FloorToMinute(t))
    case Unreadable => None
  }

  /** `secs_until <= 0`: the notification instant has come. */
  predicate Due(e: Event, now: int)
    requires Active(e)
  {
    NextNotifyOf(e).Some? && NextNotifyOf(e).value - now <= 0
  }

  /**
   * An event with no stored `next_notify` first becomes due at its start less
   * the lead time, floored to the minute, and not before.
   */
  lemma FirstDue(e: Event, now: int)
    requires Active(e) && e.nextNotify.Unset?
    ensures Due(e, now) <==> now >= FloorToMinute(Instant(StartOf(e).value) - e.reminderMinutes * MsPerMinute)
  {
  }

  /** The sleep an event that is not due asks for: the time until it, within 0.5 s to 5 s. */
  function WakeCandidate(next: Option<int>, now: int): (r: int)
    ensures MinWakeMs <= r <= CheckIntervalMs
    ensures next.Some? && MinWakeMs <= next.value - now <= CheckIntervalMs ==> r == next.value - now
  {
    if next.None? then CheckIntervalMs
    else Max(MinWakeMs, Min(next.value - now, CheckIntervalMs))
  }

  /** The updates after the repeat count went up: re-nag, roll or finalise. */
  function AfterFire(e: Event, start: DateTime, now: int): (r: StepResult)
    requires ValidDateTime(start)
  {
    var counted := e.(repeatCount := e.repeatCount + 1);
    if counted.repeatCount < MaxRepeat(e.importance) then
      if InRange(now + RepeatDelayMs) then
        StepResult(counted.(nextNotify := At(FloorToMinute(now + RepeatDelayMs))), Renag, None)
      else StepResult(counted, FireFailed, None)
    else
      match NextOccurrence(e.repeat, start)
      case NotRecurring =>
        StepResult(counted.(notified := 1, isStop := 1, nextNotify := Unset, pendingAutoMark := 0), Finalise, None)
      case OutOfRange => StepResult(counted, FireFailed, None)
      case Next(s) =>
        var remindAt := Instant(s) - e.reminderMinutes * MsPerMinute;
        if InRange(remindAt) then
          StepResult(
            counted.(start := Some(s), repeatCount := 0, notified := 0,
                     nextNotify := At(FloorToMinute(remindAt)), pendingAutoMark := 0),
            Roll, None)
        else StepResult(counted, FireFailed, None)
  }

  /** The body of the `for ev in events` loop of `reminder_loop`. */
  function Step(e: Event, now: int): StepResult
  {
    if !Active(e) then StepResult(e, Skip, None)
    else if e.pendingAutoMark == 1 && Due(e, now) then
      StepResult(e.(isStop := 1, notified := 1, nextNotify := Unset, pendingAutoMark := 0), AutoMark, None)
    else if Due(e, now) && e.repeatCount < MaxRepeat(e.importance) then
      AfterFire(e, StartOf(e).value, now)
    else if !Due(e, now) then
      StepResult(e, Wait, Some(WakeCandidate(NextNotifyOf(e), now)))
    else
      StepResult(e, Hold, None)
  }

  // ---------------------------------------------------------------------
  // Properties of one step
  // ---------------------------------------------------------------------

  /** A stopped event is skipped: nothing changes, nothing fires, no sleep is bid. */
  lemma StoppedIsSkipped(e: Event, now: int)
    requires e.isStop == 1
    ensures Step(e, now) == StepResult(e, Skip, None)
  {
  }

  /**
   * A due event with an auto-mark pending is stopped and marked notified, its
   * `next_notify` cleared and the pending flag dropped; it does not fire.
   */
  lemma AutoMarkFields(e: Event, now: int)
    requires Active(e) && e.pendingAutoMark == 1 && Due(e, now)
    ensures var r := Step(e, now);
      && r.action == AutoMark && !Fired(r.action) && r.wake.None?
      && r.event == e.(isStop := 1, notified := 1, nextNotify := Unset, pendingAutoMark := 0)
  {
  }

  /**
   * An event fires exactly when it is active, due, has no auto-mark pending and
   * has fired fewer times than its importance allows; a fire counts one more
   * notification, unless it rolled the event over, which starts the count anew.
   */
  lemma FiresIff(e: Event, now: int)
    ensures var r := Step(e, now);
      && (Fired(r.action) <==>
            Active(e) && Due(e, now) && e.pendingAutoMark != 1 && e.repeatCount < MaxRepeat(e.importance))
      && (Fired(r.action) && r.action != Roll ==> r.event.repeatCount == e.repeatCount + 1)
      && (r.action == Roll ==> r.event.repeatCount == 0 && e.repeatCount + 1 == MaxRepeat(e.importance))
  {
  }

  /** The count of notifications sent stays between 0 and the importance's cap. */
  predicate CountWithinCap(e: Event)
  {
    0 <= e.repeatCount <= MaxRepeat(e.importance)
  }

  lemma StepKeepsCount(e: Event, now: int)
    requires CountWithinCap(e)
    ensures CountWithinCap(Step(e, now).event)
    ensures Step(e, now).event.importance == e.importance
  {
    if Active(e) && !(e.pendingAutoMark == 1 && Due(e, now)) && Due(e, now) && e.repeatCount < MaxRepeat(e.importance) {
      AfterFireKeepsCount(e, StartOf(e).value, now);
    }
  }

  /** Firing below the cap leaves the count within the cap and the importance as it was. */
  lemma AfterFireKeepsCount(e: Event, start: DateTime, now: int)
    requires ValidDateTime(start) && 0 <= e.repeatCount < MaxRepeat(e.importance)
    ensures CountWithinCap(AfterFire(e, start, now).event)
    ensures AfterFire(e, start, now).event.importance == e.importance
  {
    if e.repeatCount + 1 >= MaxRepeat(e.importance) {
      match NextOccurrence(e.repeat, start)
      case NotRecurring =>
      case OutOfRange =>
      case Next(s) =>
    }
  }

  /** Below the cap after firing, the event stays active and is due again a minute later. */
  lemma RenagFields(e: Event, now: int)
    requires Active(e) && Step(e, now).action == Renag
    ensures var r := Step(e, now).event;
      && r == e.(repeatCount := e.repeatCount + 1, nextNotify := At(FloorToMinute(now + RepeatDelayMs)))
      && r.repeatCount < MaxRepeat(e.importance)
      && Active(r)
      && NextNotifyOf(r) == Some(FloorToMinute(now + RepeatDelayMs))
      && now < NextNotifyOf(r).value <= now + RepeatDelayMs
      && (forall later :: later >= now + RepeatDelayMs ==> Due(r, later))
      && !Due(r, now)
  {
    FloorIdempotent(now + RepeatDelayMs);
  }

  /**
   * Reaching the cap on a daily, weekly or monthly event moves its start to the
   * next occurrence, clears the count, the notified flag and the pending flag,
   * and sets `next_notify` to the new start less the lead time, to the minute;
   * `isStop` is kept.
   */
  lemma RollFields(e: Event, now: int)
    requires Active(e) && Step(e, now).action == Roll
    ensures var r := Step(e, now).event;
      var o := NextOccurrence(e.repeat, StartOf(e).value);
      && e.repeat in {"daily", "weekly", "monthly"}
      && o.Next?
      && r == e.(start := Some(o.start), repeatCount := 0, notified := 0,
                 nextNotify := At(FloorToMinute(Instant(o.start) - e.reminderMinutes * MsPerMinute)),
                 pendingAutoMark := 0)
      && Active(r)
      && NextNotifyOf(r) == Some(Instant(o.start) - e.reminderMinutes * MsPerMinute)
      && (e.repeat == "daily" ==> Instant(o.start) == Instant(StartOf(e).value) + MsPerDay)
      && (e.repeat == "weekly" ==> Instant(o.start) == Instant(StartOf(e).value) + 7 * MsPerDay)
  {
    var s := StartOf(e).value;
    var o := NextOccurrence(e.repeat, s);
    NextOccurrenceMeaning(e.repeat, s);
    var r := Step(e, now).event;
    var m := Instant(o.start) - e.reminderMinutes * MsPerMinute;
    FloorDateTimeInstant(o.start);
    assert FloorDateTime(o.start) == o.start;
    assert StartOf(r) == Some(o.start);
    MultipleOfMinute(Instant(o.start), e.reminderMinutes);
    FloorIdempotent(m);
  }

  lemma MultipleOfMinute(t: int, k: int)
    requires t % MsPerMinute == 0
    ensures FloorToMinute(t - k * MsPerMinute) == t - k * MsPerMinute
  {
    assert t - k * MsPerMinute == (t / MsPerMinute - k) * MsPerMinute;
  }

  /**
   * Reaching the cap on an event that does not repeat stops it for good: it is
   * marked notified and stopped, with `next_notify` cleared.
   */
  lemma FinaliseFields(e: Event, now: int)
    requires Active(e) && Step(e, now).action == Finalise
    ensures var r := Step(e, now).event;
      && e.repeat !in {"daily", "weekly", "monthly"}
      && e.repeatCount + 1 == MaxRepeat(e.importance)
      && r == e.(repeatCount := e.repeatCount + 1, notified := 1, isStop := 1, nextNotify := Unset, pendingAutoMark := 0)
  {
    NextOccurrenceMeaning(e.repeat, StartOf(e).value);
  }

  /** An event that is not due is left as it is and bids a sleep of 0.5 s to 5 s. */
  lemma NotDueUnchanged(e: Event, now: int)
    requires Active(e) && !Due(e, now)
    ensures var r := Step(e, now);
      && r.event == e && r.action == Wait && !Fired(r.action)
      && r.wake.Some? && MinWakeMs <= r.wake.value <= CheckIntervalMs
  {
  }

  /** Only the waiting events bid for the sleep, and every bid lies within 0.5 s to 5 s. */
  lemma WakeBid(e: Event, now: int)
    ensures var r := Step(e, now);
      (r.wake.Some? <==> r.action == Wait)
      && (r.wake.Some? ==> MinWakeMs <= r.wake.value <= CheckIntervalMs)
  {
  }

  /**
   * Every step but a fire, an auto-mark and a roll leaves the row as it was:
   * skipping, waiting and holding change nothing.
   */
  lemma QuietStepsChangeNothing(e: Event, now: int)
    ensures var r := Step(e, now);
      r.action in {Skip, Wait, Hold} ==> r.event == e
  {
  }

  /** A finalised or auto-marked event is skipped on every later tick. */
  lemma StoppedStaysStopped(e: Event, now: int, later: int)
    requires Step(e, now).action in {Finalise, AutoMark}
    ensures Step(Step(e, now).event, later) == StepResult(Step(e, now).event, Skip, None)
  {
  }

  /**
   * An important event that is due fires twice a minute apart and is then
   * finalised when it does not repeat: the second fire closes it.
   */
  lemma ImportantFiresTwice(e: Event, now: int)
    requires Active(e) && Due(e, now) && e.importance == "important" && e.repeat == ""
    requires e.repeatCount == 0 && e.pendingAutoMark != 1 && InRange(now + RepeatDelayMs)
    ensures var first := Step(e, now);
      var second := Step(first.event, now + RepeatDelayMs);
      && first.action == Renag
      && second.action == Finalise
      && second.event.repeatCount == 2 && second.event.isStop == 1
  {
    RenagFields(e, now);
    NextOccurrenceMeaning(e.repeat, StartOf(e).value);
  }
}
