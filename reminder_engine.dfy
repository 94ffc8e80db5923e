/**
 * The stateful side of the reminder poller: the in-memory alert feed the
 * web page reads, and one tick of `reminder_loop` over the rows of the events
 * table, which it updates in place.
 */
module ReminderEngine {
  import opened Wrappers
  import opened Text
  import opened Calendar
  import opened ReminderRules

  /** How many alerts the feed shows. */
  const FeedWindow: nat := 8

  /** The dictionary `add_streamlit_alert` builds from an event row. */
  datatype Alert = Alert(event: string, time: Option<DateTime>, location: Option<string>, importance: string)

  function AlertOf(e: Event): Alert
  {
    Alert(e.title, e.start, e.location, e.importance)
  }

  /** `global_streamlit_alerts`: every alert raised since start-up, oldest first. */
  class AlertFeed {
    var alerts: seq<Alert>

    constructor()
      ensures alerts == []
    {
      alerts := [];
    }

    /** `add_streamlit_alert`: appends the event's alert. */
    method Add(e: Event)
      modifies this
      ensures alerts == old(alerts) + [AlertOf(e)]
    {
      alerts := alerts + [AlertOf(e)];
    }

    /** `get_streamlit_alerts`: the last eight alerts, oldest first (all of them when fewer). */
    method Recent() returns (r: seq<Alert>)
      ensures |r| == Min(FeedWindow, |alerts|)
      ensures r == alerts[|alerts| - |r|..]
      ensures |alerts| <= FeedWindow ==> r == alerts
    {
      if |alerts| <= FeedWindow {
        r := alerts;
      } else {
        r := alerts[|alerts| - FeedWindow..];
      }
    }
  }

  /** The most recent alert is always shown, and shown last. */
  lemma NewestShownLast(alerts: seq<Alert>, a: Alert)
    ensures var all := alerts + [a];
      var n := Min(FeedWindow, |all|);
      all[|all| - n..] != [] && all[|all| - n..][n - 1] == a
  {
  }

  // ---------------------------------------------------------------------
  // One tick
  // ---------------------------------------------------------------------

  /** The decision a tick at `now` takes on a row. */
  function Decide(now: int): Event -> StepResult
  {
    e => Step(e, now)
  }

  /** What `decide` makes of each row, in row order. */
  function DecideAll(es: seq<Event>, decide: Event -> StepResult): (r: seq<StepResult>)
    ensures |r| == |es|
  {
    if es == [] then [] else DecideAll(es[..|es| - 1], decide) + [decide(es[|es| - 1])]
  }

  /** Each row is decided on its own: outcome k is the decision on row k. */
  lemma {:induction false} DecideAllAt(es: seq<Event>, decide: Event -> StepResult, k: nat)
    requires k < |es|
    ensures DecideAll(es, decide)[k] == decide(es[k])
  {
    if k < |es| - 1 {
      DecideAllAt(es[..|es| - 1], decide, k);
      assert es[..|es| - 1][k] == es[k];
    }
  }

  /** What `Step` decides for each row, in row order. */
  function Outcomes(es: seq<Event>, now: int): (r: seq<StepResult>)
    ensures |r| == |es|
  {
    DecideAll(es, Decide(now))
  }

  /** Outcome k of a tick is `Step` of row k. */
  lemma OutcomesAt(es: seq<Event>, now: int, k: nat)
    requires k < |es|
    ensures Outcomes(es, now)[k] == Step(es[k], now)
  {
    DecideAllAt(es, Decide(now), k);
  }

  /** The rows as the outcomes leave them. */
  function NewRows(outs: seq<StepResult>): (r: seq<Event>)
    ensures |r| == |outs|
    ensures forall k :: 0 <= k < |outs| ==> r[k] == outs[k].event
  {
    if outs == [] then [] else NewRows(outs[..|outs| - 1]) + [outs[|outs| - 1].event]
  }

  /** The alert one row raises: its own when it fires, none otherwise. */
  function RaisedBy(e: Event, r: StepResult): seq<Alert>
  {
    if Fired(r.action) then [AlertOf(e)] else []
  }

  /** `next_wakeup_seconds` after one row: lowered to the row's bid when it has one. */
  function LoweredBy(w: int, r: StepResult): int
  {
    match r.wake
    case Some(c) => Min(w, c)
    case None => w
  }

  /** The alerts the rows raise, in row order. */
  function FiredAlerts(es: seq<Event>, outs: seq<StepResult>): (r: seq<Alert>)
    requires |es| == |outs|
    ensures |r| <= |es|
  {
    if es == [] then []
    else FiredAlerts(es[..|es| - 1], outs[..|outs| - 1]) + RaisedBy(es[|es| - 1], outs[|outs| - 1])
  }

  /** `next_wakeup_seconds` after the rows: the smallest bid, starting from `CHECK_INTERVAL`. */
  function WakeAfter(outs: seq<StepResult>): int
  {
    if outs == [] then CheckIntervalMs else LoweredBy(WakeAfter(outs[..|outs| - 1]), outs[|outs| - 1])
  }

  /** The sleep never leaves the range of half a second to `CHECK_INTERVAL`. */
  lemma {:induction false} WakeAfterBounds(es: seq<Event>, now: int)
    ensures MinWakeMs <= WakeAfter(Outcomes(es, now)) <= CheckIntervalMs
  {
    if es != [] {
      var p := es[..|es| - 1];
      WakeAfterBounds(p, now);
      WakeBid(es[|es| - 1], now);
      assert Outcomes(es, now)[..|es| - 1] == Outcomes(p, now);
    }
  }

  /** The sleep is no longer than the bid of any waiting row. */
  lemma {:induction false} WakeAfterBelowBids(es: seq<Event>, now: int, k: nat)
    requires k < |es| && Step(es[k], now).wake.Some?
    ensures WakeAfter(Outcomes(es, now)) <= Step(es[k], now).wake.value
  {
    var p := es[..|es| - 1];
    assert Outcomes(es, now)[..|es| - 1] == Outcomes(p, now);
    if k < |es| - 1 {
      assert p[k] == es[k];
      WakeAfterBelowBids(p, now, k);
    }
  }

  /** A row's alert is raised exactly when the row fires. */
  lemma {:induction false} FiredAlertsComplete(es: seq<Event>, now: int)
    ensures forall k :: 0 <= k < |es| && Fired(Step(es[k], now).action) ==>
      AlertOf(es[k]) in FiredAlerts(es, Outcomes(es, now))
    ensures forall a :: a in FiredAlerts(es, Outcomes(es, now)) ==>
      exists k :: 0 <= k < |es| && Fired(Step(es[k], now).action) && a == AlertOf(es[k])
  {
    if es != [] {
      var p := es[..|es| - 1];
      FiredAlertsComplete(p, now);
      assert Outcomes(es, now)[..|es| - 1] == Outcomes(p, now);
      forall k | 0 <= k < |p| ensures p[k] == es[k] { }
    }
  }

  /** Extending the rows by one adds that row's new state, alert and bid. */
  lemma Extend(rows: seq<Event>, outs: seq<StepResult>, i: nat)
    requires |rows| == |outs| && i < |rows|
    ensures NewRows(outs[..i + 1]) == NewRows(outs[..i]) + [outs[i].event]
    ensures FiredAlerts(rows[..i + 1], outs[..i + 1]) == FiredAlerts(rows[..i], outs[..i]) + RaisedBy(rows[i], outs[i])
    ensures WakeAfter(outs[..i + 1]) == LoweredBy(WakeAfter(outs[..i]), outs[i])
  {
    assert rows[..i + 1][..i] == rows[..i];
    assert outs[..i + 1][..i] == outs[..i];
  }

  /** How far a pass over `rows` has got: the first `i` rows are visited, the rest untouched. */
  ghost predicate Swept(evs: seq<Event>, alerts: seq<Alert>, wake: int, start: seq<Alert>,
                        rows: seq<Event>, outs: seq<StepResult>, i: nat)
  {
    && |rows| == |outs| && i <= |rows|
    && evs == NewRows(outs[..i]) + rows[i..]
    && alerts == start + FiredAlerts(rows[..i], outs[..i])
    && wake == WakeAfter(outs[..i])
  }

  /**
   * The body of the loop over the rows: decides row `i` and applies the
   * decision, which moves the pass on by one row.
   */
  method Visit(events: array<Event>, feed: AlertFeed, i: nat, decide: Event -> StepResult, wake: int,
               ghost start: seq<Alert>, ghost rows: seq<Event>, ghost outs: seq<StepResult>) returns (next: int)
    requires i < events.Length && outs == DecideAll(rows, decide)
    requires Swept(events[..], feed.alerts, wake, start, rows, outs, i)
    modifies events, feed
    ensures Swept(events[..], feed.alerts, next, start, rows, outs, i + 1)
  {
    ghost var done := NewRows(outs[..i]);
    ghost var earlier := FiredAlerts(rows[..i], outs[..i]);
    assert events[i] == rows[i..][0] == rows[i];
    DecideAllAt(rows, decide, i);
    Extend(rows, outs, i);
    var r := decide(events[i]);
    if Fired(r.action) {
      feed.Add(events[i]);
    }
    next := wake;
    if r.wake.Some? {
      next := Min(wake, r.wake.value);
    }
    events[i] := r.event;
    Regroup(start, earlier, RaisedBy(rows[i], r));
    Splice(done, rows[i..], r.event);
    assert rows[i..][1..] == rows[i + 1..];
  }

  /** Appending alerts one row at a time is appending them all at once. */
  lemma Regroup(a: seq<Alert>, b: seq<Alert>, c: seq<Alert>)
    ensures (a + b) + c == a + (b + c)
  {
  }

  /** Overwriting the first not-yet-visited row moves it to the visited part. */
  lemma Splice(done: seq<Event>, rest: seq<Event>, x: Event)
    requires rest != []
    ensures (done + rest)[|done| := x] == (done + [x]) + rest[1..]
  {
  }

  /**
   * The loop of `reminder_loop` over the rows, for any per-row decision: each
   * row is replaced by the decided state, every row whose decision fires
   * appends its alert to the feed in row order, and the result is the
   * smallest bid, starting from `CHECK_INTERVAL`.
   */
  method Sweep(events: array<Event>, feed: AlertFeed, decide: Event -> StepResult) returns (nextWakeup: int)
    modifies events, feed
    ensures events[..] == NewRows(DecideAll(old(events[..]), decide))
    ensures feed.alerts == old(feed.alerts) + FiredAlerts(old(events[..]), DecideAll(old(events[..]), decide))
    ensures nextWakeup == WakeAfter(DecideAll(old(events[..]), decide))
  {
    ghost var rows := events[..];
    ghost var outs := DecideAll(rows, decide);
    nextWakeup := CheckIntervalMs;
    for i := 0 to events.Length
      invariant Swept(events[..], feed.alerts, nextWakeup, old(feed.alerts), rows, outs, i)
    {
      nextWakeup := Visit(events, feed, i, decide, nextWakeup, old(feed.alerts), rows, outs);
    }
    assert rows[..events.Length] == rows;
    assert outs[..events.Length] == outs;
  }

  /**
   * One pass of `reminder_loop` over the rows: each row becomes what `Step`
   * makes of it, every fired row appends its alert to the feed in row order,
   * and the returned sleep is the smallest bid, at least half a second and at
   * most `CHECK_INTERVAL`.
   */
  method Tick(events: array<Event>, feed: AlertFeed, now: int) returns (wakeMs: int)
    modifies events, feed
    ensures events[..] == NewRows(Outcomes(old(events[..]), now))
    ensures feed.alerts == old(feed.alerts) + FiredAlerts(old(events[..]), Outcomes(old(events[..]), now))
    ensures wakeMs == Max(MinWakeMs, WakeAfter(Outcomes(old(events[..]), now)))
    ensures MinWakeMs <= wakeMs <= CheckIntervalMs
  {
    ghost var rows := events[..];
    var nextWakeup := Sweep(events, feed, Decide(now));
    WakeAfterBounds(rows, now);
    wakeMs := Max(MinWakeMs, nextWakeup);
  }
}
