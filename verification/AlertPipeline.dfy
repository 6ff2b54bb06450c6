/** Alerts of one user and one type: duplicate suppression, quiet-hours deferral, and
    what is saved and queued. */
module AlertPipeline {
  import opened Prelude
  import opened QuietHours

  datatype Severity = LOW | MEDIUM | HIGH | WARNING | CRITICAL | NONE

  function SeverityRank(s: Severity): int {
    match s
    case LOW => 0
    case MEDIUM => 1
    case HIGH => 2
    case WARNING => 3
    case CRITICAL => 4
    case NONE => 0
  }

  datatype Alert = Alert(severity: Severity, createdAt: Time, resolved: bool, deliverable: bool)

  /** A job of the dispatch queue: now, or at the end of the quiet hours. */
  datatype Job = Dispatch(alert: nat) | Deferred(alert: nat, scheduledFor: Time, delay: int)

  datatype Settings = Settings(quietHours: Option<(string, string)>, timezone: string, cooldownMinutes: int) {
    predicate Valid() {
      IsOffset(timezone) && (quietHours.Some? ==> IsTime(quietHours.value.0) && IsTime(quietHours.value.1))
    }
  }

  function IsSeverityUpgrade(existing: Severity, incoming: Severity): bool {
    SeverityRank(incoming) > SeverityRank(existing)
  }

  function LatestOf(alerts: seq<Alert>): Option<Alert> {
    if alerts == [] then None else Some(alerts[|alerts| - 1])
  }

  /** Decides against the latest alert of the same user and type. */
  function IsDuplicate(latest: Option<Alert>, incoming: Severity, cooldownMinutes: int, now: Time): bool {
    if latest.None? then false
    else
      var existing := latest.value;
      if IsSeverityUpgrade(existing.severity, incoming) then false
      else if cooldownMinutes > 0 && now - existing.createdAt < cooldownMinutes * MINUTE then true
      else !existing.resolved
  }

  /** The order of severities: LOW and NONE, MEDIUM, HIGH, WARNING, CRITICAL. */
  predicate Below(a: Severity, b: Severity) {
    match b
    case CRITICAL => !a.CRITICAL?
    case WARNING => !a.CRITICAL? && !a.WARNING?
    case HIGH => a.LOW? || a.NONE? || a.MEDIUM?
    case MEDIUM => a.LOW? || a.NONE?
    case _ => false
  }

  lemma {:induction false} RankOrders(a: Severity, b: Severity)
    ensures SeverityRank(a) < SeverityRank(b) <==> Below(a, b)
  {
  }

  /** An alert is a duplicate of an alert no less severe that lies within the cooldown or is unresolved. */
  predicate Suppressed(existing: Alert, incoming: Severity, cooldownMinutes: int, now: Time) {
    !Below(existing.severity, incoming)
    && ((cooldownMinutes > 0 && now - existing.createdAt < cooldownMinutes * 60_000) || !existing.resolved)
  }

  /** So the chain of tests decides; the first alert of all is never a duplicate. */
  lemma {:induction false} DuplicateExactly(latest: Option<Alert>, incoming: Severity, cooldownMinutes: int, now: Time)
    ensures IsDuplicate(latest, incoming, cooldownMinutes, now) <==>
              latest.Some? && Suppressed(latest.value, incoming, cooldownMinutes, now)
  {
    if latest.Some? { RankOrders(latest.value.severity, incoming); }
    hide Below, SeverityRank;
  }

  /** Whether delivery waits for the end of the quiet hours; critical alerts never wait. */
  predicate Defers(settings: Settings, severity: Severity, now: Time)
    requires settings.Valid()
  {
    severity != CRITICAL && settings.quietHours.Some? &&
    IsWithinQuietHours(now, ConvertToUTC(settings.quietHours.value.0, settings.timezone),
                       ConvertToUTC(settings.quietHours.value.1, settings.timezone))
  }

  class AlertStore {
    var alerts: seq<Alert>
    var queue: seq<Job>

    constructor ()
      ensures alerts == [] && queue == []
    {
      alerts := [];
      queue := [];
    }

    /** saveAndDispatchAlert: the service's clock when it looks for a duplicate and when it goes on, and the
        database's when the row is saved. `saves` and `queues` say whether the save and the queue add succeed; an
        alert whose job could not be queued stays in the table. */
    method SaveAndDispatch(settings: Settings, severity: Severity, checkedAt: Time, now: Time, savedAt: Time,
                           saves: bool, queues: bool)
      requires settings.Valid()
      modifies this
      ensures IsDuplicate(LatestOf(old(alerts)), severity, settings.cooldownMinutes, checkedAt) || !saves ==>
                alerts == old(alerts) && queue == old(queue)
      ensures !IsDuplicate(LatestOf(old(alerts)), severity, settings.cooldownMinutes, checkedAt) && saves ==>
                && alerts == old(alerts) + [Alert(severity, savedAt, false, !Defers(settings, severity, now))]
                && queue == old(queue) + if !queues then [] else
                     [if Defers(settings, severity, now) then DeferredJob(|old(alerts)|, settings, now)
                      else Dispatch(|old(alerts)|)]
    {
      hide IsTime, IsOffset, Minutes, OffsetMinutes, ConvertToUTC, IsWithinQuietHours, IsDuplicate;
      if IsDuplicate(LatestOf(alerts), severity, settings.cooldownMinutes, checkedAt) { return; }
      var deferDelivery := false;
      if settings.quietHours.Some? {
        var utcStart := ConvertToUTC(settings.quietHours.value.0, settings.timezone);
        var utcEnd := ConvertToUTC(settings.quietHours.value.1, settings.timezone);
        deferDelivery := IsWithinQuietHours(now, utcStart, utcEnd);
      }
      if severity == CRITICAL { deferDelivery := false; }
      if !saves { return; }
      var id := |alerts|;
      alerts := alerts + [Alert(severity, savedAt, false, !deferDelivery)];
      if !queues { return; }
      if !deferDelivery {
        queue := queue + [Dispatch(id)];
      } else if settings.quietHours.Some? {
        var utcEnd := ConvertToUTC(settings.quietHours.value.1, settings.timezone);
        var quietHoursEnd := now - now % DAY + Minutes(utcEnd) * MINUTE;
        if quietHoursEnd <= now { quietHoursEnd := quietHoursEnd + DAY; }
        queue := queue + [Deferred(id, quietHoursEnd, quietHoursEnd - now)];
      }
    }

    method Resolve(i: nat)
      modifies this`alerts
      ensures alerts == if i < |old(alerts)| then old(alerts)[i := old(alerts)[i].(resolved := true)] else old(alerts)
    {
      if i < |alerts| { alerts := alerts[i := alerts[i].(resolved := true)]; }
    }
  }

  /** Delivery waits exactly when the alert is not critical and the local time of day lies in the user's window. */
  lemma {:induction false} DefersExactly(settings: Settings, severity: Severity, now: Time)
    requires settings.Valid() && settings.quietHours.Some? && settings.quietHours.value.0 != settings.quietHours.value.1
    ensures Defers(settings, severity, now) <==>
              severity != CRITICAL
              && InArc((UtcMinute(now) + OffsetMinutes(settings.timezone)) % CIRCLE,
                       Minutes(settings.quietHours.value.0), Minutes(settings.quietHours.value.1))
  {
    ConvertedWindow(now, settings.quietHours.value.0, settings.quietHours.value.1, settings.timezone);
    hide IsTime, IsOffset, Minutes, OffsetMinutes, ConvertToUTC, IsWithinQuietHours, InArc, UtcMinute;
  }

  function DeferredJob(alert: nat, settings: Settings, now: Time): Job
    requires settings.Valid() && settings.quietHours.Some?
  {
    var at := QuietEnd(now, ConvertToUTC(settings.quietHours.value.1, settings.timezone));
    Deferred(alert, at, at - now)
  }

  /** A deferred alert is delivered at the first instant outside the user's quiet hours: after a positive
      delay no longer than the window, with everything before it quiet and the instant itself not. */
  lemma {:induction false} DeferredDelivery(settings: Settings, severity: Severity, now: Time, alert: nat)
    requires settings.Valid() && Defers(settings, severity, now)
             && settings.quietHours.value.0 != settings.quietHours.value.1
    ensures var (start, end) := settings.quietHours.value;
            var job := DeferredJob(alert, settings, now);
            && job.alert == alert && job.delay == job.scheduledFor - now && 0 < job.delay <= WindowMs(start, end)
            && (forall t :: now <= t < job.scheduledFor ==> Defers(settings, severity, t))
            && !Defers(settings, severity, job.scheduledFor)
  {
    var (start, end) := settings.quietHours.value;
    var utcStart, utcEnd := ConvertToUTC(start, settings.timezone), ConvertToUTC(end, settings.timezone);
    hide IsTime, IsOffset, Minutes, IsWithinQuietHours, QuietEnd, ConvertToUTC, OffsetMinutes;
    ConvertRoundTrip(start, settings.timezone);
    ConvertRoundTrip(end, settings.timezone);
    SameLength(start, end, settings.timezone);
    DeferredToFirstAudibleInstant(now, utcStart, utcEnd);
  }

  lemma {:induction false} SameLength(start: string, end: string, offset: string)
    requires IsTime(start) && IsTime(end) && IsOffset(offset)
    ensures WindowMs(ConvertToUTC(start, offset), ConvertToUTC(end, offset)) == WindowMs(start, end)
  {
    hide IsTime, IsOffset, Minutes, OffsetMinutes, ConvertToUTC;
    var k := OffsetMinutes(offset);
    ModDifference(Minutes(end) - k, Minutes(start) - k, Minutes(end) - Minutes(start));
  }
}
