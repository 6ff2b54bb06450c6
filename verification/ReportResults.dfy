/** What a finished report holds: the result of its own worker's computation, and when that was made. */
module ReportResults {
  import opened Prelude
  import opened PeriodRange
  import opened ReportTable
  import opened ReportWorker
  import opened ReportLifecycle
  import opened ReportSeries

  // ---- Where a result comes from ----

  /** Worker w, at report r, has computed x at this instant and has yet to write it. */
  predicate HasResult(s: System, w: nat, r: Id, x: nat, date: Time) {
    w in s.workers && s.workers[w].id == r && s.workers[w].pc.Computed?
    && s.workers[w].pc.metrics == x && s.workers[w].pc.deliveredAt == date
  }

  /** At step c worker w, holding its claim on r, finishes computing x; at step m it writes its result, nothing in
      between being a step of its own. */
  predicate ComputesAndWrites(ss: seq<System>, ls: seq<Label>, c: nat, m: nat, w: nat, r: Id, x: nat) {
    && c < m < |ls| < |ss|
    && ls[c] == Work(w, ComputeOk(x))
    && w in ss[c].workers && ss[c].workers[w].id == r && ss[c].workers[w].pc.Computing?
    && ReadyLands(ss[m], ls[m], r) && ls[m].w == w
    && forall k: nat :: c < k <= m ==> w in ss[k].workers && ss[k].workers[w].pc.Computed?
  }

  lemma {:induction false} ResultBefore(s: System, l: Label, tz: int, w: nat, r: Id, x: nat, date: Time)
    requires HasResult(Step(s, l, tz), w, r, x, date)
    ensures HasResult(s, w, r, x, date)
            || (l == Work(w, ComputeOk(x)) && w in s.workers && s.workers[w].id == r && s.workers[w].pc.Computing?
                && s.now == date)
  {
    hide DueAt, FirstOrder, NextOrder, Insertable;
  }

  lemma {:induction false} ResultOrigin(ss: seq<System>, ls: seq<Label>, tz: int, m: nat, w: nat, r: Id, x: nat,
                                        date: Time) returns (c: nat)
    requires Run(ss, ls, tz) && m < |ss| && HasResult(ss[m], w, r, x, date)
    ensures c < m && ls[c] == Work(w, ComputeOk(x)) && ss[c].now == date
    ensures w in ss[c].workers && ss[c].workers[w].id == r && ss[c].workers[w].pc.Computing?
    ensures forall k: nat :: c < k <= m ==> HasResult(ss[k], w, r, x, date)
    decreases m
  {
    assert m > 0 && ss[m] == Step(ss[m - 1], ls[m - 1], tz);
    ResultBefore(ss[m - 1], ls[m - 1], tz, w, r, x, date);
    hide Step, HasResult;
    if HasResult(ss[m - 1], w, r, x, date) {
      c := ResultOrigin(ss, ls, tz, m - 1, w, r, x, date);
    } else {
      c := m - 1;
    }
  }

  // ---- What a result leaves in the row ----

  /** The metrics change with results only: READY brings the worker's own, a last failure those it had read. */
  lemma {:induction false} MetricsStep(s: System, l: Label, tz: int, r: Id)
    requires r in s.rows
    ensures var s' := Step(s, l, tz);
            && r in s'.rows
            && s'.rows[r].keyMetrics ==
               if ReadyLands(s, l, r) then Some(s.workers[l.w].pc.metrics)
               else if FailureLands(s, l, r) && l.a.last then s.workers[l.w].pc.report.keyMetrics
               else s.rows[r].keyMetrics
  {
    hide DueAt, FirstOrder, NextOrder;
  }

  /** Step m writes r READY, and no result has been written to it since. */
  ghost predicate LastResultReady(ss: seq<System>, ls: seq<Label>, m: nat, t: nat, r: Id)
    requires t <= |ls| < |ss|
  {
    m < t && ReadyLands(ss[m], ls[m], r)
    && forall i: nat :: m < i < t ==> !ReadyLands(ss[i], ls[i], r) && !FailureLands(ss[i], ls[i], r)
  }

  lemma {:induction false} ReadyFromResult(ss: seq<System>, ls: seq<Label>, tz: int, t: nat, r: Id) returns (m: nat)
    requires Run(ss, ls, tz) && t < |ss| && r in ss[t].rows && ss[t].rows[r].status.Ready?
    ensures LastResultReady(ss, ls, m, t, r)
    ensures ss[t].rows[r].keyMetrics == Some(ss[m].workers[ls[m].w].pc.metrics)
    ensures ss[t].rows[r].dateDelivered == Some(ss[m].workers[ls[m].w].pc.deliveredAt)
    decreases t
  {
    assert t > 0 && ss[t] == Step(ss[t - 1], ls[t - 1], tz);
    hide Step;
    if r !in ss[t - 1].rows { BornPending(ss[t - 1], ls[t - 1], tz, r); }
    StatusStep(ss[t - 1], ls[t - 1], tz, r);
    MetricsStep(ss[t - 1], ls[t - 1], tz, r);
    if ReadyLands(ss[t - 1], ls[t - 1], r) {
      m := t - 1;
    } else {
      hide ReadyLands, FailureLands;
      m := ReadyFromResult(ss, ls, tz, t - 1, r);
    }
  }

  /** The report's last result is READY, written by a worker that had computed x at step c. */
  ghost predicate DeliversFrom(ss: seq<System>, ls: seq<Label>, c: nat, t: nat, r: Id, x: nat)
    requires t <= |ls| < |ss|
  {
    exists m: nat, w: nat :: LastResultReady(ss, ls, m, t, r) && ComputesAndWrites(ss, ls, c, m, w, r, x)
  }

  lemma {:induction false} OneOrigin(ss: seq<System>, ls: seq<Label>, t: nat, r: Id, c: nat, x: nat, d: nat, y: nat)
    requires t <= |ls| < |ss| && DeliversFrom(ss, ls, c, t, r, x) && DeliversFrom(ss, ls, d, t, r, y)
    ensures c == d && x == y
  {
    hide ReadyLands, FailureLands;
    var m, w :| LastResultReady(ss, ls, m, t, r) && ComputesAndWrites(ss, ls, c, m, w, r, x);
    var n, v :| LastResultReady(ss, ls, n, t, r) && ComputesAndWrites(ss, ls, d, n, v, r, y);
    assert m == n && w == v;
  }

  lemma {:induction false} Delivery(ss: seq<System>, ls: seq<Label>, tz: int, t: nat, r: Id) returns (c: nat, x: nat)
    requires Run(ss, ls, tz) && t < |ss| && r in ss[t].rows && ss[t].rows[r].status.Ready?
    ensures DeliversFrom(ss, ls, c, t, r, x)
    ensures ss[t].rows[r].keyMetrics == Some(x) && ss[t].rows[r].dateDelivered == Some(ss[c].now)
  {
    hide Step;
    var m := ReadyFromResult(ss, ls, tz, t, r);
    var w := ls[m].w;
    x := ss[m].workers[w].pc.metrics;
    c := ResultOrigin(ss, ls, tz, m, w, r, x, ss[m].workers[w].pc.deliveredAt);
    hide Run;
    assert ComputesAndWrites(ss, ls, c, m, w, r, x);
  }

  /** In any run a READY report holds x exactly when x is what the worker that last wrote it READY had itself
      computed, since its claim, and its delivery date is the instant of that computation. */
  lemma {:induction false} DeliveredExactly(ss: seq<System>, ls: seq<Label>, tz: int, t: nat, r: Id, x: nat, date: Time)
    requires Run(ss, ls, tz) && t < |ss| && r in ss[t].rows && ss[t].rows[r].status.Ready?
    ensures ss[t].rows[r].keyMetrics == Some(x) <==> exists c: nat :: DeliversFrom(ss, ls, c, t, r, x)
    ensures ss[t].rows[r].dateDelivered == Some(date) <==>
              exists c: nat, y: nat :: DeliversFrom(ss, ls, c, t, r, y) && ss[c].now == date
  {
    hide Step;
    var d, z := Delivery(ss, ls, tz, t, r);
    hide Run, DeliversFrom;
    forall c: nat, y: nat | DeliversFrom(ss, ls, c, t, r, y) ensures c == d && y == z {
      OneOrigin(ss, ls, t, r, c, y, d, z);
    }
  }

  // ---- Failed reports ----

  /** The row a worker goes by is the one it read, PENDING, at its own first step. */
  predicate GoesBy(s: System, w: nat, r: Id, report: Report) {
    w in s.workers && s.workers[w].id == r && !s.workers[w].pc.Started? && !s.workers[w].pc.Done?
    && s.workers[w].pc.report == report
  }

  lemma {:induction false} GoesByBefore(s: System, l: Label, tz: int, w: nat, r: Id, report: Report)
    requires GoesBy(Step(s, l, tz), w, r, report)
    ensures GoesBy(s, w, r, report)
            || (l == Work(w, ReadRow) && w in s.workers && s.workers[w] == Worker(r, Started)
                && r in s.rows && s.rows[r] == report && report.status.Pending?)
  {
    hide DueAt, FirstOrder, NextOrder, Insertable;
  }

  lemma {:induction false} ReadOrigin(ss: seq<System>, ls: seq<Label>, tz: int, m: nat, w: nat, r: Id, report: Report)
    returns (c: nat)
    requires Run(ss, ls, tz) && m < |ss| && GoesBy(ss[m], w, r, report)
    ensures c < m && ls[c] == Work(w, ReadRow) && w in ss[c].workers && ss[c].workers[w] == Worker(r, Started)
    ensures r in ss[c].rows && ss[c].rows[r] == report && report.status.Pending?
    decreases m
  {
    assert m > 0 && ss[m] == Step(ss[m - 1], ls[m - 1], tz);
    GoesByBefore(ss[m - 1], ls[m - 1], tz, w, r, report);
    hide Step, GoesBy;
    if GoesBy(ss[m - 1], w, r, report) { c := ReadOrigin(ss, ls, tz, m - 1, w, r, report); } else { c := m - 1; }
  }

  /** The step writes r FAILED: a failure on the last attempt. */
  predicate FinalFailureLands(s: System, l: Label, r: Id) { FailureLands(s, l, r) && l.a.last }

  lemma {:induction false} FailedStep(s: System, l: Label, tz: int, r: Id)
    requires r in s.rows
    ensures var s' := Step(s, l, tz);
            r in s'.rows &&
            (s'.rows[r].status.Failed? <==>
             FinalFailureLands(s, l, r)
             || (s.rows[r].status.Failed? && !ReadyLands(s, l, r) && !FailureLands(s, l, r)))
  {
    hide DueAt, FirstOrder, NextOrder;
  }

  /** In any run a FAILED report's last result is a failure on a last attempt, and it holds the metrics that the
      worker which wrote it had read at its start. */
  lemma {:induction false} FailedHolds(ss: seq<System>, ls: seq<Label>, tz: int, t: nat, r: Id) returns (c: nat, m: nat)
    requires Run(ss, ls, tz) && t < |ss| && r in ss[t].rows && ss[t].rows[r].status.Failed?
    ensures c < m < t && FinalFailureLands(ss[m], ls[m], r) && ls[c] == Work(ls[m].w, ReadRow)
    ensures forall i: nat :: m < i < t ==> !ReadyLands(ss[i], ls[i], r) && !FailureLands(ss[i], ls[i], r)
    ensures r in ss[c].rows && ss[t].rows[r].keyMetrics == ss[c].rows[r].keyMetrics
    decreases t
  {
    assert t > 0 && ss[t] == Step(ss[t - 1], ls[t - 1], tz);
    hide Step;
    if r !in ss[t - 1].rows { BornPending(ss[t - 1], ls[t - 1], tz, r); }
    FailedStep(ss[t - 1], ls[t - 1], tz, r);
    MetricsStep(ss[t - 1], ls[t - 1], tz, r);
    if FinalFailureLands(ss[t - 1], ls[t - 1], r) {
      m := t - 1;
      var w := ls[m].w;
      c := ReadOrigin(ss, ls, tz, m, w, r, ss[m].workers[w].pc.report);
    } else {
      hide ReadyLands, FailureLands, FinalFailureLands;
      c, m := FailedHolds(ss, ls, tz, t - 1, r);
    }
  }

  // ---- How a worker goes on ----

  predicate PendingThere(rows: Reports, id: Id) { id in rows && rows[id].status.Pending? }

  /** How a worker's segment ends it: it throws, for another attempt, exactly when its report is not PENDING at its
      first read or after a failure it has dealt with; it ends quietly exactly when it loses the claim or has been
      through with chaining. */
  lemma {:induction false} EndsExactly(rows: Reports, id: Id, pc: Pc, a: Act, now: Time)
    requires !pc.Done?
    ensures var pc' := Advance(rows, id, pc, a, now).1;
            && (pc' == Done(true) <==>
                (pc.Started? && a.ReadRow? && !PendingThere(rows, id)) || (pc.Failing? && a.WriteFailure?))
            && (pc' == Done(false) <==>
                (pc.Seen? && a.Claim? && !PendingThere(rows, id)) || (pc.Delivered? && a.Chain?))
  {
  }

  /** A worker comes to deal with a failure exactly when its computation or its write of READY fails, and only
      with its claim. */
  lemma {:induction false} FailsExactly(rows: Reports, id: Id, pc: Pc, a: Act, now: Time)
    requires !pc.Failing?
    ensures var pc' := Advance(rows, id, pc, a, now).1;
            && (pc'.Failing? <==> (pc.Computing? && a.ComputeFail?) || (pc.Computed? && a == WriteReady(false)))
            && (pc'.Failing? ==> pc'.claimedAt == pc.claimedAt)
  {
  }

  /** The series already has the next occurrence. */
  predicate HasSuccessor(rows: Reports, o: Order) {
    exists q :: q in rows && rows[q].order.seriesId == o.seriesId && o.occurrence.Some?
                && rows[q].order.occurrence == Some(o.occurrence.value + 1)
  }

  /** A worker that has delivered chains a successor exactly when its report is periodic, recurring and numbered in a
      series that does not have the next occurrence yet; the successor refers to the delivery and is PENDING. */
  lemma {:induction false} ChainsExactly(rows: Reports, id: Id, report: Report, delivered: Time, q: Id, now: Time)
    requires q !in rows
    ensures var rows' := Advance(rows, id, Delivered(report, delivered), Chain(q, true), now).0;
            var o := report.order;
            && (q in rows' <==> o.period != CustomPeriod && o.recurring && o.seriesId.Some? && o.occurrence.Some?
                                && !HasSuccessor(rows, o))
            && (q in rows' ==>
                  && rows' == rows[q := rows'[q]] && rows'[q].status.Pending? && rows'[q].keyMetrics.None?
                  && rows'[q].dateDelivered.None? && rows'[q].order.referenceDate == delivered
                  && rows'[q].order.period == o.period && rows'[q].order.recurring
                  && rows'[q].order.seriesId == o.seriesId
                  && rows'[q].order.occurrence == Some(o.occurrence.value + 1))
            && (q !in rows' ==> rows' == rows)
  {
  }

  // ---- Stamps, jobs, creators ----

  /** Whatever changes a row stamps it with the instant of the change. */
  lemma {:induction false} ChangesAreStamped(s: System, l: Label, tz: int, r: Id)
    requires r in Step(s, l, tz).rows && (r in s.rows ==> Step(s, l, tz).rows[r] != s.rows[r])
    ensures Step(s, l, tz).rows[r].updatedAt == s.now
  {
    hide DueAt, FirstOrder, NextOrder;
  }

  /** A new row has a creator that is to queue its job. */
  lemma {:induction false} BornWithCreator(s: System, l: Label, tz: int, r: Id)
    requires r !in s.rows && r in Step(s, l, tz).rows
    ensures r in Step(s, l, tz).creating
  {
    hide DueAt, FirstOrder, NextOrder;
  }

  predicate EndsWith(s: System, w: nat, a: Act)
    requires w in s.workers
  {
    Advance(s.rows, s.workers[w].id, s.workers[w].pc, a, s.now).1.Done?
  }

  /** Creators and jobs come and go only so: a creator with its row until it queues the job or fails, a job until it
      is removed, a worker until it crashes or is done. */
  lemma {:induction false} WhoIsLeft(s: System, l: Label, tz: int, id: Id, w: nat)
    ensures var s' := Step(s, l, tz); var queued := l == Enqueue(id) && id in s.creating && id in s.rows;
            && (id in s'.creating <==>
                (id in s.creating && !queued && l != CreatorFails(id)) || (id !in s.rows && id in s'.rows))
            && (id in s'.jobs <==> queued || (id in s.jobs && l != JobRemoved(id)))
            && (w in s.workers ==>
                (w !in s'.workers <==> l == Crash(w) || (l.Work? && l.w == w && EndsWith(s, w, l.a))))
  {
    hide DueAt, FirstOrder, NextOrder;
  }

  /** The job it queues becomes available when the report's period is over, or at once if it is: not earlier, and
      not later. */
  lemma {:induction false} JobAvailable(s: System, id: Id, w: nat, ms: nat, tz: int)
    requires id in s.creating && id in s.rows && w !in s.workers
    ensures var queued := Step(s, Enqueue(id), tz); var later := Step(queued, Tick(ms), tz);
            && id in queued.jobs && id !in queued.creating && later.now == s.now + ms
            && (w in Step(later, Start(w, id), tz).workers <==> DueAt(s.rows[id].order, tz) <= s.now + ms)
  {
    hide DueAt;
  }

  /** A periodic report is due at the end of the period that holds its reference date, a custom one at its end date. */
  lemma {:induction false} DueExactly(o: Order, tz: int)
    ensures o.period == CustomPeriod ==> DueAt(o, tz) == o.endDate
    ensures o.period != CustomPeriod ==>
              ReportRange(o.period, DueAt(o, tz) - 1, tz) == ReportRange(o.period, o.referenceDate, tz)
              && ReportRange(o.period, DueAt(o, tz), tz) != ReportRange(o.period, o.referenceDate, tz)
  {
    if o.period != CustomPeriod {
      RangesPartition(o.period, o.referenceDate, DueAt(o, tz), tz);
      RangesPartition(o.period, o.referenceDate, DueAt(o, tz) - 1, tz);
      hide ReportRange;
    }
  }
}
