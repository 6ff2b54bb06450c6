/** handleComputeReport cut at its awaits: what one worker does between two of them. */
module ReportWorker {
  import opened Prelude
  import opened PeriodRange
  import opened ReportTable

  /** Where a worker stands. It holds a claim from its successful compare-and-set to its write-back. */
  datatype Pc =
    | Started
    | Seen(report: Report)
    | Computing(report: Report, claimedAt: Time)
    | Computed(report: Report, claimedAt: Time, metrics: nat, deliveredAt: Time)
    | Delivered(report: Report, deliveredAt: Time)
    | Failing(report: Report, claimedAt: Time)
    | Done(threw: bool)

  /** The next segment, with whatever the code does not decide: the outcome of the computation, whether
      a statement raises before it takes effect, and whether BullMQ says this is the last attempt. */
  datatype Act =
    | ReadRow
    | Claim
    | ComputeOk(m: nat)
    | ComputeFail
    | WriteReady(ok: bool)
    | Chain(newId: Id, ok: bool)
    | WriteFailure(last: bool, ok: bool)

  predicate Claims(pc: Pc) { pc.Computing? || pc.Computed? || pc.Failing? }

  predicate Chains(o: Order) {
    o.period != CustomPeriod && o.recurring && o.seriesId.Some? && o.occurrence.Some?
  }

  function NextOrder(o: Order, deliveredAt: Time): Order
    requires Chains(o)
  {
    o.(referenceDate := deliveredAt, occurrence := Some(o.occurrence.value + 1))
  }

  function Advance(rows: Reports, id: Id, pc: Pc, a: Act, now: Time): (Reports, Pc) {
    match (pc, a)
    case (Started, ReadRow) =>
      (rows, if id in rows && rows[id].status.Pending? then Seen(rows[id]) else Done(true))
    case (Seen(report), Claim) =>
      (SetStatusIfPending(rows, id, Processing, now),
       if id in rows && rows[id].status.Pending? then Computing(report, now) else Done(false))
    case (Computing(report, at), ComputeOk(m)) => (rows, Computed(report, at, m, now))
    case (Computing(report, at), ComputeFail) => (rows, Failing(report, at))
    case (Computed(report, at, m, delivered), WriteReady(ok)) =>
      if ok then (WriteBack(rows, id, Some(m), Ready, Some(delivered), now), Delivered(report, delivered))
      else (rows, Failing(report, at))
    case (Delivered(report, delivered), Chain(newId, ok)) =>
      if ok && Chains(report.order) && Insertable(rows, newId, NextOrder(report.order, delivered))
      then (Inserted(rows, newId, NextOrder(report.order, delivered), now), Done(false))
      else (rows, Done(false))
    case (Failing(report, _), WriteFailure(last, ok)) =>
      (if !ok then rows
       else if last then WriteBack(rows, id, report.keyMetrics, Failed, None, now)
       else SetStatus(rows, id, Pending, now), Done(true))
    case _ => (rows, pc)
  }

  class ComputeWorker {
    const id: Id
    var pc: Pc

    constructor (id: Id)
      ensures this.id == id && pc == Started
    {
      this.id := id;
      pc := Started;
    }

    /** Runs one segment against the table. */
    method Step(table: ReportModelAction, a: Act, now: Time)
      modifies this`pc, table
      ensures (table.rows, pc) == old(Advance(table.rows, id, pc, a, now))
    {
      match (pc, a)
      case (Started, ReadRow) =>
        var report := table.FindById(id);
        if report.None? || report.value.status != Pending { pc := Done(true); }
        else { pc := Seen(report.value); }
      case (Seen(report), Claim) =>
        var updated := table.UpdateReportStatus(id, Processing, now);
        if updated.None? { pc := Done(false); } else { pc := Computing(report, now); }
      case (Computing(report, at), ComputeOk(m)) =>
        pc := Computed(report, at, m, now);
      case (Computing(report, at), ComputeFail) =>
        pc := Failing(report, at);
      case (Computed(report, at, m, delivered), WriteReady(ok)) =>
        if ok {
          table.UpdateReport(id, Some(m), Ready, Some(delivered), now);
          pc := Delivered(report, delivered);
        } else {
          pc := Failing(report, at);
        }
      case (Delivered(report, delivered), Chain(newId, ok)) =>
        if ok && Chains(report.order) {
          var _ := table.Create(newId, NextOrder(report.order, delivered), now);
        }
        pc := Done(false);
      case (Failing(report, _), WriteFailure(last, ok)) =>
        if ok && last {
          table.UpdateReport(id, report.keyMetrics, Failed, None, now);
        } else if ok {
          table.UpdateReportStatusUnconditional(id, Pending, now);
        }
        pc := Done(true);
      case _ =>
    }
  }
}
