/** The reports table and the four statements report.action.ts runs on it. */
module ReportTable {
  import opened Prelude
  import opened PeriodRange

  type Id = nat

  datatype Status = Pending | Processing | Ready | Failed | Cancelled

  predicate Terminal(s: Status) { s.Ready? || s.Failed? || s.Cancelled? }

  /** The columns fixed when a report is created. */
  datatype Order = Order(period: ReportPeriod, referenceDate: Time, endDate: Time, recurring: bool,
                         seriesId: Option<nat>, occurrence: Option<int>)

  datatype Report = Report(order: Order, status: Status, updatedAt: Time,
                           keyMetrics: Option<nat>, dateDelivered: Option<Time>)

  type Reports = map<Id, Report>

  /** When a report's compute job becomes available (computeReportDelay). */
  function DueAt(o: Order, tz: int): Time {
    if o.period == CustomPeriod then o.endDate else ReportRange(o.period, o.referenceDate, tz).end
  }

  function SetStatus(rows: Reports, id: Id, status: Status, now: Time): Reports {
    if id in rows then rows[id := rows[id].(status := status, updatedAt := now)] else rows
  }

  function SetStatusIfPending(rows: Reports, id: Id, status: Status, now: Time): Reports {
    if id in rows && rows[id].status.Pending? then SetStatus(rows, id, status, now) else rows
  }

  function WriteBack(rows: Reports, id: Id, metrics: Option<nat>, status: Status, delivered: Option<Time>,
                     now: Time): Reports {
    if id !in rows then rows
    else rows[id := rows[id].(keyMetrics := metrics, status := status, updatedAt := now,
                              dateDelivered := if delivered.Some? then delivered else rows[id].dateDelivered)]
  }

  predicate Stalled(r: Report, olderThanMinutes: int, now: Time) {
    r.status.Processing? && r.updatedAt < now - olderThanMinutes * MINUTE
  }

  function Reset(r: Report, olderThanMinutes: int, asOf: Time, now: Time): Report {
    if Stalled(r, olderThanMinutes, asOf) then r.(status := Pending, updatedAt := now) else r
  }

  /** The service takes the threshold from its clock at `asOf`; the statement runs at `now`. */
  function ResetStalled(rows: Reports, olderThanMinutes: int, asOf: Time, now: Time): Reports {
    map id | id in rows :: Reset(rows[id], olderThanMinutes, asOf, now)
  }

  /** The unique constraint on (seriesId, occurrence); rows with a null in either never clash. */
  predicate Insertable(rows: Reports, id: Id, o: Order) {
    id !in rows &&
    (o.seriesId.Some? && o.occurrence.Some? ==>
       forall r :: r in rows ==> rows[r].order.seriesId != o.seriesId || rows[r].order.occurrence != o.occurrence)
  }

  function Inserted(rows: Reports, id: Id, o: Order, now: Time): Reports {
    rows[id := Report(o, Pending, now, None, None)]
  }

  class ReportModelAction {
    var rows: Reports

    constructor ()
      ensures rows == map[]
    {
      rows := map[];
    }

    method Create(id: Id, o: Order, now: Time) returns (created: bool)
      modifies this
      ensures created == Insertable(old(rows), id, o)
      ensures rows == if created then Inserted(old(rows), id, o, now) else old(rows)
    {
      created := Insertable(rows, id, o);
      if created {
        rows := rows[id := Report(o, Pending, now, None, None)];
      }
    }

    method FindById(id: Id) returns (r: Option<Report>)
      ensures r == if id in rows then Some(rows[id]) else None
    {
      if id in rows { r := Some(rows[id]); } else { r := None; }
    }

    method UpdateReport(id: Id, metrics: Option<nat>, status: Status, delivered: Option<Time>, now: Time)
      modifies this
      ensures rows == WriteBack(old(rows), id, metrics, status, delivered, now)
    {
      if id in rows {
        var r := rows[id].(keyMetrics := metrics, status := status, updatedAt := now);
        if delivered.Some? { r := r.(dateDelivered := delivered); }
        rows := rows[id := r];
      }
    }

    method UpdateReportStatusUnconditional(id: Id, status: Status, now: Time)
      modifies this
      ensures rows == SetStatus(old(rows), id, status, now)
    {
      if id in rows { rows := rows[id := rows[id].(status := status, updatedAt := now)]; }
    }

    /** Only moves a report out of PENDING; the caller learns whether it was the one that did. */
    method UpdateReportStatus(id: Id, status: Status, now: Time) returns (r: Option<Report>)
      modifies this
      ensures rows == SetStatusIfPending(old(rows), id, status, now)
      ensures r.Some? <==> id in old(rows) && old(rows)[id].status.Pending?
      ensures r.Some? ==> r.value == rows[id]
    {
      if id !in rows || rows[id].status != Pending { return None; }
      UpdateReportStatusUnconditional(id, status, now);
      r := Some(rows[id]);
    }

    /** The UPDATE visits every row: those PROCESSING since before the threshold go back to PENDING, the
        others stay as they are, and the caller learns how many went. */
    method ResetStalledProcessingReports(olderThanMinutes: int, asOf: Time, now: Time) returns (affected: nat)
      modifies this
      ensures rows.Keys == old(rows.Keys)
      ensures forall id :: (id in old(rows) && old(rows)[id].status.Processing?
                            && old(rows)[id].updatedAt < asOf - olderThanMinutes * MINUTE) ==>
                rows[id] == old(rows)[id].(status := Pending, updatedAt := now)
      ensures forall id :: (id in old(rows)
                            && !(old(rows)[id].status.Processing?
                                 && old(rows)[id].updatedAt < asOf - olderThanMinutes * MINUTE)) ==>
                rows[id] == old(rows)[id]
      ensures rows == ResetStalled(old(rows), olderThanMinutes, asOf, now)
      ensures affected == |set id | id in old(rows) && Stalled(old(rows)[id], olderThanMinutes, asOf)|
    {
      var threshold := asOf - olderThanMinutes * 60 * 1000;
      var before := rows;
      var todo := rows.Keys;
      affected := 0;
      ghost var reset: set<Id> := {};
      while todo != {}
        invariant todo <= rows.Keys == before.Keys
        invariant forall id :: id in before ==>
                    rows[id] == if id in todo then before[id] else Reset(before[id], olderThanMinutes, asOf, now)
        invariant affected == |reset| && reset !! todo
        invariant forall id :: id in reset <==>
                    id in before && id !in todo && Stalled(before[id], olderThanMinutes, asOf)
      {
        var id :| id in todo;
        todo := todo - {id};
        if rows[id].status == Processing && rows[id].updatedAt < threshold {
          rows := rows[id := rows[id].(status := Pending, updatedAt := now)];
          affected := affected + 1;
          reset := reset + {id};
        }
      }
      assert reset == set id | id in before && Stalled(before[id], olderThanMinutes, asOf);
    }
  }
}
