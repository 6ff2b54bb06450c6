/** Any number of workers, cancellations, crashes and recovery-cron runs over one reports table. */
module ReportLifecycle {
  import opened Prelude
  import opened PeriodRange
  import opened ReportTable
  import opened ReportWorker

  /** ReportsCron's STALE_PROCESSING_THRESHOLD_MINUTES. */
  const STALE_MINUTES := 30

  datatype Worker = Worker(id: Id, pc: Pc)

  /** `jobs` holds the compute jobs in the queue and when each becomes available; `creating` the rows
      whose creator has not yet reached its queue.add. */
  datatype System = System(rows: Reports, jobs: map<Id, Time>, creating: set<Id>, workers: map<nat, Worker>, now: Time)

  datatype Label =
    | Tick(ms: nat)
    | Generate(id: Id, order: Order)
    | Enqueue(id: Id)
    | CreatorFails(id: Id)
    | Start(w: nat, id: Id)
    | Work(w: nat, a: Act)
    | Crash(w: nat)
    | JobRemoved(id: Id)
    | Cancel(id: Id)
    | Cron(asOf: Time)

  /** What generateReport may insert: recurring reports are periodic and open a series of their own. */
  ghost predicate FirstOrder(rows: Reports, o: Order) {
    if o.recurring then
      o.period != CustomPeriod && o.occurrence == Some(1) && o.seriesId.Some? &&
      forall r :: r in rows ==> rows[r].order.seriesId != o.seriesId
    else o.occurrence.None? && o.seriesId.None?
  }

  function Moved(workers: map<nat, Worker>, w: nat, pc: Pc): map<nat, Worker>
    requires w in workers
  {
    if pc.Done? then workers - {w} else workers[w := Worker(workers[w].id, pc)]
  }

  /** One step; a label that is not enabled changes nothing. */
  ghost function Step(s: System, l: Label, tz: int): System {
    match l
    case Tick(ms) => s.(now := s.now + ms)
    case Generate(id, o) =>
      if id !in s.rows && FirstOrder(s.rows, o)
      then s.(rows := Inserted(s.rows, id, o, s.now), creating := s.creating + {id}) else s
    case Enqueue(id) =>
      if id in s.creating && id in s.rows
      then s.(jobs := s.jobs[id := Max(s.now, DueAt(s.rows[id].order, tz))], creating := s.creating - {id}) else s
    case CreatorFails(id) => s.(creating := s.creating - {id})
    case Start(w, id) =>
      if w !in s.workers && id in s.jobs && s.jobs[id] <= s.now
      then s.(workers := s.workers[w := Worker(id, Started)]) else s
    case Work(w, a) =>
      if w in s.workers then
        var (rows, pc) := Advance(s.rows, s.workers[w].id, s.workers[w].pc, a, s.now);
        s.(rows := rows, creating := s.creating + (rows.Keys - s.rows.Keys),
           workers := Moved(s.workers, w, pc))
      else s
    case Crash(w) => s.(workers := s.workers - {w})
    case JobRemoved(id) => s.(jobs := s.jobs - {id})
    case Cancel(id) => s.(rows := SetStatusIfPending(s.rows, id, Cancelled, s.now))
    case Cron(asOf) => if asOf <= s.now then s.(rows := ResetStalled(s.rows, STALE_MINUTES, asOf, s.now)) else s
  }

  ghost predicate Init(s: System) {
    s.rows == map[] && s.jobs == map[] && s.creating == {} && s.workers == map[]
  }

  ghost predicate Run(ss: seq<System>, ls: seq<Label>, tz: int) {
    |ss| == |ls| + 1 && Init(ss[0]) && forall i :: 0 <= i < |ls| ==> ss[i + 1] == Step(ss[i], ls[i], tz)
  }

  /** At the instant the cron takes its threshold from, no live claim is older than it. */
  ghost predicate Timely(s: System, asOf: Time) {
    forall w :: w in s.workers && Claims(s.workers[w].pc) ==> asOf - s.workers[w].pc.claimedAt <= 30 * MINUTE
  }

  // ---- The invariant ----

  predicate WorkerOk(rows: Reports, now: Time, wk: Worker, tz: int) {
    wk.id in rows && DueAt(rows[wk.id].order, tz) <= now && !wk.pc.Done? &&
    (!wk.pc.Started? ==> wk.pc.report.order == rows[wk.id].order) &&
    (Claims(wk.pc) ==> rows[wk.id].status.Processing? && rows[wk.id].updatedAt == wk.pc.claimedAt <= now) &&
    (wk.pc.Computed? ==> DueAt(rows[wk.id].order, tz) <= wk.pc.deliveredAt <= now) &&
    (wk.pc.Delivered? ==> rows[wk.id].status.Ready? && rows[wk.id].dateDelivered == Some(wk.pc.deliveredAt)
                          && DueAt(rows[wk.id].order, tz) <= wk.pc.deliveredAt)
  }

  ghost predicate WorkersOk(s: System, tz: int) {
    forall w :: w in s.workers ==> WorkerOk(s.rows, s.now, s.workers[w], tz)
  }

  /** No report has two live claimants. */
  ghost predicate Exclusive(s: System) {
    forall v, w :: (v in s.workers && w in s.workers && Claims(s.workers[v].pc) && Claims(s.workers[w].pc)
                    && s.workers[v].id == s.workers[w].id) ==> v == w
  }

  ghost predicate JobsOk(s: System, tz: int) {
    forall id :: id in s.jobs ==> id in s.rows && DueAt(s.rows[id].order, tz) <= s.jobs[id]
  }

  predicate RowOk(r: Report) {
    (r.order.seriesId.Some? ==>
       r.order.period != CustomPeriod && r.order.recurring && r.order.occurrence.Some?
       && r.order.occurrence.value >= 1) &&
    (r.status.Ready? ==> r.dateDelivered.Some? && r.keyMetrics.Some?)
  }

  /** p is the delivered occurrence just before r's, and r is for the period p was delivered in. */
  predicate Precedes(rows: Reports, p: Id, r: Id, tz: int)
    requires p in rows && r in rows
  {
    var a, b := rows[p].order, rows[r].order;
    a.seriesId == b.seriesId && a.period == b.period && a.occurrence.Some?
    && b.occurrence == Some(a.occurrence.value + 1)
    && rows[p].status.Ready? && rows[p].dateDelivered == Some(b.referenceDate) && DueAt(a, tz) <= b.referenceDate
  }

  ghost predicate Preceded(rows: Reports, r: Id, tz: int)
    requires r in rows
  {
    rows[r].order.seriesId.Some? && rows[r].order.occurrence.Some? && rows[r].order.occurrence.value > 1 ==>
      exists p :: p in rows && Precedes(rows, p, r, tz)
  }

  ghost predicate RowsOk(rows: Reports, tz: int) {
    && (forall r :: r in rows ==> RowOk(rows[r]))
    && (forall r, q :: (r in rows && q in rows && rows[r].order.seriesId.Some?
                        && rows[r].order.seriesId == rows[q].order.seriesId
                        && rows[r].order.occurrence == rows[q].order.occurrence) ==> r == q)
    && (forall r :: r in rows ==> Preceded(rows, r, tz))
  }

  ghost predicate Inv(s: System, tz: int) {
    WorkersOk(s, tz) && Exclusive(s) && JobsOk(s, tz) && RowsOk(s.rows, tz)
  }

  /** Rows stay, their orders never change, and a terminal row is never written again. */
  ghost predicate Grows(rows: Reports, rows': Reports) {
    forall r :: r in rows ==>
      r in rows' && rows'[r].order == rows[r].order && (Terminal(rows[r].status) ==> rows'[r] == rows[r])
  }

  // ---- One step ----

  lemma {:induction false} RowsKept(rows: Reports, rows': Reports, tz: int)
    requires RowsOk(rows, tz) && Grows(rows, rows') && rows'.Keys == rows.Keys
    requires forall r :: r in rows' ==> RowOk(rows'[r])
    ensures RowsOk(rows', tz)
  {
    hide DueAt;
    forall r | r in rows' && rows'[r].order.seriesId.Some? && rows'[r].order.occurrence.value > 1
      ensures Preceded(rows', r, tz)
    {
      var p :| p in rows && Precedes(rows, p, r, tz);
      assert Precedes(rows', p, r, tz);
    }
  }

  /** Writing one row that is not terminal, keeping its order. */
  lemma {:induction false} OneRowWritten(s: System, id: Id, r: Report, tz: int)
    requires Inv(s, tz) && id in s.rows && !Terminal(s.rows[id].status)
    requires r.order == s.rows[id].order && RowOk(r)
    ensures var rows := s.rows[id := r]; Grows(s.rows, rows) && RowsOk(rows, tz) && JobsOk(s.(rows := rows), tz)
  {
    hide DueAt;
    RowsKept(s.rows, s.rows[id := r], tz);
  }

  lemma {:induction false} InsertedRowsOk(rows: Reports, id: Id, o: Order, now: Time, tz: int)
    requires RowsOk(rows, tz) && Insertable(rows, id, o) && RowOk(Report(o, Pending, now, None, None))
    requires o.seriesId.Some? && o.occurrence.value > 1 ==>
               exists p :: p in rows && Precedes(Inserted(rows, id, o, now), p, id, tz)
    ensures RowsOk(Inserted(rows, id, o, now), tz)
  {
    hide DueAt;
    var rows' := Inserted(rows, id, o, now);
    forall r | r in rows' ensures Preceded(rows', r, tz) {
      if r != id && rows'[r].order.seriesId.Some? && rows'[r].order.occurrence.value > 1 {
        assert Preceded(rows, r, tz);
        var p :| p in rows && Precedes(rows, p, r, tz);
        assert Precedes(rows', p, r, tz);
      }
    }
  }

  lemma {:induction false} RowInserted(s: System, id: Id, o: Order, now: Time, tz: int)
    requires Inv(s, tz) && Insertable(s.rows, id, o) && RowOk(Report(o, Pending, now, None, None))
    requires o.seriesId.Some? && o.occurrence.value > 1 ==>
               exists p :: p in s.rows && Precedes(Inserted(s.rows, id, o, now), p, id, tz)
    ensures var rows := Inserted(s.rows, id, o, now); Grows(s.rows, rows) && RowsOk(rows, tz)
                                                       && WorkersOk(s.(rows := rows), tz)
                                                       && JobsOk(s.(rows := rows), tz)
  {
    InsertedRowsOk(s.rows, id, o, now, tz);
    hide DueAt, RowsOk, RowOk, Precedes;
  }

  lemma {:induction false} GenerateKeeps(s: System, id: Id, o: Order, tz: int)
    requires Inv(s, tz)
    ensures var s' := Step(s, Generate(id, o), tz); Inv(s', tz) && Grows(s.rows, s'.rows)
  {
    hide DueAt;
    if id !in s.rows && FirstOrder(s.rows, o) {
      RowInserted(s, id, o, s.now, tz);
    }
  }

  lemma {:induction false} CancelKeeps(s: System, id: Id, tz: int)
    requires Inv(s, tz)
    ensures var s' := Step(s, Cancel(id), tz); Inv(s', tz) && Grows(s.rows, s'.rows)
  {
    hide DueAt, RowsOk, JobsOk;
    OrdersOk(s, tz);
    if id in s.rows && s.rows[id].status.Pending? {
      OneRowWritten(s, id, s.rows[id].(status := Cancelled, updatedAt := s.now), tz);
    }
  }

  lemma {:induction false} ResetsKeepRows(rows: Reports, asOf: Time, now: Time, tz: int)
    requires RowsOk(rows, tz)
    ensures var rows' := ResetStalled(rows, STALE_MINUTES, asOf, now); Grows(rows, rows') && RowsOk(rows', tz)
  {
    var rows' := ResetStalled(rows, STALE_MINUTES, asOf, now);
    hide DueAt, Preceded;
    assert forall r :: r in rows' ==> rows'[r].order == rows[r].order && RowOk(rows'[r]);
    hide RowOk;
    RowsKept(rows, rows', tz);
  }

  lemma {:induction false} CronRows(s: System, asOf: Time, tz: int)
    requires Inv(s, tz)
    ensures var s' := Step(s, Cron(asOf), tz); Grows(s.rows, s'.rows) && RowsOk(s'.rows, tz) && JobsOk(s', tz)
  {
    ResetsKeepRows(s.rows, asOf, s.now, tz);
    hide DueAt, RowsOk, ResetStalled;
  }

  /** A cron run respects the claims exactly when every live claim is within the threshold. */
  lemma {:induction false} CronKeepsExactly(s: System, asOf: Time, tz: int)
    requires Inv(s, tz) && asOf <= s.now
    ensures Inv(Step(s, Cron(asOf), tz), tz) <==> Timely(s, asOf)
  {
    hide DueAt, RowsOk, JobsOk;
    CronRows(s, asOf, tz);
    var s' := Step(s, Cron(asOf), tz);
    forall w | w in s.workers
      ensures WorkerOk(s'.rows, s'.now, s.workers[w], tz) <==>
                (Claims(s.workers[w].pc) ==> asOf - s.workers[w].pc.claimedAt <= 30 * MINUTE)
    {
      assert WorkerOk(s.rows, s.now, s.workers[w], tz);
    }
  }

  /** Worker w, the only possible claimant of its row, writes it and moves on. */
  lemma {:induction false} ClaimantWrites(s: System, w: nat, r: Report, pc: Pc, tz: int)
    requires Inv(s, tz) && w in s.workers && s.workers[w].id in s.rows && !Terminal(s.rows[s.workers[w].id].status)
    requires r.order == s.rows[s.workers[w].id].order && RowOk(r)
    requires Claims(s.workers[w].pc) || s.rows[s.workers[w].id].status.Pending?
    requires pc.Done? || WorkerOk(s.rows[s.workers[w].id := r], s.now, Worker(s.workers[w].id, pc), tz)
    ensures var rows := s.rows[s.workers[w].id := r];
            Grows(s.rows, rows) && Inv(s.(rows := rows, workers := Moved(s.workers, w, pc)), tz)
  {
    hide DueAt, RowsOk;
    OneRowWritten(s, s.workers[w].id, r, tz);
    var s' := s.(rows := s.rows[s.workers[w].id := r], workers := Moved(s.workers, w, pc));
    forall v | v in s'.workers ensures WorkerOk(s'.rows, s'.now, s'.workers[v], tz) {
      if v != w { assert WorkerOk(s.rows, s.now, s.workers[v], tz); }
    }
  }

  /** Worker w moves on without a write. */
  lemma {:induction false} WorkerMoves(s: System, w: nat, pc: Pc, tz: int)
    requires Inv(s, tz) && w in s.workers
    requires pc.Done? || WorkerOk(s.rows, s.now, Worker(s.workers[w].id, pc), tz)
    requires Claims(pc) ==> Claims(s.workers[w].pc)
    ensures Inv(s.(workers := Moved(s.workers, w, pc)), tz)
  {
    hide DueAt, RowsOk, WorkerOk;
  }

  lemma {:induction false} ChainKeeps(s: System, w: nat, newId: Id, tz: int)
    requires Inv(s, tz) && w in s.workers && s.workers[w].pc.Delivered?
    requires var p := s.workers[w].pc;
             Chains(p.report.order) && Insertable(s.rows, newId, NextOrder(p.report.order, p.deliveredAt))
    ensures var p := s.workers[w].pc;
            var rows := Inserted(s.rows, newId, NextOrder(p.report.order, p.deliveredAt), s.now);
            Grows(s.rows, rows) && Inv(s.(rows := rows), tz)
  {
    hide DueAt, RowsOk;
    var p := s.workers[w].pc;
    var o := NextOrder(p.report.order, p.deliveredAt);
    assert WorkerOk(s.rows, s.now, s.workers[w], tz);
    assert RowOk(s.rows[s.workers[w].id]) && s.rows[s.workers[w].id].order == p.report.order by { OrdersOk(s, tz); }
    assert Precedes(Inserted(s.rows, newId, o, s.now), s.workers[w].id, newId, tz);
    RowInserted(s, newId, o, s.now, tz);
  }

  lemma {:induction false} OrdersOk(s: System, tz: int)
    requires Inv(s, tz)
    ensures forall r :: r in s.rows ==> RowOk(s.rows[r])
  {
  }

  /** A worker's write to its own report. */
  lemma {:induction false} WriteKeeps(s: System, w: nat, a: Act, tz: int)
    requires Inv(s, tz) && w in s.workers
    requires var pc := s.workers[w].pc; pc.Seen? || pc.Computed? || pc.Failing?
    ensures var (rows, pc) := Advance(s.rows, s.workers[w].id, s.workers[w].pc, a, s.now);
            Grows(s.rows, rows) && Inv(s.(rows := rows, workers := Moved(s.workers, w, pc)), tz)
  {
    hide DueAt, RowsOk, JobsOk, Exclusive, Insertable;
    OrdersOk(s, tz);
    var wk := s.workers[w];
    var r := s.rows[wk.id];
    var (rows, pc) := Advance(s.rows, wk.id, wk.pc, a, s.now);
    assert WorkerOk(s.rows, s.now, wk, tz);
    if wk.pc.Seen? && pc.Computing? {
      ClaimantWrites(s, w, r.(status := Processing, updatedAt := s.now), pc, tz);
    } else if wk.pc.Computed? && pc.Delivered? {
      ClaimantWrites(s, w, Report(r.order, Ready, s.now, Some(wk.pc.metrics), Some(wk.pc.deliveredAt)), pc, tz);
    } else if wk.pc.Failing? && a.WriteFailure? && a.ok {
      var r' := if a.last then r.(keyMetrics := wk.pc.report.keyMetrics, status := Failed, updatedAt := s.now)
                else r.(status := Pending, updatedAt := s.now);
      ClaimantWrites(s, w, r', pc, tz);
    } else {
      WorkerMoves(s, w, pc, tz);
    }
  }

  /** Its other segments: reading, computing, chaining a successor. */
  lemma {:induction false} OtherSegmentKeeps(s: System, w: nat, a: Act, tz: int)
    requires Inv(s, tz) && w in s.workers
    requires var pc := s.workers[w].pc; !pc.Seen? && !pc.Computed? && !pc.Failing?
    ensures var (rows, pc) := Advance(s.rows, s.workers[w].id, s.workers[w].pc, a, s.now);
            Grows(s.rows, rows) && Inv(s.(rows := rows, workers := Moved(s.workers, w, pc)), tz)
  {
    hide DueAt, RowsOk, JobsOk, Exclusive, Insertable;
    var wk := s.workers[w];
    var (rows, pc) := Advance(s.rows, wk.id, wk.pc, a, s.now);
    assert WorkerOk(s.rows, s.now, wk, tz);
    if wk.pc.Delivered? && rows != s.rows {
      ChainKeeps(s, w, a.newId, tz);
      WorkerMoves(s.(rows := rows), w, pc, tz);
    } else {
      WorkerMoves(s, w, pc, tz);
    }
  }

  lemma {:induction false} WorkKeeps(s: System, w: nat, a: Act, tz: int)
    requires Inv(s, tz)
    ensures var s' := Step(s, Work(w, a), tz); Inv(s', tz) && Grows(s.rows, s'.rows)
  {
    hide DueAt, Inv, Advance, Grows;
    if w in s.workers {
      var pc := s.workers[w].pc;
      if pc.Seen? || pc.Computed? || pc.Failing? { WriteKeeps(s, w, a, tz); } else { OtherSegmentKeeps(s, w, a, tz); }
      var (rows, pc') := Advance(s.rows, s.workers[w].id, pc, a, s.now);
      InvIgnoresCreating(s.(rows := rows, workers := Moved(s.workers, w, pc')), Step(s, Work(w, a), tz).creating, tz);
    } else {
      NothingGrows(s.rows);
    }
  }

  lemma {:induction false} NothingGrows(rows: Reports)
    ensures Grows(rows, rows)
  {
  }

  lemma {:induction false} InvIgnoresCreating(s: System, c: set<Id>, tz: int)
    requires Inv(s, tz)
    ensures Inv(s.(creating := c), tz)
  {
    hide DueAt, RowsOk, WorkerOk;
  }

  /** Everything but an untimely cron run keeps the invariant. */
  lemma {:induction false} StepKeeps(s: System, l: Label, tz: int)
    requires Inv(s, tz) && (l.Cron? && l.asOf <= s.now ==> Timely(s, l.asOf))
    ensures Inv(Step(s, l, tz), tz) && Grows(s.rows, Step(s, l, tz).rows)
  {
    hide DueAt, Inv;
    match l
    case Generate(id, o) => GenerateKeeps(s, id, o, tz);
    case Work(w, a) => WorkKeeps(s, w, a, tz);
    case Cancel(id) => CancelKeeps(s, id, tz);
    case Cron(asOf) => if asOf <= s.now { CronKeepsExactly(s, asOf, tz); CronRows(s, asOf, tz); }
    case _ => OtherKeeps(s, l, tz);
  }

  lemma {:induction false} OtherKeeps(s: System, l: Label, tz: int)
    requires Inv(s, tz) && !l.Generate? && !l.Work? && !l.Cancel? && !l.Cron?
    ensures Inv(Step(s, l, tz), tz) && Grows(s.rows, Step(s, l, tz).rows)
  {
    hide DueAt, RowsOk;
  }

  // ---- Whole runs ----

  /** Whenever the cron runs, every live claim is within its threshold. */
  ghost predicate CronTimely(ss: seq<System>, ls: seq<Label>) {
    |ls| < |ss| && forall i :: 0 <= i < |ls| && ls[i].Cron? && ls[i].asOf <= ss[i].now ==> Timely(ss[i], ls[i].asOf)
  }

  ghost predicate TimelyRun(ss: seq<System>, ls: seq<Label>, tz: int) {
    Run(ss, ls, tz) && CronTimely(ss, ls)
  }

  lemma {:induction false} RunKeeps(ss: seq<System>, ls: seq<Label>, tz: int, j: nat)
    requires TimelyRun(ss, ls, tz) && j < |ss|
    ensures Inv(ss[j], tz)
  {
    hide Step;
    if j == 0 {
    } else {
      RunKeeps(ss, ls, tz, j - 1);
      StepKeeps(ss[j - 1], ls[j - 1], tz);
    }
  }

  /** The invariant holds in every state of a run exactly when every cron run in it finds the live claims
      within its threshold. */
  lemma {:induction false} RunKeepsExactly(ss: seq<System>, ls: seq<Label>, tz: int)
    requires Run(ss, ls, tz)
    ensures (forall j :: 0 <= j < |ss| ==> Inv(ss[j], tz)) <==> CronTimely(ss, ls)
  {
    hide Step, Inv, Timely;
    if CronTimely(ss, ls) {
      forall j | 0 <= j < |ss| ensures Inv(ss[j], tz) { RunKeeps(ss, ls, tz, j); }
    }
    if forall j :: 0 <= j < |ss| ==> Inv(ss[j], tz) {
      forall i | 0 <= i < |ls| && ls[i].Cron? && ls[i].asOf <= ss[i].now ensures Timely(ss[i], ls[i].asOf) {
        assert Inv(ss[i], tz) && Inv(ss[i + 1], tz) && ss[i + 1] == Step(ss[i], ls[i], tz);
        CronKeepsExactly(ss[i], ls[i].asOf, tz);
      }
    }
  }

  /** READY, FAILED and CANCELLED are never left; indeed such a row is never written again. */
  lemma {:induction false} TerminalForever(ss: seq<System>, ls: seq<Label>, tz: int, i: nat, j: nat)
    requires TimelyRun(ss, ls, tz) && i <= j < |ss|
    ensures Grows(ss[i].rows, ss[j].rows)
    decreases j - i
  {
    hide Step;
    if i < j {
      TerminalForever(ss, ls, tz, i, j - 1);
      RunKeeps(ss, ls, tz, j - 1);
      StepKeeps(ss[j - 1], ls[j - 1], tz);
    }
  }

  /** Step i takes report id out of PENDING. */
  ghost predicate Wins(ss: seq<System>, i: nat, id: Id) {
    i + 1 < |ss| && id in ss[i].rows && ss[i].rows[id].status.Pending?
    && id in ss[i + 1].rows && !ss[i + 1].rows[id].status.Pending?
  }

  /** Only a worker's claim or a user's cancellation takes a report out of PENDING. */
  lemma {:induction false} WinnerKinds(s: System, l: Label, tz: int, id: Id)
    requires id in s.rows && s.rows[id].status.Pending? && WorkersOk(s, tz)
    requires var s' := Step(s, l, tz); id in s'.rows && !s'.rows[id].status.Pending?
    ensures l == Cancel(id)
            || (l.Work? && l.a == Claim && l.w in s.workers && s.workers[l.w].id == id
                && l.w in Step(s, l, tz).workers && Claims(Step(s, l, tz).workers[l.w].pc))
  {
    hide DueAt;
    if l.Work? && l.w in s.workers {
      assert WorkerOk(s.rows, s.now, s.workers[l.w], tz);
    }
  }

  /** Each PENDING epoch has one winner: when the report is won again, the earlier winner was a worker
      and nobody holds a claim on the report any more. */
  lemma {:induction false} OneWinnerPerEpoch(ss: seq<System>, ls: seq<Label>, tz: int, i: nat, j: nat, id: Id)
    requires TimelyRun(ss, ls, tz) && i < j < |ls| && Wins(ss, i, id) && Wins(ss, j, id)
    ensures ls[i].Work? && ls[i].a == Claim
    ensures forall w :: w in ss[j].workers && ss[j].workers[w].id == id ==> !Claims(ss[j].workers[w].pc)
  {
    hide Step, DueAt;
    RunKeeps(ss, ls, tz, i);
    RunKeeps(ss, ls, tz, j);
    WinnerKinds(ss[i], ls[i], tz, id);
    TerminalForever(ss, ls, tz, i + 1, j);
    if ls[i] == Cancel(id) {
      CancelCancels(ss[i], id, tz);
    }
    forall w | w in ss[j].workers && ss[j].workers[w].id == id
      ensures !Claims(ss[j].workers[w].pc)
    {
      assert WorkerOk(ss[j].rows, ss[j].now, ss[j].workers[w], tz);
    }
  }

  lemma {:induction false} CancelCancels(s: System, id: Id, tz: int)
    requires id in s.rows && s.rows[id].status.Pending?
    ensures Step(s, Cancel(id), tz).rows[id].status.Cancelled?
  {
  }

  /** Worker w holds report id, which is PROCESSING. */
  ghost predicate Holds(s: System, w: nat, id: Id) {
    w in s.workers && Claims(s.workers[w].pc) && s.workers[w].id == id && id in s.rows && s.rows[id].status.Processing?
  }

  lemma {:induction false} ClaimBegins(s: System, l: Label, tz: int, w: nat, id: Id)
    requires Inv(s, tz) && Holds(Step(s, l, tz), w, id)
    ensures Holds(s, w, id) || (l == Work(w, Claim) && id in s.rows && s.rows[id].status.Pending?)
  {
    hide DueAt, RowsOk, JobsOk, Exclusive;
    if w in s.workers { assert WorkerOk(s.rows, s.now, s.workers[w], tz); }
  }

  /** A live claim is the current epoch's: its worker won the report, and the report has been PROCESSING
      in that worker's hands ever since. */
  lemma {:induction false} ClaimIsCurrent(ss: seq<System>, ls: seq<Label>, tz: int, j: nat, w: nat, id: Id)
    returns (i: nat)
    requires TimelyRun(ss, ls, tz) && j < |ss| && w in ss[j].workers && Claims(ss[j].workers[w].pc)
             && ss[j].workers[w].id == id
    ensures i < j && Wins(ss, i, id) && ls[i] == Work(w, Claim)
    ensures forall k :: i < k <= j ==> Holds(ss[k], w, id)
  {
    hide DueAt, Step, RowsOk, JobsOk, Exclusive, CronTimely;
    RunKeeps(ss, ls, tz, j);
    assert WorkerOk(ss[j].rows, ss[j].now, ss[j].workers[w], tz);
    RunKeeps(ss, ls, tz, j - 1);
    ClaimBegins(ss[j - 1], ls[j - 1], tz, w, id);
    if Holds(ss[j - 1], w, id) {
      i := ClaimIsCurrent(ss, ls, tz, j - 1, w, id);
    } else {
      i := j - 1;
    }
  }

  // ---- A witness run ----

  lemma {:induction false} Extended(ss: seq<System>, ls: seq<Label>, l: Label, s: System, tz: int)
    requires Run(ss, ls, tz) && s == Step(ss[|ls|], l, tz)
    ensures Run(ss + [s], ls + [l], tz)
  {
    hide Step;
    forall i | 0 <= i < |ls| + 1 ensures (ss + [s])[i + 1] == Step((ss + [s])[i], (ls + [l])[i], tz) {
      if i < |ls| { assert ss[i + 1] == Step(ss[i], ls[i], tz); }
    }
  }

  /** The only report is generated and its job started. */
  lemma SlowWorkerStarts() returns (ss: seq<System>, ls: seq<Label>)
    ensures Run(ss, ls, 0) && |ls| == 3 && forall i :: 0 <= i < 3 ==> !ls[i].Cron?
    ensures ss[3] == System(map[0 := SlowReport(Pending, 0)], map[0 := 0], {}, map[0 := Worker(0, Started)], 0)
  {
    hide ReportRange;
    var r := SlowReport(Pending, 0);
    var s := System(map[], map[], {}, map[], 0);
    ss, ls := [s], [];
    var l := Generate(0, r.order);
    s := System(map[0 := r], map[], {0}, map[], 0);
    Extended(ss, ls, l, s, 0);
    ss, ls, l := ss + [s], ls + [l], Enqueue(0);
    s := s.(jobs := map[0 := 0], creating := {});
    Extended(ss, ls, l, s, 0);
    ss, ls, l := ss + [s], ls + [l], Start(0, 0);
    s := s.(workers := map[0 := Worker(0, Started)]);
    Extended(ss, ls, l, s, 0);
    ss, ls := ss + [s], ls + [l];
  }

  /** Its worker claims it and stays at its computation beyond the threshold. */
  lemma SlowWorkerClaims() returns (ss: seq<System>, ls: seq<Label>)
    ensures Run(ss, ls, 0) && |ls| == 6 && ss[6].workers == map[0 := Worker(0, Computing(SlowReport(Pending, 0), 0))]
    ensures ss[6].rows == map[0 := SlowReport(Processing, 0)] && ss[6].now > STALE_MINUTES * MINUTE
  {
    hide ReportRange;
    ss, ls := SlowWorkerStarts();
    var r, s := SlowReport(Pending, 0), ss[3];
    var l := Work(0, ReadRow);
    s := s.(workers := map[0 := Worker(0, Seen(r))]);
    Extended(ss, ls, l, s, 0);
    ss, ls, l := ss + [s], ls + [l], Work(0, Claim);
    s := s.(rows := map[0 := SlowReport(Processing, 0)], workers := map[0 := Worker(0, Computing(r, 0))]);
    Extended(ss, ls, l, s, 0);
    ss, ls, l := ss + [s], ls + [l], Tick(STALE_MINUTES * MINUTE + 1);
    s := s.(now := STALE_MINUTES * MINUTE + 1);
    Extended(ss, ls, l, s, 0);
    ss, ls := ss + [s], ls + [l];
  }

  function SlowReport(status: Status, updatedAt: Time): Report {
    Report(Order(CustomPeriod, 0, 0, false, None, None), status, updatedAt, None, None)
  }

  /** Without the bound on claims a cancelled report can become READY: a worker slower than the threshold
      is reset by the cron, the user cancels, and the worker's unconditional write then lands. */
  lemma SlowWorkerOverwritesCancel() returns (ss: seq<System>, ls: seq<Label>, i: nat, j: nat)
    ensures Run(ss, ls, 0) && i < j < |ss| && 0 in ss[i].rows && 0 in ss[j].rows
    ensures ss[i].rows[0].status.Cancelled? && ss[j].rows[0].status.Ready?
  {
    ss, ls := SlowWorkerClaims();
    var s0 := ss[6];
    var s1 := s0.(rows := map[0 := SlowReport(Pending, s0.now)]);
    Extended(ss, ls, Cron(s0.now), s1, 0);
    ss, ls := ss + [s1], ls + [Cron(s0.now)];
    var s2 := s0.(rows := map[0 := SlowReport(Cancelled, s0.now)]);
    Extended(ss, ls, Cancel(0), s2, 0);
    ss, ls := ss + [s2], ls + [Cancel(0)];
    var s3 := Step(s2, Work(0, ComputeOk(0)), 0);
    Extended(ss, ls, Work(0, ComputeOk(0)), s3, 0);
    ss, ls := ss + [s3], ls + [Work(0, ComputeOk(0))];
    var s4 := Step(s3, Work(0, WriteReady(true)), 0);
    Extended(ss, ls, Work(0, WriteReady(true)), s4, 0);
    ss, ls := ss + [s4], ls + [Work(0, WriteReady(true))];
    i, j := 8, 10;
  }
}
