/** Recurring series: numbering and periods in every run, and which occurrences are READY. */
module ReportSeries {
  import opened Prelude
  import opened PeriodRange
  import opened ReportTable
  import opened ReportWorker
  import opened ReportLifecycle

  // ---- What every run keeps, however late the cron finds a worker ----

  predicate OrderOk(o: Order) {
    o.seriesId.Some? ==> o.period != CustomPeriod && o.recurring && o.occurrence.Some? && o.occurrence.value >= 1
  }

  /** b is the occurrence after a, and its reference date comes no earlier than a's report was due. */
  predicate Succeeds(a: Order, b: Order, tz: int) {
    a.seriesId == b.seriesId && a.period == b.period && a.occurrence.Some?
    && b.occurrence == Some(a.occurrence.value + 1)
    && DueAt(a, tz) <= b.referenceDate
  }

  ghost predicate HasPrevious(rows: Reports, r: Id, tz: int)
    requires r in rows
  {
    rows[r].order.seriesId.Some? && rows[r].order.occurrence.Some? && rows[r].order.occurrence.value > 1 ==>
      exists p :: p in rows && Succeeds(rows[p].order, rows[r].order, tz)
  }

  ghost predicate Unique(rows: Reports) {
    forall r, q ::
      (r in rows && q in rows && rows[r].order.seriesId.Some? && rows[r].order.seriesId == rows[q].order.seriesId
                    && rows[r].order.occurrence == rows[q].order.occurrence) ==> r == q
  }

  ghost predicate Numbered(rows: Reports, tz: int) {
    (forall r :: r in rows ==> OrderOk(rows[r].order) && HasPrevious(rows, r, tz)) && Unique(rows)
  }

  predicate WorkerDue(rows: Reports, now: Time, wk: Worker, tz: int) {
    wk.id in rows && !wk.pc.Done? && DueAt(rows[wk.id].order, tz) <= now
    && (!wk.pc.Started? ==> wk.pc.report.order == rows[wk.id].order)
    && (wk.pc.Computed? || wk.pc.Delivered? ==> DueAt(rows[wk.id].order, tz) <= wk.pc.deliveredAt)
  }

  ghost predicate AllDue(s: System, tz: int) {
    JobsOk(s, tz) && forall w :: w in s.workers ==> WorkerDue(s.rows, s.now, s.workers[w], tz)
  }

  ghost predicate AnyInv(s: System, tz: int) { AllDue(s, tz) && Numbered(s.rows, tz) }

  /** Every row stays and keeps its order. */
  ghost predicate OrdersStay(rows: Reports, rows': Reports) {
    forall r :: r in rows ==> r in rows' && rows'[r].order == rows[r].order
  }

  lemma {:induction false} SameOrders(rows: Reports, rows': Reports, tz: int)
    requires Numbered(rows, tz) && OrdersStay(rows, rows') && rows'.Keys == rows.Keys
    ensures Numbered(rows', tz)
  {
    hide DueAt, Succeeds;
    forall r | r in rows' ensures HasPrevious(rows', r, tz) {
      assert HasPrevious(rows, r, tz);
      if rows[r].order.seriesId.Some? && rows[r].order.occurrence.Some? && rows[r].order.occurrence.value > 1 {
        var p :| p in rows && Succeeds(rows[p].order, rows[r].order, tz);
        assert p in rows' && Succeeds(rows'[p].order, rows'[r].order, tz);
      }
    }
  }

  lemma {:induction false} OneMore(rows: Reports, id: Id, o: Order, now: Time, tz: int)
    requires Numbered(rows, tz) && Insertable(rows, id, o) && OrderOk(o)
    requires o.seriesId.Some? && o.occurrence.value > 1 ==> exists p :: p in rows && Succeeds(rows[p].order, o, tz)
    ensures Numbered(Inserted(rows, id, o, now), tz) && OrdersStay(rows, Inserted(rows, id, o, now))
  {
    hide DueAt, Succeeds;
    var rows' := Inserted(rows, id, o, now);
    forall r | r in rows' ensures HasPrevious(rows', r, tz) {
      if rows'[r].order.seriesId.Some? && rows'[r].order.occurrence.Some? && rows'[r].order.occurrence.value > 1 {
        if r != id { assert HasPrevious(rows, r, tz); }
        var p :| p in rows && Succeeds(rows[p].order, rows'[r].order, tz);
        assert p in rows' && rows'[p].order == rows[p].order;
      }
    }
  }

  /** A worker's segment either keeps the rows and their orders or inserts the next occurrence. */
  lemma {:induction false} AdvanceOrders(s: System, w: nat, a: Act, tz: int)
    requires AnyInv(s, tz) && w in s.workers
    ensures var (rows, pc) := Advance(s.rows, s.workers[w].id, s.workers[w].pc, a, s.now);
            Numbered(rows, tz) && OrdersStay(s.rows, rows)
  {
    hide DueAt, Numbered, AllDue;
    var wk := s.workers[w];
    var (rows, pc) := Advance(s.rows, wk.id, wk.pc, a, s.now);
    if wk.pc.Delivered? && rows != s.rows {
      var o := NextOrder(wk.pc.report.order, wk.pc.deliveredAt);
      assert WorkerDue(s.rows, s.now, wk, tz) && OrderOk(s.rows[wk.id].order) by { AnyFacts(s, w, tz); }
      assert Succeeds(s.rows[wk.id].order, o, tz);
      OneMore(s.rows, a.newId, o, s.now, tz);
    } else {
      assert rows.Keys == s.rows.Keys && OrdersStay(s.rows, rows);
      SameOrders(s.rows, rows, tz);
    }
  }

  lemma {:induction false} AnyFacts(s: System, w: nat, tz: int)
    requires AnyInv(s, tz) && w in s.workers
    ensures WorkerDue(s.rows, s.now, s.workers[w], tz) && OrderOk(s.rows[s.workers[w].id].order)
  {
  }

  lemma {:induction false} OrdersStep(s: System, l: Label, tz: int)
    requires AnyInv(s, tz)
    ensures Numbered(Step(s, l, tz).rows, tz) && OrdersStay(s.rows, Step(s, l, tz).rows)
  {
    hide DueAt, AllDue, Numbered, Advance;
    match l
    case Generate(id, o) => if id !in s.rows && FirstOrder(s.rows, o) { OneMore(s.rows, id, o, s.now, tz); }
    case Work(w, a) => if w in s.workers { AdvanceOrders(s, w, a, tz); }
    case Cancel(id) => SameOrders(s.rows, Step(s, l, tz).rows, tz);
    case Cron(asOf) => SameOrders(s.rows, Step(s, l, tz).rows, tz);
    case _ =>
  }

  lemma {:induction false} DueStays(rows: Reports, rows': Reports, now: Time, now': Time, wk: Worker, tz: int)
    requires WorkerDue(rows, now, wk, tz) && OrdersStay(rows, rows') && now <= now'
    ensures WorkerDue(rows', now', wk, tz)
  {
    hide DueAt;
  }

  lemma {:induction false} JobsStay(s: System, s': System, tz: int)
    requires JobsOk(s, tz) && OrdersStay(s.rows, s'.rows)
    requires forall id :: id in s'.jobs ==>
               (id in s.jobs && s'.jobs[id] == s.jobs[id])
               || (id in s.rows && DueAt(s.rows[id].order, tz) <= s'.jobs[id])
    ensures JobsOk(s', tz)
  {
    hide DueAt;
  }

  /** A segment leaves the other workers alone, and its own worker at its report. */
  lemma {:induction false} OthersIdle(s: System, w: nat, a: Act, tz: int)
    requires w in s.workers
    ensures var s' := Step(s, Work(w, a), tz);
            && s'.jobs == s.jobs && s'.now == s.now
            && forall v :: v in s'.workers ==>
                 v in s.workers && s'.workers[v].id == s.workers[v].id && (v != w ==> s'.workers[v] == s.workers[v])
  {
    hide Advance, DueAt;
  }

  lemma {:induction false} WorkDue(s: System, w: nat, a: Act, tz: int)
    requires AnyInv(s, tz) && w in s.workers
    ensures AllDue(Step(s, Work(w, a), tz), tz)
  {
    var s' := Step(s, Work(w, a), tz);
    OrdersStep(s, Work(w, a), tz);
    OthersIdle(s, w, a, tz);
    hide Step, WorkerDue, Numbered, OrdersStay, JobsOk, DueAt;
    JobsStay(s, s', tz);
    forall v | v in s'.workers ensures WorkerDue(s'.rows, s'.now, s'.workers[v], tz) {
      if v != w { DueStays(s.rows, s'.rows, s.now, s'.now, s.workers[v], tz); } else { MovesDue(s, w, a, tz); }
    }
  }

  lemma {:induction false} MovesDue(s: System, w: nat, a: Act, tz: int)
    requires w in s.workers && WorkerDue(s.rows, s.now, s.workers[w], tz)
             && OrdersStay(s.rows, Step(s, Work(w, a), tz).rows)
    ensures var s' := Step(s, Work(w, a), tz); w in s'.workers ==> WorkerDue(s'.rows, s'.now, s'.workers[w], tz)
  {
    AdvanceDue(s.rows, s.workers[w], a, s.now, tz);
    hide DueAt, Advance;
  }

  lemma {:induction false} AdvanceDue(rows: Reports, wk: Worker, a: Act, now: Time, tz: int)
    requires WorkerDue(rows, now, wk, tz)
    ensures var pc := Advance(rows, wk.id, wk.pc, a, now).1;
            pc.Done? || ((!pc.Started? ==> pc.report.order == rows[wk.id].order)
                         && (pc.Computed? || pc.Delivered? ==> DueAt(rows[wk.id].order, tz) <= pc.deliveredAt))
  {
    hide DueAt, Insertable;
  }

  lemma {:induction false} OtherDue(s: System, l: Label, tz: int)
    requires AnyInv(s, tz) && !l.Work?
    ensures AllDue(Step(s, l, tz), tz)
  {
    OrdersStep(s, l, tz);
    var s' := Step(s, l, tz);
    OtherParts(s, l, tz);
    hide Step, DueAt, Numbered, OrdersStay;
    JobsStay(s, s', tz);
    forall v | v in s'.workers ensures WorkerDue(s'.rows, s'.now, s'.workers[v], tz) {
      if v in s.workers { DueStays(s.rows, s'.rows, s.now, s'.now, s.workers[v], tz); }
      else { hide JobsOk; StartsDue(s, l, tz, v); }
    }
  }

  lemma {:induction false} StartsDue(s: System, l: Label, tz: int, v: nat)
    requires JobsOk(s, tz) && !l.Work? && v !in s.workers && v in Step(s, l, tz).workers
    ensures WorkerDue(Step(s, l, tz).rows, Step(s, l, tz).now, Step(s, l, tz).workers[v], tz)
  {
    hide DueAt;
  }

  lemma {:induction false} OtherParts(s: System, l: Label, tz: int)
    requires !l.Work?
    ensures var s' := Step(s, l, tz);
            && s.now <= s'.now
            && (forall v :: v in s'.workers && v in s.workers ==> s'.workers[v] == s.workers[v])
            && (forall id :: id in s'.jobs ==>
                (id in s.jobs && s'.jobs[id] == s.jobs[id])
                || (id in s.rows && DueAt(s.rows[id].order, tz) <= s'.jobs[id]))
  {
    hide DueAt;
  }

  lemma {:induction false} AnyStep(s: System, l: Label, tz: int)
    requires AnyInv(s, tz)
    ensures AnyInv(Step(s, l, tz), tz) && OrdersStay(s.rows, Step(s, l, tz).rows)
  {
    hide Step, AllDue, Numbered, OrdersStay;
    OrdersStep(s, l, tz);
    if l.Work? && l.w in s.workers { WorkDue(s, l.w, l.a, tz); }
    else if l.Work? { IdleWork(s, l, tz); }
    else { OtherDue(s, l, tz); }
  }

  lemma {:induction false} IdleWork(s: System, l: Label, tz: int)
    requires l.Work? && l.w !in s.workers
    ensures Step(s, l, tz) == s
  {
  }

  lemma {:induction false} AnyRun(ss: seq<System>, ls: seq<Label>, tz: int, j: nat)
    requires Run(ss, ls, tz) && j < |ss|
    ensures AnyInv(ss[j], tz)
  {
    hide Step;
    if j > 0 {
      AnyRun(ss, ls, tz, j - 1);
      AnyStep(ss[j - 1], ls[j - 1], tz);
    }
  }

  lemma {:induction false} RowsStay(ss: seq<System>, ls: seq<Label>, tz: int, i: nat, j: nat)
    requires Run(ss, ls, tz) && i <= j < |ss|
    ensures OrdersStay(ss[i].rows, ss[j].rows)
    decreases j - i
  {
    hide Step, AnyInv;
    if i < j {
      RowsStay(ss, ls, tz, i, j - 1);
      AnyRun(ss, ls, tz, j - 1);
      AnyStep(ss[j - 1], ls[j - 1], tz);
    }
  }

  // ---- Numbering and periods ----

  predicate Member(rows: Reports, r: Id, sid: nat, k: int) {
    r in rows && rows[r].order.seriesId == Some(sid) && rows[r].order.occurrence == Some(k)
  }

  ghost predicate Occurs(rows: Reports, sid: nat, k: int) { exists r :: Member(rows, r, sid, k) }

  /** b's period starts no earlier than a's ends, and right there exactly when b's reference date lies within
      one period of that end. */
  predicate Follows(a: Order, b: Order, tz: int) {
    a.period == b.period != CustomPeriod &&
    var end := ReportRange(a.period, a.referenceDate, tz).end;
    var start := ReportRange(a.period, b.referenceDate, tz).start;
    end <= start && (start == end <==> b.referenceDate < ReportRange(a.period, end, tz).end)
  }

  /** The series consists of one report for each occurrence 1..n, each period following the one before. */
  ghost predicate SeriesUpTo(rows: Reports, sid: nat, n: int, tz: int) {
    && n >= 1
    && (forall r :: r in rows && rows[r].order.seriesId == Some(sid) ==>
          rows[r].order.occurrence.Some? && 1 <= rows[r].order.occurrence.value <= n)
    && (forall k :: 1 <= k <= n ==> Occurs(rows, sid, k))
    && (forall r, q, k :: Member(rows, r, sid, k) && Member(rows, q, sid, k) ==> r == q)
    && (forall r, q, k :: Member(rows, r, sid, k) && Member(rows, q, sid, k + 1) ==>
        Follows(rows[r].order, rows[q].order, tz))
  }

  lemma {:induction false} EarlierMember(rows: Reports, r: Id, sid: nat, k: int, j: int, tz: int) returns (p: Id)
    requires Numbered(rows, tz) && Member(rows, r, sid, k) && 1 <= j <= k
    ensures Member(rows, p, sid, j)
    decreases k - j
  {
    hide DueAt;
    p := r;
    if j < k {
      assert HasPrevious(rows, r, tz);
      p :| p in rows && Succeeds(rows[p].order, rows[r].order, tz);
      if j < k - 1 {
        p := EarlierMember(rows, p, sid, k - 1, j, tz);
      }
    }
  }

  lemma {:induction false} NextFollows(rows: Reports, r: Id, q: Id, sid: nat, k: int, tz: int)
    requires Numbered(rows, tz) && Member(rows, r, sid, k) && Member(rows, q, sid, k + 1)
    ensures Follows(rows[r].order, rows[q].order, tz) && Succeeds(rows[r].order, rows[q].order, tz)
  {
    hide ReportRange;
    assert OrderOk(rows[r].order) && OrderOk(rows[q].order) && HasPrevious(rows, q, tz);
    var p :| p in rows && Succeeds(rows[p].order, rows[q].order, tz);
    assert p == r;
    LaterRange(rows[r].order.period, rows[r].order.referenceDate, rows[q].order.referenceDate, tz);
  }

  lemma {:induction false} LastMember(rows: Reports, some: set<Id>, r: Id) returns (last: Id)
    requires r in some && forall x :: x in some ==> x in rows && rows[x].order.occurrence.Some?
    ensures last in some
    ensures forall x :: x in some ==> rows[x].order.occurrence.value <= rows[last].order.occurrence.value
    decreases some
  {
    if some == {r} {
      last := r;
    } else {
      var x :| x in some && x != r;
      last := LastMember(rows, some - {x}, r);
      if rows[x].order.occurrence.value > rows[last].order.occurrence.value {
        last := x;
      }
    }
  }

  lemma {:induction false} SeriesIn(rows: Reports, tz: int, first: Id, sid: nat) returns (n: int)
    requires Numbered(rows, tz) && first in rows && rows[first].order.seriesId == Some(sid)
    ensures SeriesUpTo(rows, sid, n, tz)
  {
    hide DueAt, Follows, HasPrevious;
    assert forall r :: r in rows ==> OrderOk(rows[r].order);
    var members := set r | r in rows && rows[r].order.seriesId == Some(sid);
    var last := LastMember(rows, members, first);
    n := rows[last].order.occurrence.value;
    forall k | 1 <= k <= n ensures Occurs(rows, sid, k) {
      var p := EarlierMember(rows, last, sid, n, k, tz);
    }
    forall r, q, k | Member(rows, r, sid, k) && Member(rows, q, sid, k + 1)
      ensures Follows(rows[r].order, rows[q].order, tz)
    {
      NextFollows(rows, r, q, sid, k, tz);
    }
  }

  /** In every state of every run a recurring series consists of one report for each of 1..n; each next period
      starts at or after the end of the one before, and right there exactly when its reference date, the
      delivery it was chained from, lies within one period of that end. */
  lemma {:induction false} SeriesNumbered(ss: seq<System>, ls: seq<Label>, tz: int, j: nat, first: Id, sid: nat)
    returns (n: int)
    requires Run(ss, ls, tz) && j < |ss| && first in ss[j].rows && ss[j].rows[first].order.seriesId == Some(sid)
    ensures SeriesUpTo(ss[j].rows, sid, n, tz)
  {
    hide Step, Numbered, SeriesUpTo;
    AnyRun(ss, ls, tz, j);
    n := SeriesIn(ss[j].rows, tz, first, sid);
  }

  // ---- Which occurrences are READY ----

  /** The step writes a report READY. */
  predicate ReadyLands(s: System, l: Label, r: Id) {
    l.Work? && l.w in s.workers && s.workers[l.w].id == r && r in s.rows && s.workers[l.w].pc.Computed?
    && l.a == WriteReady(true)
  }

  /** The step writes a report's failure: FAILED, or PENDING for another attempt. */
  predicate FailureLands(s: System, l: Label, r: Id) {
    l.Work? && l.w in s.workers && s.workers[l.w].id == r && r in s.rows && s.workers[l.w].pc.Failing?
    && l.a.WriteFailure? && l.a.ok
  }

  /** READY and its delivery date change with these two writes only. */
  lemma {:induction false} StatusStep(s: System, l: Label, tz: int, r: Id)
    requires r in s.rows
    ensures var s' := Step(s, l, tz);
            && r in s'.rows
            && (s'.rows[r].status.Ready? <==>
                ReadyLands(s, l, r) || (s.rows[r].status.Ready? && !FailureLands(s, l, r)))
            && s'.rows[r].dateDelivered
               == if ReadyLands(s, l, r) then Some(s.workers[l.w].pc.deliveredAt) else s.rows[r].dateDelivered
  {
    hide DueAt, FirstOrder, NextOrder;
  }

  lemma {:induction false} BornPending(s: System, l: Label, tz: int, r: Id)
    requires r !in s.rows && r in Step(s, l, tz).rows
    ensures Step(s, l, tz).rows[r].status.Pending? && Step(s, l, tz).rows[r].dateDelivered.None?
    ensures l.Generate? || (l.Work? && l.w in s.workers && s.workers[l.w].pc.Delivered?
                            && Chains(s.workers[l.w].pc.report.order)
                            && Step(s, l, tz).rows[r].order
                               == NextOrder(s.workers[l.w].pc.report.order, s.workers[l.w].pc.deliveredAt))
    ensures l.Generate? ==> FirstOrder(s.rows, Step(s, l, tz).rows[r].order)
  {
    hide DueAt;
  }

  /** READY was written, and no failure since. */
  ghost predicate ReadyLast(ss: seq<System>, ls: seq<Label>, t: nat, r: Id)
    requires t <= |ls| && t <= |ss|
  {
    exists m: nat :: m < t && ReadyLands(ss[m], ls[m], r)
      && forall i: nat :: m < i < t ==> !FailureLands(ss[i], ls[i], r)
  }

  /** A failure was written, and READY not again since. */
  ghost predicate FailureLast(ss: seq<System>, ls: seq<Label>, t: nat, r: Id)
    requires t <= |ls| && t <= |ss|
  {
    exists i: nat :: i < t && FailureLands(ss[i], ls[i], r)
      && forall m: nat :: i < m < t ==> !ReadyLands(ss[m], ls[m], r)
  }

  /** READY was last written with this delivery date. */
  ghost predicate DeliveredLast(ss: seq<System>, ls: seq<Label>, t: nat, r: Id, date: Time)
    requires t <= |ls| && t <= |ss|
  {
    exists m: nat :: m < t && ReadyLands(ss[m], ls[m], r) && ss[m].workers[ls[m].w].pc.deliveredAt == date
                     && forall i: nat :: m < i < t ==> !ReadyLands(ss[i], ls[i], r)
  }

  lemma {:induction false} ReadyLastStep(ss: seq<System>, ls: seq<Label>, t: nat, r: Id)
    requires t < |ls| < |ss|
    ensures ReadyLast(ss, ls, t + 1, r) <==>
              ReadyLands(ss[t], ls[t], r) || (ReadyLast(ss, ls, t, r) && !FailureLands(ss[t], ls[t], r))
  {
    hide ReadyLands, FailureLands;
    if ReadyLast(ss, ls, t, r) && !FailureLands(ss[t], ls[t], r) {
      var m: nat :| m < t && ReadyLands(ss[m], ls[m], r)
                    && forall i: nat :: m < i < t ==> !FailureLands(ss[i], ls[i], r);
      assert forall i: nat :: m < i < t + 1 ==> !FailureLands(ss[i], ls[i], r);
    }
    if ReadyLast(ss, ls, t + 1, r) && !ReadyLands(ss[t], ls[t], r) {
      var m: nat :| m < t + 1 && ReadyLands(ss[m], ls[m], r)
                    && forall i: nat :: m < i < t + 1 ==> !FailureLands(ss[i], ls[i], r);
      assert m < t;
    }
  }

  lemma {:induction false} DeliveredLastStep(ss: seq<System>, ls: seq<Label>, t: nat, r: Id, date: Time)
    requires t < |ls| < |ss|
    ensures DeliveredLast(ss, ls, t + 1, r, date) <==>
              if ReadyLands(ss[t], ls[t], r) then ss[t].workers[ls[t].w].pc.deliveredAt == date
              else DeliveredLast(ss, ls, t, r, date)
  {
    if !ReadyLands(ss[t], ls[t], r) && DeliveredLast(ss, ls, t, r, date) {
      var m: nat :| m < t && ReadyLands(ss[m], ls[m], r) && ss[m].workers[ls[m].w].pc.deliveredAt == date
                    && forall i: nat :: m < i < t ==> !ReadyLands(ss[i], ls[i], r);
      assert forall i: nat :: m < i < t + 1 ==> !ReadyLands(ss[i], ls[i], r);
    }
    if DeliveredLast(ss, ls, t + 1, r, date) {
      var m: nat :| m < t + 1 && ReadyLands(ss[m], ls[m], r) && ss[m].workers[ls[m].w].pc.deliveredAt == date
                    && forall i: nat :: m < i < t + 1 ==> !ReadyLands(ss[i], ls[i], r);
      if ReadyLands(ss[t], ls[t], r) { assert m == t; }
    }
  }

  /** A report is READY exactly when READY was written to it and no failure since, and its delivery date is that
      of the last such write. */
  lemma {:induction false} ReadyExactly(ss: seq<System>, ls: seq<Label>, tz: int, t: nat, r: Id, date: Time)
    requires Run(ss, ls, tz) && t < |ss| && r in ss[t].rows
    ensures ss[t].rows[r].status.Ready? <==> ReadyLast(ss, ls, t, r)
    ensures ss[t].rows[r].dateDelivered == Some(date) <==> DeliveredLast(ss, ls, t, r, date)
    decreases t
  {
    hide Step, ReadyLands, FailureLands;
    if t > 0 {
      assert ss[t] == Step(ss[t - 1], ls[t - 1], tz);
      if r in ss[t - 1].rows {
        ReadyExactly(ss, ls, tz, t - 1, r, date);
        StatusStep(ss[t - 1], ls[t - 1], tz, r);
        ReadyLastStep(ss, ls, t - 1, r);
        DeliveredLastStep(ss, ls, t - 1, r, date);
        hide ReadyLast, DeliveredLast, Run;
      } else {
        BornPending(ss[t - 1], ls[t - 1], tz, r);
        forall m: nat | m < t ensures !ReadyLands(ss[m], ls[m], r) {
          RowsStay(ss, ls, tz, m, t - 1);
          NoRowNoWrite(ss[m], ls[m], r);
        }
      }
    }
  }

  lemma {:induction false} NoRowNoWrite(s: System, l: Label, r: Id)
    requires r !in s.rows
    ensures !ReadyLands(s, l, r) && !FailureLands(s, l, r)
  {
  }

  lemma {:induction false} DeliveredBefore(s: System, l: Label, tz: int, w: nat)
    requires w in Step(s, l, tz).workers && Step(s, l, tz).workers[w].pc.Delivered?
             && (w in s.workers ==> s.workers[w].id in s.rows)
    ensures w in s.workers && s.workers[w].id == Step(s, l, tz).workers[w].id
    ensures s.workers[w].pc == Step(s, l, tz).workers[w].pc
            || (l.Work? && l.w == w && ReadyLands(s, l, s.workers[w].id)
                && s.workers[w].pc.deliveredAt == Step(s, l, tz).workers[w].pc.deliveredAt)
  {
    hide DueAt, FirstOrder, NextOrder, Insertable;
  }

  lemma {:induction false} DeliveredOrigin(ss: seq<System>, ls: seq<Label>, tz: int, i: nat, w: nat) returns (m: nat)
    requires Run(ss, ls, tz) && i < |ss| && w in ss[i].workers && ss[i].workers[w].pc.Delivered?
    ensures m < i && ReadyLands(ss[m], ls[m], ss[i].workers[w].id)
            && ss[m].workers[ls[m].w].pc.deliveredAt == ss[i].workers[w].pc.deliveredAt
    decreases i
  {
    assert i > 0 && ss[i] == Step(ss[i - 1], ls[i - 1], tz);
    hide Step;
    AnyRun(ss, ls, tz, i - 1);
    if w in ss[i - 1].workers { AnyFacts(ss[i - 1], w, tz); }
    hide AnyInv;
    DeliveredBefore(ss[i - 1], ls[i - 1], tz, w);
    if ss[i - 1].workers[w].pc.Delivered? { m := DeliveredOrigin(ss, ls, tz, i - 1, w); } else { m := i - 1; }
  }

  lemma {:induction false} ChainedFrom(o: Order, at: Time, sid: nat, k: int)
    requires Chains(o) && NextOrder(o, at).seriesId == Some(sid) && NextOrder(o, at).occurrence == Some(k + 1)
    ensures o.seriesId == Some(sid) && o.occurrence == Some(k) && NextOrder(o, at).referenceDate == at
  {
  }

  lemma {:induction false} FirstHasNoPredecessor(rows: Reports, o: Order, sid: nat, k: int)
    requires FirstOrder(rows, o)
    ensures o.seriesId == Some(sid) && o.occurrence == Some(k + 1) ==> k == 0
  {
  }

  /** The step that inserts a successor chains it, for the predecessor's worker, from that worker's delivery. */
  lemma {:induction false} BornFrom(s: System, l: Label, tz: int, sid: nat, k: int, r: Id, q: Id)
    requires AnyInv(s, tz) && k >= 1 && q !in s.rows
    requires Member(Step(s, l, tz).rows, r, sid, k) && Member(Step(s, l, tz).rows, q, sid, k + 1)
    ensures l.Work? && l.w in s.workers && s.workers[l.w].pc.Delivered? && s.workers[l.w].id == r
    ensures s.workers[l.w].pc.deliveredAt == Step(s, l, tz).rows[q].order.referenceDate
  {
    BornPending(s, l, tz, q);
    AnyStep(s, l, tz);
    hide Step, DueAt, AllDue, FirstOrder, NextOrder, Chains, Numbered;
    var rows := Step(s, l, tz).rows;
    if l.Generate? { FirstHasNoPredecessor(s.rows, rows[q].order, sid, k); }
    var wk := s.workers[l.w];
    ChainedFrom(wk.pc.report.order, wk.pc.deliveredAt, sid, k);
    AnyFacts(s, l.w, tz);
    hide AnyInv, OrderOk;
    OneMember(rows, wk.id, r, sid, k, tz);
  }

  lemma {:induction false} PreviousStays(s: System, l: Label, tz: int, sid: nat, k: int, r: Id, q: Id)
    requires AnyInv(s, tz) && k >= 1 && q in s.rows
    requires Member(Step(s, l, tz).rows, r, sid, k) && Member(Step(s, l, tz).rows, q, sid, k + 1)
    ensures Member(s.rows, r, sid, k) && Member(s.rows, q, sid, k + 1)
    ensures Step(s, l, tz).rows[q].order == s.rows[q].order
  {
    AnyStep(s, l, tz);
    hide Step, AllDue;
    var p := EarlierMember(s.rows, q, sid, k + 1, k, tz);
    OneMember(Step(s, l, tz).rows, p, r, sid, k, tz);
  }

  /** A successor was chained from a delivery of its predecessor, on the date it refers to. */
  lemma {:induction false} SuccessorOrigin(ss: seq<System>, ls: seq<Label>, tz: int, t: nat, sid: nat, k: int, r: Id,
                                           q: Id) returns (m: nat)
    requires Run(ss, ls, tz) && t < |ss| && k >= 1 && Member(ss[t].rows, r, sid, k) && Member(ss[t].rows, q, sid, k + 1)
    ensures m < t && ReadyLands(ss[m], ls[m], r)
            && ss[m].workers[ls[m].w].pc.deliveredAt == ss[t].rows[q].order.referenceDate
    decreases t
  {
    assert t > 0 && ss[t] == Step(ss[t - 1], ls[t - 1], tz);
    hide Step, AnyInv;
    AnyRun(ss, ls, tz, t - 1);
    if q in ss[t - 1].rows {
      PreviousStays(ss[t - 1], ls[t - 1], tz, sid, k, r, q);
      m := SuccessorOrigin(ss, ls, tz, t - 1, sid, k, r, q);
    } else {
      BornFrom(ss[t - 1], ls[t - 1], tz, sid, k, r, q);
      m := DeliveredOrigin(ss, ls, tz, t - 1, ls[t - 1].w);
    }
  }

  lemma {:induction false} OneMember(rows: Reports, p: Id, r: Id, sid: nat, k: int, tz: int)
    requires Numbered(rows, tz) && Member(rows, p, sid, k) && Member(rows, r, sid, k)
    ensures p == r
  {
  }

  lemma {:induction false} EitherLast(ss: seq<System>, ls: seq<Label>, t: nat, r: Id, m: nat)
    requires t <= |ls| < |ss| && m < t && ReadyLands(ss[m], ls[m], r)
    ensures ReadyLast(ss, ls, t, r) <==> !FailureLast(ss, ls, t, r)
    decreases t
  {
    hide *;
    OneResult(ss[t - 1], ls[t - 1], r);
    ReadyLastStep(ss, ls, t - 1, r);
    FailureLastStep(ss, ls, t - 1, r);
    if t > m + 1 { EitherLast(ss, ls, t - 1, r, m); }
  }

  lemma {:induction false} OneResult(s: System, l: Label, r: Id)
    ensures !(ReadyLands(s, l, r) && FailureLands(s, l, r))
  {
  }

  lemma {:induction false} FailureLastStep(ss: seq<System>, ls: seq<Label>, t: nat, r: Id)
    requires t < |ls| < |ss|
    ensures FailureLast(ss, ls, t + 1, r) <==>
              FailureLands(ss[t], ls[t], r) || (FailureLast(ss, ls, t, r) && !ReadyLands(ss[t], ls[t], r))
  {
    hide ReadyLands, FailureLands;
    if FailureLast(ss, ls, t, r) && !ReadyLands(ss[t], ls[t], r) {
      var i: nat :| i < t && FailureLands(ss[i], ls[i], r)
                    && forall m: nat :: i < m < t ==> !ReadyLands(ss[m], ls[m], r);
      assert forall m: nat :: i < m < t + 1 ==> !ReadyLands(ss[m], ls[m], r);
    }
    if FailureLast(ss, ls, t + 1, r) && !FailureLands(ss[t], ls[t], r) {
      var i: nat :| i < t + 1 && FailureLands(ss[i], ls[i], r)
                    && forall m: nat :: i < m < t + 1 ==> !ReadyLands(ss[m], ls[m], r);
      assert i < t;
    }
  }

  /** In any run, an occurrence that has a successor is READY exactly when the last result written to it is not a
      failure, and was delivered at its successor's reference date exactly when the last READY was. */
  lemma {:induction false} PredecessorExactly(ss: seq<System>, ls: seq<Label>, tz: int, t: nat, sid: nat, k: int, r: Id,
                                              q: Id)
    requires Run(ss, ls, tz) && t < |ss| && k >= 1 && Member(ss[t].rows, r, sid, k) && Member(ss[t].rows, q, sid, k + 1)
    ensures ss[t].rows[r].status.Ready? <==> !FailureLast(ss, ls, t, r)
    ensures ss[t].rows[r].dateDelivered == Some(ss[t].rows[q].order.referenceDate)
            <==> DeliveredLast(ss, ls, t, r, ss[t].rows[q].order.referenceDate)
  {
    hide Step, ReadyLands, FailureLands, ReadyLast, FailureLast, DeliveredLast;
    var m := SuccessorOrigin(ss, ls, tz, t, sid, k, r, q);
    EitherLast(ss, ls, t, r, m);
    ReadyExactly(ss, ls, tz, t, r, ss[t].rows[q].order.referenceDate);
  }

  // ---- Claims that the cron has reset ----

  predicate Claiming(s: System, v: nat, r: Id) { v in s.workers && s.workers[v].id == r && Claims(s.workers[v].pc) }

  /** The cron resets the report while worker v, still alive, holds its claim on it. */
  predicate ResetsClaim(s: System, l: Label, v: nat, r: Id) {
    l.Cron? && l.asOf <= s.now && Claiming(s, v, r) && r in s.rows && Stalled(s.rows[r], STALE_MINUTES, l.asOf)
  }

  /** Worker v still holds a claim on r that the cron has reset. */
  ghost predicate Lost(ss: seq<System>, ls: seq<Label>, i: nat, v: nat, r: Id)
    requires i <= |ls| < |ss|
  {
    exists c: nat :: c < i && ResetsClaim(ss[c], ls[c], v, r) && forall k: nat :: c <= k <= i ==> Claiming(ss[k], v, r)
  }

  /** A worker whose claim on r the cron has reset writes its result all the same. */
  ghost predicate StaleWrite(ss: seq<System>, ls: seq<Label>, i: nat, r: Id)
    requires i < |ls| < |ss|
  {
    (ReadyLands(ss[i], ls[i], r) || FailureLands(ss[i], ls[i], r)) && Lost(ss, ls, i, ls[i].w, r)
  }

  ghost predicate NoStaleWrites(ss: seq<System>, ls: seq<Label>, t: nat, r: Id)
    requires t <= |ls| < |ss|
  {
    forall i: nat :: i < t ==> !StaleWrite(ss, ls, i, r)
  }

  /** Apart from the lost claims there is at most one on r, and it holds r PROCESSING; whoever is to chain r's
      successor left r READY. */
  ghost predicate Held(s: System, r: Id, lost: set<nat>) {
    && (forall v :: Claiming(s, v, r) && v !in lost ==> r in s.rows && s.rows[r].status.Processing?)
    && (forall u, v :: Claiming(s, u, r) && Claiming(s, v, r) && u !in lost && v !in lost ==> u == v)
    && (forall w :: w in s.workers && s.workers[w].id == r && s.workers[w].pc.Delivered? ==>
        r in s.rows && s.rows[r].status.Ready?)
  }

  lemma {:induction false} HeldOther(s: System, l: Label, tz: int, r: Id, lost: set<nat>, lost': set<nat>)
    requires AnyInv(s, tz) && Held(s, r, lost) && !l.Work?
    requires forall v :: (Claiming(s, v, r) && Claiming(Step(s, l, tz), v, r)
                          && (v in lost || ResetsClaim(s, l, v, r))) ==> v in lost'
    ensures Held(Step(s, l, tz), r, lost')
  {
    hide DueAt, Numbered, FirstOrder;
    forall v | v in s.workers ensures s.workers[v].id in s.rows { AnyFacts(s, v, tz); }
    hide AllDue;
  }

  lemma {:induction false} HeldElsewhere(s: System, w: nat, a: Act, tz: int, r: Id, lost: set<nat>, lost': set<nat>)
    requires AnyInv(s, tz) && Held(s, r, lost) && w in s.workers && s.workers[w].id != r
    requires forall v :: Claiming(s, v, r) && Claiming(Step(s, Work(w, a), tz), v, r) && v in lost ==> v in lost'
    ensures Held(Step(s, Work(w, a), tz), r, lost')
  {
    var s' := Step(s, Work(w, a), tz);
    OthersIdle(s, w, a, tz);
    if r in s.rows { AdvanceElsewhere(s, w, a, tz, r); }
    assert r in s.rows ==> r in s'.rows && s'.rows[r] == s.rows[r];
    hide Step, AnyInv, DueAt;
    forall v | v in s'.workers && s'.workers[v].id == r ensures v in s.workers && s'.workers[v] == s.workers[v] {}
  }

  lemma {:induction false} AdvanceElsewhere(s: System, w: nat, a: Act, tz: int, r: Id)
    requires w in s.workers && s.workers[w].id != r && r in s.rows
    ensures var rows := Step(s, Work(w, a), tz).rows; r in rows && rows[r] == s.rows[r]
  {
    hide NextOrder, DueAt;
  }

  /** Worker w moves on, its result, if it writes one, coming from a claim that is not lost. */
  lemma {:induction false} HeldMoves(s: System, s': System, w: nat, r: Id, lost: set<nat>, lost': set<nat>,
                                     result: bool)
    requires Held(s, r, lost) && r in s.rows && r in s'.rows && w in s.workers && s.workers[w].id == r
    requires forall v :: v in s'.workers ==>
               v in s.workers && s'.workers[v].id == s.workers[v].id && (v != w ==> s'.workers[v] == s.workers[v])
    requires forall v :: Claiming(s, v, r) && Claiming(s', v, r) && v in lost ==> v in lost'
    requires result ==> Claiming(s, w, r) && w !in lost && !Claiming(s', w, r)
    requires s'.rows[r].status != s.rows[r].status ==>
               result || (s.rows[r].status.Pending? && s'.rows[r].status.Processing?)
    requires Claiming(s', w, r) && !Claiming(s, w, r) ==> s.rows[r].status.Pending? && s'.rows[r].status.Processing?
    requires w in s'.workers && s'.workers[w].pc.Delivered? ==> s.workers[w].pc.Delivered? || s'.rows[r].status.Ready?
    ensures Held(s', r, lost')
  {
    hide Claims;
  }

  lemma {:induction false} HeldWork(s: System, w: nat, a: Act, tz: int, r: Id, lost: set<nat>, lost': set<nat>)
    requires AnyInv(s, tz) && Held(s, r, lost) && w in s.workers && s.workers[w].id == r
    requires forall v :: Claiming(s, v, r) && Claiming(Step(s, Work(w, a), tz), v, r) && v in lost ==> v in lost'
    requires ReadyLands(s, Work(w, a), r) || FailureLands(s, Work(w, a), r) ==> w !in lost
    ensures Held(Step(s, Work(w, a), tz), r, lost')
  {
    assert r in s.rows by { AnyFacts(s, w, tz); }
    hide Step, AnyInv, Held, ReadyLands, FailureLands, Claims;
    OwnRow(s, w, a, tz);
    OwnProgress(s, w, a, tz);
    OthersIdle(s, w, a, tz);
    ResultNeedsClaim(s, Work(w, a), r);
    HeldMoves(s, Step(s, Work(w, a), tz), w, r, lost, lost',
              ReadyLands(s, Work(w, a), r) || FailureLands(s, Work(w, a), r));
  }

  /** What a worker's segment does to its own row. */
  lemma {:induction false} OwnRow(s: System, w: nat, a: Act, tz: int)
    requires w in s.workers && s.workers[w].id in s.rows
    ensures var wk := s.workers[w]; var rows := Step(s, Work(w, a), tz).rows;
            && wk.id in rows
            && (rows[wk.id].status != s.rows[wk.id].status ==>
                  (wk.pc.Seen? && a.Claim? && s.rows[wk.id].status.Pending? && rows[wk.id].status.Processing?)
                  || (ReadyLands(s, Work(w, a), wk.id) && rows[wk.id].status.Ready?)
                  || FailureLands(s, Work(w, a), wk.id))
            && (ReadyLands(s, Work(w, a), wk.id) ==> rows[wk.id].status.Ready?)
  {
    hide DueAt, NextOrder;
  }

  /** A worker comes to hold a claim only by winning a PENDING report, gives it up with its result, and is to
      chain a successor only after writing READY. */
  lemma {:induction false} OwnProgress(s: System, w: nat, a: Act, tz: int)
    requires w in s.workers && s.workers[w].id in s.rows
    ensures var s' := Step(s, Work(w, a), tz); var r := s.workers[w].id;
            w in s'.workers ==>
              && (Claims(s'.workers[w].pc) ==> !ReadyLands(s, Work(w, a), r) && !FailureLands(s, Work(w, a), r))
              && (Claims(s'.workers[w].pc) && !Claims(s.workers[w].pc) ==>
                    s.rows[r].status.Pending? && r in s'.rows && s'.rows[r].status.Processing?)
              && (s'.workers[w].pc.Delivered? ==> s.workers[w].pc.Delivered? || ReadyLands(s, Work(w, a), r))
  {
    hide DueAt, NextOrder, Insertable;
  }

  ghost function LostAt(ss: seq<System>, ls: seq<Label>, i: nat, r: Id): set<nat>
    requires i <= |ls| < |ss|
  {
    set v | v in ss[i].workers && Lost(ss, ls, i, v, r)
  }

  lemma {:induction false} LostGoesOn(ss: seq<System>, ls: seq<Label>, i: nat, v: nat, r: Id)
    requires i < |ls| < |ss| && Claiming(ss[i + 1], v, r)
    requires Claiming(ss[i], v, r) && (Lost(ss, ls, i, v, r) || ResetsClaim(ss[i], ls[i], v, r))
    ensures Lost(ss, ls, i + 1, v, r)
  {
    hide Claiming, ResetsClaim;
    if ResetsClaim(ss[i], ls[i], v, r) {
      assert forall k: nat :: i <= k <= i + 1 ==> Claiming(ss[k], v, r);
    } else {
      var c: nat :| c < i && ResetsClaim(ss[c], ls[c], v, r) && forall k: nat :: c <= k <= i ==> Claiming(ss[k], v, r);
      assert forall k: nat :: c <= k <= i + 1 ==> Claiming(ss[k], v, r);
    }
  }

  lemma {:induction false} HeldStep(ss: seq<System>, ls: seq<Label>, tz: int, i: nat, r: Id)
    requires Run(ss, ls, tz) && i < |ls| && Held(ss[i], r, LostAt(ss, ls, i, r)) && !StaleWrite(ss, ls, i, r)
    ensures Held(ss[i + 1], r, LostAt(ss, ls, i + 1, r))
  {
    AnyRun(ss, ls, tz, i);
    var s, l, lost, lost' := ss[i], ls[i], LostAt(ss, ls, i, r), LostAt(ss, ls, i + 1, r);
    assert ss[i + 1] == Step(s, l, tz);
    hide Step, AnyInv, Held, Lost, Run;
    forall v | Claiming(s, v, r) && Claiming(ss[i + 1], v, r) && (v in lost || ResetsClaim(s, l, v, r))
      ensures v in lost'
    {
      LostGoesOn(ss, ls, i, v, r);
    }
    if !l.Work? {
      HeldOther(s, l, tz, r, lost, lost');
    } else if l.w !in s.workers {
      IdleWork(s, l, tz);
      HeldMonotone(s, r, lost, lost');
    } else if s.workers[l.w].id != r {
      HeldElsewhere(s, l.w, l.a, tz, r, lost, lost');
    } else {
      HeldWork(s, l.w, l.a, tz, r, lost, lost');
    }
  }

  lemma {:induction false} HeldMonotone(s: System, r: Id, lost: set<nat>, lost': set<nat>)
    requires Held(s, r, lost) && forall v :: Claiming(s, v, r) && v in lost ==> v in lost'
    ensures Held(s, r, lost')
  {
  }

  lemma {:induction false} HeldThroughout(ss: seq<System>, ls: seq<Label>, tz: int, t: nat, r: Id)
    requires Run(ss, ls, tz) && t < |ss| && NoStaleWrites(ss, ls, t, r)
    ensures Held(ss[t], r, LostAt(ss, ls, t, r))
    decreases t
  {
    hide Step, StaleWrite;
    if t > 0 {
      hide Held;
      HeldThroughout(ss, ls, tz, t - 1, r);
      HeldStep(ss, ls, tz, t - 1, r);
    }
  }

  lemma {:induction false} ResultNeedsClaim(s: System, l: Label, r: Id)
    ensures ReadyLands(s, l, r) || FailureLands(s, l, r) ==> l.Work? && Claiming(s, l.w, r) && l.w in s.workers
  {
  }

  /** Nothing but a result is ever written to a terminal row. */
  lemma {:induction false} OnlyResultsRewrite(s: System, l: Label, tz: int, r: Id)
    requires r in s.rows && Terminal(s.rows[r].status) && !ReadyLands(s, l, r) && !FailureLands(s, l, r)
    ensures r in Step(s, l, tz).rows && Step(s, l, tz).rows[r] == s.rows[r]
  {
    hide DueAt, FirstOrder, NextOrder;
  }

  /** Without stale writes nobody writes a result to a report that is READY, FAILED or CANCELLED. */
  lemma {:induction false} NoResultOnTerminal(ss: seq<System>, ls: seq<Label>, tz: int, i: nat, r: Id)
    requires Run(ss, ls, tz) && i < |ls| && NoStaleWrites(ss, ls, i + 1, r)
    requires r in ss[i].rows && Terminal(ss[i].rows[r].status)
    ensures !ReadyLands(ss[i], ls[i], r) && !FailureLands(ss[i], ls[i], r)
  {
    HeldThroughout(ss, ls, tz, i, r);
    assert !StaleWrite(ss, ls, i, r);
    ResultNeedsClaim(ss[i], ls[i], r);
    hide Step, Run, Lost, ReadyLands, FailureLands, Claiming;
  }

  /** In any run, as long as no worker writes a result to a report after the cron has reset its claim on it, that
      report is never written again once it is READY, FAILED or CANCELLED, whatever happens to other reports. */
  lemma {:induction false} TerminalUntilStaleWrite(ss: seq<System>, ls: seq<Label>, tz: int, i: nat, j: nat, r: Id)
    requires Run(ss, ls, tz) && i <= j < |ss| && NoStaleWrites(ss, ls, j, r)
    requires r in ss[i].rows && Terminal(ss[i].rows[r].status)
    ensures r in ss[j].rows && ss[j].rows[r] == ss[i].rows[r]
    decreases j - i
  {
    hide Step, StaleWrite, ReadyLands, FailureLands;
    if i < j {
      TerminalUntilStaleWrite(ss, ls, tz, i, j - 1, r);
      NoResultOnTerminal(ss, ls, tz, j - 1, r);
      OnlyResultsRewrite(ss[j - 1], ls[j - 1], tz, r);
    }
  }

  lemma {:induction false} ReadyFrom(ss: seq<System>, ls: seq<Label>, tz: int, m: nat, t: nat, r: Id)
    requires Run(ss, ls, tz) && m < t < |ss| && ReadyLands(ss[m], ls[m], r) && NoStaleWrites(ss, ls, t, r)
    ensures r in ss[t].rows && ss[t].rows[r].status.Ready?
            && ss[t].rows[r].dateDelivered == Some(ss[m].workers[ls[m].w].pc.deliveredAt)
    decreases t
  {
    hide Step, StaleWrite;
    assert ss[t] == Step(ss[t - 1], ls[t - 1], tz);
    if t == m + 1 {
      assert r in ss[m].rows;
      StatusStep(ss[m], ls[m], tz, r);
    } else {
      hide ReadyLands, FailureLands;
      ReadyFrom(ss, ls, tz, m, t - 1, r);
      NoResultOnTerminal(ss, ls, tz, t - 1, r);
      StatusStep(ss[t - 1], ls[t - 1], tz, r);
    }
  }

  /** As long as no worker writes a result to a report after the cron has reset its claim on it, the report is
      READY once it has a successor, delivered at the successor's reference date. */
  lemma {:induction false} PredecessorReady(ss: seq<System>, ls: seq<Label>, tz: int, t: nat, sid: nat, k: int, r: Id,
                                            q: Id)
    requires Run(ss, ls, tz) && t < |ss| && k >= 1 && Member(ss[t].rows, r, sid, k) && Member(ss[t].rows, q, sid, k + 1)
    requires NoStaleWrites(ss, ls, t, r)
    ensures ss[t].rows[r].status.Ready? && ss[t].rows[r].dateDelivered == Some(ss[t].rows[q].order.referenceDate)
  {
    hide Step, StaleWrite, ReadyLands;
    var m := SuccessorOrigin(ss, ls, tz, t, sid, k, r, q);
    ReadyFrom(ss, ls, tz, m, t, r);
  }

  // ---- Timely runs ----

  lemma {:induction false} TimelyResetsNoClaim(s: System, l: Label, tz: int, v: nat, r: Id)
    requires Inv(s, tz) && (l.Cron? && l.asOf <= s.now ==> Timely(s, l.asOf))
    ensures !ResetsClaim(s, l, v, r)
  {
    hide DueAt, RowsOk, JobsOk, Exclusive;
    if v in s.workers { assert WorkerOk(s.rows, s.now, s.workers[v], tz); }
  }

  lemma {:induction false} TimelyRunHasNoStaleWrites(ss: seq<System>, ls: seq<Label>, tz: int, t: nat, r: Id)
    requires TimelyRun(ss, ls, tz) && t <= |ls|
    ensures NoStaleWrites(ss, ls, t, r)
  {
    hide Step, ResetsClaim, ReadyLands, FailureLands;
    forall c: nat, v: nat | c < |ls| ensures !ResetsClaim(ss[c], ls[c], v, r) {
      RunKeeps(ss, ls, tz, c);
      TimelyResetsNoClaim(ss[c], ls[c], tz, v, r);
    }
  }

  /** In a timely run a series is numbered as in any run, and every occurrence but the last is READY and was
      delivered at the next one's reference date. */
  lemma {:induction false} SeriesComplete(ss: seq<System>, ls: seq<Label>, tz: int, t: nat, first: Id, sid: nat)
    returns (n: int)
    requires TimelyRun(ss, ls, tz) && t < |ss| && first in ss[t].rows && ss[t].rows[first].order.seriesId == Some(sid)
    ensures SeriesUpTo(ss[t].rows, sid, n, tz)
    ensures forall r, k :: Member(ss[t].rows, r, sid, k) && 1 <= k < n ==> ss[t].rows[r].status.Ready?
    ensures forall r, q, k :: k >= 1 && Member(ss[t].rows, r, sid, k) && Member(ss[t].rows, q, sid, k + 1) ==>
              ss[t].rows[r].dateDelivered == Some(ss[t].rows[q].order.referenceDate)
  {
    hide Step, Follows;
    n := SeriesNumbered(ss, ls, tz, t, first, sid);
    forall r, q, k | k >= 1 && Member(ss[t].rows, r, sid, k) && Member(ss[t].rows, q, sid, k + 1)
      ensures ss[t].rows[r].status.Ready? && ss[t].rows[r].dateDelivered == Some(ss[t].rows[q].order.referenceDate)
    {
      TimelyRunHasNoStaleWrites(ss, ls, tz, t, r);
      PredecessorReady(ss, ls, tz, t, sid, k, r, q);
    }
    forall r, k | Member(ss[t].rows, r, sid, k) && 1 <= k < n ensures ss[t].rows[r].status.Ready? {
      assert Occurs(ss[t].rows, sid, k + 1);
      var q :| Member(ss[t].rows, q, sid, k + 1);
    }
  }

  // ---- A witness run ----

  const WEEKS_END := 4 * DAY
  const RESET_AT := WEEKS_END + STALE_MINUTES * MINUTE + 1

  function Weekly1(status: Status, updatedAt: Time, metrics: Option<nat>, delivered: Option<Time>): Report {
    Report(Order(Weekly, 0, 0, true, Some(0), Some(1)), status, updatedAt, metrics, delivered)
  }

  lemma WeeklyDue()
    ensures DueAt(Order(Weekly, 0, 0, true, Some(0), Some(1)), 0) == WEEKS_END
  {
  }

  /** The first occurrence of a weekly series is claimed when it is due. */
  lemma FirstClaim() returns (ss: seq<System>, ls: seq<Label>)
    ensures Run(ss, ls, 0) && |ls| == 6
    ensures ss[6] == System(map[0 := Weekly1(Processing, WEEKS_END, None, None)], map[0 := WEEKS_END], {},
                            map[0 := Worker(0, Computing(Weekly1(Pending, 0, None, None), WEEKS_END))], WEEKS_END)
  {
    ss, ls := FirstStart();
    hide DueAt;
    var r, s := Weekly1(Pending, 0, None, None), ss[4];
    s := s.(workers := map[0 := Worker(0, Seen(r))]);
    Extended(ss, ls, Work(0, ReadRow), s, 0);
    ss, ls := ss + [s], ls + [Work(0, ReadRow)];
    s := s.(rows := map[0 := Weekly1(Processing, WEEKS_END, None, None)],
            workers := map[0 := Worker(0, Computing(r, WEEKS_END))]);
    Extended(ss, ls, Work(0, Claim), s, 0);
    ss, ls := ss + [s], ls + [Work(0, Claim)];
  }

  lemma FirstStart() returns (ss: seq<System>, ls: seq<Label>)
    ensures Run(ss, ls, 0) && |ls| == 4
    ensures ss[4] == System(map[0 := Weekly1(Pending, 0, None, None)], map[0 := WEEKS_END], {},
                            map[0 := Worker(0, Started)], WEEKS_END)
  {
    WeeklyDue();
    hide DueAt;
    var r := Weekly1(Pending, 0, None, None);
    var s := System(map[], map[], {}, map[], 0);
    ss, ls := [s], [];
    s := System(map[0 := r], map[], {0}, map[], 0);
    Extended(ss, ls, Generate(0, r.order), s, 0);
    ss, ls := ss + [s], ls + [Generate(0, r.order)];
    s := s.(jobs := map[0 := WEEKS_END], creating := {});
    Extended(ss, ls, Enqueue(0), s, 0);
    ss, ls := ss + [s], ls + [Enqueue(0)];
    s := s.(now := WEEKS_END);
    Extended(ss, ls, Tick(WEEKS_END), s, 0);
    ss, ls := ss + [s], ls + [Tick(WEEKS_END)];
    s := s.(workers := map[0 := Worker(0, Started)]);
    Extended(ss, ls, Start(0, 0), s, 0);
    ss, ls := ss + [s], ls + [Start(0, 0)];
  }

  /** The cron resets that claim while its worker is still computing, and a second worker claims the report. */
  lemma SecondClaim() returns (ss: seq<System>, ls: seq<Label>)
    ensures Run(ss, ls, 0) && |ls| == 11
    ensures var r, r' := Weekly1(Pending, 0, None, None), Weekly1(Pending, RESET_AT, None, None);
            ss[11] == System(map[0 := Weekly1(Processing, RESET_AT, None, None)], map[0 := WEEKS_END], {},
                             map[0 := Worker(0, Computing(r, WEEKS_END)), 1 := Worker(0, Computing(r', RESET_AT))],
                             RESET_AT)
  {
    ss, ls := FirstClaim();
    hide DueAt;
    var r, r', s := Weekly1(Pending, 0, None, None), Weekly1(Pending, RESET_AT, None, None), ss[6];
    s := s.(now := RESET_AT);
    Extended(ss, ls, Tick(STALE_MINUTES * MINUTE + 1), s, 0);
    ss, ls := ss + [s], ls + [Tick(STALE_MINUTES * MINUTE + 1)];
    s := s.(rows := map[0 := r']);
    Extended(ss, ls, Cron(RESET_AT), s, 0);
    ss, ls := ss + [s], ls + [Cron(RESET_AT)];
    s := s.(workers := map[0 := Worker(0, Computing(r, WEEKS_END)), 1 := Worker(0, Started)]);
    Extended(ss, ls, Start(1, 0), s, 0);
    ss, ls := ss + [s], ls + [Start(1, 0)];
    s := s.(workers := map[0 := Worker(0, Computing(r, WEEKS_END)), 1 := Worker(0, Seen(r'))]);
    Extended(ss, ls, Work(1, ReadRow), s, 0);
    ss, ls := ss + [s], ls + [Work(1, ReadRow)];
    s := s.(rows := map[0 := Weekly1(Processing, RESET_AT, None, None)],
            workers := map[0 := Worker(0, Computing(r, WEEKS_END)), 1 := Worker(0, Computing(r', RESET_AT))]);
    Extended(ss, ls, Work(1, Claim), s, 0);
    ss, ls := ss + [s], ls + [Work(1, Claim)];
  }

  /** The second worker delivers it. */
  lemma SecondReady() returns (ss: seq<System>, ls: seq<Label>)
    ensures Run(ss, ls, 0) && |ls| == 13
    ensures var r, r' := Weekly1(Pending, 0, None, None), Weekly1(Pending, RESET_AT, None, None);
            ss[13] == System(map[0 := Weekly1(Ready, RESET_AT, Some(7), Some(RESET_AT))], map[0 := WEEKS_END], {},
                             map[0 := Worker(0, Computing(r, WEEKS_END)), 1 := Worker(0, Delivered(r', RESET_AT))],
                             RESET_AT)
  {
    ss, ls := SecondClaim();
    hide DueAt;
    var r, r', s := Weekly1(Pending, 0, None, None), Weekly1(Pending, RESET_AT, None, None), ss[11];
    s := s.(workers := map[0 := Worker(0, Computing(r, WEEKS_END)),
                           1 := Worker(0, Computed(r', RESET_AT, 7, RESET_AT))]);
    Extended(ss, ls, Work(1, ComputeOk(7)), s, 0);
    ss, ls := ss + [s], ls + [Work(1, ComputeOk(7))];
    s := s.(rows := map[0 := Weekly1(Ready, RESET_AT, Some(7), Some(RESET_AT))],
            workers := map[0 := Worker(0, Computing(r, WEEKS_END)), 1 := Worker(0, Delivered(r', RESET_AT))]);
    Extended(ss, ls, Work(1, WriteReady(true)), s, 0);
    ss, ls := ss + [s], ls + [Work(1, WriteReady(true))];
  }

  /** It chains the second occurrence. */
  lemma SecondChains() returns (ss: seq<System>, ls: seq<Label>)
    ensures Run(ss, ls, 0) && |ls| == 14
    ensures ss[14].now == RESET_AT
            && ss[14].workers == map[0 := Worker(0, Computing(Weekly1(Pending, 0, None, None), WEEKS_END))]
    ensures ss[14].rows == map[0 := Weekly1(Ready, RESET_AT, Some(7), Some(RESET_AT)),
                               1 := Report(Order(Weekly, RESET_AT, 0, true, Some(0), Some(2)), Pending, RESET_AT,
                                           None, None)]
  {
    ss, ls := SecondReady();
    hide DueAt;
    var s := ss[13];
    s := s.(rows := map[0 := Weekly1(Ready, RESET_AT, Some(7), Some(RESET_AT)),
                        1 := Report(Order(Weekly, RESET_AT, 0, true, Some(0), Some(2)), Pending, RESET_AT, None, None)],
            workers := map[0 := Worker(0, Computing(Weekly1(Pending, 0, None, None), WEEKS_END))], creating := {1});
    Extended(ss, ls, Work(1, Chain(1, true)), s, 0);
    ss, ls := ss + [s], ls + [Work(1, Chain(1, true))];
  }

  /** Then the first worker's computation fails on its last attempt: occurrence 1 ends FAILED although
      occurrence 2 exists. */
  lemma StaleFailureSpoilsSeries() returns (ss: seq<System>, ls: seq<Label>)
    ensures Run(ss, ls, 0) && |ls| == 16
    ensures Member(ss[16].rows, 0, 0, 1) && Member(ss[16].rows, 1, 0, 2) && ss[16].rows[0].status.Failed?
  {
    ss, ls := SecondChains();
    hide DueAt;
    var r, s := Weekly1(Pending, 0, None, None), ss[14];
    s := s.(workers := map[0 := Worker(0, Failing(r, WEEKS_END))]);
    Extended(ss, ls, Work(0, ComputeFail), s, 0);
    ss, ls := ss + [s], ls + [Work(0, ComputeFail)];
    s := s.(rows := s.rows[0 := Weekly1(Failed, RESET_AT, None, Some(RESET_AT))], workers := map[]);
    Extended(ss, ls, Work(0, WriteFailure(true, true)), s, 0);
    ss, ls := ss + [s], ls + [Work(0, WriteFailure(true, true))];
  }
}
