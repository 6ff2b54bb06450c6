/** Which unfinished reports can still be finished: exactly those with a queued job, a creator, or a worker that
    has not delivered yet. The recovery cron resets rows but queues no job. */
module ReportRecovery {
  import opened Prelude
  import opened PeriodRange
  import opened ReportTable
  import opened ReportWorker
  import opened ReportLifecycle
  import opened ReportSeries

  /** Any further steps from s; a run is such a continuation of an initial state. */
  ghost predicate Continues(s: System, ss: seq<System>, ls: seq<Label>, tz: int) {
    |ss| == |ls| + 1 && ss[0] == s && forall i :: 0 <= i < |ls| ==> ss[i + 1] == Step(ss[i], ls[i], tz)
  }

  predicate Finished(rows: Reports, id: Id) { id in rows && (rows[id].status.Ready? || rows[id].status.Failed?) }

  ghost predicate FinishesBy(s: System, id: Id, ss: seq<System>, ls: seq<Label>, tz: int) {
    Continues(s, ss, ls, tz) && Finished(ss[|ls|].rows, id)
  }

  ghost predicate CanFinish(s: System, id: Id, tz: int) {
    exists ss, ls :: FinishesBy(s, id, ss, ls, tz)
  }

  /** Not finished, and nobody is left who could finish it: no queued job, no creator, and no worker but those
      that have delivered and are only to chain a successor. */
  ghost predicate Abandoned(s: System, id: Id) {
    id in s.rows && !Finished(s.rows, id) && id !in s.jobs && id !in s.creating
    && forall w :: w in s.workers && s.workers[w].id == id ==> s.workers[w].pc.Delivered?
  }

  lemma {:induction false} AbandonedStep(s: System, l: Label, tz: int, id: Id)
    requires Abandoned(s, id)
    ensures Abandoned(Step(s, l, tz), id)
  {
    hide DueAt, ReportRange;
  }

  /** However often the cron runs, an abandoned report is never READY or FAILED. */
  lemma {:induction false} AbandonedForever(s: System, ss: seq<System>, ls: seq<Label>, tz: int, j: nat, id: Id)
    requires Continues(s, ss, ls, tz) && j < |ss| && Abandoned(s, id)
    ensures Abandoned(ss[j], id)
    decreases j
  {
    hide Step, Abandoned;
    if j > 0 {
      AbandonedForever(s, ss, ls, tz, j - 1, id);
      AbandonedStep(ss[j - 1], ls[j - 1], tz, id);
    }
  }

  // ---- Finishing what is not abandoned ----

  lemma {:induction false} AlreadyFinished(s: System, id: Id, tz: int)
    requires Finished(s.rows, id)
    ensures CanFinish(s, id, tz)
  {
    assert FinishesBy(s, id, [s], [], tz);
  }

  lemma {:induction false} FinishAfter(s: System, l: Label, id: Id, tz: int)
    requires CanFinish(Step(s, l, tz), id, tz)
    ensures CanFinish(s, id, tz)
  {
    hide Step, Finished;
    var s' := Step(s, l, tz);
    var ss, ls :| FinishesBy(s', id, ss, ls, tz);
    var ss', ls' := [s] + ss, [l] + ls;
    forall i | 0 <= i < |ls'| ensures ss'[i + 1] == Step(ss'[i], ls'[i], tz) {
      if i > 0 { assert ss[i] == Step(ss[i - 1], ls[i - 1], tz); }
    }
    assert FinishesBy(s, id, ss', ls', tz);
  }

  predicate At(s: System, w: nat, id: Id) { w in s.workers && s.workers[w].id == id && id in s.rows }

  lemma {:induction false} ClaimantFinishes(s: System, w: nat, id: Id, tz: int)
    requires At(s, w, id) && Claims(s.workers[w].pc)
    ensures CanFinish(s, id, tz)
    decreases if s.workers[w].pc.Computing? then 1 else 0
  {
    hide DueAt, ReportRange, CanFinish;
    match s.workers[w].pc
    case Computing(_, _) =>
      var l := Work(w, ComputeOk(0));
      ClaimantFinishes(Step(s, l, tz), w, id, tz);
      FinishAfter(s, l, id, tz);
    case Computed(_, _, _, _) =>
      AlreadyFinished(Step(s, Work(w, WriteReady(true)), tz), id, tz);
      FinishAfter(s, Work(w, WriteReady(true)), id, tz);
    case Failing(_, _) =>
      AlreadyFinished(Step(s, Work(w, WriteFailure(true, true)), tz), id, tz);
      FinishAfter(s, Work(w, WriteFailure(true, true)), id, tz);
    case _ =>
  }

  lemma {:induction false} ReaderFinishes(s: System, w: nat, id: Id, tz: int)
    requires At(s, w, id) && (s.workers[w].pc.Started? || s.workers[w].pc.Seen?) && s.rows[id].status.Pending?
    ensures CanFinish(s, id, tz)
    decreases if s.workers[w].pc.Started? then 1 else 0
  {
    hide DueAt, ReportRange, CanFinish;
    if s.workers[w].pc.Started? {
      ReaderFinishes(Step(s, Work(w, ReadRow), tz), w, id, tz);
      FinishAfter(s, Work(w, ReadRow), id, tz);
    } else {
      ClaimantFinishes(Step(s, Work(w, Claim), tz), w, id, tz);
      FinishAfter(s, Work(w, Claim), id, tz);
    }
  }

  /** A report left PROCESSING goes back to PENDING once it is old enough and the cron has run. */
  lemma {:induction false} CronFrees(s: System, id: Id, tz: int) returns (s': System)
    requires id in s.rows && s.rows[id].status.Processing?
    ensures id in s'.rows && s'.rows[id].status.Pending? && s'.workers == s.workers && s'.jobs == s.jobs
            && s'.now >= s.now
    ensures CanFinish(s', id, tz) ==> CanFinish(s, id, tz)
  {
    hide CanFinish, DueAt;
    var wait := Max(0, s.rows[id].updatedAt - s.now) + STALE_MINUTES * MINUTE + 1;
    var later := Step(s, Tick(wait), tz);
    s' := Step(later, Cron(later.now), tz);
    if CanFinish(s', id, tz) {
      FinishAfter(later, Cron(later.now), id, tz);
      FinishAfter(s, Tick(wait), id, tz);
    }
  }

  lemma {:induction false} WorkerFinishes(s: System, w: nat, id: Id, tz: int)
    requires At(s, w, id) && (s.workers[w].pc.Started? || s.workers[w].pc.Seen?)
    requires s.rows[id].status.Pending? || s.rows[id].status.Processing?
    ensures CanFinish(s, id, tz)
  {
    hide CanFinish;
    if s.rows[id].status.Pending? {
      ReaderFinishes(s, w, id, tz);
    } else {
      var s' := CronFrees(s, id, tz);
      ReaderFinishes(s', w, id, tz);
    }
  }

  lemma {:induction false} UnusedWorker(keys: set<nat>) returns (w: nat)
    ensures forall k :: k in keys ==> k < w
    decreases |keys|
  {
    w := 0;
    if keys != {} {
      var k: nat :| k in keys;
      w := UnusedWorker(keys - {k});
      if w <= k { w := k + 1; }
      assert forall j :: j in keys ==> j == k || j in keys - {k};
    }
  }

  lemma {:induction false} JobFinishes(s: System, id: Id, tz: int)
    requires id in s.jobs && id in s.rows && (s.rows[id].status.Pending? || s.rows[id].status.Processing?)
    ensures CanFinish(s, id, tz)
  {
    hide CanFinish, DueAt;
    var due := Step(s, Tick(Max(0, s.jobs[id] - s.now)), tz);
    var w := UnusedWorker(due.workers.Keys);
    var started := Step(due, Start(w, id), tz);
    assert w !in due.workers.Keys;
    WorkerFinishes(started, w, id, tz);
    FinishAfter(due, Start(w, id), id, tz);
    FinishAfter(s, Tick(Max(0, s.jobs[id] - s.now)), id, tz);
  }

  lemma {:induction false} CreatorFinishes(s: System, id: Id, tz: int)
    requires id in s.creating && id in s.rows && (s.rows[id].status.Pending? || s.rows[id].status.Processing?)
    ensures CanFinish(s, id, tz)
  {
    hide CanFinish, DueAt;
    JobFinishes(Step(s, Enqueue(id), tz), id, tz);
    FinishAfter(s, Enqueue(id), id, tz);
  }

  lemma {:induction false} SomebodyFinishes(s: System, id: Id, tz: int)
    requires AnyInv(s, tz) && id in s.rows && (s.rows[id].status.Pending? || s.rows[id].status.Processing?)
    requires !Abandoned(s, id)
    ensures CanFinish(s, id, tz)
  {
    hide DueAt, Numbered, CanFinish;
    if id in s.jobs {
      JobFinishes(s, id, tz);
    } else if id in s.creating {
      CreatorFinishes(s, id, tz);
    } else {
      var w :| w in s.workers && s.workers[w].id == id && !s.workers[w].pc.Delivered?;
      assert WorkerDue(s.rows, s.now, s.workers[w], tz) by { AnyFacts(s, w, tz); }
      if Claims(s.workers[w].pc) { ClaimantFinishes(s, w, id, tz); } else { WorkerFinishes(s, w, id, tz); }
    }
  }

  /** In every state of every run, a report that is PENDING or PROCESSING can still become READY or FAILED exactly
      when a job, a creator, or a worker that has not delivered yet is left for it. */
  lemma {:induction false} AbandonedExactly(ss: seq<System>, ls: seq<Label>, tz: int, j: nat, id: Id)
    requires Run(ss, ls, tz) && j < |ss| && id in ss[j].rows
    requires ss[j].rows[id].status.Pending? || ss[j].rows[id].status.Processing?
    ensures Abandoned(ss[j], id) <==> !CanFinish(ss[j], id, tz)
  {
    AnyRun(ss, ls, tz, j);
    hide Run, AnyInv, Abandoned, Step;
    var s := ss[j];
    if Abandoned(s, id) {
      forall more, ms ensures !FinishesBy(s, id, more, ms, tz) {
        if FinishesBy(s, id, more, ms, tz) {
          AbandonedForever(s, more, ms, tz, |ms|, id);
          AbandonedIsUnfinished(more[|ms|], id);
        }
      }
    } else {
      SomebodyFinishes(s, id, tz);
    }
  }

  lemma {:induction false} AbandonedIsUnfinished(s: System, id: Id)
    requires Abandoned(s, id)
    ensures !Finished(s.rows, id)
  {
  }

  // ---- Witness runs ----

  /** The only report's worker claims it and crashes, its job is removed, and the cron sets the row back to
      PENDING: nobody is left to finish it. */
  lemma CrashAbandons() returns (ss: seq<System>, ls: seq<Label>)
    ensures TimelyRun(ss, ls, 0) && |ls| == 9 && ls[8].Cron?
    ensures 0 in ss[9].rows && ss[9].rows[0].status.Pending? && Abandoned(ss[9], 0)
  {
    ss, ls := CrashedClaim();
    var s := ss[6];
    s := s.(jobs := map[]);
    Extended(ss, ls, JobRemoved(0), s, 0);
    ss, ls := ss + [s], ls + [JobRemoved(0)];
    var wait := STALE_MINUTES * MINUTE + 1;
    s := s.(now := wait);
    Extended(ss, ls, Tick(wait), s, 0);
    ss, ls := ss + [s], ls + [Tick(wait)];
    s := s.(rows := map[0 := SlowReport(Pending, wait)]);
    Extended(ss, ls, Cron(wait), s, 0);
    ss, ls := ss + [s], ls + [Cron(wait)];
  }

  lemma CrashedClaim() returns (ss: seq<System>, ls: seq<Label>)
    ensures Run(ss, ls, 0) && |ls| == 6 && forall i :: 0 <= i < |ls| ==> !ls[i].Cron?
    ensures ss[6] == System(map[0 := SlowReport(Processing, 0)], map[0 := 0], {}, map[], 0)
  {
    hide ReportRange;
    ss, ls := SlowWorkerStarts();
    var r, s := SlowReport(Pending, 0), ss[3];
    s := s.(workers := map[0 := Worker(0, Seen(r))]);
    Extended(ss, ls, Work(0, ReadRow), s, 0);
    ss, ls := ss + [s], ls + [Work(0, ReadRow)];
    s := s.(rows := map[0 := SlowReport(Processing, 0)], workers := map[0 := Worker(0, Computing(r, 0))]);
    Extended(ss, ls, Work(0, Claim), s, 0);
    ss, ls := ss + [s], ls + [Work(0, Claim)];
    s := s.(workers := map[]);
    Extended(ss, ls, Crash(0), s, 0);
    ss, ls := ss + [s], ls + [Crash(0)];
  }

  /** A worker whose claim the cron has reset sets a report that a second worker has just delivered back to PENDING,
      and the job goes: the second worker is left, yet nobody can finish the report. */
  lemma DeliveredWorkerIsNoHelp() returns (ss: seq<System>, ls: seq<Label>)
    ensures Run(ss, ls, 0) && |ls| == 16
    ensures 0 in ss[16].rows && ss[16].rows[0].status.Pending?
    ensures 1 in ss[16].workers && ss[16].workers[1].id == 0 && !CanFinish(ss[16], 0, 0)
  {
    ss, ls := DeliveredThenReset();
    var s := ss[15].(jobs := map[]);
    Extended(ss, ls, JobRemoved(0), s, 0);
    ss, ls := ss + [s], ls + [JobRemoved(0)];
    hide CanFinish, Run, Step;
    AbandonedExactly(ss, ls, 0, 16, 0);
  }

  lemma DeliveredThenReset() returns (ss: seq<System>, ls: seq<Label>)
    ensures Run(ss, ls, 0) && |ls| == 15
    ensures ss[15] == System(map[0 := Weekly1(Pending, RESET_AT, Some(7), Some(RESET_AT))], map[0 := WEEKS_END], {},
                             map[1 := Worker(0, Delivered(Weekly1(Pending, RESET_AT, None, None), RESET_AT))], RESET_AT)
  {
    ss, ls := SecondReady();
    hide DueAt;
    var r, r', s := Weekly1(Pending, 0, None, None), Weekly1(Pending, RESET_AT, None, None), ss[13];
    s := s.(workers := map[0 := Worker(0, Failing(r, WEEKS_END)), 1 := Worker(0, Delivered(r', RESET_AT))]);
    Extended(ss, ls, Work(0, ComputeFail), s, 0);
    ss, ls := ss + [s], ls + [Work(0, ComputeFail)];
    s := s.(rows := map[0 := Weekly1(Pending, RESET_AT, Some(7), Some(RESET_AT))],
            workers := map[1 := Worker(0, Delivered(r', RESET_AT))]);
    Extended(ss, ls, Work(0, WriteFailure(false, true)), s, 0);
    ss, ls := ss + [s], ls + [Work(0, WriteFailure(false, true))];
  }
}
