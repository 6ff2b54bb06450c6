/** One compute job with its retries: BullMQ runs the worker again after a throw, up to three attempts.
    No statement fails and no worker crashes here; the user may cancel at any point. */
module ReportJob {
  import opened Prelude
  import opened ReportTable
  import opened ReportWorker

  const ATTEMPTS := 3

  /** `failures` counts the computations of this job that ran and failed. */
  datatype Job = Job(rows: Reports, id: Id, pc: Pc, attemptsMade: nat, failures: nat)

  /** `ok` decides the computation, or whether the next occurrence gets created. */
  datatype Event = Segment(ok: bool, m: nat, now: Time) | UserCancels(now: Time)

  function ActOf(pc: Pc, attemptsMade: nat, ok: bool, m: nat): Act {
    match pc
    case Started => ReadRow
    case Seen(_) => Claim
    case Computing(_, _) => if ok then ComputeOk(m) else ComputeFail
    case Computed(_, _, _, _) => WriteReady(true)
    case Delivered(_, _) => Chain(m, ok)
    case Failing(_, _) => WriteFailure(attemptsMade >= ATTEMPTS - 1, true)
    case Done(_) => ReadRow
  }

  predicate Over(j: Job) {
    j.pc.Done? && (j.pc.threw ==> j.attemptsMade + 1 >= ATTEMPTS)
  }

  function Next(j: Job, e: Event): Job {
    match e
    case UserCancels(now) => j.(rows := SetStatusIfPending(j.rows, j.id, Cancelled, now))
    case Segment(ok, m, now) =>
      if Over(j) then j
      else if j.pc.Done? then j.(pc := Started, attemptsMade := j.attemptsMade + 1)
      else
        var (rows, pc) := Advance(j.rows, j.id, j.pc, ActOf(j.pc, j.attemptsMade, ok, m), now);
        j.(rows := rows, pc := pc, failures := j.failures + if pc.Failing? then 1 else 0)
  }

  function After(j: Job, es: seq<Event>): Job {
    if es == [] then j else Next(After(j, es[..|es| - 1]), es[|es| - 1])
  }

  predicate Fresh(j: Job) {
    j.id in j.rows && j.rows[j.id].status.Pending? && j.pc.Started? && j.attemptsMade == 0 && j.failures == 0
  }

  predicate Consistent(j: Job) {
    j.id in j.rows && j.attemptsMade < ATTEMPTS &&
    var st := j.rows[j.id].status;
    (st.Cancelled? ==> j.failures < ATTEMPTS) &&
    match j.pc
    case Started => st.Cancelled? || (st.Pending? && j.failures == j.attemptsMade)
    case Seen(_) => st.Cancelled? || (st.Pending? && j.failures == j.attemptsMade)
    case Computing(_, _) => st.Processing? && j.failures == j.attemptsMade
    case Computed(_, _, _, _) => st.Processing? && j.failures == j.attemptsMade
    case Failing(_, _) => st.Processing? && j.failures == j.attemptsMade + 1
    case Delivered(_, _) => st.Ready? && j.failures == j.attemptsMade
    case Done(threw) =>
      if threw then
        st.Cancelled?
        || (j.failures == j.attemptsMade + 1 && if j.failures == ATTEMPTS then st.Failed? else st.Pending?)
      else st.Cancelled? || (st.Ready? && j.failures == j.attemptsMade)
  }

  /** Segments still needed before the job is over. */
  function Remaining(j: Job): int {
    (ATTEMPTS - 1 - j.attemptsMade) * 6 +
    match j.pc
    case Started => 5
    case Seen(_) => 4
    case Computing(_, _) => 3
    case Computed(_, _, _, _) => 2
    case Failing(_, _) => 1
    case Delivered(_, _) => 1
    case Done(_) => 0
  }

  lemma {:induction false} NextConsistent(j: Job, e: Event)
    requires Consistent(j)
    ensures Consistent(Next(j, e)) && Next(j, e).id == j.id
    ensures e.UserCancels? ==> Remaining(Next(j, e)) == Remaining(j) && (Over(j) ==> Over(Next(j, e)))
    ensures e.Segment? && !Over(j) ==> Remaining(Next(j, e)) < Remaining(j)
  {
  }

  function Segments(es: seq<Event>): nat {
    if es == [] then 0 else Segments(es[..|es| - 1]) + if es[|es| - 1].Segment? then 1 else 0
  }

  lemma {:induction false} AfterConsistent(j: Job, es: seq<Event>)
    requires Fresh(j)
    ensures var k := After(j, es); Consistent(k) && k.id == j.id && (Over(k) || Segments(es) + Remaining(k) <= 17)
  {
    if es != [] {
      AfterConsistent(j, es[..|es| - 1]);
      NextConsistent(After(j, es[..|es| - 1]), es[|es| - 1]);
    }
  }

  /** After 18 segments at most, whatever the computations do and whenever the user cancels, the job is
      over and its report READY, FAILED or CANCELLED; FAILED exactly when all three computations ran and failed. */
  lemma {:induction false} JobSettles(j: Job, es: seq<Event>)
    requires Fresh(j) && Segments(es) >= 18
    ensures var k := After(j, es); Over(k) && j.id in k.rows && Terminal(k.rows[j.id].status)
                                   && (k.rows[j.id].status.Failed? <==> k.failures == 3)
  {
    AfterConsistent(j, es);
  }
}
