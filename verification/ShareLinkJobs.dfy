/** The delete jobs of shared links: what is queued, how long it stays queued, and what it does once due; and where
    a row's public id, token and expiry come from. */
module ShareLinkJobs {
  import opened Prelude
  import opened ShareLinks
  import opened ShareLinkRuns

  // ---- Queued and dropped ----

  /** The step queues, for the upload of this link, a delete job under this id. */
  predicate QueuesFor(s: System, l: Label, link: Link, job: nat) {
    l.QueueDelete? && l.ok && l.job == job && l.u in s.uploads && s.uploads[l.u] == OldDestroyed(link) && job !in s.jobs
  }

  /** The delete job an upload drops: the one the row it replaced had, or else the one its own row has. */
  function OldJob(link: Link, prev: Option<Link>): Option<nat> {
    match prev
    case Some(replaced) => if replaced.deleteJob.Some? then replaced.deleteJob else link.deleteJob
    case None => link.deleteJob
  }

  /** The step takes the job out of the queue: it is done, or an upload that replaced its link drops it. */
  predicate Takes(s: System, l: Label, job: nat) {
    || l == JobDone(job)
    || (l.DropJob? && l.ok && l.u in s.uploads && s.uploads[l.u].Saved?
        && OldJob(s.uploads[l.u].link, s.uploads[l.u].prev) == Some(job))
  }

  lemma {:induction false} JobsStep(s: System, l: Label, job: nat)
    ensures var s' := Step(s, l);
            && (job in s'.jobs <==>
                (job in s.jobs && !Takes(s, l, job)) || exists link :: QueuesFor(s, l, link, job))
            && (job in s.jobs && job in s'.jobs ==> s'.jobs[job] == s.jobs[job])
  {
    hide UploadStep, DeletionStep, OwnedFiles;
    if UploadLabel(l) && l.u in s.uploads { JobsUpload(s, l, job); }
    if DeletionLabel(l) && l.d in s.deletions { DeletionLeavesJobs(s, l); }
  }

  lemma {:induction false} JobsUpload(s: System, l: Label, job: nat)
    requires UploadLabel(l) && l.u in s.uploads
    ensures var s' := UploadStep(s, l);
            && (job in s'.jobs <==>
                (job in s.jobs && !Takes(s, l, job)) || exists link :: QueuesFor(s, l, link, job))
            && (job in s.jobs && job in s'.jobs ==> s'.jobs[job] == s.jobs[job])
  {
    hide OwnedFiles, Max;
    if l.QueueDelete? && s.uploads[l.u].OldDestroyed? && l.ok && job == l.job && job !in s.jobs {
      assert QueuesFor(s, l, s.uploads[l.u].link, job);
    }
  }

  lemma {:induction false} DeletionLeavesJobs(s: System, l: Label)
    requires DeletionLabel(l) && l.d in s.deletions
    ensures DeletionStep(s, l).jobs == s.jobs
  {
  }

  /** A job is queued for the link's public id and for its expiry, or for at once when that has passed. */
  lemma {:induction false} JobQueued(s: System, l: Label, link: Link, job: nat)
    requires QueuesFor(s, l, link, job)
    ensures job in Step(s, l).jobs && Step(s, l).jobs[job].publicId == link.publicId
    ensures Step(s, l).jobs[job].dueAt == if link.expiresAt < s.now then s.now else link.expiresAt
    ensures l.u in Step(s, l).uploads && Step(s, l).uploads[l.u] == Queued(link, job, s.now < link.expiresAt)
  {
  }

  /** Some step queued the job for the link, and nothing has taken it since. */
  ghost predicate QueuedSince(ss: seq<System>, ls: seq<Label>, i: nat, j: nat, link: Link, job: nat)
    requires j <= |ls| < |ss|
  {
    i < j && QueuesFor(ss[i], ls[i], link, job) && forall t: nat :: i < t < j ==> !Takes(ss[t], ls[t], job)
  }

  /** A queued job stays as it was queued until it is done or dropped. */
  lemma {:induction false} JobStays(ss: seq<System>, ls: seq<Label>, i: nat, j: nat, link: Link, job: nat)
    requires Run(ss, ls) && j < |ss| && QueuedSince(ss, ls, i, j, link, job)
    ensures job in ss[j].jobs
    ensures ss[j].jobs[job].publicId == link.publicId
    ensures ss[j].jobs[job].dueAt == if link.expiresAt < ss[i].now then ss[i].now else link.expiresAt
    decreases j
  {
    hide Step, QueuesFor, Takes;
    assert ss[j] == Step(ss[j - 1], ls[j - 1]);
    if j == i + 1 {
      JobQueued(ss[i], ls[i], link, job);
    } else {
      JobStays(ss, ls, i, j - 1, link, job);
      JobsStep(ss[j - 1], ls[j - 1], job);
    }
  }

  /** And every job in the queue was queued by an upload and not taken since. */
  lemma {:induction false} JobOrigin(ss: seq<System>, ls: seq<Label>, j: nat, job: nat) returns (i: nat, link: Link)
    requires Run(ss, ls) && j < |ss| && job in ss[j].jobs
    ensures QueuedSince(ss, ls, i, j, link, job)
    decreases j
  {
    assert j > 0 && ss[j] == Step(ss[j - 1], ls[j - 1]);
    hide Step, QueuesFor, Takes;
    var s, l := ss[j - 1], ls[j - 1];
    JobsStep(s, l, job);
    if exists k :: QueuesFor(s, l, k, job) {
      i := j - 1;
      link :| QueuesFor(s, l, link, job);
    } else {
      i, link := JobOrigin(ss, ls, j - 1, job);
    }
  }

  // ---- What a due job does ----

  /** A deletion carrying p that has yet to check runs to its end: with the remote delete succeeding, the row and
      the file go if the row still names p, and nothing changes if it does not. */
  function Deleted(s: System, d: nat): System {
    var checked := Step(s, Check(d));
    var destroyed := Step(checked, Destroy(d, true));
    Step(destroyed, Clear(d))
  }

  lemma {:induction false} DeletionEnds(s: System, d: nat, p: nat)
    requires d in s.deletions && s.deletions[d] == Checking(p)
    ensures var s' := Deleted(s, d);
            && s'.deletions == s.deletions - {d} && s'.uploads == s.uploads && s'.jobs == s.jobs
            && if s.link.Some? && s.link.value.publicId == p then s'.link.None? && s'.files == s.files - {p}
               else s'.link == s.link && s'.files == s.files
  {
    if Names(s.link, p) {
      NamedIsDestroyed(s, d, p);
      hide Step;
      ClearedAway(Step(Step(s, Check(d)), Destroy(d, true)), d, p);
    } else {
      var gone := s.(deletions := s.deletions - {d});
      assert Step(s, Check(d)) == gone;
      hide DeletionStep, UploadStep;
      assert Step(gone, Destroy(d, true)) == gone && Step(gone, Clear(d)) == gone;
    }
  }

  lemma {:induction false} NamedIsDestroyed(s: System, d: nat, p: nat)
    requires d in s.deletions && s.deletions[d] == Checking(p) && Names(s.link, p)
    ensures Step(Step(s, Check(d)), Destroy(d, true))
            == s.(files := s.files - {p}, leaked := s.leaked - {p}, deletions := s.deletions[d := Clearing(p)])
  {
    hide UploadStep;
    var checked := s.(deletions := s.deletions[d := Destroying(p)]);
    assert Step(s, Check(d)) == checked;
    assert checked.deletions[d := Clearing(p)] == s.deletions[d := Clearing(p)];
  }

  lemma {:induction false} ClearedAway(s: System, d: nat, p: nat)
    requires d in s.deletions && s.deletions[d] == Clearing(p) && Names(s.link, p)
    ensures Step(s, Clear(d)) == s.(link := None, deletions := s.deletions - {d})
  {
    hide UploadStep;
  }

  /** Once due, a job starts a deletion of its public id; before, it starts none. */
  lemma {:induction false} JobFires(s: System, d: nat, job: nat)
    requires d !in s.deletions && job in s.jobs
    ensures var s' := Step(s, FireJob(d, job));
            && (d in s'.deletions <==> s.jobs[job].dueAt <= s.now)
            && (d in s'.deletions ==> s'.deletions == s.deletions[d := Checking(s.jobs[job].publicId)])
            && s'.link == s.link && s'.files == s.files && s'.jobs == s.jobs
  {
  }

  /** A link whose delete job was queued and not taken since is deleted by it, row and file, at any time from its
      expiry on, as long as the row still names it and the remote delete succeeds. */
  lemma {:induction false} DueJobDeletesLink(ss: seq<System>, ls: seq<Label>, i: nat, j: nat, link: Link, job: nat,
                                             d: nat)
    requires Run(ss, ls) && j < |ss| && QueuedSince(ss, ls, i, j, link, job) && d !in ss[j].deletions
    requires link.expiresAt <= ss[j].now && Names(ss[j].link, link.publicId)
    ensures var s' := Deleted(Step(ss[j], FireJob(d, job)), d);
            s'.link.None? && s'.files == ss[j].files - {link.publicId} && s'.deletions == ss[j].deletions
  {
    JobStays(ss, ls, i, j, link, job);
    ClockGrows(ss, ls, i, j);
    JobFires(ss[j], d, job);
    hide Run, Step, Deleted;
    DeletionEnds(Step(ss[j], FireJob(d, job)), d, link.publicId);
  }

  lemma {:induction false} ClockGrows(ss: seq<System>, ls: seq<Label>, i: nat, j: nat)
    requires Run(ss, ls) && i <= j < |ss|
    ensures ss[i].now <= ss[j].now
    decreases j - i
  {
    hide Step;
    if i < j {
      ClockGrows(ss, ls, i, j - 1);
      ClockStep(ss[j - 1], ls[j - 1]);
    }
  }

  lemma {:induction false} ClockStep(s: System, l: Label)
    ensures s.now <= Step(s, l).now
  {
    hide UploadStep, DeletionStep, OwnedFiles;
    if UploadLabel(l) && l.u in s.uploads { UploadLeavesClock(s, l); }
    if DeletionLabel(l) && l.d in s.deletions { DeletionLeavesExpiry(s, l); }
  }

  lemma {:induction false} UploadLeavesClock(s: System, l: Label)
    requires UploadLabel(l) && l.u in s.uploads
    ensures UploadStep(s, l).now == s.now
  {
    hide OwnedFiles, Max, Upserted, JobRecorded;
  }

  /** A visit finds only the row with its own token. */
  lemma {:induction false} VisitNeedsToken(s: System, d: nat, token: nat)
    requires s.link.None? || s.link.value.token != token
    ensures Step(s, Visit(d, token)) == s
  {
  }

  /** A visit to an expired link deletes it the same way; a visit before that changes nothing. */
  lemma {:induction false} VisitDeletesExpired(s: System, d: nat, token: nat)
    requires d !in s.deletions && s.link.Some? && s.link.value.token == token
    ensures var s' := Step(Step(s, Visit(d, token)), Expire(d));
            if s.link.value.expiresAt < s.now
            then
              var t := Deleted(s', d);
              t.link.None? && t.files == s.files - {s.link.value.publicId} && t.deletions == s.deletions
            else s' == s
  {
    var link := s.link.value;
    var s' := Step(Step(s, Visit(d, token)), Expire(d));
    hide UploadStep;
    if link.expiresAt < s.now {
      DeletionEnds(s', d, link.publicId);
      hide Deleted;
    }
  }

  /** The step is the last of upload u: its upload fails, its catch block is through, it has recorded its job or has
      none to record, or it is cut off. */
  predicate EndsUpload(s: System, l: Label, u: nat)
    requires u in s.uploads
  {
    match s.uploads[u]
    case Uploading => l == StopUpload(u) || (l.Upload? && l.u == u && !l.ok)
    case Queued(_, _, delayed) => l == StopUpload(u) || (l.RecordJob? && l.u == u && (!delayed || l.ok))
    case Undoing(_, _) => l == StopUpload(u) || (l.Undo? && l.u == u)
    case _ => l == StopUpload(u)
  }

  lemma {:induction false} UploadEndsExactly(s: System, l: Label, u: nat)
    requires u in s.uploads
    ensures u !in Step(s, l).uploads <==> EndsUpload(s, l, u)
  {
    hide UploadStep, DeletionStep, OwnedFiles;
    if DeletionLabel(l) && l.d in s.deletions { DeletionLeavesUploads(s, l); }
    if UploadLabel(l) && l.u in s.uploads { UploadEnds(s, l, u); }
  }

  lemma {:induction false} UploadEnds(s: System, l: Label, u: nat)
    requires u in s.uploads && UploadLabel(l) && l.u in s.uploads
    ensures u !in UploadStep(s, l).uploads <==> EndsUpload(s, l, u)
  {
    hide OwnedFiles, Max, Upserted, JobRecorded, EndsUpload;
    if l.u == u { OwnUploadEnds(s, l, u); } else { OtherUploadGoesOn(s, l, u); }
  }

  lemma {:induction false} OwnUploadEnds(s: System, l: Label, u: nat)
    requires u in s.uploads && UploadLabel(l) && l.u == u
    ensures u !in UploadStep(s, l).uploads <==> EndsUpload(s, l, u)
  {
    hide OwnedFiles, Max, Upserted, JobRecorded;
  }

  lemma {:induction false} OtherUploadGoesOn(s: System, l: Label, u: nat)
    requires u in s.uploads && UploadLabel(l) && l.u in s.uploads && l.u != u
    ensures u in UploadStep(s, l).uploads && !EndsUpload(s, l, u)
  {
    hide OwnedFiles, Max, Upserted, JobRecorded;
  }

  // ---- The recorded job ----

  /** The row takes the id of a delayed job exactly when it still has the upload's token. */
  lemma {:induction false} JobIsRecorded(s: System, u: nat, link: Link, job: nat)
    requires u in s.uploads && s.uploads[u] == Queued(link, job, true)
    ensures var s' := Step(s, RecordJob(u, true));
            && u !in s'.uploads
            && s'.link == if s.link.Some? && s.link.value.token == link.token
                          then Some(Link(s.link.value.publicId, s.link.value.token, s.link.value.expiresAt, Some(job)))
                          else s.link
  {
  }

  /** The step writes the id of a delete job to the row. */
  predicate RecordsOne(s: System, l: Label) {
    && l.RecordJob? && l.ok && l.u in s.uploads && s.uploads[l.u].Queued? && s.uploads[l.u].delayed
    && s.link.Some? && s.link.value.token == s.uploads[l.u].link.token
  }

  predicate Records(s: System, l: Label, job: nat) { RecordsOne(s, l) && s.uploads[l.u].job == job }

  predicate HasJob(s: System, job: nat) { s.link.Some? && s.link.value.deleteJob == Some(job) }

  lemma {:induction false} HasJobStep(s: System, l: Label, job: nat)
    ensures HasJob(Step(s, l), job) <==>
              Records(s, l, job)
              || (HasJob(s, job) && Step(s, l).link.Some? && !RecordsOne(s, l))
  {
    hide UploadStep, DeletionStep, OwnedFiles;
    if UploadLabel(l) && l.u in s.uploads { HasJobUpload(s, l, job); }
    if DeletionLabel(l) && l.d in s.deletions { HasJobDeletion(s, l); }
  }

  lemma {:induction false} HasJobUpload(s: System, l: Label, job: nat)
    requires UploadLabel(l) && l.u in s.uploads
    ensures HasJob(UploadStep(s, l), job) <==>
              Records(s, l, job)
              || (HasJob(s, job) && UploadStep(s, l).link.Some? && !RecordsOne(s, l))
  {
    hide OwnedFiles, Max;
  }

  lemma {:induction false} HasJobDeletion(s: System, l: Label)
    requires DeletionLabel(l) && l.d in s.deletions
    ensures DeletionStep(s, l).link.Some? ==> DeletionStep(s, l).link == s.link
  {
  }

  /** At step k the job is written to the row, and until state j no other is, nor does the row go: uploads that
      replace the link keep it. */
  ghost predicate RecordedSince(ss: seq<System>, ls: seq<Label>, k: nat, j: nat, job: nat)
    requires j <= |ls| < |ss|
  {
    && k < j && Records(ss[k], ls[k], job)
    && (forall m: nat :: k < m < j ==> !RecordsOne(ss[m], ls[m]))
    && (forall m: nat :: k < m <= j ==> ss[m].link.Some?)
  }

  /** The row has the id of a delete job exactly when that was the last one written to it since it was there. */
  lemma {:induction false} RecordedExactly(ss: seq<System>, ls: seq<Label>, j: nat, job: nat)
    requires Run(ss, ls) && j < |ss|
    ensures HasJob(ss[j], job) <==> exists k: nat :: RecordedSince(ss, ls, k, j, job)
    decreases j
  {
    hide Step, RecordsOne;
    if j > 0 {
      var i := j - 1;
      assert ss[j] == Step(ss[i], ls[i]);
      RecordedExactly(ss, ls, i, job);
      HasJobStep(ss[i], ls[i], job);
      hide Run, HasJob;
      if Records(ss[i], ls[i], job) {
        assert RecordedSince(ss, ls, i, j, job);
      } else if HasJob(ss[i], job) && HasJob(ss[j], job) {
        var k: nat :| RecordedSince(ss, ls, k, i, job);
        assert RecordedSince(ss, ls, k, j, job);
      }
      forall k: nat | RecordedSince(ss, ls, k, j, job) && k < i ensures RecordedSince(ss, ls, k, i, job) {}
    }
  }

  /** An upload that replaces a row takes that row's delete job out of the queue. */
  lemma {:induction false} ReplacedJobDropped(s: System, u: nat, replaced: Link, link: Link)
    requires u in s.uploads && s.uploads[u] == Saved(link, Some(replaced)) && replaced.deleteJob.Some?
    ensures var s' := Step(s, DropJob(u, true));
            replaced.deleteJob.value !in s'.jobs
            && forall j :: j in s.jobs && j != replaced.deleteJob.value ==> j in s'.jobs
  {
  }

  // ---- Where a row comes from ----

  /** Step a uploads the file p and step b commits its link with this token. */
  predicate UploadAndSave(ss: seq<System>, ls: seq<Label>, a: nat, b: nat, p: nat, token: nat) {
    && a < b < |ls| && b < |ss| && ls[a].Upload? && ls[a].ok && ls[a].p == p && p !in ss[a].issued
    && ls[a].u in ss[a].uploads && ss[a].uploads[ls[a].u].Uploading?
    && ls[b] == Save(ls[a].u, token, true)
  }

  predicate Ready(s: System, u: nat, p: nat, expiresAt: Time) {
    u in s.uploads && s.uploads[u] == Uploaded(p, expiresAt)
  }

  lemma {:induction false} UploadedBefore(s: System, l: Label, u: nat, p: nat, expiresAt: Time)
    requires Ready(Step(s, l), u, p, expiresAt)
    ensures Ready(s, u, p, expiresAt)
            || (l == Label.Upload(u, p, true) && u in s.uploads && s.uploads[u].Uploading? && p !in s.issued
                && expiresAt == s.now + 7 * 24 * 60 * 60 * 1000)
  {
    hide UploadStep, DeletionStep, OwnedFiles;
    if DeletionLabel(l) && l.d in s.deletions { DeletionLeavesUploads(s, l); }
    if UploadLabel(l) && l.u in s.uploads { UploadMakesReady(s, l, u, p, expiresAt); }
  }

  lemma {:induction false} UploadMakesReady(s: System, l: Label, u: nat, p: nat, expiresAt: Time)
    requires UploadLabel(l) && l.u in s.uploads && Ready(UploadStep(s, l), u, p, expiresAt)
    ensures Ready(s, u, p, expiresAt)
            || (l == Label.Upload(u, p, true) && u in s.uploads && s.uploads[u].Uploading? && p !in s.issued
                && expiresAt == s.now + 7 * 24 * 60 * 60 * 1000)
  {
    hide OwnedFiles, Max, Upserted, JobRecorded;
  }

  lemma {:induction false} UploadedOrigin(ss: seq<System>, ls: seq<Label>, b: nat, u: nat, p: nat, expiresAt: Time)
    returns (a: nat)
    requires Run(ss, ls) && b < |ss| && Ready(ss[b], u, p, expiresAt)
    ensures a < b && ls[a] == Label.Upload(u, p, true) && p !in ss[a].issued
    ensures u in ss[a].uploads && ss[a].uploads[u].Uploading?
    ensures expiresAt == ss[a].now + 7 * 24 * 60 * 60 * 1000
    decreases b
  {
    assert b > 0 && ss[b] == Step(ss[b - 1], ls[b - 1]);
    hide Step;
    UploadedBefore(ss[b - 1], ls[b - 1], u, p, expiresAt);
    if Ready(ss[b - 1], u, p, expiresAt) { a := UploadedOrigin(ss, ls, b - 1, u, p, expiresAt); } else { a := b - 1; }
  }

  predicate SameButJob(a: Link, b: Link) {
    a.publicId == b.publicId && a.token == b.token && a.expiresAt == b.expiresAt
  }

  predicate LinkComesFrom(s: System, l: Label, link: Link) {
    (s.link.Some? && SameButJob(s.link.value, link))
    || (l.Save? && l.ok && l.token == link.token && Ready(s, l.u, link.publicId, link.expiresAt))
  }

  lemma {:induction false} LinkBefore(s: System, l: Label)
    requires Step(s, l).link.Some?
    ensures LinkComesFrom(s, l, Step(s, l).link.value)
  {
    hide UploadStep, DeletionStep, OwnedFiles;
    if UploadLabel(l) && l.u in s.uploads { UploadLink(s, l); }
    if DeletionLabel(l) && l.d in s.deletions { DeletionLink(s, l); }
  }

  lemma {:induction false} UploadLink(s: System, l: Label)
    requires UploadLabel(l) && l.u in s.uploads && UploadStep(s, l).link.Some?
    ensures LinkComesFrom(s, l, UploadStep(s, l).link.value)
  {
    hide OwnedFiles, Max;
  }

  lemma {:induction false} DeletionLink(s: System, l: Label)
    requires DeletionLabel(l) && l.d in s.deletions && DeletionStep(s, l).link.Some?
    ensures DeletionStep(s, l).link == s.link
  {
  }

  /** A row's public id, token and expiry are those of an upload: the file uploaded, the token saved with it, and
      seven days after the upload. */
  lemma {:induction false} RowOrigin(ss: seq<System>, ls: seq<Label>, j: nat) returns (a: nat, b: nat)
    requires Run(ss, ls) && j < |ss| && ss[j].link.Some?
    ensures b < j && UploadAndSave(ss, ls, a, b, ss[j].link.value.publicId, ss[j].link.value.token)
    ensures ss[j].link.value.expiresAt == ss[a].now + 7 * 24 * 60 * 60 * 1000
    decreases j
  {
    var link := ss[j].link.value;
    assert j > 0 && ss[j] == Step(ss[j - 1], ls[j - 1]);
    hide Step;
    LinkBefore(ss[j - 1], ls[j - 1]);
    if ss[j - 1].link.Some? && SameButJob(ss[j - 1].link.value, link) {
      a, b := RowOrigin(ss, ls, j - 1);
    } else {
      b := j - 1;
      a := UploadedOrigin(ss, ls, b, ls[b].u, link.publicId, link.expiresAt);
    }
  }
}
