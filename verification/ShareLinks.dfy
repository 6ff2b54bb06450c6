/** The shareable link of one report: its database row, the remote files, the delayed delete jobs, and any
    interleaving of uploads, deletions and visits, with faults and crashes. */
module ShareLinks {
  import opened Prelude

  const LINK_LIFE := 7 * DAY

  /** The row of uploaded-reports for the report. Public ids and tokens are never reused. */
  datatype Link = Link(publicId: nat, token: nat, expiresAt: Time, deleteJob: Option<nat>)

  datatype DeleteJob = DeleteJob(publicId: nat, dueAt: Time)

  /** Where uploadReportToCloudinary stands; `Undoing` is its catch block. */
  datatype UploadPc =
    | Uploading
    | Uploaded(p: nat, expiresAt: Time)
    | Saved(link: Link, prev: Option<Link>)
    | JobDropped(link: Link, prev: Option<Link>)
    | OldDestroyed(link: Link)
    | Queued(link: Link, job: nat, delayed: bool)
    | Undoing(p: nat, committed: bool)

  /** Where deleteRemoteReport, carrying public id p, stands; `Visiting` is a visit that has read the row and
      has yet to compare its expiry with the clock. */
  datatype DeletePc = Visiting(p: nat, expiresAt: Time) | Checking(p: nat) | Destroying(p: nat) | Clearing(p: nat)

  // ---- The statements on the row ----

  predicate Names(link: Option<Link>, p: nat) { link.Some? && link.value.publicId == p }

  /** The upsert keeps the delete job of the row it replaces. */
  function Upserted(prev: Option<Link>, p: nat, token: nat, expiresAt: Time): Link {
    Link(p, token, expiresAt, if prev.Some? then prev.value.deleteJob else None)
  }

  function Cleared(link: Option<Link>, p: nat): Option<Link> {
    if Names(link, p) then None else link
  }

  function JobRecorded(link: Option<Link>, token: nat, job: nat): Option<Link> {
    if link.Some? && link.value.token == token then Some(link.value.(deleteJob := Some(job))) else link
  }

  class UploadedReportModelAction {
    var link: Option<Link>

    constructor ()
      ensures link == None
    {
      link := None;
    }

    /** The locked transaction; `ok` is false when any statement in it fails and it rolls back. */
    method UpsertUploadedReport(p: nat, token: nat, expiresAt: Time, ok: bool) returns (existing: Option<Link>)
      modifies this
      ensures existing == old(link)
      ensures link == if ok then Some(Upserted(old(link), p, token, expiresAt)) else old(link)
    {
      existing := link;
      if existing.Some? {
        link := Some(existing.value.(publicId := p, token := token, expiresAt := expiresAt));
      } else {
        link := Some(Link(p, token, expiresAt, None));
      }
      if !ok { link := existing; }
    }

    method DeleteNaming(p: nat)
      modifies this
      ensures link == Cleared(old(link), p)
    {
      if link.Some? && link.value.publicId == p { link := None; }
    }

    method RecordDeleteJob(token: nat, job: nat)
      modifies this
      ensures link == JobRecorded(old(link), token, job)
    {
      if link.Some? && link.value.token == token { link := Some(link.value.(deleteJob := Some(job))); }
    }
  }

  // ---- The system ----

  /** `issued`, `expiry`, `broken` and `leaked` are history: every public id handed out, the expiry it was
      saved with, the ids whose file went while the row stayed, and the files nothing refers to any more. */
  datatype System = System(link: Option<Link>, files: set<nat>, jobs: map<nat, DeleteJob>,
                           uploads: map<nat, UploadPc>, deletions: map<nat, DeletePc>, now: Time,
                           issued: set<nat>, expiry: map<nat, Time>, broken: set<nat>, leaked: set<nat>)

  /** `ok` is false when the call raises, or a remote delete reports failure, without taking effect. */
  datatype Label =
    | Tick(ms: nat)
    | BeginUpload(u: nat)
    | Upload(u: nat, p: nat, ok: bool)
    | Save(u: nat, token: nat, ok: bool)
    | DropJob(u: nat, ok: bool)
    | DestroyOld(u: nat, ok: bool)
    | QueueDelete(u: nat, job: nat, ok: bool)
    | RecordJob(u: nat, ok: bool)
    | Undo(u: nat, ok: bool)
    | StopUpload(u: nat)
    | FireJob(d: nat, job: nat)
    | JobDone(job: nat)
    | Visit(d: nat, token: nat)
    | Expire(d: nat)
    | Check(d: nat)
    | Destroy(d: nat, ok: bool)
    | Clear(d: nat)
    | StopDeletion(d: nat)

  function Ended(s: System, u: nat): System { s.(uploads := s.uploads - {u}) }

  function At(s: System, u: nat, pc: UploadPc): System { s.(uploads := s.uploads[u := pc]) }

  /** The files an upload is about to destroy or to hand to the row. */
  predicate Owns(pc: UploadPc, p: nat) {
    match pc
    case Uploaded(q, _) => q == p
    case Undoing(q, committed) => q == p && !committed
    case Saved(_, prev) => Names(prev, p)
    case JobDropped(_, prev) => Names(prev, p)
    case _ => false
  }

  function OwnedFiles(files: set<nat>, pc: UploadPc): set<nat> {
    set p | p in files && Owns(pc, p)
  }

  predicate UploadLabel(l: Label) {
    l.Upload? || l.Save? || l.DropJob? || l.DestroyOld? || l.QueueDelete? || l.RecordJob? || l.Undo?
  }

  function UploadStep(s: System, l: Label): System
    requires UploadLabel(l) && l.u in s.uploads
  {
    var u := l.u;
    match (s.uploads[u], l)
    case (Uploading, Upload(_, p, ok)) =>
      if !ok then Ended(s, u)
      else if p in s.issued then s
      else At(s, u, Uploaded(p, s.now + LINK_LIFE)).(files := s.files + {p}, issued := s.issued + {p})
    case (Uploaded(p, expiresAt), Save(_, token, ok)) =>
      if !ok then At(s, u, Undoing(p, false))
      else
        var link := Upserted(s.link, p, token, expiresAt);
        At(s, u, Saved(link, s.link)).(link := Some(link), expiry := s.expiry[p := link.expiresAt])
    case (Saved(link, prev), DropJob(_, ok)) =>
      var job := if prev.Some? && prev.value.deleteJob.Some? then prev.value.deleteJob else link.deleteJob;
      At(s, u, JobDropped(link, prev)).(jobs := if job.Some? && ok then s.jobs - {job.value} else s.jobs)
    case (JobDropped(link, prev), DestroyOld(_, ok)) =>
      var s' := At(s, u, OldDestroyed(link));
      if prev.None? || prev.value.publicId == link.publicId then s'
      else if ok then s'.(files := s.files - {prev.value.publicId})
      else s'.(leaked := s.leaked + OwnedFiles(s.files, s.uploads[u]))
    case (OldDestroyed(link), QueueDelete(_, job, ok)) =>
      if !ok then At(s, u, Undoing(link.publicId, true))
      else if job in s.jobs then s
      else At(s, u, Queued(link, job, s.now < link.expiresAt))
           .(jobs := s.jobs[job := DeleteJob(link.publicId, Max(s.now, link.expiresAt))])
    case (Queued(link, job, delayed), RecordJob(_, ok)) =>
      if !delayed then Ended(s, u)
      else if ok then Ended(s, u).(link := JobRecorded(s.link, link.token, job))
      else At(s, u, Undoing(link.publicId, true))
    case (Undoing(p, committed), Undo(_, ok)) =>
      if ok then Ended(s, u).(files := s.files - {p}, leaked := s.leaked - {p},
                              broken := if committed then s.broken + {p} else s.broken)
      else Ended(s, u).(leaked := s.leaked + OwnedFiles(s.files, s.uploads[u]))
    case _ => s
  }

  predicate DeletionLabel(l: Label) { l.Expire? || l.Check? || l.Destroy? || l.Clear? }

  function DeletionStep(s: System, l: Label): System
    requires DeletionLabel(l) && l.d in s.deletions
  {
    var d := l.d;
    match (s.deletions[d], l)
    case (Visiting(p, expiresAt), Expire(_)) =>
      s.(deletions := if s.now > expiresAt then s.deletions[d := Checking(p)] else s.deletions - {d})
    case (Checking(p), Check(_)) =>
      s.(deletions := if Names(s.link, p) then s.deletions[d := Destroying(p)] else s.deletions - {d})
    case (Destroying(p), Destroy(_, ok)) =>
      if ok then s.(files := s.files - {p}, leaked := s.leaked - {p}, deletions := s.deletions[d := Clearing(p)])
      else s.(deletions := s.deletions - {d})
    case (Clearing(p), Clear(_)) => s.(link := Cleared(s.link, p), deletions := s.deletions - {d})
    case _ => s
  }

  function Step(s: System, l: Label): System {
    match l
    case Tick(ms) => s.(now := s.now + ms)
    case BeginUpload(u) => if u in s.uploads then s else At(s, u, Uploading)
    case StopUpload(u) =>
      if u in s.uploads then Ended(s, u).(leaked := s.leaked + OwnedFiles(s.files, s.uploads[u])) else s
    case FireJob(d, job) =>
      if d !in s.deletions && job in s.jobs && s.jobs[job].dueAt <= s.now
      then s.(deletions := s.deletions[d := Checking(s.jobs[job].publicId)]) else s
    case JobDone(job) => s.(jobs := s.jobs - {job})
    case Visit(d, token) =>
      if d !in s.deletions && s.link.Some? && s.link.value.token == token
      then s.(deletions := s.deletions[d := Visiting(s.link.value.publicId, s.link.value.expiresAt)]) else s
    case Expire(d) => if d in s.deletions then DeletionStep(s, l) else s
    case Check(d) => if d in s.deletions then DeletionStep(s, l) else s
    case Destroy(d, _) => if d in s.deletions then DeletionStep(s, l) else s
    case Clear(d) => if d in s.deletions then DeletionStep(s, l) else s
    case StopDeletion(d) =>
      if d in s.deletions then
        s.(deletions := s.deletions - {d},
           broken := if s.deletions[d].Clearing? then s.broken + {s.deletions[d].p} else s.broken)
      else s
    case _ => if l.u in s.uploads then UploadStep(s, l) else s
  }

  predicate Init(s: System) {
    s.link == None && s.files == {} && s.jobs == map[] && s.uploads == map[] && s.deletions == map[]
    && s.issued == {} && s.expiry == map[] && s.broken == {} && s.leaked == {}
  }

  ghost predicate Run(ss: seq<System>, ls: seq<Label>) {
    |ss| == |ls| + 1 && Init(ss[0]) && forall i :: 0 <= i < |ls| ==> ss[i + 1] == Step(ss[i], ls[i])
  }

  // ---- The invariant ----

  /** A link whose public id was saved with the link's own expiry. */
  predicate Dated(s: System, link: Link) {
    link.publicId in s.expiry && s.expiry[link.publicId] == link.expiresAt
  }

  predicate PcOk(s: System, pc: UploadPc) {
    match pc
    case Uploading => true
    case Uploaded(p, _) => p in s.files && p !in s.expiry && p !in s.leaked
    case Saved(link, prev) => Dated(s, link) && PrevOk(s, link, prev)
    case JobDropped(link, prev) => Dated(s, link) && PrevOk(s, link, prev)
    case OldDestroyed(link) => Dated(s, link)
    case Queued(link, _, _) => Dated(s, link)
    case Undoing(p, committed) => p in s.issued
                                  && (if committed then p in s.expiry else p !in s.expiry && p !in s.leaked)
  }

  /** The replaced link's file is the upload's to destroy: neither the row's, nor given up. */
  predicate PrevOk(s: System, link: Link, prev: Option<Link>) {
    prev.Some? ==> prev.value.publicId in s.expiry && prev.value.publicId != link.publicId
                   && prev.value.publicId !in s.leaked && !Names(s.link, prev.value.publicId)
  }

  ghost predicate UploadsOk(s: System) {
    && (forall u :: u in s.uploads ==> PcOk(s, s.uploads[u]))
    && (forall u, v, p :: (u in s.uploads && v in s.uploads && Owns(s.uploads[u], p) && Owns(s.uploads[v], p)) ==>
        u == v)
  }

  /** Every file is the row's, an upload's in flight, or given up; given-up files are still there. */
  ghost predicate Accounted(s: System) {
    && (forall p :: p in s.files ==> Names(s.link, p) || p in s.leaked || Held(s, p))
    && s.leaked <= s.files <= s.issued && (s.link.Some? ==> s.link.value.publicId !in s.leaked)
  }

  ghost predicate Held(s: System, p: nat) {
    exists u :: u in s.uploads && Owns(s.uploads[u], p)
  }

  ghost predicate BeingCleared(s: System, p: nat) {
    exists d :: d in s.deletions && s.deletions[d] == Clearing(p)
  }

  /** The row's file is there unless it was broken off or a deletion is between its two writes. */
  ghost predicate Linked(s: System) {
    && s.broken <= s.expiry.Keys <= s.issued
    && (forall p :: p in s.broken ==> p !in s.files)
    && (forall d :: d in s.deletions && s.deletions[d].Clearing? ==> s.deletions[d].p !in s.files)
    && (s.link.Some? && s.link.value.publicId !in s.files ==>
          s.link.value.publicId in s.broken || BeingCleared(s, s.link.value.publicId))
  }

  predicate DeletionDue(s: System, pc: DeletePc) {
    pc.p in s.expiry && if pc.Visiting? then s.expiry[pc.p] == pc.expiresAt else s.expiry[pc.p] <= s.now
  }

  /** Whoever deletes on behalf of p does so no earlier than the expiry p was saved with. */
  ghost predicate Timed(s: System) {
    && (s.link.Some? ==> Dated(s, s.link.value))
    && (forall j :: j in s.jobs ==> s.jobs[j].publicId in s.expiry && s.expiry[s.jobs[j].publicId] <= s.jobs[j].dueAt)
    && (forall d :: d in s.deletions ==> DeletionDue(s, s.deletions[d]))
  }

  ghost predicate Inv(s: System) {
    UploadsOk(s) && Accounted(s) && Linked(s) && Timed(s)
  }

  // ---- One step ----

  lemma {:induction false} OthersHold(s: System, s': System, u: nat)
    requires u in s.uploads && forall v :: v in s.uploads && v != u ==> v in s'.uploads && s'.uploads[v] == s.uploads[v]
    ensures forall p :: Held(s, p) ==> Owns(s.uploads[u], p) || Held(s', p)
    ensures u in s'.uploads ==> forall p :: Owns(s'.uploads[u], p) ==> Held(s', p)
  {
  }

  /** An upload moves on, keeping the files it owns. */
  lemma {:induction false} MovesOn(s: System, u: nat, pc: UploadPc)
    requires Inv(s) && u in s.uploads && PcOk(s, pc) && forall p :: Owns(pc, p) <==> Owns(s.uploads[u], p)
    ensures Inv(At(s, u, pc))
  {
    OthersHold(s, At(s, u, pc), u);
  }

  /** An upload stops owning anything: its files are destroyed or given up. */
  lemma {:induction false} LetsGo(s: System, u: nat)
    requires Inv(s) && u in s.uploads
    ensures Inv(Ended(s, u).(leaked := s.leaked + OwnedFiles(s.files, s.uploads[u])))
  {
    OthersHold(s, Ended(s, u), u);
  }

  lemma {:induction false} Destroys(s: System, u: nat, p: nat)
    requires Inv(s) && u in s.uploads && Owns(s.uploads[u], p) && !s.uploads[u].Uploaded?
    ensures Inv(Ended(s, u).(files := s.files - {p}))
  {
    OthersHold(s, Ended(s, u), u);
  }

  /** A new upload record that owns nothing. */
  lemma {:induction false} Joins(s: System, u: nat, pc: UploadPc)
    requires Inv(s) && u !in s.uploads && PcOk(s, pc) && forall p :: !Owns(pc, p)
    ensures Inv(At(s, u, pc))
  {
    forall p | Held(s, p) ensures Held(At(s, u, pc), p) {
      var v :| v in s.uploads && Owns(s.uploads[v], p);
      assert At(s, u, pc).uploads[v] == s.uploads[v];
    }
  }

  /** The file an upload has just stored, and the upload that goes on with it. */
  function AfterUpload(s: System, u: nat, p: nat): System {
    At(s, u, Uploaded(p, s.now + LINK_LIFE)).(files := s.files + {p}, issued := s.issued + {p})
  }

  lemma {:induction false} UploadOwners(s: System, u: nat, p: nat)
    requires UploadsOk(s) && Accounted(s) && Linked(s) && u in s.uploads && s.uploads[u].Uploading? && p !in s.issued
    ensures UploadsOk(AfterUpload(s, u, p))
  {
    var s' := AfterUpload(s, u, p);
    forall v | v in s'.uploads ensures PcOk(s', s'.uploads[v]) {
      if v != u { assert PcOk(s, s.uploads[v]); }
    }
    forall v, w, q | v in s'.uploads && w in s'.uploads && Owns(s'.uploads[v], q) && Owns(s'.uploads[w], q)
      ensures v == w
    {
      if v != u { OwnedIsIssued(s, v, q); }
      if w != u { OwnedIsIssued(s, w, q); }
    }
  }

  lemma {:induction false} OwnedIsIssued(s: System, v: nat, q: nat)
    requires UploadsOk(s) && Accounted(s) && Linked(s) && v in s.uploads && Owns(s.uploads[v], q)
    ensures q in s.issued
  {
    assert PcOk(s, s.uploads[v]);
  }

  lemma {:induction false} UploadAccounts(s: System, u: nat, p: nat)
    requires Accounted(s) && u in s.uploads && s.uploads[u].Uploading? && p !in s.issued
    ensures Accounted(AfterUpload(s, u, p))
  {
    OthersHold(s, AfterUpload(s, u, p), u);
  }

  lemma {:induction false} UploadLinks(s: System, u: nat, p: nat)
    requires Linked(s) && Timed(s) && u in s.uploads && p !in s.issued
    ensures Linked(AfterUpload(s, u, p)) && Timed(AfterUpload(s, u, p))
  {
  }

  lemma {:induction false} Uploads(s: System, u: nat, p: nat)
    requires Inv(s) && u in s.uploads && s.uploads[u].Uploading? && p !in s.issued
    ensures Inv(AfterUpload(s, u, p))
  {
    hide UploadsOk, Accounted, Linked, Timed;
    UploadOwners(s, u, p);
    UploadAccounts(s, u, p);
    UploadLinks(s, u, p);
  }

  /** The row a save leaves behind, and the upload that goes on with it. */
  function AfterSave(s: System, u: nat, link: Link): System {
    At(s, u, Saved(link, s.link)).(link := Some(link), expiry := s.expiry[link.publicId := link.expiresAt])
  }

  lemma {:induction false} SaveUploads(s: System, u: nat, link: Link)
    requires UploadsOk(s) && Accounted(s) && Timed(s) && u in s.uploads && Owns(s.uploads[u], link.publicId)
             && s.uploads[u].Uploaded?
    ensures UploadsOk(AfterSave(s, u, link))
  {
    var s' := AfterSave(s, u, link);
    assert PcOk(s, s.uploads[u]);
    forall v | v in s'.uploads ensures PcOk(s', s'.uploads[v]) {
      if v != u { assert PcOk(s, s.uploads[v]); }
    }
  }

  lemma {:induction false} SaveAccounts(s: System, u: nat, link: Link)
    requires UploadsOk(s) && Accounted(s) && u in s.uploads && Owns(s.uploads[u], link.publicId)
             && s.uploads[u].Uploaded?
    ensures Accounted(AfterSave(s, u, link))
  {
    OthersHold(s, AfterSave(s, u, link), u);
    assert PcOk(s, s.uploads[u]);
    hide UploadsOk;
  }

  lemma {:induction false} SaveLinks(s: System, u: nat, link: Link)
    requires Linked(s) && Accounted(s) && link.publicId in s.files && u in s.uploads
    ensures Linked(AfterSave(s, u, link))
  {
  }

  lemma {:induction false} SaveDates(s: System, u: nat, link: Link)
    requires Timed(s) && link.publicId !in s.expiry
    ensures Timed(AfterSave(s, u, link))
  {
  }

  lemma {:induction false} Saves(s: System, u: nat, p: nat, token: nat)
    requires Inv(s) && u in s.uploads && s.uploads[u].Uploaded? && s.uploads[u].p == p
    ensures Inv(UploadStep(s, Save(u, token, true)))
  {
    UploadFacts(s, u);
    hide UploadsOk, Accounted, Linked, Timed;
    var link := Upserted(s.link, p, token, s.uploads[u].expiresAt);
    SaveUploads(s, u, link);
    SaveAccounts(s, u, link);
    SaveLinks(s, u, link);
    SaveDates(s, u, link);
  }

  lemma {:induction false} Leaves(s: System, u: nat)
    requires Inv(s) && u in s.uploads && forall p :: !Owns(s.uploads[u], p)
    ensures Inv(Ended(s, u))
  {
    LetsGo(s, u);
    assert OwnedFiles(s.files, s.uploads[u]) == {};
    assert s.leaked + {} == s.leaked;
  }

  lemma {:induction false} RecordsJob(s: System, token: nat, job: nat)
    requires Inv(s)
    ensures Inv(s.(link := JobRecorded(s.link, token, job)))
  {
    assert forall p :: Held(s, p) ==> Held(s.(link := JobRecorded(s.link, token, job)), p);
    assert forall p :: BeingCleared(s, p) ==> BeingCleared(s.(link := JobRecorded(s.link, token, job)), p);
  }

  lemma {:induction false} JobsChange(s: System, jobs: map<nat, DeleteJob>)
    requires Inv(s)
    requires forall j :: j in jobs ==> jobs[j].publicId in s.expiry && s.expiry[jobs[j].publicId] <= jobs[j].dueAt
    ensures Inv(s.(jobs := jobs))
  {
    assert forall p :: Held(s, p) ==> Held(s.(jobs := jobs), p);
    assert forall p :: BeingCleared(s, p) ==> BeingCleared(s.(jobs := jobs), p);
  }

  /** The catch block of an upload that had already committed removes its file, whoever names it now. */
  lemma {:induction false} BreaksLink(s: System, u: nat, p: nat)
    requires Inv(s) && u in s.uploads && s.uploads[u] == Undoing(p, true)
    ensures Inv(UploadStep(s, Undo(u, true)))
  {
    OthersHold(s, UploadStep(s, Undo(u, true)), u);
  }

  lemma {:induction false} DropKeeps(s: System, u: nat, ok: bool)
    requires Inv(s) && u in s.uploads && s.uploads[u].Saved?
    ensures Inv(UploadStep(s, DropJob(u, ok)))
  {
    UploadFacts(s, u);
    hide Inv;
    var link, prev := s.uploads[u].link, s.uploads[u].prev;
    MovesOn(s, u, JobDropped(link, prev));
    JobsChange(At(s, u, JobDropped(link, prev)), UploadStep(s, DropJob(u, ok)).jobs);
  }

  lemma {:induction false} DestroyOldKeeps(s: System, u: nat, ok: bool)
    requires Inv(s) && u in s.uploads && s.uploads[u].JobDropped?
    ensures Inv(UploadStep(s, DestroyOld(u, ok)))
  {
    UploadFacts(s, u);
    hide Inv, OwnedFiles;
    var link, prev := s.uploads[u].link, s.uploads[u].prev;
    assert (s.uploads - {u})[u := OldDestroyed(link)] == s.uploads[u := OldDestroyed(link)];
    if prev.None? {
      MovesOn(s, u, OldDestroyed(link));
    } else if ok {
      Destroys(s, u, prev.value.publicId);
      Joins(Ended(s, u).(files := s.files - {prev.value.publicId}), u, OldDestroyed(link));
    } else {
      LetsGo(s, u);
      Joins(Ended(s, u).(leaked := s.leaked + OwnedFiles(s.files, s.uploads[u])), u, OldDestroyed(link));
    }
  }

  lemma {:induction false} QueueKeeps(s: System, u: nat, job: nat, ok: bool)
    requires Inv(s) && u in s.uploads && s.uploads[u].OldDestroyed?
    ensures Inv(UploadStep(s, QueueDelete(u, job, ok)))
  {
    UploadFacts(s, u);
    hide Inv, Max;
    var link := s.uploads[u].link;
    if !ok {
      MovesOn(s, u, Undoing(link.publicId, true));
    } else if job !in s.jobs {
      MovesOn(s, u, Queued(link, job, s.now < link.expiresAt));
      assert s.expiry[link.publicId] <= Max(s.now, link.expiresAt) by { MaxBounds(s.now, link.expiresAt); }
      JobsChange(At(s, u, Queued(link, job, s.now < link.expiresAt)), UploadStep(s, QueueDelete(u, job, ok)).jobs);
    }
  }

  lemma {:induction false} RecordKeeps(s: System, u: nat, ok: bool)
    requires Inv(s) && u in s.uploads && s.uploads[u].Queued?
    ensures Inv(UploadStep(s, RecordJob(u, ok)))
  {
    UploadFacts(s, u);
    hide Inv;
    var link := s.uploads[u].link;
    if !s.uploads[u].delayed || ok {
      Leaves(s, u);
      RecordsJob(Ended(s, u), link.token, s.uploads[u].job);
    } else {
      MovesOn(s, u, Undoing(link.publicId, true));
    }
  }

  lemma {:induction false} UndoKeeps(s: System, u: nat, ok: bool)
    requires Inv(s) && u in s.uploads && s.uploads[u].Undoing?
    ensures Inv(UploadStep(s, Undo(u, ok)))
  {
    UploadFacts(s, u);
    hide Inv;
    var p := s.uploads[u].p;
    if !ok {
      LetsGo(s, u);
    } else if s.uploads[u].committed {
      BreaksLink(s, u, p);
    } else {
      Destroys(s, u, p);
      assert s.leaked - {p} == s.leaked;
    }
  }

  lemma {:induction false} FileKeeps(s: System, u: nat, p: nat, ok: bool)
    requires Inv(s) && u in s.uploads && s.uploads[u].Uploading?
    ensures Inv(UploadStep(s, Upload(u, p, ok)))
  {
    hide Inv;
    if !ok { Leaves(s, u); } else if p !in s.issued { Uploads(s, u, p); }
  }

  lemma {:induction false} SaveKeeps(s: System, u: nat, token: nat, ok: bool)
    requires Inv(s) && u in s.uploads && s.uploads[u].Uploaded?
    ensures Inv(UploadStep(s, Save(u, token, ok)))
  {
    UploadFacts(s, u);
    hide Inv;
    if ok { Saves(s, u, s.uploads[u].p, token); } else { MovesOn(s, u, Undoing(s.uploads[u].p, false)); }
  }

  lemma {:induction false} UploadKeeps(s: System, l: Label)
    requires Inv(s) && UploadLabel(l) && l.u in s.uploads
    ensures Inv(UploadStep(s, l))
  {
    hide Inv, OwnedFiles, Max, Upserted, JobRecorded;
    match (s.uploads[l.u], l)
    case (Uploading, Upload(u, p, ok)) => FileKeeps(s, u, p, ok);
    case (Uploaded(_, _), Save(u, token, ok)) => SaveKeeps(s, u, token, ok);
    case (Saved(_, _), DropJob(u, ok)) => DropKeeps(s, u, ok);
    case (JobDropped(_, _), DestroyOld(u, ok)) => DestroyOldKeeps(s, u, ok);
    case (OldDestroyed(_), QueueDelete(u, job, ok)) => QueueKeeps(s, u, job, ok);
    case (Queued(_, _, _), RecordJob(u, ok)) => RecordKeeps(s, u, ok);
    case (Undoing(_, _), Undo(u, ok)) => UndoKeeps(s, u, ok);
    case _ =>
  }

  lemma MaxBounds(a: int, b: int)
    ensures b <= Max(a, b)
  {
  }

  /** What the invariant says about upload u. */
  lemma {:induction false} UploadFacts(s: System, u: nat)
    requires Inv(s) && u in s.uploads
    ensures PcOk(s, s.uploads[u]) && s.expiry.Keys <= s.issued && s.files <= s.issued
    ensures forall j :: j in s.jobs ==>
              s.jobs[j].publicId in s.expiry && s.expiry[s.jobs[j].publicId] <= s.jobs[j].dueAt
  {
  }

  lemma {:induction false} OthersClear(s: System, s': System, d: nat)
    requires d in s.deletions
             && forall e :: e in s.deletions && e != d ==> e in s'.deletions && s'.deletions[e] == s.deletions[e]
    ensures forall p :: BeingCleared(s, p) ==> s.deletions[d] == Clearing(p) || BeingCleared(s', p)
    ensures d in s'.deletions && s'.deletions[d].Clearing? ==> BeingCleared(s', s'.deletions[d].p)
  {
  }

  lemma {:induction false} DeletionMoves(s: System, d: nat, pc: DeletePc)
    requires Inv(s) && d in s.deletions && !s.deletions[d].Clearing? && !pc.Clearing? && DeletionDue(s, pc)
    ensures Inv(s.(deletions := s.deletions[d := pc]))
  {
    var s' := s.(deletions := s.deletions[d := pc]);
    OthersClear(s, s', d);
    assert forall p :: Held(s, p) <==> Held(s', p);
  }

  lemma {:induction false} DeletionLeaves(s: System, d: nat)
    requires Inv(s) && d in s.deletions && !s.deletions[d].Clearing?
    ensures Inv(s.(deletions := s.deletions - {d}))
  {
    var s' := s.(deletions := s.deletions - {d});
    OthersClear(s, s', d);
    assert forall p :: Held(s, p) <==> Held(s', p);
  }

  lemma {:induction false} DeletionFacts(s: System, d: nat)
    requires Inv(s) && d in s.deletions
    ensures DeletionDue(s, s.deletions[d])
  {
  }

  lemma {:induction false} DeletionDestroys(s: System, d: nat, p: nat)
    requires Inv(s) && d in s.deletions && s.deletions[d] == Destroying(p)
    ensures Inv(s.(files := s.files - {p}, leaked := s.leaked - {p}, deletions := s.deletions[d := Clearing(p)]))
  {
    var s' := s.(files := s.files - {p}, leaked := s.leaked - {p}, deletions := s.deletions[d := Clearing(p)]);
    OthersClear(s, s', d);
    assert forall q :: Held(s, q) <==> Held(s', q);
  }

  lemma {:induction false} DeletionClears(s: System, d: nat, p: nat)
    requires Inv(s) && d in s.deletions && s.deletions[d] == Clearing(p)
    ensures Inv(s.(link := Cleared(s.link, p), deletions := s.deletions - {d}))
  {
    var s' := s.(link := Cleared(s.link, p), deletions := s.deletions - {d});
    OthersClear(s, s', d);
    assert forall q :: Held(s, q) <==> Held(s', q);
  }

  lemma {:induction false} DeletionStops(s: System, d: nat, p: nat)
    requires Inv(s) && d in s.deletions && s.deletions[d] == Clearing(p)
    ensures Inv(s.(deletions := s.deletions - {d}, broken := s.broken + {p}))
  {
    var s' := s.(deletions := s.deletions - {d}, broken := s.broken + {p});
    OthersClear(s, s', d);
    assert forall q :: Held(s, q) <==> Held(s', q);
  }

  lemma {:induction false} DeletionKeeps(s: System, l: Label)
    requires Inv(s) && (DeletionLabel(l) || l.StopDeletion?) && l.d in s.deletions
    ensures Inv(Step(s, l))
  {
    hide Inv, UploadStep, Cleared, Names;
    var d := l.d;
    DeletionFacts(s, d);
    match s.deletions[d]
    case Visiting(p, expiresAt) =>
      if l.Expire? && s.now > expiresAt { DeletionMoves(s, d, Checking(p)); }
      else if l.Expire? || l.StopDeletion? { DeletionLeaves(s, d); }
    case Checking(p) =>
      if l.Check? && Names(s.link, p) { DeletionMoves(s, d, Destroying(p)); }
      else if l.Check? || l.StopDeletion? { DeletionLeaves(s, d); }
    case Destroying(p) =>
      if l.Destroy? && l.ok { DeletionDestroys(s, d, p); }
      else if l.Destroy? || l.StopDeletion? { DeletionLeaves(s, d); }
    case Clearing(p) =>
      if l.Clear? { DeletionClears(s, d, p); }
      else if l.StopDeletion? { DeletionStops(s, d, p); }
  }

  lemma {:induction false} DeletionBegins(s: System, d: nat, pc: DeletePc)
    requires Inv(s) && d !in s.deletions && DeletionDue(s, pc) && !pc.Clearing?
    ensures Inv(s.(deletions := s.deletions[d := pc]))
  {
    var s' := s.(deletions := s.deletions[d := pc]);
    assert forall p :: Held(s, p) <==> Held(s', p);
    forall q | BeingCleared(s, q) ensures BeingCleared(s', q) {
      var e :| e in s.deletions && s.deletions[e] == Clearing(q);
      assert s'.deletions[e] == Clearing(q);
    }
  }

  lemma {:induction false} TimePasses(s: System, now: Time)
    requires Inv(s) && s.now <= now
    ensures Inv(s.(now := now))
  {
    assert forall p :: Held(s, p) <==> Held(s.(now := now), p);
    assert forall p :: BeingCleared(s, p) <==> BeingCleared(s.(now := now), p);
  }

  lemma {:induction false} StepKeeps(s: System, l: Label)
    requires Inv(s)
    ensures Inv(Step(s, l))
  {
    hide Inv, DeletionStep, UploadStep;
    if UploadLabel(l) {
      if l.u in s.uploads { UploadKeeps(s, l); }
    } else if DeletionLabel(l) || l.StopDeletion? {
      if l.d in s.deletions { DeletionKeeps(s, l); }
    } else {
      OtherStepKeeps(s, l);
    }
  }

  lemma {:induction false} FireKeeps(s: System, l: Label)
    requires Inv(s) && (l.FireJob? || l.Visit?)
    ensures Inv(Step(s, l))
  {
    hide UploadsOk, Accounted, Linked;
    if Step(s, l) != s {
      if l.FireJob? { DeletionBegins(s, l.d, Checking(s.jobs[l.job].publicId)); }
      else { DeletionBegins(s, l.d, Visiting(s.link.value.publicId, s.link.value.expiresAt)); }
    }
  }

  lemma {:induction false} JobDoneKeeps(s: System, job: nat)
    requires Inv(s)
    ensures Inv(s.(jobs := s.jobs - {job}))
  {
    JobsChange(s, s.jobs - {job});
  }

  lemma {:induction false} OtherStepKeeps(s: System, l: Label)
    requires Inv(s) && (l.Tick? || l.BeginUpload? || l.StopUpload? || l.FireJob? || l.JobDone? || l.Visit?)
    ensures Inv(Step(s, l))
  {
    hide Inv;
    if l.FireJob? || l.Visit? { FireKeeps(s, l); }
    else if l.JobDone? { JobDoneKeeps(s, l.job); }
    else if l.Tick? { TimePasses(s, s.now + l.ms); }
    else if l.BeginUpload? { if l.u !in s.uploads { BeginKeeps(s, l.u); } }
    else if l.u in s.uploads { LetsGo(s, l.u); }
  }

  lemma {:induction false} BeginKeeps(s: System, u: nat)
    requires Inv(s) && u !in s.uploads
    ensures Inv(At(s, u, Uploading))
  {
    Joins(s, u, Uploading);
  }

  // ---- Whole runs ----

  lemma {:induction false} RunKeeps(ss: seq<System>, ls: seq<Label>, j: nat)
    requires Run(ss, ls) && j < |ss|
    ensures Inv(ss[j])
  {
    if j > 0 {
      hide Step;
      RunKeeps(ss, ls, j - 1);
      StepKeeps(ss[j - 1], ls[j - 1]);
    }
  }

  lemma {:induction false} OnlyClearTakesTheRow(s: System, l: Label)
    requires s.link.Some? && Step(s, l).link.None?
    ensures l.Clear? && l.d in s.deletions && s.deletions[l.d] == Clearing(s.link.value.publicId)
  {
    hide UploadStep;
    if UploadLabel(l) && l.u in s.uploads { UploadLeavesARow(s, l); }
  }

  lemma {:induction false} UploadLeavesARow(s: System, l: Label)
    requires s.link.Some? && UploadLabel(l) && l.u in s.uploads
    ensures UploadStep(s, l).link.Some?
  {
    hide OwnedFiles, Max;
  }

  /** A step that takes the row away is the last write of a deletion carrying the row's own public id, at or
      after the link's expiry: a stale job never removes a newer link. */
  lemma {:induction false} OnlyItsDeletionRemovesALink(ss: seq<System>, ls: seq<Label>, i: nat)
    requires Run(ss, ls) && i < |ls| && ss[i].link.Some? && ss[i + 1].link.None?
    ensures ls[i].Clear? && ls[i].d in ss[i].deletions
            && ss[i].deletions[ls[i].d] == Clearing(ss[i].link.value.publicId)
    ensures ss[i].link.value.expiresAt <= ss[i].now
  {
    RunKeeps(ss, ls, i);
    OnlyClearTakesTheRow(ss[i], ls[i]);
    hide Step, UploadsOk, Accounted, Linked;
  }
}
