/** uploadReportToCloudinary and deleteRemoteReport as code over the row, the remote store and the queue, cut
    at their awaits and proved against the steps of the share-link machine. */
module ShareService {
  import opened Prelude
  import opened ShareLinks

  class RemoteStore {
    var files: set<nat>

    constructor ()
      ensures files == {}
    {
      files := {};
    }

    method Upload(p: nat)
      modifies this
      ensures files == old(files) + {p}
    {
      files := files + {p};
    }

    /** Never raises: a failed delete is reported. */
    method DeleteByPublicId(p: nat, ok: bool) returns (deleted: bool)
      modifies this
      ensures deleted == ok && files == if ok then old(files) - {p} else old(files)
    {
      if ok { files := files - {p}; }
      deleted := ok;
    }
  }

  class DeleteQueue {
    var jobs: map<nat, DeleteJob>

    constructor ()
      ensures jobs == map[]
    {
      jobs := map[];
    }

    method Add(job: nat, p: nat, dueAt: Time)
      modifies this
      ensures jobs == old(jobs)[job := DeleteJob(p, dueAt)]
    {
      jobs := jobs[job := DeleteJob(p, dueAt)];
    }

    method Remove(job: nat)
      modifies this
      ensures jobs == old(jobs) - {job}
    {
      jobs := jobs - {job};
    }
  }

  /** What an execution shares with every other: the row, the files and the delete jobs. */
  class Backend {
    const links: UploadedReportModelAction
    const remote: RemoteStore
    const queue: DeleteQueue

    constructor ()
      ensures fresh(links) && fresh(remote) && fresh(queue)
      ensures links.link == None && remote.files == {} && queue.jobs == map[]
    {
      links := new UploadedReportModelAction();
      remote := new RemoteStore();
      queue := new DeleteQueue();
    }

    predicate Agrees(s: System)
      reads links, remote, queue
    {
      s.link == links.link && s.files == remote.files && s.jobs == queue.jobs
    }
  }

  /** One execution of uploadReportToCloudinary; `pc` is None once it has returned or thrown. */
  class UploadRun {
    const u: nat
    var pc: Option<UploadPc>

    constructor (u: nat)
      ensures this.u == u && pc == Some(Uploading)
    {
      this.u := u;
      pc := Some(Uploading);
    }

    predicate Agrees(s: System)
      reads this
    {
      if pc.Some? then u in s.uploads && s.uploads[u] == pc.value else u !in s.uploads
    }

    /** The machine is where this execution and the backend are, and its step for l starts here. */
    ghost predicate At(s: System, b: Backend, l: Label)
      reads this, b.links, b.remote, b.queue
    {
      UploadLabel(l) && l.u == u && pc.Some? && Agrees(s) && b.Agrees(s)
    }

    /** Execution and backend are where the machine's step for l ends. */
    ghost predicate After(s: System, b: Backend, l: Label)
      requires UploadLabel(l) && l.u in s.uploads
      reads this, b.links, b.remote, b.queue
    {
      Agrees(UploadStep(s, l)) && b.Agrees(UploadStep(s, l))
    }

    /** Public ids are fresh. */
    method Upload(b: Backend, p: nat, ok: bool, now: Time, ghost s: System)
      requires At(s, b, Label.Upload(u, p, ok)) && pc.value.Uploading? && p !in s.issued && now == s.now
      modifies this`pc, b.remote
      ensures After(s, b, Label.Upload(u, p, ok))
    {
      if ok {
        b.remote.Upload(p);
        pc := Some(Uploaded(p, now + 7 * 24 * 60 * 60 * 1000));
      } else {
        pc := None;
      }
    }

    method Save(b: Backend, token: nat, ok: bool, ghost s: System)
      requires At(s, b, Label.Save(u, token, ok)) && pc.value.Uploaded?
      modifies this`pc, b.links
      ensures After(s, b, Label.Save(u, token, ok))
    {
      var p, expiresAt := pc.value.p, pc.value.expiresAt;
      var existing := b.links.UpsertUploadedReport(p, token, expiresAt, ok);
      if ok {
        pc := Some(Saved(Upserted(existing, p, token, expiresAt), existing));
      } else {
        pc := Some(Undoing(p, false));
      }
    }

    method DropJob(b: Backend, ok: bool, ghost s: System)
      requires At(s, b, Label.DropJob(u, ok)) && pc.value.Saved?
      modifies this`pc, b.queue
      ensures After(s, b, Label.DropJob(u, ok))
    {
      var link, prev := pc.value.link, pc.value.prev;
      var oldJob := if prev.Some? && prev.value.deleteJob.Some? then prev.value.deleteJob else link.deleteJob;
      if oldJob.Some? && ok { b.queue.Remove(oldJob.value); }
      pc := Some(JobDropped(link, prev));
    }

    method DestroyOld(b: Backend, ok: bool, ghost s: System)
      requires At(s, b, Label.DestroyOld(u, ok)) && pc.value.JobDropped?
      modifies this`pc, b.remote
      ensures After(s, b, Label.DestroyOld(u, ok))
    {
      hide OwnedFiles;
      var link, prev := pc.value.link, pc.value.prev;
      if prev.Some? && prev.value.publicId != link.publicId {
        var _ := b.remote.DeleteByPublicId(prev.value.publicId, ok);
      }
      pc := Some(OldDestroyed(link));
    }

    /** Job ids are fresh. */
    method QueueDelete(b: Backend, job: nat, ok: bool, now: Time, ghost s: System)
      requires At(s, b, Label.QueueDelete(u, job, ok)) && pc.value.OldDestroyed? && job !in b.queue.jobs && now == s.now
      modifies this`pc, b.queue
      ensures After(s, b, Label.QueueDelete(u, job, ok))
    {
      var link := pc.value.link;
      if ok {
        var delay := link.expiresAt - now;
        b.queue.Add(job, link.publicId, now + Max(delay, 0));
        pc := Some(Queued(link, job, delay > 0));
      } else {
        pc := Some(Undoing(link.publicId, true));
      }
    }

    method RecordJob(b: Backend, ok: bool, ghost s: System)
      requires At(s, b, Label.RecordJob(u, ok)) && pc.value.Queued?
      modifies this`pc, b.links
      ensures After(s, b, Label.RecordJob(u, ok))
    {
      var link := pc.value.link;
      if pc.value.delayed && !ok {
        pc := Some(Undoing(link.publicId, true));
      } else {
        if pc.value.delayed { b.links.RecordDeleteJob(link.token, pc.value.job); }
        pc := None;
      }
    }

    /** The catch block. */
    method Undo(b: Backend, ok: bool, ghost s: System)
      requires At(s, b, Label.Undo(u, ok)) && pc.value.Undoing?
      modifies this`pc, b.remote
      ensures After(s, b, Label.Undo(u, ok))
    {
      hide OwnedFiles;
      var _ := b.remote.DeleteByPublicId(pc.value.p, ok);
      pc := None;
    }
  }

  /** One execution of deleteRemoteReport: a job starts it with a public id, a visit through the link it read. */
  class DeletionRun {
    const d: nat
    var pc: Option<DeletePc>

    constructor FromJob(d: nat, p: nat)
      ensures this.d == d && pc == Some(Checking(p))
    {
      this.d := d;
      pc := Some(Checking(p));
    }

    constructor FromVisit(d: nat, link: Link)
      ensures this.d == d && pc == Some(Visiting(link.publicId, link.expiresAt))
    {
      this.d := d;
      pc := Some(Visiting(link.publicId, link.expiresAt));
    }

    predicate Agrees(s: System)
      reads this
    {
      if pc.Some? then d in s.deletions && s.deletions[d] == pc.value else d !in s.deletions
    }

    /** The machine is where this execution and the backend are, and its step for l starts here. */
    ghost predicate At(s: System, b: Backend, l: Label)
      reads this, b.links, b.remote, b.queue
    {
      DeletionLabel(l) && l.d == d && pc.Some? && Agrees(s) && b.Agrees(s)
    }

    /** Execution and backend are where the machine's step for l ends. */
    ghost predicate After(s: System, b: Backend, l: Label)
      requires DeletionLabel(l) && l.d in s.deletions
      reads this, b.links, b.remote, b.queue
    {
      Agrees(DeletionStep(s, l)) && b.Agrees(DeletionStep(s, l))
    }

    /** A visit deletes only past the expiry. */
    method Expire(b: Backend, now: Time, ghost s: System)
      requires At(s, b, Label.Expire(d)) && pc.value.Visiting? && now == s.now
      modifies this`pc
      ensures After(s, b, Label.Expire(d))
    {
      var p, expiresAt := pc.value.p, pc.value.expiresAt;
      pc := if now > expiresAt then Some(Checking(p)) else None;
    }

    /** Nothing is deleted unless the row still names this public id. */
    method Check(b: Backend, ghost s: System)
      requires At(s, b, Label.Check(d)) && pc.value.Checking?
      modifies this`pc
      ensures After(s, b, Label.Check(d))
    {
      var p := pc.value.p;
      if b.links.link.None? || b.links.link.value.publicId != p {
        pc := None;
      } else {
        pc := Some(Destroying(p));
      }
    }

    method Destroy(b: Backend, ok: bool, ghost s: System)
      requires At(s, b, Label.Destroy(d, ok)) && pc.value.Destroying?
      modifies this`pc, b.remote
      ensures After(s, b, Label.Destroy(d, ok))
    {
      var p := pc.value.p;
      var deleted := b.remote.DeleteByPublicId(p, ok);
      pc := if deleted then Some(Clearing(p)) else None;
    }

    method Clear(b: Backend, ghost s: System)
      requires At(s, b, Label.Clear(d)) && pc.value.Clearing?
      modifies this`pc, b.links
      ensures After(s, b, Label.Clear(d))
    {
      b.links.DeleteNaming(pc.value.p);
      pc := None;
    }
  }
}
