/** Whole runs of the share-link machine: when a row loses its file, and which files are left. */
module ShareLinkRuns {
  import opened Prelude
  import opened ShareLinks

  // ---- How a file goes while its row stays ----

  /** At step k the upload u, which has committed public id p, fails to queue its delete job or to record it. */
  predicate FailsAfterCommit(ss: seq<System>, ls: seq<Label>, k: nat, u: nat, p: nat) {
    && k < |ls| && k < |ss| && u in ss[k].uploads
    && match ls[k]
       case QueueDelete(v, _, ok) => v == u && !ok && ss[k].uploads[u].OldDestroyed?
                                     && ss[k].uploads[u].link.publicId == p
       case RecordJob(v, ok) => v == u && !ok && ss[k].uploads[u].Queued? && ss[k].uploads[u].delayed
                                && ss[k].uploads[u].link.publicId == p
       case _ => false
  }

  predicate InCatch(s: System, u: nat, p: nat) { u in s.uploads && s.uploads[u] == Undoing(p, true) }

  /** Such a failure at step k, and at step m the catch block deletes the file. */
  predicate CutOff(ss: seq<System>, ls: seq<Label>, k: nat, m: nat, u: nat, p: nat) {
    && k < m < |ls| && m < |ss| && FailsAfterCommit(ss, ls, k, u, p) && ls[m] == Undo(u, true)
    && forall j :: k < j <= m ==> InCatch(ss[j], u, p)
  }

  ghost predicate WasCutOff(ss: seq<System>, ls: seq<Label>, i: nat, p: nat) {
    exists k: nat, m: nat, u: nat :: m < i && CutOff(ss, ls, k, m, u, p)
  }

  /** At step m a deletion stops after the file is gone and before the row is. */
  predicate StopsHalfway(ss: seq<System>, ls: seq<Label>, m: nat, p: nat) {
    m < |ls| && m < |ss| && ls[m].StopDeletion? && ls[m].d in ss[m].deletions && ss[m].deletions[ls[m].d] == Clearing(p)
  }

  ghost predicate WasStoppedHalfway(ss: seq<System>, ls: seq<Label>, i: nat, p: nat) {
    exists m: nat :: m < i && StopsHalfway(ss, ls, m, p)
  }

  predicate Breaks(s: System, l: Label, p: nat) {
    (l.Undo? && l.ok && InCatch(s, l.u, p))
    || (l.StopDeletion? && l.d in s.deletions && s.deletions[l.d] == Clearing(p))
  }

  lemma {:induction false} BrokenStep(s: System, l: Label, p: nat)
    ensures p in Step(s, l).broken <==> p in s.broken || Breaks(s, l, p)
  {
    hide UploadStep, DeletionStep;
    if UploadLabel(l) && l.u in s.uploads { BrokenUpload(s, l, p); }
    if DeletionLabel(l) && l.d in s.deletions { BrokenDeletion(s, l); }
  }

  lemma {:induction false} BrokenUpload(s: System, l: Label, p: nat)
    requires UploadLabel(l) && l.u in s.uploads
    ensures p in UploadStep(s, l).broken <==> p in s.broken || (l.Undo? && l.ok && InCatch(s, l.u, p))
  {
    hide OwnedFiles, Max;
  }

  lemma {:induction false} BrokenDeletion(s: System, l: Label)
    requires DeletionLabel(l) && l.d in s.deletions
    ensures DeletionStep(s, l).broken == s.broken
  {
  }

  lemma {:induction false} UploadEntersCatch(s: System, l: Label, u: nat, p: nat)
    requires UploadLabel(l) && l.u in s.uploads && InCatch(UploadStep(s, l), u, p) && !InCatch(s, u, p)
    ensures l.u == u && !l.ok
    ensures (l.QueueDelete? && s.uploads[u].OldDestroyed? && s.uploads[u].link.publicId == p)
            || (l.RecordJob? && s.uploads[u].Queued? && s.uploads[u].delayed && s.uploads[u].link.publicId == p)
  {
    hide OwnedFiles, Max, Upserted;
  }

  lemma {:induction false} CatchBegins(s: System, l: Label, u: nat, p: nat)
    requires InCatch(Step(s, l), u, p) && !InCatch(s, u, p)
    ensures u in s.uploads && UploadLabel(l) && l.u == u && !l.ok
    ensures (l.QueueDelete? && s.uploads[u].OldDestroyed? && s.uploads[u].link.publicId == p)
            || (l.RecordJob? && s.uploads[u].Queued? && s.uploads[u].delayed && s.uploads[u].link.publicId == p)
  {
    hide DeletionStep, UploadStep, OwnedFiles, Max;
    if DeletionLabel(l) && l.d in s.deletions { DeletionLeavesUploads(s, l); }
    if UploadLabel(l) && l.u in s.uploads { UploadEntersCatch(s, l, u, p); }
  }

  lemma {:induction false} DeletionLeavesUploads(s: System, l: Label)
    requires DeletionLabel(l) && l.d in s.deletions
    ensures DeletionStep(s, l).uploads == s.uploads
  {
  }

  lemma {:induction false} CatchOrigin(ss: seq<System>, ls: seq<Label>, m: nat, u: nat, p: nat) returns (k: nat)
    requires Run(ss, ls) && m < |ss| && InCatch(ss[m], u, p)
    ensures k < m && FailsAfterCommit(ss, ls, k, u, p) && forall j :: k < j <= m ==> InCatch(ss[j], u, p)
    decreases m
  {
    assert m > 0 && ss[m] == Step(ss[m - 1], ls[m - 1]);
    hide Step;
    if InCatch(ss[m - 1], u, p) {
      k := CatchOrigin(ss, ls, m - 1, u, p);
    } else {
      k := m - 1;
      CatchBegins(ss[k], ls[k], u, p);
    }
  }

  /** One more step adds a cut-off or a stop exactly when it breaks p off. */
  lemma {:induction false} BreaksInRun(ss: seq<System>, ls: seq<Label>, i: nat, p: nat)
    requires Run(ss, ls) && i < |ls|
    ensures Breaks(ss[i], ls[i], p) ==> WasCutOff(ss, ls, i + 1, p) || WasStoppedHalfway(ss, ls, i + 1, p)
    ensures WasCutOff(ss, ls, i + 1, p) ==> WasCutOff(ss, ls, i, p) || Breaks(ss[i], ls[i], p)
    ensures WasStoppedHalfway(ss, ls, i + 1, p) ==> WasStoppedHalfway(ss, ls, i, p) || Breaks(ss[i], ls[i], p)
    ensures WasCutOff(ss, ls, i, p) ==> WasCutOff(ss, ls, i + 1, p)
    ensures WasStoppedHalfway(ss, ls, i, p) ==> WasStoppedHalfway(ss, ls, i + 1, p)
  {
    hide Step, FailsAfterCommit;
    if Breaks(ss[i], ls[i], p) {
      if ls[i].Undo? {
        var k := CatchOrigin(ss, ls, i, ls[i].u, p);
        assert CutOff(ss, ls, k, i, ls[i].u, p);
      } else {
        assert StopsHalfway(ss, ls, i, p);
      }
    }
    forall k: nat, m: nat, u: nat | m < i + 1 && CutOff(ss, ls, k, m, u, p) ensures m < i || Breaks(ss[i], ls[i], p) {
      assert InCatch(ss[m], u, p);
    }
  }

  /** The file of a saved public id has gone without its row exactly when its upload failed after committing it
      and its catch block deleted the file, or a deletion stopped between its two writes. */
  lemma {:induction false} BrokenExactly(ss: seq<System>, ls: seq<Label>, i: nat, p: nat)
    requires Run(ss, ls) && i < |ss|
    ensures p in ss[i].broken <==> WasCutOff(ss, ls, i, p) || WasStoppedHalfway(ss, ls, i, p)
    decreases i
  {
    hide Step, CutOff, StopsHalfway, Breaks;
    if i > 0 {
      hide WasCutOff, WasStoppedHalfway;
      BrokenExactly(ss, ls, i - 1, p);
      BrokenStep(ss[i - 1], ls[i - 1], p);
      BreaksInRun(ss, ls, i - 1, p);
      assert ss[i] == Step(ss[i - 1], ls[i - 1]);
    }
  }

  // ---- Live links ----

  lemma {:induction false} ExpiryStays(s: System, l: Label, p: nat)
    requires Inv(s) && p in s.expiry
    ensures p in Step(s, l).expiry && Step(s, l).expiry[p] == s.expiry[p] && s.now <= Step(s, l).now
  {
    hide Inv, DeletionStep, UploadStep;
    if DeletionLabel(l) && l.d in s.deletions { DeletionLeavesExpiry(s, l); }
    if UploadLabel(l) && l.u in s.uploads {
      UploadFacts(s, l.u);
      UploadLeavesExpiry(s, l, p);
    }
  }

  lemma {:induction false} UploadLeavesExpiry(s: System, l: Label, p: nat)
    requires UploadLabel(l) && l.u in s.uploads && p in s.expiry && PcOk(s, s.uploads[l.u])
    ensures var s' := UploadStep(s, l); p in s'.expiry && s'.expiry[p] == s.expiry[p] && s'.now == s.now
  {
    hide OwnedFiles, Max;
  }

  lemma {:induction false} DeletionLeavesExpiry(s: System, l: Label)
    requires DeletionLabel(l) && l.d in s.deletions
    ensures DeletionStep(s, l).expiry == s.expiry && DeletionStep(s, l).now == s.now
  {
  }

  lemma {:induction false} ExpirySince(ss: seq<System>, ls: seq<Label>, m: nat, i: nat, p: nat)
    requires Run(ss, ls) && m <= i < |ss| && p in ss[m].expiry
    ensures p in ss[i].expiry && ss[i].expiry[p] == ss[m].expiry[p] && ss[m].now <= ss[i].now
    decreases i - m
  {
    hide Step, Inv;
    if m < i {
      ExpirySince(ss, ls, m, i - 1, p);
      RunKeeps(ss, ls, i - 1);
      ExpiryStays(ss[i - 1], ls[i - 1], p);
    }
  }

  lemma {:induction false} RowIsDated(s: System)
    requires Inv(s) && s.link.Some?
    ensures Dated(s, s.link.value)
  {
  }

  lemma {:induction false} NotStoppedWhileLive(ss: seq<System>, ls: seq<Label>, i: nat)
    requires Run(ss, ls) && i < |ss| && ss[i].link.Some? && ss[i].now < ss[i].link.value.expiresAt
    ensures !WasStoppedHalfway(ss, ls, i, ss[i].link.value.publicId)
  {
    hide Step, Inv;
    var p := ss[i].link.value.publicId;
    if WasStoppedHalfway(ss, ls, i, p) {
      var m: nat :| m < i && StopsHalfway(ss, ls, m, p);
      RunKeeps(ss, ls, m);
      DeletionFacts(ss[m], ls[m].d);
      ExpirySince(ss, ls, m, i, p);
      RunKeeps(ss, ls, i);
      RowIsDated(ss[i]);
    }
  }

  /** Until it expires, a link has its file, unless queueing or recording its delete job failed after its upload
      had committed and the catch block then deleted the file. */
  lemma {:induction false} LiveLinkHasItsFile(ss: seq<System>, ls: seq<Label>, i: nat)
    requires Run(ss, ls) && i < |ss| && ss[i].link.Some? && ss[i].now < ss[i].link.value.expiresAt
    ensures ss[i].link.value.publicId !in ss[i].files <==> WasCutOff(ss, ls, i, ss[i].link.value.publicId)
  {
    RunKeeps(ss, ls, i);
    hide Step, WasCutOff, WasStoppedHalfway;
    BrokenExactly(ss, ls, i, ss[i].link.value.publicId);
    NotStoppedWhileLive(ss, ls, i);
  }

  // ---- Nothing in flight ----

  ghost predicate Quiet(s: System) { s.uploads == map[] && s.deletions == map[] }

  /** The row still has its file. */
  ghost predicate Whole(ss: seq<System>, ls: seq<Label>, i: nat, p: nat) {
    !WasCutOff(ss, ls, i, p) && !WasStoppedHalfway(ss, ls, i, p)
  }

  /** When nothing is in flight, the remote files are the row's file, as long as it is whole, and the leaked ones. */
  lemma {:induction false} QuietAccounts(ss: seq<System>, ls: seq<Label>, i: nat)
    requires Run(ss, ls) && i < |ss| && Quiet(ss[i])
    ensures ss[i].files == ss[i].leaked + if ss[i].link.Some? && Whole(ss, ls, i, ss[i].link.value.publicId)
                                          then {ss[i].link.value.publicId} else {}
  {
    RunKeeps(ss, ls, i);
    hide Step, WasCutOff, WasStoppedHalfway;
    if ss[i].link.Some? { BrokenExactly(ss, ls, i, ss[i].link.value.publicId); }
  }

  /** The remote deletes of uploads succeed, and no upload is cut off. */
  predicate DeletesSucceed(l: Label) {
    match l
    case DestroyOld(_, ok) => ok
    case Undo(_, ok) => ok
    case StopUpload(_) => false
    case _ => true
  }

  lemma {:induction false} NothingLeaks(s: System, l: Label)
    requires s.leaked == {} && DeletesSucceed(l)
    ensures Step(s, l).leaked == {}
  {
    hide OwnedFiles, Max, Cleared;
  }

  lemma {:induction false} NothingLeaked(ss: seq<System>, ls: seq<Label>, j: nat)
    requires Run(ss, ls) && j < |ss| && forall i :: 0 <= i < j ==> DeletesSucceed(ls[i])
    ensures ss[j].leaked == {}
  {
    if j > 0 {
      hide Step;
      NothingLeaked(ss, ls, j - 1);
      NothingLeaks(ss[j - 1], ls[j - 1]);
    }
  }

  /** When the remote deletes of uploads succeed and no upload is cut off, then once nothing is in flight the row
      names the report's only remote file, unless that row lost its file; without a row there is no file. */
  lemma {:induction false} RowNamesTheOnlyFile(ss: seq<System>, ls: seq<Label>, j: nat)
    requires Run(ss, ls) && j < |ss| && Quiet(ss[j]) && forall i :: 0 <= i < j ==> DeletesSucceed(ls[i])
    ensures ss[j].files == if ss[j].link.Some? && Whole(ss, ls, j, ss[j].link.value.publicId)
                           then {ss[j].link.value.publicId} else {}
  {
    NothingLeaked(ss, ls, j);
    QuietAccounts(ss, ls, j);
  }

  // ---- A completed upload ----

  /** The step commits the upload's link with public id p. */
  predicate Commits(s: System, l: Label, p: nat) {
    l.Save? && l.ok && l.u in s.uploads && s.uploads[l.u].Uploaded? && s.uploads[l.u].p == p
  }

  /** The step is the last write of a deletion carrying p. */
  predicate Removes(s: System, l: Label, p: nat) {
    l.Clear? && l.d in s.deletions && s.deletions[l.d] == Clearing(p)
  }

  lemma {:induction false} RowGoesOn(s: System, l: Label, p: nat)
    requires Names(s.link, p) && !Removes(s, l, p) && forall q :: !Commits(s, l, q)
    ensures Names(Step(s, l).link, p)
  {
    hide DeletionStep, UploadStep, OwnedFiles, Max;
    if UploadLabel(l) && l.u in s.uploads { UploadKeepsTheName(s, l, p); }
    if DeletionLabel(l) && l.d in s.deletions { DeletionKeepsTheName(s, l, p); }
  }

  lemma {:induction false} UploadKeepsTheName(s: System, l: Label, p: nat)
    requires Names(s.link, p) && UploadLabel(l) && l.u in s.uploads && forall q :: !Commits(s, l, q)
    ensures Names(UploadStep(s, l).link, p)
  {
    hide OwnedFiles, Max;
    if l.Save? && s.uploads[l.u].Uploaded? { assert !Commits(s, l, s.uploads[l.u].p); }
  }

  lemma {:induction false} DeletionKeepsTheName(s: System, l: Label, p: nat)
    requires Names(s.link, p) && DeletionLabel(l) && l.d in s.deletions && !Removes(s, l, p)
    ensures Names(DeletionStep(s, l).link, p)
  {
  }

  /** After step i neither another upload commits nor a deletion of p makes its last write, up to state j. */
  ghost predicate LeftAlone(ss: seq<System>, ls: seq<Label>, i: nat, j: nat, p: nat) {
    j < |ss| && j <= |ls|
    && forall t: nat :: i < t < j ==> !Removes(ss[t], ls[t], p) && forall q :: !Commits(ss[t], ls[t], q)
  }

  lemma {:induction false} CommittedRowStays(ss: seq<System>, ls: seq<Label>, i: nat, j: nat, p: nat)
    requires Run(ss, ls) && i < j && LeftAlone(ss, ls, i, j, p) && Commits(ss[i], ls[i], p)
    ensures Names(ss[j].link, p)
    decreases j
  {
    if j == i + 1 {
      assert ss[j] == Step(ss[i], ls[i]);
    } else {
      hide Step, Commits, Removes;
      CommittedRowStays(ss, ls, i, j - 1, p);
      RowGoesOn(ss[j - 1], ls[j - 1], p);
    }
  }

  /** An upload that committed p, and that no later upload and no deletion of p has followed up, leaves the row
      naming p; when the remote deletes of uploads succeed and no upload is cut off, then once nothing is in
      flight p is the report's only remote file, unless that file was lost. */
  lemma {:induction false} CompletedUpload(ss: seq<System>, ls: seq<Label>, i: nat, j: nat, p: nat)
    requires Run(ss, ls) && i < j && LeftAlone(ss, ls, i, j, p) && Commits(ss[i], ls[i], p)
    ensures Names(ss[j].link, p)
    ensures Quiet(ss[j]) && (forall t :: 0 <= t < j ==> DeletesSucceed(ls[t])) ==>
              ss[j].files == if Whole(ss, ls, j, p) then {p} else {}
  {
    CommittedRowStays(ss, ls, i, j, p);
    if Quiet(ss[j]) && forall t :: 0 <= t < j ==> DeletesSucceed(ls[t]) {
      RowNamesTheOnlyFile(ss, ls, j);
    }
    hide Whole, Step;
  }

  // ---- A witness run ----

  lemma {:induction false} Extended(ss: seq<System>, ls: seq<Label>, l: Label, s: System)
    requires Run(ss, ls) && s == Step(ss[|ls|], l)
    ensures Run(ss + [s], ls + [l])
  {
    hide Step;
    forall i | 0 <= i < |ls| + 1 ensures (ss + [s])[i + 1] == Step((ss + [s])[i], (ls + [l])[i]) {
      if i < |ls| { assert ss[i + 1] == Step(ss[i], ls[i]); }
    }
  }

  /** A first upload commits its link. */
  lemma FirstLink() returns (ss: seq<System>, ls: seq<Label>)
    ensures Run(ss, ls) && |ls| == 3
    ensures var link := Link(1, 2, LINK_LIFE, None);
            ss[3] == System(Some(link), {1}, map[], map[0 := Saved(link, None)], map[], 0, {1}, map[1 := LINK_LIFE],
                            {}, {})
  {
    var s := System(None, {}, map[], map[], map[], 0, {}, map[], {}, {});
    ss, ls := [s], [];
    s := s.(uploads := map[0 := Uploading]);
    Extended(ss, ls, BeginUpload(0), s);
    ss, ls := ss + [s], ls + [BeginUpload(0)];
    s := s.(uploads := map[0 := Uploaded(1, LINK_LIFE)], files := {1}, issued := {1});
    Extended(ss, ls, Upload(0, 1, true), s);
    ss, ls := ss + [s], ls + [Upload(0, 1, true)];
    var link := Link(1, 2, LINK_LIFE, None);
    s := s.(uploads := map[0 := Saved(link, None)], link := Some(link), expiry := map[1 := LINK_LIFE]);
    Extended(ss, ls, Save(0, 2, true), s);
    ss, ls := ss + [s], ls + [Save(0, 2, true)];
  }

  /** Queueing the first link's delete job fails; the catch block deletes the file and the row stays, a week
      before it expires. */
  lemma QueueFailureBreaksTheLink() returns (ss: seq<System>, ls: seq<Label>)
    ensures Run(ss, ls) && |ls| == 7 && Quiet(ss[7])
    ensures ss[7].link.Some? && ss[7].link.value.publicId !in ss[7].files && ss[7].now < ss[7].link.value.expiresAt
  {
    ss, ls := FirstLink();
    var s := ss[3];
    var link := s.link.value;
    s := s.(uploads := map[0 := JobDropped(link, None)]);
    Extended(ss, ls, DropJob(0, true), s);
    ss, ls := ss + [s], ls + [DropJob(0, true)];
    s := s.(uploads := map[0 := OldDestroyed(link)]);
    Extended(ss, ls, DestroyOld(0, true), s);
    ss, ls := ss + [s], ls + [DestroyOld(0, true)];
    s := s.(uploads := map[0 := Undoing(1, true)]);
    Extended(ss, ls, QueueDelete(0, 3, false), s);
    ss, ls := ss + [s], ls + [QueueDelete(0, 3, false)];
    s := s.(uploads := map[], files := {}, broken := {1});
    Extended(ss, ls, Undo(0, true), s);
    ss, ls := ss + [s], ls + [Undo(0, true)];
  }
}
