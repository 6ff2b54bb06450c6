/** Runs of evaluations of one user and type: queries, saves, resolutions and dispatchers interleave freely. */
module AlertRuns {
  import opened Prelude
  import opened AlertPipeline

  /** Where an evaluation stands: it has read the latest alert, or has found no duplicate and is to save. */
  datatype Pc = Queried(severity: Severity, latest: Option<Alert>) | Passed(severity: Severity)

  /** What a dispatcher read of the alert it delivers, and will write back whole. */
  datatype Copy = Copy(i: nat, resolved: bool)

  /** `Query` is an evaluation's SELECT, `Decide` its continuation and `Save` its INSERT. A dispatcher reads an
      alert with `Read` and saves its copy, as often as it likes, with `Write`. */
  datatype Label =
    | Query(v: nat, severity: Severity)
    | Decide(v: nat, now: Time)
    | Save(v: nat, savedAt: Time, ok: bool)
    | Resolve(i: nat)
    | Read(d: nat, i: nat)
    | Write(d: nat)

  /** `used` are the evaluations begun so far; `clock` is the last instant anything was decided or saved. */
  datatype System = System(alerts: seq<Alert>, running: map<nat, Pc>, used: set<nat>, copies: map<nat, Copy>,
                           clock: Time)

  function Marked(alerts: seq<Alert>, i: nat, resolved: bool): seq<Alert> {
    if i < |alerts| then alerts[i := alerts[i].(resolved := resolved)] else alerts
  }

  /** `deliverable` plays no part in suppression and is left true. */
  function Step(s: System, l: Label, cooldownMinutes: int): System {
    match l
    case Query(v, severity) =>
      if v in s.used || v in s.running then s
      else s.(running := s.running[v := Queried(severity, LatestOf(s.alerts))], used := s.used + {v})
    case Decide(v, now) =>
      if v !in s.running || !s.running[v].Queried? || now < s.clock then s
      else if IsDuplicate(s.running[v].latest, s.running[v].severity, cooldownMinutes, now)
      then s.(running := s.running - {v}, clock := now)
      else s.(running := s.running[v := Passed(s.running[v].severity)], clock := now)
    case Save(v, savedAt, ok) =>
      if v !in s.running || !s.running[v].Passed? || savedAt < s.clock then s
      else if !ok then s.(running := s.running - {v})
      else s.(alerts := s.alerts + [Alert(s.running[v].severity, savedAt, false, true)], running := s.running - {v},
              clock := savedAt)
    case Resolve(i) => s.(alerts := Marked(s.alerts, i, true))
    case Read(d, i) => if i < |s.alerts| then s.(copies := s.copies[d := Copy(i, s.alerts[i].resolved)]) else s
    case Write(d) => if d in s.copies then s.(alerts := Marked(s.alerts, s.copies[d].i, s.copies[d].resolved)) else s
  }

  ghost predicate Run(ss: seq<System>, ls: seq<Label>, cooldownMinutes: int) {
    && |ss| == |ls| + 1 && ss[0].alerts == [] && ss[0].running == map[] && ss[0].used == {} && ss[0].copies == map[]
    && forall i :: 0 <= i < |ls| ==> ss[i + 1] == Step(ss[i], ls[i], cooldownMinutes)
  }

  /** Step k saves an alert. */
  predicate Saves(ss: seq<System>, k: nat) { k + 1 < |ss| && |ss[k + 1].alerts| > |ss[k].alerts| }

  /** Step q is the SELECT of an evaluation and step j its INSERT. */
  predicate QueryAndSave(ss: seq<System>, ls: seq<Label>, q: nat, j: nat) {
    && q < j < |ls| && j < |ss| && ls[q].Query? && ls[q].v !in ss[q].used && ls[q].v !in ss[q].running
    && ls[j].Save? && ls[q].v == ls[j].v && Saves(ss, j)
  }

  // ---- Spacing ----

  /** At some moment up to state m, the i-th alert had been resolved. */
  ghost predicate EverResolved(ss: seq<System>, i: nat, m: nat) {
    exists t: nat :: t <= m && t < |ss| && ResolvedAt(ss[t], i)
  }

  predicate ResolvedAt(s: System, i: nat) { i < |s.alerts| && s.alerts[i].resolved }

  /** The alert saved at step m is more severe than the one before it, or comes a full cooldown after it when
      that one had been resolved. */
  ghost predicate SpacedSave(ss: seq<System>, m: nat, cooldownMinutes: int)
    requires Saves(ss, m)
  {
    var n := |ss[m].alerts|;
    n == 0 ||
      var a, b := ss[m].alerts[n - 1], ss[m + 1].alerts[n];
      && a.createdAt <= b.createdAt
      && (SeverityRank(b.severity) > SeverityRank(a.severity)
          || (b.createdAt - a.createdAt >= cooldownMinutes * MINUTE && EverResolved(ss, n - 1, m)))
  }

  ghost predicate AllSpaced(ss: seq<System>, j: nat, cooldownMinutes: int) {
    forall m: nat :: m < j && Saves(ss, m) ==> SpacedSave(ss, m, cooldownMinutes)
  }

  /** Two alerts saved one after the other, at steps k and m by the evaluations that began at p and q: the
      first lands in the middle of the second's evaluation, the second is no more severe, and it is saved within
      a cooldown of the first or before any resolution of it. */
  ghost predicate Clashes(ss: seq<System>, ls: seq<Label>, cooldownMinutes: int, p: nat, k: nat, q: nat, m: nat) {
    && QueryAndSave(ss, ls, p, k) && QueryAndSave(ss, ls, q, m) && q < k < m
    && (forall t: nat :: k < t < m ==> !Saves(ss, t))
    && SeverityRank(ls[q].severity) <= SeverityRank(ls[p].severity)
    && (ls[m].savedAt - ls[k].savedAt < cooldownMinutes * MINUTE || !ResolvedBetween(ls, k, m, |ss[k].alerts|))
  }

  ghost predicate ResolvedBetween(ls: seq<Label>, k: nat, m: nat, i: nat) {
    exists t: nat :: k < t < m && t < |ls| && ls[t] == Resolve(i)
  }

  ghost predicate AnyClash(ss: seq<System>, ls: seq<Label>, cooldownMinutes: int, j: nat) {
    exists p: nat, k: nat, q: nat, m: nat :: m < j && Clashes(ss, ls, cooldownMinutes, p, k, q, m)
  }

  // ---- One step ----

  /** The same alerts, whatever is resolved. */
  predicate SameAlerts(a: seq<Alert>, b: seq<Alert>) {
    |a| == |b| && forall i :: 0 <= i < |a| ==> b[i] == a[i].(resolved := b[i].resolved)
  }

  predicate CopiesOk(s: System) { forall d :: d in s.copies ==> s.copies[d].i < |s.alerts| }

  lemma {:induction false} RunningBefore(s: System, l: Label, cooldownMinutes: int, v: nat)
    requires v in Step(s, l, cooldownMinutes).running
    ensures var s' := Step(s, l, cooldownMinutes);
            if v !in s.running then
              l.Query? && l.v == v && v !in s.used && s'.running[v] == Queried(l.severity, LatestOf(s.alerts))
            else s'.running[v].severity == s.running[v].severity
                 && (s'.running[v] == s.running[v]
                     || (s.running[v].Queried? && s'.running[v].Passed?
                         && !IsDuplicate(s.running[v].latest, s.running[v].severity, cooldownMinutes, s'.clock)))
  {
    hide IsDuplicate;
  }

  /** What a step may do to the table: append one alert saved now, or mark some resolved or not. */
  lemma {:induction false} TableStep(s: System, l: Label, cooldownMinutes: int)
    ensures var s' := Step(s, l, cooldownMinutes);
            && s.clock <= s'.clock && s.used <= s'.used && (CopiesOk(s) ==> CopiesOk(s'))
            && if |s'.alerts| > |s.alerts|
               then l.Save? && l.ok && l.v in s.running && s.running[l.v].Passed? && s.clock <= l.savedAt == s'.clock
                    && s'.alerts == s.alerts + [Alert(s.running[l.v].severity, l.savedAt, false, true)]
               else SameAlerts(s.alerts, s'.alerts)
  {
    hide IsDuplicate;
  }

  // ---- Runs ----

  lemma {:induction false} UsedStays(ss: seq<System>, ls: seq<Label>, cooldownMinutes: int, i: nat, j: nat)
    requires Run(ss, ls, cooldownMinutes) && i <= j < |ss|
    ensures ss[i].used <= ss[j].used && ss[i].clock <= ss[j].clock
    decreases j - i
  {
    hide Step;
    if i < j {
      UsedStays(ss, ls, cooldownMinutes, i, j - 1);
      TableStep(ss[j - 1], ls[j - 1], cooldownMinutes);
    }
  }

  /** A running evaluation began with a SELECT at some step q; if it has passed, it did so at an instant at
      which the alert read there made it no duplicate. */
  lemma {:induction false} Origin(ss: seq<System>, ls: seq<Label>, cooldownMinutes: int, j: nat, v: nat)
    returns (q: nat, now: Time)
    requires Run(ss, ls, cooldownMinutes) && j < |ss| && v in ss[j].running
    ensures q < j && ls[q] == Query(v, ss[j].running[v].severity) && v !in ss[q].used && v !in ss[q].running
    ensures ss[j].running[v].Queried? ==> ss[j].running[v].latest == LatestOf(ss[q].alerts)
    ensures ss[j].running[v].Passed? ==>
              now <= ss[j].clock
              && !IsDuplicate(LatestOf(ss[q].alerts), ss[j].running[v].severity, cooldownMinutes, now)
    decreases j
  {
    hide Step, IsDuplicate, LatestOf, SameAlerts, CopiesOk;
    assert j > 0 && ss[j] == Step(ss[j - 1], ls[j - 1], cooldownMinutes);
    RunningBefore(ss[j - 1], ls[j - 1], cooldownMinutes, v);
    if v !in ss[j - 1].running {
      q, now := j - 1, ss[j].clock;
    } else {
      q, now := Origin(ss, ls, cooldownMinutes, j - 1, v);
      TableStep(ss[j - 1], ls[j - 1], cooldownMinutes);
      if ss[j].running[v] != ss[j - 1].running[v] { now := ss[j].clock; }
    }
  }

  /** The alert saved at step m has its evaluation's severity, and was no duplicate of what that evaluation read. */
  lemma {:induction false} SavedAlert(ss: seq<System>, ls: seq<Label>, cooldownMinutes: int, m: nat)
    returns (q: nat, now: Time)
    requires Run(ss, ls, cooldownMinutes) && Saves(ss, m)
    ensures QueryAndSave(ss, ls, q, m) && now <= ss[m].clock <= ls[m].savedAt
    ensures ss[m + 1].alerts == ss[m].alerts + [Alert(ls[q].severity, ls[m].savedAt, false, true)]
    ensures !IsDuplicate(LatestOf(ss[q].alerts), ls[q].severity, cooldownMinutes, now)
    ensures !Saves(ss, q)
  {
    hide IsDuplicate, LatestOf, SameAlerts, CopiesOk;
    assert ss[m + 1] == Step(ss[m], ls[m], cooldownMinutes);
    TableStep(ss[m], ls[m], cooldownMinutes);
    q, now := Origin(ss, ls, cooldownMinutes, m, ls[m].v);
    assert ss[q + 1] == Step(ss[q], ls[q], cooldownMinutes);
  }

  /** An evaluation is dropped exactly when the alert it read at its SELECT is no less severe than its own and
      lies within the cooldown or is unresolved there; otherwise it goes on to save. */
  lemma {:induction false} DroppedExactly(ss: seq<System>, ls: seq<Label>, cooldownMinutes: int, m: nat)
    returns (q: nat)
    requires Run(ss, ls, cooldownMinutes) && m < |ls| && ls[m].Decide?
    requires ls[m].v in ss[m].running && ss[m].running[ls[m].v].Queried? && ss[m].clock <= ls[m].now
    ensures q < m && ls[q].Query? && ls[q].v == ls[m].v
    ensures var alerts := ss[q].alerts;
            var dropped := alerts != [] && Suppressed(alerts[|alerts| - 1], ls[q].severity, cooldownMinutes, ls[m].now);
            && (ls[m].v !in ss[m + 1].running <==> dropped)
            && (!dropped ==> ss[m + 1].running[ls[m].v] == Passed(ls[q].severity))
  {
    var v, at := ls[m].v, 0;
    hide IsDuplicate, Suppressed;
    q, at := Origin(ss, ls, cooldownMinutes, m, v);
    assert ss[m + 1] == Step(ss[m], ls[m], cooldownMinutes);
    DuplicateExactly(LatestOf(ss[q].alerts), ls[q].severity, cooldownMinutes, ls[m].now);
  }

  /** A step saves an alert exactly when it is the successful save of an evaluation that has passed. */
  lemma {:induction false} SavesExactly(ss: seq<System>, ls: seq<Label>, cooldownMinutes: int, m: nat)
    requires Run(ss, ls, cooldownMinutes) && m < |ls|
    ensures Saves(ss, m) <==>
              ls[m].Save? && ls[m].ok && ls[m].v in ss[m].running && ss[m].running[ls[m].v].Passed?
              && ss[m].clock <= ls[m].savedAt
    ensures Saves(ss, m) ==>
              ss[m + 1].alerts == ss[m].alerts + [Alert(ss[m].running[ls[m].v].severity, ls[m].savedAt, false, true)]
  {
    assert ss[m + 1] == Step(ss[m], ls[m], cooldownMinutes);
    hide IsDuplicate;
  }

  lemma {:induction false} CopyStays(ss: seq<System>, ls: seq<Label>, cooldownMinutes: int, a: nat, b: nat, d: nat)
    requires Run(ss, ls, cooldownMinutes) && a < b < |ss| && ls[a].Read? && ls[a].d == d && ls[a].i < |ss[a].alerts|
    requires forall k :: a < k < b ==> !(ls[k].Read? && ls[k].d == d)
    ensures d in ss[b].copies && ss[b].copies[d] == Copy(ls[a].i, ss[a].alerts[ls[a].i].resolved)
    ensures ls[a].i < |ss[b].alerts|
    decreases b - a
  {
    assert ss[b] == Step(ss[b - 1], ls[b - 1], cooldownMinutes);
    if a + 1 < b { CopyStays(ss, ls, cooldownMinutes, a, b - 1, d); }
    hide IsDuplicate;
  }

  /** A dispatcher's save brings back the resolution that its alert had when the dispatcher read it, whatever has
      happened to it since. */
  lemma {:induction false} WriteRestores(ss: seq<System>, ls: seq<Label>, cooldownMinutes: int, a: nat, b: nat, d: nat)
    requires Run(ss, ls, cooldownMinutes) && a < b < |ls| && ls[a].Read? && ls[a].d == d && ls[b] == Write(d)
    requires ls[a].i < |ss[a].alerts| && forall k :: a < k < b ==> !(ls[k].Read? && ls[k].d == d)
    ensures ls[a].i < |ss[b + 1].alerts| && ss[b + 1].alerts[ls[a].i].resolved == ss[a].alerts[ls[a].i].resolved
  {
    CopyStays(ss, ls, cooldownMinutes, a, b, d);
    assert ss[b + 1] == Step(ss[b], ls[b], cooldownMinutes);
    hide IsDuplicate;
  }

  lemma {:induction false} OneQuery(ss: seq<System>, ls: seq<Label>, cooldownMinutes: int, q: nat, r: nat, m: nat)
    requires Run(ss, ls, cooldownMinutes) && QueryAndSave(ss, ls, q, m) && QueryAndSave(ss, ls, r, m)
    ensures q == r
  {
    assert ss[q + 1] == Step(ss[q], ls[q], cooldownMinutes) && ss[r + 1] == Step(ss[r], ls[r], cooldownMinutes);
    if q < r { UsedStays(ss, ls, cooldownMinutes, q + 1, r); }
    if r < q { UsedStays(ss, ls, cooldownMinutes, r + 1, q); }
  }

  lemma {:induction false} NothingSaved(ss: seq<System>, ls: seq<Label>, cooldownMinutes: int, q: nat, j: nat)
    requires Run(ss, ls, cooldownMinutes) && q <= j < |ss| && forall k: nat :: q <= k < j ==> !Saves(ss, k)
    ensures SameAlerts(ss[q].alerts, ss[j].alerts)
    decreases j - q
  {
    hide Step;
    if q < j {
      NothingSaved(ss, ls, cooldownMinutes, q, j - 1);
      assert ss[j] == Step(ss[j - 1], ls[j - 1], cooldownMinutes) && !Saves(ss, j - 1);
      TableStep(ss[j - 1], ls[j - 1], cooldownMinutes);
    }
  }

  predicate BeforeClock(s: System) { forall i :: 0 <= i < |s.alerts| ==> s.alerts[i].createdAt <= s.clock }

  lemma {:induction false} Chronological(ss: seq<System>, ls: seq<Label>, cooldownMinutes: int, j: nat)
    requires Run(ss, ls, cooldownMinutes) && j < |ss|
    ensures BeforeClock(ss[j]) && CopiesOk(ss[j])
    decreases j
  {
    hide Step;
    if j > 0 {
      Chronological(ss, ls, cooldownMinutes, j - 1);
      TableStep(ss[j - 1], ls[j - 1], cooldownMinutes);
    }
  }

  lemma {:induction false} LastSave(ss: seq<System>, q: nat, m: nat) returns (k: nat)
    requires exists t: nat :: q <= t < m && Saves(ss, t)
    ensures q <= k < m && Saves(ss, k) && forall t: nat :: k < t < m ==> !Saves(ss, t)
    decreases m
  {
    if Saves(ss, m - 1) { k := m - 1; } else { k := LastSave(ss, q, m - 1); }
  }

  // ---- Resolutions ----

  predicate Unresolved(s: System, i: nat) {
    (i < |s.alerts| ==> !s.alerts[i].resolved)
    && forall d :: d in s.copies && s.copies[d].i == i ==> !s.copies[d].resolved
  }

  lemma {:induction false} UnresolvedStep(s: System, l: Label, cooldownMinutes: int, i: nat)
    requires Unresolved(s, i) && CopiesOk(s) && l != Resolve(i)
    ensures Unresolved(Step(s, l, cooldownMinutes), i)
  {
    hide IsDuplicate;
  }

  lemma {:induction false} UnresolvedWithout(ss: seq<System>, ls: seq<Label>, cooldownMinutes: int, k: nat, t: nat,
                                             i: nat)
    requires Run(ss, ls, cooldownMinutes) && Saves(ss, k) && |ss[k].alerts| == i && k < t < |ss|
    requires forall u: nat :: k < u < t ==> ls[u] != Resolve(i)
    ensures Unresolved(ss[t], i)
    decreases t
  {
    hide Step;
    if t == k + 1 {
      TableStep(ss[k], ls[k], cooldownMinutes);
      Chronological(ss, ls, cooldownMinutes, k);
      SaveLeavesCopies(ss[k], ls[k], cooldownMinutes);
    } else {
      UnresolvedWithout(ss, ls, cooldownMinutes, k, t - 1, i);
      Chronological(ss, ls, cooldownMinutes, t - 1);
      UnresolvedStep(ss[t - 1], ls[t - 1], cooldownMinutes, i);
    }
  }

  lemma {:induction false} SaveLeavesCopies(s: System, l: Label, cooldownMinutes: int)
    requires l.Save?
    ensures Step(s, l, cooldownMinutes).copies == s.copies
  {
  }

  lemma {:induction false} CountOnlyGrows(ss: seq<System>, ls: seq<Label>, cooldownMinutes: int, i: nat, j: nat)
    requires Run(ss, ls, cooldownMinutes) && i <= j < |ss|
    ensures |ss[i].alerts| <= |ss[j].alerts|
    decreases j - i
  {
    hide Step;
    if i < j {
      CountOnlyGrows(ss, ls, cooldownMinutes, i, j - 1);
      TableStep(ss[j - 1], ls[j - 1], cooldownMinutes);
    }
  }

  /** An alert has been resolved by state m exactly when somebody resolved it since it was saved: dispatchers
      may take a resolution back but never make one up. */
  lemma {:induction false} ResolvedExactly(ss: seq<System>, ls: seq<Label>, cooldownMinutes: int, k: nat, m: nat)
    requires Run(ss, ls, cooldownMinutes) && Saves(ss, k) && k < m < |ss|
    ensures EverResolved(ss, |ss[k].alerts|, m) <==> ResolvedBetween(ls, k, m, |ss[k].alerts|)
  {
    var i := |ss[k].alerts|;
    hide Step;
    if EverResolved(ss, i, m) {
      var t: nat :| t <= m && t < |ss| && ResolvedAt(ss[t], i);
      if t <= k { CountOnlyGrows(ss, ls, cooldownMinutes, t, k); }
      if forall u: nat :: k < u < t ==> ls[u] != Resolve(i) { UnresolvedWithout(ss, ls, cooldownMinutes, k, t, i); }
    }
    if ResolvedBetween(ls, k, m, i) {
      var t: nat :| k < t < m && t < |ls| && ls[t] == Resolve(i);
      CountOnlyGrows(ss, ls, cooldownMinutes, k + 1, t);
      ResolveMarks(ss[t], i, cooldownMinutes);
      assert ResolvedAt(ss[t + 1], i);
    }
  }

  lemma {:induction false} ResolveMarks(s: System, i: nat, cooldownMinutes: int)
    requires i < |s.alerts|
    ensures ResolvedAt(Step(s, Resolve(i), cooldownMinutes), i)
  {
  }

  // ---- The spacing theorem ----

  /** An evaluation that nothing saves into the middle of is spaced from what it read. */
  lemma {:induction false} AloneIsSpaced(ss: seq<System>, ls: seq<Label>, cooldownMinutes: int, q: nat, m: nat,
                                         now: Time)
    requires cooldownMinutes > 0 && Run(ss, ls, cooldownMinutes) && QueryAndSave(ss, ls, q, m)
             && now <= ss[m].clock <= ls[m].savedAt
    requires ss[m + 1].alerts == ss[m].alerts + [Alert(ls[q].severity, ls[m].savedAt, false, true)]
    requires !IsDuplicate(LatestOf(ss[q].alerts), ls[q].severity, cooldownMinutes, now)
    requires forall k: nat :: q <= k < m ==> !Saves(ss, k)
    ensures SpacedSave(ss, m, cooldownMinutes)
  {
    hide Step, SeverityRank;
    NothingSaved(ss, ls, cooldownMinutes, q, m);
    Chronological(ss, ls, cooldownMinutes, m);
    var n := |ss[m].alerts|;
    if n > 0 {
      assert ss[m].alerts[n - 1].createdAt == ss[q].alerts[n - 1].createdAt;
      if ss[q].alerts[n - 1].resolved { assert ResolvedAt(ss[q], n - 1); }
    }
  }

  /** An alert saved into the middle of an evaluation is spaced from the one that evaluation saves next exactly
      when the two do not clash. */
  lemma {:induction false} MiddleIsSpacedExactly(ss: seq<System>, ls: seq<Label>, cooldownMinutes: int, p: nat, k: nat,
                                                 q: nat, m: nat)
    requires Run(ss, ls, cooldownMinutes) && QueryAndSave(ss, ls, p, k) && QueryAndSave(ss, ls, q, m)
    requires q < k < m && forall t: nat :: k < t < m ==> !Saves(ss, t)
    ensures SpacedSave(ss, m, cooldownMinutes) <==> !Clashes(ss, ls, cooldownMinutes, p, k, q, m)
  {
    hide Step, SeverityRank, IsDuplicate, EverResolved, ResolvedBetween, LatestOf;
    var p', _ := SavedAlert(ss, ls, cooldownMinutes, k);
    var q', _ := SavedAlert(ss, ls, cooldownMinutes, m);
    OneQuery(ss, ls, cooldownMinutes, p, p', k);
    OneQuery(ss, ls, cooldownMinutes, q, q', m);
    NothingSaved(ss, ls, cooldownMinutes, k + 1, m);
    Chronological(ss, ls, cooldownMinutes, m);
    ResolvedExactly(ss, ls, cooldownMinutes, k, m);
    hide Run, QueryAndSave, CopiesOk;
  }

  lemma {:induction false} SpacedUnlessClash(ss: seq<System>, ls: seq<Label>, cooldownMinutes: int, j: nat, m: nat)
    requires cooldownMinutes > 0 && Run(ss, ls, cooldownMinutes) && m < j < |ss| && Saves(ss, m)
    requires !AnyClash(ss, ls, cooldownMinutes, j)
    ensures SpacedSave(ss, m, cooldownMinutes)
  {
    hide Step, IsDuplicate, LatestOf, Clashes, SpacedSave;
    var q, now := SavedAlert(ss, ls, cooldownMinutes, m);
    if exists k: nat :: q <= k < m && Saves(ss, k) {
      var k := LastSave(ss, q, m);
      var p, _ := SavedAlert(ss, ls, cooldownMinutes, k);
      MiddleIsSpacedExactly(ss, ls, cooldownMinutes, p, k, q, m);
    } else {
      AloneIsSpaced(ss, ls, cooldownMinutes, q, m, now);
    }
  }

  /** In any run, every alert is more severe than the one before it, or a cooldown after it when that one had
      been resolved, exactly when no two alerts clash: an overlap of two evaluations is the only thing that can
      bring alerts too close, and only if the later is no more severe and comes too soon. */
  lemma {:induction false} SpacedExactly(ss: seq<System>, ls: seq<Label>, cooldownMinutes: int, j: nat)
    requires cooldownMinutes > 0 && Run(ss, ls, cooldownMinutes) && j < |ss|
    ensures AllSpaced(ss, j, cooldownMinutes) <==> !AnyClash(ss, ls, cooldownMinutes, j)
  {
    hide Step, SpacedSave;
    if !AnyClash(ss, ls, cooldownMinutes, j) {
      forall m: nat | m < j && Saves(ss, m) ensures SpacedSave(ss, m, cooldownMinutes) {
        SpacedUnlessClash(ss, ls, cooldownMinutes, j, m);
      }
    }
    forall p: nat, k: nat, q: nat, m: nat | m < j && Clashes(ss, ls, cooldownMinutes, p, k, q, m)
      ensures !SpacedSave(ss, m, cooldownMinutes)
    {
      MiddleIsSpacedExactly(ss, ls, cooldownMinutes, p, k, q, m);
    }
  }

  /** No alert is saved between the SELECT of an evaluation that saves one and its own INSERT. Nothing else is
      asked: evaluations may overlap, be suppressed, fail or never end, and alerts may be resolved at any time. */
  ghost predicate Undisturbed(ss: seq<System>, ls: seq<Label>) {
    forall q: nat, k: nat, j: nat :: q < k < j && QueryAndSave(ss, ls, q, j) ==> !Saves(ss, k)
  }

  /** So in an undisturbed run all alerts are spaced. */
  lemma {:induction false} ConsecutiveAlertsSpaced(ss: seq<System>, ls: seq<Label>, cooldownMinutes: int, j: nat)
    requires cooldownMinutes > 0 && Run(ss, ls, cooldownMinutes) && Undisturbed(ss, ls) && j < |ss|
    ensures AllSpaced(ss, j, cooldownMinutes)
  {
    hide Run, AllSpaced;
    SpacedExactly(ss, ls, cooldownMinutes, j);
  }

  // ---- How many alerts fit into a cooldown ----

  predicate RiseOrApart(alerts: seq<Alert>, cooldownMinutes: int) {
    forall i :: 0 <= i < |alerts| - 1 ==>
      alerts[i].createdAt <= alerts[i + 1].createdAt
      && (SeverityRank(alerts[i + 1].severity) > SeverityRank(alerts[i].severity)
          || alerts[i + 1].createdAt - alerts[i].createdAt >= cooldownMinutes * MINUTE)
  }

  lemma {:induction false} SpacedRiseOrApart(ss: seq<System>, ls: seq<Label>, cooldownMinutes: int, j: nat)
    requires Run(ss, ls, cooldownMinutes) && j < |ss| && AllSpaced(ss, j, cooldownMinutes)
    ensures RiseOrApart(ss[j].alerts, cooldownMinutes)
    decreases j
  {
    hide Step, SeverityRank, EverResolved, CopiesOk;
    if j > 0 {
      SpacedRiseOrApart(ss, ls, cooldownMinutes, j - 1);
      TableStep(ss[j - 1], ls[j - 1], cooldownMinutes);
      if Saves(ss, j - 1) {
        assert SpacedSave(ss, j - 1, cooldownMinutes);
      }
    }
  }

  /** Within a cooldown, each later alert is more severe by at least one rank. */
  lemma {:induction false} RanksRise(alerts: seq<Alert>, cooldownMinutes: int, i: nat, j: nat)
    requires RiseOrApart(alerts, cooldownMinutes) && i <= j < |alerts|
    requires alerts[j].createdAt - alerts[i].createdAt < cooldownMinutes * MINUTE
    ensures alerts[i].createdAt <= alerts[j].createdAt
    ensures SeverityRank(alerts[j].severity) >= SeverityRank(alerts[i].severity) + (j - i)
    decreases j - i
  {
    if i < j {
      Ordered(alerts, cooldownMinutes, i, j - 1);
      RanksRise(alerts, cooldownMinutes, i, j - 1);
    }
  }

  lemma {:induction false} Ordered(alerts: seq<Alert>, cooldownMinutes: int, i: nat, j: nat)
    requires RiseOrApart(alerts, cooldownMinutes) && i <= j < |alerts|
    ensures alerts[i].createdAt <= alerts[j].createdAt
    decreases j - i
  {
    if i < j { Ordered(alerts, cooldownMinutes, i, j - 1); }
  }

  /** The alerts created in [from, from + cooldown). */
  function InWindow(alerts: seq<Alert>, from: Time, cooldownMinutes: int): set<nat> {
    set k: nat | k < |alerts| && from <= alerts[k].createdAt < from + cooldownMinutes * MINUTE
  }

  /** As long as no two alerts clash, any half-open window of cooldown length holds at most five alerts, and at
      most two when only warnings and critical alerts occur. */
  lemma {:induction false} WindowHoldsFew(ss: seq<System>, ls: seq<Label>, cooldownMinutes: int, j: nat, from: Time)
    requires cooldownMinutes > 0 && Run(ss, ls, cooldownMinutes) && j < |ss| && !AnyClash(ss, ls, cooldownMinutes, j)
    ensures |InWindow(ss[j].alerts, from, cooldownMinutes)| <= 5
    ensures (forall k :: 0 <= k < |ss[j].alerts| ==>
             ss[j].alerts[k].severity.WARNING? || ss[j].alerts[k].severity.CRITICAL?) ==>
              |InWindow(ss[j].alerts, from, cooldownMinutes)| <= 2
  {
    var alerts := ss[j].alerts;
    var window := InWindow(alerts, from, cooldownMinutes);
    SpacedExactly(ss, ls, cooldownMinutes, j);
    SpacedRiseOrApart(ss, ls, cooldownMinutes, j);
    hide Step, Run, AnyClash, AllSpaced, RiseOrApart;
    if window != {} {
      var first := Least(window);
      forall k | k in window
        ensures k - first <= 4 - SeverityRank(alerts[first].severity)
      {
        RanksRise(alerts, cooldownMinutes, first, k);
      }
      var span := 4 - SeverityRank(alerts[first].severity);
      SizeWithin(window, first, span);
    }
  }

  lemma {:induction false} Least(s: set<nat>) returns (m: nat)
    requires s != {}
    ensures m in s && forall k :: k in s ==> m <= k
    decreases s
  {
    var k0: nat :| k0 in s;
    m := k0;
    if s - {k0} != {} {
      m := Least(s - {k0});
      if k0 < m { m := k0; }
    }
    assert forall k :: k in s ==> k == k0 || k in s - {k0};
  }

  lemma {:induction false} SizeWithin(s: set<nat>, lo: nat, span: nat)
    requires forall k :: k in s ==> lo <= k <= lo + span
    ensures |s| <= span + 1
    decreases span
  {
    if span == 0 {
      if s != {} {
        assert s == {lo};
      }
    } else {
      SizeWithin(s - {lo + span}, lo, span - 1);
    }
  }

  // ---- Evaluations that disturb each other ----

  predicate Waiting(i: nat, k: nat, n: nat) { k <= i < n }

  /** n evaluations have read the empty table; the first d have passed, and the first k of those have saved. */
  function Burst(n: nat, d: nat, k: nat): System {
    System(seq(k, i => Alert(WARNING, 0, false, true)),
           map i: nat | i < n && Waiting(i, k, n) :: if i < d then Passed(WARNING) else Queried(WARNING, None),
           set i: nat | i < n && Waiting(i, 0, n), map[], 0)
  }

  lemma {:induction false} Extended(ss: seq<System>, ls: seq<Label>, cooldownMinutes: int, l: Label, s: System)
    requires Run(ss, ls, cooldownMinutes) && s == Step(ss[|ls|], l, cooldownMinutes)
    ensures Run(ss + [s], ls + [l], cooldownMinutes)
  {
    hide Step;
    forall i | 0 <= i < |ls| + 1 ensures (ss + [s])[i + 1] == Step((ss + [s])[i], (ls + [l])[i], cooldownMinutes) {
      if i < |ls| { assert ss[i + 1] == Step(ss[i], ls[i], cooldownMinutes); }
    }
  }

  /** Without that condition there is no bound: n evaluations that all read before any of them saves put n
      warnings into the table at one instant. */
  lemma {:induction false} OverlapDefeatsSuppression(n: nat, d: nat, k: nat, cooldownMinutes: int)
    returns (ss: seq<System>, ls: seq<Label>)
    requires k <= d <= n && (k > 0 ==> d == n)
    ensures Run(ss, ls, cooldownMinutes) && ss[|ls|] == Burst(n, d, k) && |ss[|ls|].alerts| == k
    decreases n + d + k
  {
    if k > 0 {
      ss, ls := OverlapDefeatsSuppression(n, d, k - 1, cooldownMinutes);
      SaveBurst(n, k, cooldownMinutes);
      Extended(ss, ls, cooldownMinutes, Save(k - 1, 0, true), Burst(n, n, k));
      ss, ls := ss + [Burst(n, n, k)], ls + [Save(k - 1, 0, true)];
    } else if d > 0 {
      ss, ls := OverlapDefeatsSuppression(n, d - 1, 0, cooldownMinutes);
      DecideBurst(n, d, cooldownMinutes);
      Extended(ss, ls, cooldownMinutes, Decide(d - 1, 0), Burst(n, d, 0));
      ss, ls := ss + [Burst(n, d, 0)], ls + [Decide(d - 1, 0)];
    } else if n > 0 {
      ss, ls := OverlapDefeatsSuppression(n - 1, 0, 0, cooldownMinutes);
      QueryBurst(n, cooldownMinutes);
      Extended(ss, ls, cooldownMinutes, Query(n - 1, WARNING), Burst(n, 0, 0));
      ss, ls := ss + [Burst(n, 0, 0)], ls + [Query(n - 1, WARNING)];
    } else {
      ss, ls := [Burst(0, 0, 0)], [];
      assert Burst(0, 0, 0) == System([], map[], {}, map[], 0);
    }
  }

  lemma SaveBurst(n: nat, k: nat, cooldownMinutes: int)
    requires 0 < k <= n
    ensures Step(Burst(n, n, k - 1), Save(k - 1, 0, true), cooldownMinutes) == Burst(n, n, k)
  {
    assert Burst(n, n, k - 1).running - {k - 1} == Burst(n, n, k).running;
    assert Burst(n, n, k - 1).alerts + [Alert(WARNING, 0, false, true)] == Burst(n, n, k).alerts;
  }

  lemma DecideBurst(n: nat, d: nat, cooldownMinutes: int)
    requires 0 < d <= n
    ensures Step(Burst(n, d - 1, 0), Decide(d - 1, 0), cooldownMinutes) == Burst(n, d, 0)
  {
    assert Burst(n, d - 1, 0).running[d - 1 := Passed(WARNING)] == Burst(n, d, 0).running;
  }

  lemma QueryBurst(n: nat, cooldownMinutes: int)
    requires 0 < n
    ensures Step(Burst(n - 1, 0, 0), Query(n - 1, WARNING), cooldownMinutes) == Burst(n, 0, 0)
  {
    assert Burst(n - 1, 0, 0).running[n - 1 := Queried(WARNING, None)] == Burst(n, 0, 0).running;
    assert Burst(n - 1, 0, 0).used + {n - 1} == Burst(n, 0, 0).used;
  }
}
