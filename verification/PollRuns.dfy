/** Runs of polls of any inverters and of the offline checks they start. Two polls of one inverter do not overlap;
    everything else interleaves. */
module PollRuns {
  import opened Prelude
  import opened Poller

  /** `checks` are the offline checks under way and `used` all those begun so far. */
  datatype System = System(fleet: Fleet, alerts: seq<FaultAlert>, checks: map<nat, CheckPc>, used: set<nat>,
                           clock: Time)

  /** A poll names the check it begins, if it fires one. `Look` is a check's SELECT and `Store` its INSERT, with
      `ok` false when that fails. */
  datatype Label =
    | Poll(inverter: Inverter, outcome: Outcome, check: nat, now: Time)
    | Look(check: nat)
    | Store(check: nat, savedAt: Time, ok: bool)

  predicate Enabled(s: System, l: Label) {
    match l
    case Poll(_, _, check, now) => check !in s.used && check !in s.checks && s.clock <= now
    case Look(check) => check in s.checks && s.checks[check].Begun?
    case Store(check, savedAt, _) => check in s.checks && s.checks[check].Cleared? && s.clock <= savedAt
  }

  function Step(s: System, l: Label): System
    requires Enabled(s, l)
  {
    match l
    case Poll(inverter, outcome, check, now) =>
      var s' := s.(fleet := Polled(s.fleet, inverter.id, outcome), clock := now);
      if Fires(s.fleet, inverter.id, outcome)
      then s'.(checks := s.checks[check := Begun(inverter.user, now)], used := s.used + {check}) else s'
    case Look(check) =>
      var (user, now) := (s.checks[check].user, s.checks[check].now);
      s.(checks := if Recent(s.alerts, user, now) then s.checks - {check} else s.checks[check := Cleared(user, now)])
    case Store(check, savedAt, ok) =>
      var alerts := if ok then s.alerts + [FaultAlert(s.checks[check].user, savedAt)] else s.alerts;
      s.(alerts := alerts, checks := s.checks - {check}, clock := savedAt)
  }

  ghost predicate Run(ss: seq<System>, ls: seq<Label>) {
    && |ss| == |ls| + 1 && ss[0].fleet == Fleet(map[], {}) && ss[0].alerts == [] && ss[0].checks == map[]
    && ss[0].used == {}
    && forall i :: 0 <= i < |ls| ==> Enabled(ss[i], ls[i]) && ss[i + 1] == Step(ss[i], ls[i])
  }

  // ---- Failure counts ----

  /** The outcomes of one inverter's polls. */
  function Outcomes(ls: seq<Label>, id: Id): seq<Outcome> {
    if ls == [] then []
    else
      var l := ls[|ls| - 1];
      Outcomes(ls[..|ls| - 1], id) + if l.Poll? && l.inverter.id == id then [l.outcome] else []
  }

  /** The number of polls up to and including the last that fetched. */
  function LastFetch(os: seq<Outcome>): (n: nat)
    ensures n <= |os| && (n > 0 ==> os[n - 1].Fetched?) && forall i :: n <= i < |os| ==> !os[i].Fetched?
  {
    if os == [] then 0 else if os[|os| - 1].Fetched? then |os| else LastFetch(os[..|os| - 1])
  }

  /** The number of polls up to and including the last that fetched and was marked online. */
  function LastOnline(os: seq<Outcome>): (n: nat)
    ensures n <= |os| && (n > 0 ==> os[n - 1] == Fetched(true)) && forall i :: n <= i < |os| ==> os[i] != Fetched(true)
  {
    if os == [] then 0 else if os[|os| - 1] == Fetched(true) then |os| else LastOnline(os[..|os| - 1])
  }

  function FetchFailures(os: seq<Outcome>): nat {
    if os == [] then 0 else FetchFailures(os[..|os| - 1]) + if os[|os| - 1].FetchFails? then 1 else 0
  }

  /** Fetch failures since the last fetch; failed decryptions do not count. */
  function TrailingFailures(os: seq<Outcome>): nat { FetchFailures(os[LastFetch(os)..]) }

  /** A fetch whose online mark failed leaves a count of one behind. */
  predicate LastMarkFailed(os: seq<Outcome>) { LastFetch(os) > 0 && !os[LastFetch(os) - 1].marked }

  /** The count the outcomes lead to. */
  function Count(os: seq<Outcome>): nat { TrailingFailures(os) + if LastMarkFailed(os) then 1 else 0 }

  lemma {:induction false} CountStep(os: seq<Outcome>, o: Outcome)
    ensures TrailingFailures(os + [o]) == match o case DecryptFails => TrailingFailures(os)
                                                  case FetchFails(_) => TrailingFailures(os) + 1
                                                  case Fetched(_) => 0
    ensures LastMarkFailed(os + [o]) == if o.Fetched? then !o.marked else LastMarkFailed(os)
  {
    var all := os + [o];
    assert all[..|all| - 1] == os;
    if !o.Fetched? {
      var t := all[LastFetch(os)..];
      assert t[..|t| - 1] == os[LastFetch(os)..];
    }
  }

  /** What step j adds to an inverter's outcomes and does to its part of the fleet. */
  lemma {:induction false} OutcomesStep(ss: seq<System>, ls: seq<Label>, j: nat, id: Id)
    requires Run(ss, ls) && j < |ls|
    ensures var (os, l) := (Outcomes(ls[..j], id), ls[j]);
            if l.Poll? && l.inverter.id == id
            then Outcomes(ls[..j + 1], id) == os + [l.outcome] && ss[j + 1].fleet == Polled(ss[j].fleet, id, l.outcome)
            else Outcomes(ls[..j + 1], id) == os && CountOf(ss[j + 1].fleet, id) == CountOf(ss[j].fleet, id)
                 && (id in ss[j + 1].fleet.offline <==> id in ss[j].fleet.offline)
  {
    assert ls[..j + 1][..j] == ls[..j];
    assert ss[j + 1] == Step(ss[j], ls[j]);
    hide Recent, Fires;
  }

  /** In every interleaving an inverter's count is its trailing run of fetch failures, plus one exactly when
      marking it online failed at its last fetch. */
  lemma {:induction false} CountIsTrailingRun(ss: seq<System>, ls: seq<Label>, j: nat, id: Id)
    requires Run(ss, ls) && j < |ss|
    ensures var os := Outcomes(ls[..j], id);
            CountOf(ss[j].fleet, id) == TrailingFailures(os) + if LastMarkFailed(os) then 1 else 0
    decreases j
  {
    if j == 0 {
      assert TrailingFailures([]) == 0;
    } else {
      CountIsTrailingRun(ss, ls, j - 1, id);
      OutcomesStep(ss, ls, j - 1, id);
      if ls[j - 1].Poll? { CountStep(Outcomes(ls[..j - 1], id), ls[j - 1].outcome); }
      hide Run, TrailingFailures, LastMarkFailed, Outcomes;
    }
  }

  /** Poll i is a fetch failure that finds a count of two or more and is marked. */
  predicate Downs(os: seq<Outcome>, i: nat) { i < |os| && os[i] == FetchFails(true) && Count(os[..i]) >= 2 }

  ghost predicate Downed(os: seq<Outcome>) { exists i: nat :: LastOnline(os) <= i && Downs(os, i) }

  lemma {:induction false} DownedStep(os: seq<Outcome>, o: Outcome)
    ensures Downed(os + [o]) <==> o != Fetched(true) && (Downed(os) || (o == FetchFails(true) && Count(os) >= 2))
  {
    hide Count;
    var all := os + [o];
    assert all[..|all| - 1] == os && all[..|os|] == os;
    assert forall i: nat :: i < |os| ==> all[..i] == os[..i];
    forall i: nat | LastOnline(os) <= i && Downs(os, i) ensures Downs(all, i) {}
    if o == FetchFails(true) && Count(os) >= 2 { assert Downs(all, |os|); }
    forall i: nat | LastOnline(all) <= i && Downs(all, i) ensures i == |os| || Downs(os, i) {}
  }

  /** An inverter is offline exactly when, since it was last marked online, a fetch failure that was at least
      the third of its run was marked. Marks may fail in either direction. */
  lemma {:induction false} OfflineExactly(ss: seq<System>, ls: seq<Label>, j: nat, id: Id)
    requires Run(ss, ls) && j < |ss|
    ensures id in ss[j].fleet.offline <==> Downed(Outcomes(ls[..j], id))
    decreases j
  {
    hide Count, Downed, Step, Enabled, TrailingFailures, LastMarkFailed;
    if j == 0 {
      NeverPolled();
    } else {
      var os := Outcomes(ls[..j - 1], id);
      OfflineExactly(ss, ls, j - 1, id);
      OutcomesStep(ss, ls, j - 1, id);
      CountIsTrailingRun(ss, ls, j - 1, id);
      hide Run, Outcomes;
      if ls[j - 1].Poll? && ls[j - 1].inverter.id == id { DownedPoll(ss[j - 1].fleet, id, os, ls[j - 1].outcome); }
      hide TrailingFailures, LastMarkFailed, Polled;
    }
  }

  lemma {:induction false} DownedPoll(f: Fleet, id: Id, os: seq<Outcome>, o: Outcome)
    requires CountOf(f, id) == TrailingFailures(os) + if LastMarkFailed(os) then 1 else 0
    requires id in f.offline <==> Downed(os)
    ensures id in Polled(f, id, o).offline <==> Downed(os + [o])
  {
    CountOfOutcomes(os);
    DownedStep(os, o);
    hide TrailingFailures, LastMarkFailed, Downed, Count;
  }

  lemma NeverPolled()
    ensures !Downed([])
  {
  }

  lemma {:induction false} CountOfOutcomes(os: seq<Outcome>)
    ensures Count(os) == TrailingFailures(os) + if LastMarkFailed(os) then 1 else 0
  {
  }

  predicate AllMarked(os: seq<Outcome>) { forall i :: 0 <= i < |os| ==> os[i].DecryptFails? || os[i].marked }

  /** While no mark fails, an inverter is offline exactly when its last three or more fetches failed. */
  lemma {:induction false} OfflineAfterThree(ss: seq<System>, ls: seq<Label>, j: nat, id: Id)
    requires Run(ss, ls) && j < |ss| && AllMarked(Outcomes(ls[..j], id))
    ensures id in ss[j].fleet.offline <==> TrailingFailures(Outcomes(ls[..j], id)) >= 3
    decreases j
  {
    if j == 0 {
      assert TrailingFailures([]) == 0;
    } else {
      var os, all := Outcomes(ls[..j - 1], id), Outcomes(ls[..j], id);
      OutcomesStep(ss, ls, j - 1, id);
      MarkedPrefix(os, all);
      OfflineAfterThree(ss, ls, j - 1, id);
      CountIsTrailingRun(ss, ls, j - 1, id);
      hide Run, Outcomes, Step, Enabled;
      if ls[j - 1].Poll? && ls[j - 1].inverter.id == id { MarkedPoll(ss[j - 1].fleet, id, os, ls[j - 1].outcome); }
      hide TrailingFailures, LastMarkFailed, AllMarked, Polled;
    }
  }

  lemma {:induction false} MarkedPoll(f: Fleet, id: Id, os: seq<Outcome>, o: Outcome)
    requires AllMarked(os + [o])
    requires CountOf(f, id) == TrailingFailures(os) + if LastMarkFailed(os) then 1 else 0
    requires id in f.offline <==> TrailingFailures(os) >= 3
    ensures id in Polled(f, id, o).offline <==> TrailingFailures(os + [o]) >= 3
  {
    MarkedPrefix(os, os + [o]);
    assert !LastMarkFailed(os);
    CountStep(os, o);
    assert (os + [o])[|os|] == o;
    hide TrailingFailures, LastMarkFailed;
  }

  lemma {:induction false} MarkedPrefix(os: seq<Outcome>, all: seq<Outcome>)
    requires AllMarked(all) && os <= all
    ensures AllMarked(os)
  {
    assert forall i :: 0 <= i < |os| ==> os[i] == all[i];
  }

  // ---- Offline alerts ----

  /** The times of one user's alerts. */
  function Times(alerts: seq<FaultAlert>, user: Id): seq<Time> {
    if alerts == [] then []
    else Times(alerts[..|alerts| - 1], user)
         + if alerts[|alerts| - 1].user == user then [alerts[|alerts| - 1].createdAt] else []
  }

  predicate Apart(ts: seq<Time>) { forall i :: 0 <= i < |ts| - 1 ==> ts[i + 1] - ts[i] >= 60 * MINUTE }

  /** Step k saves an alert of the user. */
  predicate Saves(ss: seq<System>, ls: seq<Label>, k: nat, user: Id) {
    k < |ls| && k < |ss| && ls[k].Store? && ls[k].ok && ls[k].check in ss[k].checks
    && ss[k].checks[ls[k].check].user == user
  }

  /** Step q is the SELECT of a check of the user and step j its INSERT. */
  predicate LookAndSave(ss: seq<System>, ls: seq<Label>, q: nat, j: nat, user: Id) {
    q < j < |ls| && ls[q].Look? && Saves(ss, ls, j, user) && ls[q].check == ls[j].check
  }

  /** No alert of this user is saved between the SELECT of one of the user's checks that saves an alert and its
      own INSERT. Checks of other users, polls, and checks that save nothing may come anywhere. */
  ghost predicate Undisturbed(ss: seq<System>, ls: seq<Label>, user: Id) {
    forall q: nat, k: nat, j: nat :: q < k < j && LookAndSave(ss, ls, q, j, user) ==> !Saves(ss, ls, k, user)
  }

  lemma {:induction false} LatestIsLastTime(alerts: seq<FaultAlert>, user: Id)
    ensures var ts, last := Times(alerts, user), Latest(alerts, user);
            (last.Some? <==> ts != [])
            && (last.Some? ==> last.value.createdAt == ts[|ts| - 1] && last.value.user == user)
  {
    if alerts != [] { LatestIsLastTime(alerts[..|alerts| - 1], user); }
  }

  lemma {:induction false} TimesStep(ss: seq<System>, ls: seq<Label>, k: nat, user: Id)
    requires Run(ss, ls) && k < |ls|
    ensures Times(ss[k + 1].alerts, user) == Times(ss[k].alerts, user)
            + if Saves(ss, ls, k, user) then [ls[k].savedAt] else []
  {
    hide Recent, Fires, Polled;
    assert Enabled(ss[k], ls[k]) && ss[k + 1] == Step(ss[k], ls[k]);
    if ls[k].Store? && ls[k].ok {
      var more := ss[k + 1].alerts;
      assert more[..|more| - 1] == ss[k].alerts;
    }
  }

  lemma {:induction false} ClockStep(ss: seq<System>, ls: seq<Label>, k: nat)
    requires Run(ss, ls) && k < |ls|
    ensures ss[k].clock <= ss[k + 1].clock
  {
    assert Enabled(ss[k], ls[k]) && ss[k + 1] == Step(ss[k], ls[k]);
    hide Recent, Fires, Polled;
  }

  lemma {:induction false} ChecksStep(ss: seq<System>, ls: seq<Label>, k: nat, c: nat)
    requires Run(ss, ls) && k < |ls| && c in ss[k + 1].checks
    ensures if c !in ss[k].checks then
              ls[k].Poll? && ls[k].check == c && ss[k + 1].checks[c] == Begun(ls[k].inverter.user, ss[k + 1].clock)
            else ss[k + 1].checks[c] == ss[k].checks[c]
                 || (ls[k] == Look(c) && ss[k].checks[c].Begun?
                     && !Recent(ss[k].alerts, ss[k].checks[c].user, ss[k].checks[c].now)
                     && ss[k + 1].checks[c] == Cleared(ss[k].checks[c].user, ss[k].checks[c].now))
  {
    hide Recent, Fires, Polled;
    assert Enabled(ss[k], ls[k]) && ss[k + 1] == Step(ss[k], ls[k]);
  }

  /** A check that is to save an alert looked at some step q and found none of its user's from the last hour. */
  lemma {:induction false} LookOrigin(ss: seq<System>, ls: seq<Label>, j: nat, c: nat) returns (q: nat)
    requires Run(ss, ls) && j < |ss| && c in ss[j].checks
    ensures ss[j].checks[c].now <= ss[j].clock
    ensures ss[j].checks[c].Cleared? ==>
              q < j && ls[q] == Look(c) && !Recent(ss[q].alerts, ss[j].checks[c].user, ss[j].checks[c].now)
    decreases j
  {
    hide Recent, Step, Enabled;
    assert j > 0;
    ChecksStep(ss, ls, j - 1, c);
    ClockStep(ss, ls, j - 1);
    q := 0;
    if c in ss[j - 1].checks {
      q := LookOrigin(ss, ls, j - 1, c);
      if ss[j].checks[c] != ss[j - 1].checks[c] { q := j - 1; }
    }
  }

  lemma {:induction false} NothingSaved(ss: seq<System>, ls: seq<Label>, q: nat, j: nat, user: Id)
    requires Run(ss, ls) && q <= j < |ss| && forall k: nat :: q <= k < j ==> !Saves(ss, ls, k, user)
    ensures Times(ss[j].alerts, user) == Times(ss[q].alerts, user)
    decreases j - q
  {
    hide Step, Enabled, Times, Saves;
    if q < j {
      NothingSaved(ss, ls, q, j - 1, user);
      TimesStep(ss, ls, j - 1, user);
      assert !Saves(ss, ls, j - 1, user);
    }
  }

  /** As long as the user's own checks are undisturbed, the user's offline alerts are at least an hour apart. */
  lemma {:induction false} AlertsAnHourApart(ss: seq<System>, ls: seq<Label>, j: nat, user: Id)
    requires Run(ss, ls) && Undisturbed(ss, ls, user) && j < |ss|
    ensures Apart(Times(ss[j].alerts, user))
    decreases j
  {
    hide Step, Enabled, Times;
    if j == 0 {
      NoTimes(user);
    } else {
      AlertsAnHourApart(ss, ls, j - 1, user);
      TimesStep(ss, ls, j - 1, user);
      if Saves(ss, ls, j - 1, user) { SaveIsApart(ss, ls, j - 1, user); }
    }
  }

  lemma {:induction false} NoTimes(user: Id)
    ensures Times([], user) == []
  {
  }

  lemma {:induction false} SaveIsApart(ss: seq<System>, ls: seq<Label>, j: nat, user: Id)
    requires Run(ss, ls) && Undisturbed(ss, ls, user) && Saves(ss, ls, j, user)
    ensures var ts := Times(ss[j].alerts, user); ts != [] ==> ls[j].savedAt - ts[|ts| - 1] >= 60 * MINUTE
  {
    var c := ls[j].check;
    assert Enabled(ss[j], ls[j]);
    hide Step, Times;
    var q := LookOrigin(ss, ls, j, c);
    assert LookAndSave(ss, ls, q, j, user) && !Saves(ss, ls, q, user);
    forall k: nat | q <= k < j ensures !Saves(ss, ls, k, user) {}
    NothingSaved(ss, ls, q, j, user);
    LatestIsLastTime(ss[q].alerts, user);
    hide Latest;
  }

  /** Some check of the user saves an alert less than an hour after another that was saved between its own
      SELECT and INSERT. */
  ghost predicate Collides(ss: seq<System>, ls: seq<Label>, j: nat, user: Id) {
    exists q: nat, k: nat, m: nat :: q < k < m < j && LookAndSave(ss, ls, q, m, user) && Saves(ss, ls, k, user)
                                     && ls[m].savedAt - ls[k].savedAt < 60 * MINUTE
  }

  lemma {:induction false} TimesGrow(ss: seq<System>, ls: seq<Label>, k: nat, j: nat, user: Id)
    requires Run(ss, ls) && k <= j < |ss|
    ensures Times(ss[k].alerts, user) <= Times(ss[j].alerts, user)
    decreases j - k
  {
    hide Step, Enabled, Times, Saves;
    if k < j {
      TimesGrow(ss, ls, k, j - 1, user);
      TimesStep(ss, ls, j - 1, user);
    }
  }

  /** The alert saved at step k stands where the user's list ended then. */
  lemma {:induction false} SavedTime(ss: seq<System>, ls: seq<Label>, k: nat, j: nat, user: Id)
    requires Run(ss, ls) && k < j < |ss| && Saves(ss, ls, k, user)
    ensures |Times(ss[k].alerts, user)| < |Times(ss[j].alerts, user)|
    ensures Times(ss[j].alerts, user)[|Times(ss[k].alerts, user)|] == ls[k].savedAt
    ensures Times(ss[k + 1].alerts, user) == Times(ss[k].alerts, user) + [ls[k].savedAt]
  {
    hide Step, Enabled, Times;
    TimesStep(ss, ls, k, user);
    TimesGrow(ss, ls, k + 1, j, user);
  }

  lemma {:induction false} LastSave(ss: seq<System>, ls: seq<Label>, q: nat, j: nat, user: Id) returns (k: nat)
    requires Run(ss, ls) && j < |ss| && exists m: nat :: q <= m < j && Saves(ss, ls, m, user)
    ensures q <= k < j && Saves(ss, ls, k, user)
    ensures var ts := Times(ss[j].alerts, user); ts != [] && ts[|ts| - 1] == ls[k].savedAt
    decreases j
  {
    hide Step, Enabled, Times, Saves;
    TimesStep(ss, ls, j - 1, user);
    if Saves(ss, ls, j - 1, user) { k := j - 1; } else { k := LastSave(ss, ls, q, j - 1, user); }
  }

  lemma {:induction false} CloseSavesCollide(ss: seq<System>, ls: seq<Label>, m: nat, j: nat, user: Id)
    requires Run(ss, ls) && m < j < |ss| && Saves(ss, ls, m, user) && !Collides(ss, ls, j, user)
    ensures var ts := Times(ss[m].alerts, user); ts != [] ==> ls[m].savedAt - ts[|ts| - 1] >= 60 * MINUTE
  {
    assert Enabled(ss[m], ls[m]);
    hide Step, Times;
    var q := LookOrigin(ss, ls, m, ls[m].check);
    assert LookAndSave(ss, ls, q, m, user) && !Saves(ss, ls, q, user);
    if exists k: nat :: q <= k < m && Saves(ss, ls, k, user) {
      var k := LastSave(ss, ls, q, m, user);
    } else {
      NothingSaved(ss, ls, q, m, user);
      LatestIsLastTime(ss[q].alerts, user);
      hide Latest;
    }
  }

  lemma {:induction false} ApartUnlessCollides(ss: seq<System>, ls: seq<Label>, i: nat, j: nat, user: Id)
    requires Run(ss, ls) && i <= j < |ss| && !Collides(ss, ls, j, user)
    ensures Apart(Times(ss[i].alerts, user))
    decreases i
  {
    hide Step, Enabled, Times, Collides, Saves;
    if i == 0 {
      NoTimes(user);
    } else {
      ApartUnlessCollides(ss, ls, i - 1, j, user);
      TimesStep(ss, ls, i - 1, user);
      if Saves(ss, ls, i - 1, user) { CloseSavesCollide(ss, ls, i - 1, j, user); }
    }
  }

  /** Two consecutive offline alerts of a user are closer than an hour exactly when one of the user's checks
      saved its alert in the middle of another's, less than an hour before it. */
  lemma {:induction false} ApartExactly(ss: seq<System>, ls: seq<Label>, j: nat, user: Id)
    requires Run(ss, ls) && j < |ss|
    ensures Apart(Times(ss[j].alerts, user)) <==> !Collides(ss, ls, j, user)
  {
    hide Step, Enabled, Times;
    if !Collides(ss, ls, j, user) {
      ApartUnlessCollides(ss, ls, j, j, user);
    }
    if Apart(Times(ss[j].alerts, user)) {
      forall q: nat, k: nat, m: nat | q < k < m < j && LookAndSave(ss, ls, q, m, user) && Saves(ss, ls, k, user)
        ensures ls[m].savedAt - ls[k].savedAt >= 60 * MINUTE
      {
        SavedTime(ss, ls, k, j, user);
        SavedTime(ss, ls, m, j, user);
        TimesGrow(ss, ls, k + 1, m, user);
        SpanOf(Times(ss[j].alerts, user), |Times(ss[k].alerts, user)|, |Times(ss[m].alerts, user)|);
      }
    }
  }

  lemma {:induction false} SpanOf(ts: seq<Time>, i: nat, j: nat)
    requires Apart(ts) && i <= j < |ts|
    ensures ts[j] - ts[i] >= (j - i) * (60 * MINUTE)
    decreases j - i
  {
    if i < j { SpanOf(ts, i, j - 1); }
  }

  /** Any stretch of time of length d holds at most 1 + floor(d / 60 min) offline alerts of such a user: the
      a-th to the b-th are never more. */
  lemma {:induction false} OutageAlerts(ss: seq<System>, ls: seq<Label>, j: nat, user: Id, a: nat, b: nat, d: int)
    requires Run(ss, ls) && Undisturbed(ss, ls, user) && j < |ss|
    requires a <= b < |Times(ss[j].alerts, user)| && Times(ss[j].alerts, user)[b] - Times(ss[j].alerts, user)[a] <= d
    ensures b - a + 1 <= 1 + d / (60 * MINUTE)
  {
    AlertsAnHourApart(ss, ls, j, user);
    SpanOf(Times(ss[j].alerts, user), a, b);
    hide Times, Apart, Step, Enabled;
    QuotientAtLeast(d, b - a);
  }

  lemma QuotientAtLeast(d: int, n: int)
    requires n * (60 * MINUTE) <= d
    ensures n <= d / (60 * MINUTE)
  {
  }

  /** A poll fires a check exactly when it is a marked fetch failure that brings the count to three or more;
      the inverter is offline then. */
  lemma {:induction false} FiresExactly(f: Fleet, id: Id, outcome: Outcome)
    ensures Fires(f, id, outcome) <==> outcome == FetchFails(true) && CountOf(Polled(f, id, outcome), id) >= 3
    ensures Fires(f, id, outcome) ==> id in Polled(f, id, outcome).offline
  {
  }

  /** Once the check of such a poll is over, unless its save failed, the user has had an alert from less than
      an hour before the poll, or a later one. */
  lemma {:induction false} OfflineMeansAlerted(ss: seq<System>, ls: seq<Label>, i: nat, j: nat) returns (k: nat)
    requires Run(ss, ls) && i < j < |ss| && ls[i].Poll? && Fires(ss[i].fleet, ls[i].inverter.id, ls[i].outcome)
    requires ls[i].check !in ss[j].checks
    requires forall m :: i < m < j ==> !(ls[m].Store? && ls[m].check == ls[i].check && !ls[m].ok)
    ensures i < k <= j && Recent(ss[k].alerts, ls[i].inverter.user, ls[i].now)
    ensures AlertedSince(ss[k].alerts, ls[i].inverter.user, ls[i].now - 60 * 60 * 1000)
  {
    var c, user, now := ls[i].check, ls[i].inverter.user, ls[i].now;
    assert Enabled(ss[i], ls[i]) && ss[i + 1] == Step(ss[i], ls[i]);
    hide Recent, Step, Enabled;
    k := i + 1;
    while c in ss[k].checks
      invariant i < k <= j && (c in ss[k].checks ==> ss[k].checks[c].user == user && ss[k].checks[c].now == now)
      invariant c !in ss[k].checks ==> Recent(ss[k].alerts, user, now)
      decreases j - k
    {
      CheckGoesOn(ss, ls, k, c);
      k := k + 1;
    }
    RecentAlert(ss[k].alerts, user, now);
  }

  /** The user has an alert from after that instant. */
  predicate AlertedSince(alerts: seq<FaultAlert>, user: Id, t: Time) {
    exists i :: 0 <= i < |alerts| && alerts[i].user == user && alerts[i].createdAt > t
  }

  lemma {:induction false} RecentAlert(alerts: seq<FaultAlert>, user: Id, now: Time)
    ensures Recent(alerts, user, now) ==> AlertedSince(alerts, user, now - 60 * 60 * 1000)
  {
    if alerts != [] && alerts[|alerts| - 1].user != user {
      var before := alerts[..|alerts| - 1];
      RecentAlert(before, user, now);
      if AlertedSince(before, user, now - 60 * 60 * 1000) {
        var i :| 0 <= i < |before| && before[i].user == user && before[i].createdAt > now - 60 * 60 * 1000;
        assert alerts[i] == before[i];
      }
    }
  }

  lemma {:induction false} CheckGoesOn(ss: seq<System>, ls: seq<Label>, k: nat, c: nat)
    requires Run(ss, ls) && k < |ls| && c in ss[k].checks && !(ls[k].Store? && ls[k].check == c && !ls[k].ok)
    ensures if c in ss[k + 1].checks then
              ss[k + 1].checks[c].user == ss[k].checks[c].user && ss[k + 1].checks[c].now == ss[k].checks[c].now
            else Recent(ss[k + 1].alerts, ss[k].checks[c].user, ss[k].checks[c].now)
  {
    assert Enabled(ss[k], ls[k]) && ss[k + 1] == Step(ss[k], ls[k]);
    var _ := LookOrigin(ss, ls, k, c);
    hide Fires, Polled;
  }

  /** A check is over exactly when it has found a recent alert, or has tried to save its own. */
  lemma {:induction false} CheckEndsExactly(ss: seq<System>, ls: seq<Label>, k: nat, c: nat)
    requires Run(ss, ls) && k < |ls| && c in ss[k].checks
    ensures c !in ss[k + 1].checks <==>
              (ls[k].Store? && ls[k].check == c)
              || (ls[k] == Look(c) && Recent(ss[k].alerts, ss[k].checks[c].user, ss[k].checks[c].now))
  {
    assert Enabled(ss[k], ls[k]) && ss[k + 1] == Step(ss[k], ls[k]);
    hide Recent, Fires, Polled;
  }

  // ---- A witness run ----

  lemma {:induction false} Extended(ss: seq<System>, ls: seq<Label>, l: Label, s: System)
    requires Run(ss, ls) && Enabled(ss[|ls|], l) && s == Step(ss[|ls|], l)
    ensures Run(ss + [s], ls + [l])
  {
    hide Step, Enabled;
    forall i | 0 <= i < |ls| + 1
      ensures Enabled((ss + [s])[i], (ls + [l])[i]) && (ss + [s])[i + 1] == Step((ss + [s])[i], (ls + [l])[i])
    {
      if i < |ls| { assert Enabled(ss[i], ls[i]) && ss[i + 1] == Step(ss[i], ls[i]); }
    }
  }

  /** n more failed polls of an inverter that has failed so far without firing. */
  lemma {:induction false} Failing(ss: seq<System>, ls: seq<Label>, inverter: Inverter, n: nat)
    returns (ss': seq<System>, ls': seq<Label>)
    requires Run(ss, ls) && ss[|ls|].clock == 0 && ss[|ls|].used == {} && ss[|ls|].checks == map[]
    requires n + CountOf(ss[|ls|].fleet, inverter.id) <= 2
    ensures Run(ss', ls')
    ensures var (s, s') := (ss[|ls|], ss'[|ls'|]);
            && s' == s.(fleet := s'.fleet) && s'.fleet.offline == s.fleet.offline
            && (forall id :: CountOf(s'.fleet, id) == CountOf(s.fleet, id) + if id == inverter.id then n else 0)
    decreases n
  {
    if n == 0 {
      ss', ls' := ss, ls;
    } else {
      var l := Poll(inverter, FetchFails(true), 0, 0);
      var s := Step(ss[|ls|], l);
      Extended(ss, ls, l, s);
      hide Step, Enabled, Run;
      ss', ls' := Failing(ss + [s], ls + [l], inverter, n - 1);
    }
  }

  /** Two inverters of one user fail for the third time in one sweep: both checks look before either saves,
      and the user gets two alerts at one instant. */
  lemma {:induction false} SweepAlertsTwice(a: Inverter, b: Inverter) returns (ss: seq<System>, ls: seq<Label>)
    requires a.id != b.id && a.user == b.user
    ensures Run(ss, ls) && Times(ss[|ls|].alerts, a.user) == [0, 0]
  {
    ss, ls := [System(Fleet(map[], {}), [], map[], {}, 0)], [];
    ss, ls := Failing(ss, ls, a, 2);
    ss, ls := Failing(ss, ls, b, 2);
    hide Run;
    var l := Poll(a, FetchFails(true), 0, 0);
    var s := Step(ss[|ls|], l);
    assert s.checks == map[0 := Begun(a.user, 0)];
    Extended(ss, ls, l, s);
    ss, ls, l := ss + [s], ls + [l], Poll(b, FetchFails(true), 1, 0);
    s := Step(s, l);
    assert s.checks == map[0 := Begun(a.user, 0), 1 := Begun(a.user, 0)] && s.alerts == [] && s.clock == 0;
    Extended(ss, ls, l, s);
    ss, ls := ss + [s], ls + [l];
    ss, ls := BothSave(ss, ls, a.user);
  }

  lemma {:induction false} BothSave(ss0: seq<System>, ls0: seq<Label>, user: Id)
    returns (ss: seq<System>, ls: seq<Label>)
    requires Run(ss0, ls0) && ss0[|ls0|].alerts == [] && ss0[|ls0|].clock == 0
    requires ss0[|ls0|].checks == map[0 := Begun(user, 0), 1 := Begun(user, 0)]
    ensures Run(ss, ls) && Times(ss[|ls|].alerts, user) == [0, 0]
  {
    ss, ls := BothLook(ss0, ls0, user);
    hide Run;
    var one, two := [FaultAlert(user, 0)], [FaultAlert(user, 0), FaultAlert(user, 0)];
    var s := ss[|ls|].(checks := map[1 := Cleared(user, 0)], alerts := one);
    Extended(ss, ls, Store(0, 0, true), s);
    ss, ls := ss + [s], ls + [Store(0, 0, true)];
    s := s.(checks := map[], alerts := two);
    Extended(ss, ls, Store(1, 0, true), s);
    ss, ls := ss + [s], ls + [Store(1, 0, true)];
    TwoTimes(user);
    hide Step, Enabled;
  }

  lemma {:induction false} BothLook(ss0: seq<System>, ls0: seq<Label>, user: Id)
    returns (ss: seq<System>, ls: seq<Label>)
    requires Run(ss0, ls0) && ss0[|ls0|].alerts == [] && ss0[|ls0|].clock == 0
    requires ss0[|ls0|].checks == map[0 := Begun(user, 0), 1 := Begun(user, 0)]
    ensures Run(ss, ls) && |ss| == |ls| + 1
            && ss[|ls|] == ss0[|ls0|].(checks := map[0 := Cleared(user, 0), 1 := Cleared(user, 0)])
  {
    ss, ls := ss0, ls0;
    var s := ss[|ls|].(checks := map[0 := Cleared(user, 0), 1 := Begun(user, 0)]);
    Extended(ss, ls, Look(0), s);
    ss, ls := ss + [s], ls + [Look(0)];
    s := s.(checks := map[0 := Cleared(user, 0), 1 := Cleared(user, 0)]);
    Extended(ss, ls, Look(1), s);
    ss, ls := ss + [s], ls + [Look(1)];
  }

  lemma {:induction false} TwoTimes(user: Id)
    ensures Times([FaultAlert(user, 0), FaultAlert(user, 0)], user) == [0, 0]
  {
    var one, two := [FaultAlert(user, 0)], [FaultAlert(user, 0), FaultAlert(user, 0)];
    assert one[..0] == [] && two[..1] == one;
    assert Times(one, user) == [0];
  }
}
