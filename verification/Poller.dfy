/** The metrics poller: which inverters it tracks, how it counts failed fetches, and its offline alerts. */
module Poller {
  import opened Prelude

  type Id = string

  datatype Brand = VICTRON | GROWATT | SUNSYNK | DEYE | SANDBOX

  datatype Inverter = Inverter(id: Id, user: Id, brand: Brand)

  /** How a poll goes. `marked`: whether the update of the offline flag, when one is made, succeeds. */
  datatype Outcome = DecryptFails | FetchFails(marked: bool) | Fetched(marked: bool)

  datatype FaultAlert = FaultAlert(user: Id, createdAt: Time)

  const COOLDOWN := 60 * MINUTE

  // ---- Tracking ----

  datatype Registry = Registry(victron: seq<Inverter>, growatt: seq<Inverter>, sunsynk: seq<Inverter>,
                               sandbox: seq<Inverter>)

  const BRANDS: seq<Brand> := [VICTRON, GROWATT, SUNSYNK, DEYE, SANDBOX]

  function ArrayFor(r: Registry, b: Brand): seq<Inverter> {
    match b
    case VICTRON => r.victron
    case GROWATT => r.growatt
    case SUNSYNK => r.sunsynk
    case SANDBOX => r.sandbox
    case DEYE => []
  }

  /** A change to the array of a brand; DEYE's is a fresh empty array that nobody keeps. */
  function WithArray(r: Registry, b: Brand, a: seq<Inverter>): Registry {
    match b
    case VICTRON => r.(victron := a)
    case GROWATT => r.(growatt := a)
    case SUNSYNK => r.(sunsynk := a)
    case SANDBOX => r.(sandbox := a)
    case DEYE => r
  }

  /** The first position of the id, or the length. */
  function Index(a: seq<Inverter>, id: Id): (i: nat)
    ensures i <= |a| && (i < |a| ==> a[i].id == id) && forall j :: 0 <= j < i ==> a[j].id != id
  {
    if a == [] then 0 else if a[0].id == id then 0 else 1 + Index(a[1..], id)
  }

  function Registered(r: Registry, row: Inverter): Registry {
    var a := ArrayFor(r, row.brand);
    if Index(a, row.id) < |a| then r else WithArray(r, row.brand, a + [row])
  }

  function Without(a: seq<Inverter>, i: nat): seq<Inverter>
    requires i < |a|
  {
    a[..i] + a[i + 1..]
  }

  function Deregistered(r: Registry, id: Id, from: nat): Registry
    decreases |BRANDS| - from
  {
    if from >= |BRANDS| then r
    else
      var a := ArrayFor(r, BRANDS[from]);
      if Index(a, id) < |a| then WithArray(r, BRANDS[from], Without(a, Index(a, id))) else Deregistered(r, id, from + 1)
  }

  // ---- Polling ----

  datatype Fleet = Fleet(counts: map<Id, nat>, offline: set<Id>)

  function CountOf(f: Fleet, id: Id): nat { if id in f.counts then f.counts[id] else 0 }

  /** The failure path: it counts, and from the third failure on marks the inverter offline. */
  function Failed(f: Fleet, id: Id, marked: bool): Fleet {
    var failures := CountOf(f, id);
    Fleet(f.counts[id := failures + 1], if failures >= 2 && marked then f.offline + {id} else f.offline)
  }

  /** One poll, from its fetch to its last mark. A fetch whose online mark throws ends as a failure. */
  function Polled(f: Fleet, id: Id, outcome: Outcome): Fleet {
    match outcome
    case DecryptFails => f
    case FetchFails(marked) => Failed(f, id, marked)
    case Fetched(true) => Fleet(f.counts[id := 0], f.offline - {id})
    case Fetched(false) => Failed(f.(counts := f.counts[id := 0]), id, true)
  }

  /** Whether the poll goes on to fireInverterOfflineAlert. */
  predicate Fires(f: Fleet, id: Id, outcome: Outcome) {
    outcome == FetchFails(true) && CountOf(f, id) >= 2
  }

  // ---- The offline alert ----

  /** The user's latest offline alert. */
  function Latest(alerts: seq<FaultAlert>, user: Id): Option<FaultAlert> {
    if alerts == [] then None
    else if alerts[|alerts| - 1].user == user then Some(alerts[|alerts| - 1])
    else Latest(alerts[..|alerts| - 1], user)
  }

  /** The user has an alert from after now - 60 minutes. */
  predicate Recent(alerts: seq<FaultAlert>, user: Id, now: Time) {
    var latest := Latest(alerts, user);
    latest.Some? && latest.value.createdAt > now - COOLDOWN
  }

  /** Where fireInverterOfflineAlert stands: it has taken its instant, or has found no recent alert and is to
      save one. */
  datatype CheckPc = Begun(user: Id, now: Time) | Cleared(user: Id, now: Time)

  class MetricsPoller {
    var victron: seq<Inverter>
    var growatt: seq<Inverter>
    var sunsynk: seq<Inverter>
    var sandbox: seq<Inverter>
    var failureCounts: map<Id, nat>
    var offline: set<Id>

    constructor (rows: Registry)
      ensures Tracking() == rows && Polling() == Fleet(map[], {})
    {
      victron, growatt, sunsynk, sandbox := rows.victron, rows.growatt, rows.sunsynk, rows.sandbox;
      failureCounts, offline := map[], {};
    }

    function Tracking(): Registry
      reads this
    {
      Registry(victron, growatt, sunsynk, sandbox)
    }

    function Polling(): Fleet
      reads this
    {
      Fleet(failureCounts, offline)
    }

    method SetArray(b: Brand, a: seq<Inverter>)
      modifies this
      ensures Tracking() == WithArray(old(Tracking()), b, a) && Polling() == old(Polling())
    {
      match b
      case VICTRON => victron := a;
      case GROWATT => growatt := a;
      case SUNSYNK => sunsynk := a;
      case SANDBOX => sandbox := a;
      case DEYE =>
    }

    /** The continuation of handleInverterRegistered's read; `found` is the row with the id, if there is one. */
    method HandleRegistered(found: Option<Inverter>)
      modifies this
      ensures Tracking() == (if found.Some? then Registered(old(Tracking()), found.value) else old(Tracking()))
      ensures Polling() == old(Polling())
    {
      if found.None? { return; }
      var a := ArrayFor(Tracking(), found.value.brand);
      for i := 0 to |a|
        invariant Tracking() == old(Tracking()) && Polling() == old(Polling())
        invariant forall j :: 0 <= j < i ==> a[j].id != found.value.id
      {
        if a[i].id == found.value.id { return; }
      }
      SetArray(found.value.brand, a + [found.value]);
    }

    method HandleDeregistered(id: Id)
      modifies this
      ensures Tracking() == Deregistered(old(Tracking()), id, 0)
      ensures Polling() == if Tracking() == old(Tracking()) then old(Polling())
                           else old(Polling()).(counts := old(failureCounts) - {id})
    {
      hide Registered, Polled, Failed;
      for b := 0 to |BRANDS|
        invariant Tracking() == old(Tracking()) && Polling() == old(Polling())
        invariant Deregistered(Tracking(), id, b) == Deregistered(Tracking(), id, 0)
      {
        var a := ArrayFor(Tracking(), BRANDS[b]);
        var i := Index(a, id);
        if i < |a| {
          Shrinks(Tracking(), BRANDS[b], i);
          SetArray(BRANDS[b], Without(a, i));
          failureCounts := failureCounts - {id};
          return;
        }
      }
    }

    /** Whether a check for an offline alert is to begin. */
    method PollOne(inverter: Inverter, outcome: Outcome) returns (fires: bool)
      modifies this
      ensures Polling() == Polled(old(Polling()), inverter.id, outcome) && Tracking() == old(Tracking())
      ensures fires == Fires(old(Polling()), inverter.id, outcome)
    {
      var marked := true;
      match outcome {
        case DecryptFails => return false;
        case FetchFails(ok) => marked := ok;
        case Fetched(ok) =>
          failureCounts := failureCounts[inverter.id := 0];
          if ok {
            offline := offline - {inverter.id};
            return false;
          }
      }
      var failures := if inverter.id in failureCounts then failureCounts[inverter.id] else 0;
      failureCounts := failureCounts[inverter.id := failures + 1];
      fires := false;
      if failures >= 2 && marked {
        offline := offline + {inverter.id};
        fires := true;
      }
    }
  }

  class AlertTable {
    var alerts: seq<FaultAlert>

    constructor ()
      ensures alerts == []
    {
      alerts := [];
    }

    /** findOne by user and type, newest first. */
    method FindLatest(user: Id) returns (latest: Option<FaultAlert>)
      ensures latest == Latest(alerts, user)
    {
      var n := |alerts|;
      assert alerts[..n] == alerts;
      while n > 0
        invariant 0 <= n <= |alerts| && Latest(alerts[..n], user) == Latest(alerts, user)
      {
        assert alerts[..n][..n - 1] == alerts[..n - 1];
        if alerts[n - 1].user == user { return Some(alerts[n - 1]); }
        n := n - 1;
      }
      latest := None;
    }

    method Save(alert: FaultAlert)
      modifies this
      ensures alerts == old(alerts) + [alert]
    {
      alerts := alerts + [alert];
    }
  }

  /** One execution of fireInverterOfflineAlert; `pc` is None once it is over. Its instant is taken before the
      first await; a save that fails is logged and forgotten. */
  class OfflineCheck {
    var pc: Option<CheckPc>

    constructor (user: Id, now: Time)
      ensures pc == Some(Begun(user, now))
    {
      pc := Some(Begun(user, now));
    }

    method Look(table: AlertTable)
      requires pc.Some? && pc.value.Begun?
      modifies this
      ensures pc == var (user, now) := (old(pc).value.user, old(pc).value.now);
                    if Recent(table.alerts, user, now) then None else Some(Cleared(user, now))
    {
      var user, now := pc.value.user, pc.value.now;
      var cooldownCutoff := now - 60 * 60 * 1000;
      var recentAlert := table.FindLatest(user);
      if recentAlert.Some? && recentAlert.value.createdAt > cooldownCutoff {
        pc := None;
      } else {
        pc := Some(Cleared(user, now));
      }
    }

    method Store(table: AlertTable, savedAt: Time, ok: bool)
      requires pc.Some? && pc.value.Cleared?
      modifies this, table
      ensures pc == None
      ensures table.alerts
              == if ok then old(table.alerts) + [FaultAlert(old(pc).value.user, savedAt)] else old(table.alerts)
    {
      var user := pc.value.user;
      pc := None;
      if ok { table.Save(FaultAlert(user, savedAt)); }
    }
  }

  lemma {:induction false} Shrinks(r: Registry, b: Brand, i: nat)
    requires i < |ArrayFor(r, b)|
    ensures WithArray(r, b, Without(ArrayFor(r, b), i)) != r
  {
    assert |Without(ArrayFor(r, b), i)| < |ArrayFor(r, b)|;
  }

  // ---- Every run of registrations ----

  /** A registration's message arrives and starts a database read; later that read, the i-th still pending, ends:
      when it succeeds its continuation runs, when it fails the message is lost. A deregistration runs at once. */
  datatype Control = Register(id: Id) | Resolve(i: nat, ok: bool) | Deregister(id: Id)

  datatype Desk = Desk(registry: Registry, pending: seq<Id>)

  function RegisteredAs(r: Registry, id: Id, rows: map<Id, Inverter>): Registry {
    if id in rows then Registered(r, rows[id]) else r
  }

  function Others(pending: seq<Id>, i: nat): seq<Id>
    requires i < |pending|
  {
    pending[..i] + pending[i + 1..]
  }

  function Controlled(d: Desk, c: Control, rows: map<Id, Inverter>): Desk {
    match c
    case Register(id) => d.(pending := d.pending + [id])
    case Resolve(i, ok) =>
      if i >= |d.pending| then d
      else Desk(if ok then RegisteredAs(d.registry, d.pending[i], rows) else d.registry, Others(d.pending, i))
    case Deregister(id) => d.(registry := Deregistered(d.registry, id, 0))
  }

  /** The service loads the existing inverters before it listens for messages. */
  function AfterControls(loaded: Registry, cs: seq<Control>, rows: map<Id, Inverter>): Desk {
    if cs == [] then Desk(loaded, [])
    else Controlled(AfterControls(loaded, cs[..|cs| - 1], rows), cs[|cs| - 1], rows)
  }

  predicate Rows(rows: map<Id, Inverter>) { forall id :: id in rows ==> rows[id].id == id }

  /** Every array holds rows of its brand, none of them twice. */
  predicate Tracks(r: Registry, rows: map<Id, Inverter>) {
    forall b :: HoldsOnly(ArrayFor(r, b), b, rows)
  }

  predicate HoldsOnly(a: seq<Inverter>, b: Brand, rows: map<Id, Inverter>) {
    && (forall i :: 0 <= i < |a| ==> a[i].id in rows && a[i] == rows[a[i].id] && a[i].brand == b)
    && (forall i, j :: 0 <= i < j < |a| ==> a[i].id != a[j].id)
  }

  /** How many entries of the array have the id. */
  function Entries(a: seq<Inverter>, id: Id): nat {
    if a == [] then 0 else (if a[0].id == id then 1 else 0) + Entries(a[1..], id)
  }

  function Tracked(r: Registry, id: Id): nat {
    Entries(r.victron, id) + Entries(r.growatt, id) + Entries(r.sunsynk, id) + Entries(r.sandbox, id)
  }

  /** The step ends a read of the id with this outcome. */
  predicate Ends(d: Desk, c: Control, id: Id, ok: bool) {
    c.Resolve? && c.ok == ok && c.i < |d.pending| && d.pending[c.i] == id
  }

  /** Since its last deregistration a read of the id has ended with this outcome. */
  predicate EndedSince(loaded: Registry, cs: seq<Control>, rows: map<Id, Inverter>, id: Id, ok: bool) {
    if cs == [] then false
    else
      var before, c := cs[..|cs| - 1], cs[|cs| - 1];
      if c == Deregister(id) then false
      else Ends(AfterControls(loaded, before, rows), c, id, ok) || EndedSince(loaded, before, rows, id, ok)
  }

  /** Since its last deregistration a registration of the id has resolved; or it was loaded and never deregistered. */
  predicate ResolvedSince(loaded: Registry, cs: seq<Control>, rows: map<Id, Inverter>, id: Id) {
    if cs == [] then Tracked(loaded, id) == 1
    else
      var before, c := cs[..|cs| - 1], cs[|cs| - 1];
      if c == Deregister(id) then false
      else Ends(AfterControls(loaded, before, rows), c, id, true) || ResolvedSince(loaded, before, rows, id)
  }

  /** The last control message naming the id registers it, or there is none and it was loaded. */
  predicate LastRegisters(loaded: Registry, cs: seq<Control>, id: Id) {
    if cs == [] then Tracked(loaded, id) == 1
    else if cs[|cs| - 1] == Register(id) then true
    else if cs[|cs| - 1] == Deregister(id) then false
    else LastRegisters(loaded, cs[..|cs| - 1], id)
  }

  /** The last control message naming the id deregisters it, and came while a registration of it was still
      reading the database. */
  predicate LastOvertakes(loaded: Registry, cs: seq<Control>, rows: map<Id, Inverter>, id: Id) {
    if cs == [] then false
    else
      var before, c := cs[..|cs| - 1], cs[|cs| - 1];
      if c == Register(id) then false
      else if c == Deregister(id) then id in AfterControls(loaded, before, rows).pending
      else LastOvertakes(loaded, before, rows, id)
  }

  lemma {:induction false} EntriesAdd(a: seq<Inverter>, b: seq<Inverter>, id: Id)
    ensures Entries(a + b, id) == Entries(a, id) + Entries(b, id)
  {
    if a == [] { assert a + b == b; }
    else { EntriesAdd(a[1..], b, id); assert (a + b)[1..] == a[1..] + b; }
  }

  lemma {:induction false} EntriesIndex(a: seq<Inverter>, id: Id)
    ensures Entries(a, id) == 0 <==> Index(a, id) == |a|
  {
    if a != [] { EntriesIndex(a[1..], id); }
  }

  lemma {:induction false} EntriesWithout(a: seq<Inverter>, i: nat, id: Id)
    requires i < |a|
    ensures Entries(Without(a, i), id) == Entries(a, id) - if a[i].id == id then 1 else 0
  {
    EntriesAdd(a[..i], a[i + 1..], id);
    EntriesAdd(a[..i], a[i..], id);
    assert a == a[..i] + a[i..] && a[i..][1..] == a[i + 1..];
  }

  lemma {:induction false} EntriesAtMostOne(a: seq<Inverter>, b: Brand, rows: map<Id, Inverter>, id: Id)
    requires HoldsOnly(a, b, rows)
    ensures Entries(a, id) <= 1
  {
    if a != [] {
      assert HoldsOnly(a[1..], b, rows);
      EntriesAtMostOne(a[1..], b, rows, id);
      if a[0].id == id { EntriesIndex(a[1..], id); }
    }
  }

  lemma {:induction false} LoadedAtMostOnce(loaded: Registry, rows: map<Id, Inverter>, id: Id)
    requires Rows(rows) && Tracks(loaded, rows)
    ensures Tracked(loaded, id) == if Tracked(loaded, id) == 1 && id in rows && rows[id].brand != DEYE then 1 else 0
  {
    if id in rows {
      TrackedInOwn(loaded, rows, id);
      assert HoldsOnly(ArrayFor(loaded, rows[id].brand), rows[id].brand, rows);
      EntriesAtMostOne(ArrayFor(loaded, rows[id].brand), rows[id].brand, rows, id);
    } else {
      forall b ensures Entries(ArrayFor(loaded, b), id) == 0 {
        assert HoldsOnly(ArrayFor(loaded, b), b, rows);
        EntriesIndex(ArrayFor(loaded, b), id);
      }
      assert Entries(ArrayFor(loaded, VICTRON), id) == 0 && Entries(ArrayFor(loaded, GROWATT), id) == 0;
      assert Entries(ArrayFor(loaded, SUNSYNK), id) == 0 && Entries(ArrayFor(loaded, SANDBOX), id) == 0;
    }
    hide Tracks, HoldsOnly;
  }

  /** In every interleaving of messages and reads, from whatever was loaded, an id is tracked at most once, and
      exactly when one of its registrations has resolved since its last deregistration (or it was loaded and
      never deregistered), it has a row, and the row's brand is polled. */
  lemma {:induction false} TrackedExactly(loaded: Registry, cs: seq<Control>, rows: map<Id, Inverter>, id: Id)
    requires Rows(rows) && Tracks(loaded, rows)
    ensures Tracks(AfterControls(loaded, cs, rows).registry, rows)
    ensures Tracked(AfterControls(loaded, cs, rows).registry, id)
            == if ResolvedSince(loaded, cs, rows, id) && id in rows && rows[id].brand != DEYE then 1 else 0
  {
    if cs == [] {
      LoadedAtMostOnce(loaded, rows, id);
    } else {
      var before, c := cs[..|cs| - 1], cs[|cs| - 1];
      var d := AfterControls(loaded, before, rows);
      TrackedExactly(loaded, before, rows, id);
      hide Tracked, Tracks, Registered, Deregistered;
      match c
      case Register(_) =>
      case Resolve(i, ok) =>
        if i < |d.pending| && ok && d.pending[i] in rows { RegisteredEffect(d.registry, rows, d.pending[i], id); }
      case Deregister(other) =>
        TrackedExactly(loaded, before, rows, other);
        DeregisteredEffect(d.registry, rows, other, id, 0);
    }
  }

  lemma {:induction false} PendingStep(d: Desk, c: Control, rows: map<Id, Inverter>, id: Id)
    ensures var d' := Controlled(d, c, rows);
            && (c == Register(id) ==> id in d'.pending)
            && (id in d.pending ==> id in d'.pending || Ends(d, c, id, true) || Ends(d, c, id, false))
            && (id in d'.pending ==> id in d.pending || c == Register(id))
  {
    hide Registered, Deregistered;
    var d' := Controlled(d, c, rows);
    if c.Resolve? && c.i < |d.pending| && id in d.pending && d.pending[c.i] != id {
      var j :| 0 <= j < |d.pending| && d.pending[j] == id;
      assert d'.pending[if j < c.i then j else j - 1] == id;
    }
  }

  lemma {:induction false} ToldAndTracked(loaded: Registry, cs: seq<Control>, rows: map<Id, Inverter>, id: Id)
    ensures var inFlight := id in AfterControls(loaded, cs, rows).pending;
            var resolved := ResolvedSince(loaded, cs, rows, id);
            var (succeeded, failed) := (EndedSince(loaded, cs, rows, id, true),
                                        EndedSince(loaded, cs, rows, id, false));
            var (registers, overtakes) := (LastRegisters(loaded, cs, id), LastOvertakes(loaded, cs, rows, id));
            && (succeeded ==> resolved)
            && (registers ==> inFlight || resolved || failed)
            && (overtakes ==> !registers && (inFlight || succeeded || failed))
            && (!registers && resolved ==> overtakes && succeeded)
            && (!registers && inFlight ==> overtakes)
  {
    if cs != [] {
      var before, c := cs[..|cs| - 1], cs[|cs| - 1];
      ToldAndTracked(loaded, before, rows, id);
      PendingStep(AfterControls(loaded, before, rows), c, rows, id);
      hide Controlled, Tracked;
    }
  }

  /** Since its last deregistration reads of the id have failed and none has succeeded, nor was it loaded and kept. */
  predicate OnlyFailures(loaded: Registry, cs: seq<Control>, rows: map<Id, Inverter>, id: Id) {
    EndedSince(loaded, cs, rows, id, false) && !ResolvedSince(loaded, cs, rows, id)
  }

  /** Once no registration of it is reading any more, an inverter with a row of a polled brand is tracked as it was
      last told, if and only if neither the last message deregistered it in the middle of reads of which one then
      succeeded, nor the last message registered it and its reads have only failed since it was last deregistered. */
  lemma {:induction false} TrackedAsLastTold(loaded: Registry, cs: seq<Control>, rows: map<Id, Inverter>, id: Id)
    requires Rows(rows) && Tracks(loaded, rows) && id in rows && rows[id].brand != DEYE
    requires id !in AfterControls(loaded, cs, rows).pending
    ensures (Tracked(AfterControls(loaded, cs, rows).registry, id) == 1 <==> LastRegisters(loaded, cs, id))
            <==> !(LastOvertakes(loaded, cs, rows, id) && EndedSince(loaded, cs, rows, id, true))
                 && !(LastRegisters(loaded, cs, id) && OnlyFailures(loaded, cs, rows, id))
  {
    TrackedExactly(loaded, cs, rows, id);
    ToldAndTracked(loaded, cs, rows, id);
    hide AfterControls, Tracked, ResolvedSince, EndedSince, LastRegisters, LastOvertakes;
  }

  lemma {:induction false} NoneFailed(loaded: Registry, cs: seq<Control>, rows: map<Id, Inverter>, id: Id)
    requires forall i :: 0 <= i < |cs| && cs[i].Resolve? ==> cs[i].ok
    ensures !EndedSince(loaded, cs, rows, id, false)
  {
    hide AfterControls, Tracked;
    if cs != [] { NoneFailed(loaded, cs[..|cs| - 1], rows, id); }
  }

  /** As long as no read fails, it is tracked as last told if and only if the last message did not deregister it in
      the middle of a read. */
  lemma {:induction false} TrackedUnlessOvertaken(loaded: Registry, cs: seq<Control>, rows: map<Id, Inverter>, id: Id)
    requires Rows(rows) && Tracks(loaded, rows) && id in rows && rows[id].brand != DEYE
    requires id !in AfterControls(loaded, cs, rows).pending
    requires forall i :: 0 <= i < |cs| && cs[i].Resolve? ==> cs[i].ok
    ensures (Tracked(AfterControls(loaded, cs, rows).registry, id) == 1 <==> LastRegisters(loaded, cs, id))
            <==> !LastOvertakes(loaded, cs, rows, id)
  {
    TrackedAsLastTold(loaded, cs, rows, id);
    NoneFailed(loaded, cs, rows, id);
    ToldAndTracked(loaded, cs, rows, id);
    hide AfterControls, Tracked, ResolvedSince, EndedSince, LastRegisters, LastOvertakes;
  }

  /** A registration and a deregistration on the way, one after the other. */
  lemma {:induction false} DeregisteredMeanwhile(loaded: Registry, rows: map<Id, Inverter>, id: Id)
    ensures var two := [Register(id), Deregister(id)];
            AfterControls(loaded, two, rows).pending == [id] && LastOvertakes(loaded, two, rows, id)
            && !LastRegisters(loaded, two, id)
  {
    var one, two := [Register(id)], [Register(id), Deregister(id)];
    assert one[..|one| - 1] == [] && two[..|two| - 1] == one;
    hide Tracked, Registered, Deregistered, Tracks;
    assert AfterControls(loaded, one, rows).pending == [id];
  }

  lemma {:induction false} ThenResolved(loaded: Registry, rows: map<Id, Inverter>, id: Id)
    ensures var cs := [Register(id), Deregister(id), Resolve(0, true)];
            && AfterControls(loaded, cs, rows).pending == [] && LastOvertakes(loaded, cs, rows, id)
            && EndedSince(loaded, cs, rows, id, true) && !LastRegisters(loaded, cs, id)
  {
    var two, cs := [Register(id), Deregister(id)], [Register(id), Deregister(id), Resolve(0, true)];
    assert cs[..|cs| - 1] == two;
    DeregisteredMeanwhile(loaded, rows, id);
    hide Tracked, Registered, Deregistered, Tracks;
  }

  lemma {:induction false} NothingTracked(rows: map<Id, Inverter>)
    ensures Tracks(Registry([], [], [], []), rows)
  {
  }

  /** A deregistration during the read, nothing having been loaded: the inverter ends up tracked although it was
      deregistered last. */
  lemma {:induction false} OvertakenRegistration(row: Inverter) returns (cs: seq<Control>)
    requires row.brand != DEYE
    ensures var (loaded, rows) := (Registry([], [], [], []), map[row.id := row]);
            cs == [Register(row.id), Deregister(row.id), Resolve(0, true)]
            && AfterControls(loaded, cs, rows).pending == []
            && !LastRegisters(loaded, cs, row.id) && Tracked(AfterControls(loaded, cs, rows).registry, row.id) == 1
  {
    var id, rows, loaded := row.id, map[row.id := row], Registry([], [], [], []);
    assert Rows(rows);
    hide *;
    cs := [Register(id), Deregister(id), Resolve(0, true)];
    NothingTracked(rows);
    ThenResolved(loaded, rows, id);
    TrackedAsLastTold(loaded, cs, rows, id);
  }

  lemma {:induction false} ReadThenFailed(loaded: Registry, rows: map<Id, Inverter>, id: Id)
    ensures var cs := [Register(id), Resolve(0, false)];
            AfterControls(loaded, cs, rows) == Desk(loaded, []) && LastRegisters(loaded, cs, id)
  {
    var one, cs := [Register(id)], [Register(id), Resolve(0, false)];
    assert one[..|one| - 1] == [] && cs[..|cs| - 1] == one;
    hide Tracked, Registered, Deregistered, Tracks;
    assert AfterControls(loaded, one, rows) == Desk(loaded, [id]);
  }

  /** A registration whose read fails is lost: the inverter stays untracked although it was registered last. */
  lemma {:induction false} LostRegistration(row: Inverter) returns (cs: seq<Control>)
    ensures var (loaded, rows) := (Registry([], [], [], []), map[row.id := row]);
            cs == [Register(row.id), Resolve(0, false)] && AfterControls(loaded, cs, rows).pending == []
            && LastRegisters(loaded, cs, row.id) && Tracked(AfterControls(loaded, cs, rows).registry, row.id) == 0
  {
    cs := [Register(row.id), Resolve(0, false)];
    ReadThenFailed(Registry([], [], [], []), map[row.id := row], row.id);
    hide AfterControls, LastRegisters;
  }

  lemma {:induction false} OtherArrays(r: Registry, b: Brand, a: seq<Inverter>, id: Id)
    ensures b != DEYE ==>
              Tracked(WithArray(r, b, a), id) == Tracked(r, id) - Entries(ArrayFor(r, b), id) + Entries(a, id)
    ensures forall c :: ArrayFor(WithArray(r, b, a), c) == if c == b && b != DEYE then a else ArrayFor(r, c)
  {
    hide Entries;
  }

  lemma {:induction false} RegisteredEffect(r: Registry, rows: map<Id, Inverter>, other: Id, id: Id)
    requires Rows(rows) && other in rows && Tracks(r, rows)
    ensures Tracks(Registered(r, rows[other]), rows)
    ensures id != other ==> Tracked(Registered(r, rows[other]), id) == Tracked(r, id)
    ensures id == other && Tracked(r, id) <= 1 ==>
              Tracked(Registered(r, rows[other]), id) == if rows[other].brand == DEYE then Tracked(r, id) else 1
  {
    var row := rows[other];
    var a := ArrayFor(r, row.brand);
    hide Tracked, Entries, Index, WithArray;
    assert HoldsOnly(a, row.brand, rows);
    EntriesIndex(a, other);
    EntriesAdd(a, [row], id);
    OneEntry(row, id);
    OtherArrays(r, row.brand, a + [row], id);
    TrackedInOwn(r, rows, other);
    hide ArrayFor;
  }

  lemma {:induction false} OneEntry(row: Inverter, id: Id)
    ensures Entries([row], id) == if row.id == id then 1 else 0
  {
  }

  /** A tracked id is in the array of its row's brand only. */
  lemma {:induction false} TrackedInOwn(r: Registry, rows: map<Id, Inverter>, id: Id)
    requires Rows(rows) && Tracks(r, rows) && id in rows
    ensures Tracked(r, id) == Entries(ArrayFor(r, rows[id].brand), id)
  {
    forall b | b != rows[id].brand ensures Entries(ArrayFor(r, b), id) == 0 {
      assert HoldsOnly(ArrayFor(r, b), b, rows);
      EntriesIndex(ArrayFor(r, b), id);
    }
    assert Entries(ArrayFor(r, VICTRON), id) == Entries(r.victron, id);
    assert Entries(ArrayFor(r, GROWATT), id) == Entries(r.growatt, id);
    assert Entries(ArrayFor(r, SUNSYNK), id) == Entries(r.sunsynk, id);
    assert Entries(ArrayFor(r, SANDBOX), id) == Entries(r.sandbox, id);
    hide Tracks, HoldsOnly;
  }

  lemma {:induction false} EntriesWithin(r: Registry, b: Brand, id: Id)
    ensures Entries(ArrayFor(r, b), id) <= Tracked(r, id)
  {
    hide Entries;
    if b == DEYE { NoEntries(id); }
  }

  lemma {:induction false} NoEntries(id: Id)
    ensures Entries([], id) == 0
  {
  }

  /** The id is in the array of brand b, and goes. */
  lemma {:induction false} DeregisteredHere(r: Registry, rows: map<Id, Inverter>, other: Id, id: Id, b: Brand)
    requires Tracks(r, rows) && b != DEYE && Tracked(r, other) <= 1 && Index(ArrayFor(r, b), other) < |ArrayFor(r, b)|
    ensures var r' := WithArray(r, b, Without(ArrayFor(r, b), Index(ArrayFor(r, b), other)));
            Tracks(r', rows) && Tracked(r', id) == if id == other then 0 else Tracked(r, id)
  {
    hide Tracked, Entries, ArrayFor, HoldsOnly, WithArray, Without, Index;
    var a := ArrayFor(r, b);
    var i := Index(a, other);
    EntriesIndex(a, other);
    EntriesWithin(r, b, other);
    EntriesWithout(a, i, id);
    OtherArrays(r, b, Without(a, i), id);
    WithoutHoldsOnly(a, b, rows, i);
    assert HoldsOnly(a, b, rows);
  }

  lemma {:induction false} NowhereTracked(r: Registry, id: Id)
    requires forall b :: 0 <= b < |BRANDS| ==> Entries(ArrayFor(r, BRANDS[b]), id) == 0
    ensures Tracked(r, id) == 0
  {
    hide Entries;
    assert Entries(ArrayFor(r, BRANDS[0]), id) == 0 && Entries(ArrayFor(r, BRANDS[1]), id) == 0;
    assert Entries(ArrayFor(r, BRANDS[2]), id) == 0 && Entries(ArrayFor(r, BRANDS[4]), id) == 0;
  }

  lemma {:induction false} DeregisteredEffect(r: Registry, rows: map<Id, Inverter>, other: Id, id: Id, from: nat)
    requires Tracks(r, rows) && from <= |BRANDS| && Tracked(r, other) <= 1
    requires forall b :: 0 <= b < from ==> Entries(ArrayFor(r, BRANDS[b]), other) == 0
    ensures Tracks(Deregistered(r, other, from), rows)
    ensures Tracked(Deregistered(r, other, from), id) == if id == other then 0 else Tracked(r, id)
    decreases |BRANDS| - from
  {
    hide Tracks, Tracked, Entries, Index, WithArray, Without;
    if from == |BRANDS| {
      NowhereTracked(r, other);
    } else {
      EntriesIndex(ArrayFor(r, BRANDS[from]), other);
      if Index(ArrayFor(r, BRANDS[from]), other) < |ArrayFor(r, BRANDS[from])| {
        DeregisteredHere(r, rows, other, id, BRANDS[from]);
      } else {
        hide ArrayFor;
        DeregisteredEffect(r, rows, other, id, from + 1);
      }
    }
  }

  lemma {:induction false} WithoutHoldsOnly(a: seq<Inverter>, b: Brand, rows: map<Id, Inverter>, i: nat)
    requires i < |a|
    ensures HoldsOnly(a, b, rows) ==> HoldsOnly(Without(a, i), b, rows)
  {
    assert forall j :: 0 <= j < |Without(a, i)| ==> Without(a, i)[j] == a[if j < i then j else j + 1];
  }
}
