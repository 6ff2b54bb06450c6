/** One login session: concurrent refreshes, access checks and logouts over its row. Refresh tokens rotate
    as in section 10.4 of RFC 6749; hashes of distinct tokens are distinct, so a token stands for its hash. */
module Sessions {
  import opened Prelude

  const SLIDING := 7 * DAY
  const ABSOLUTE := 30 * DAY

  datatype Row = Row(createdAt: Time, isActive: bool, hash: Option<nat>, expiresAt: Option<Time>, lastActivityAt: Time)

  // ---- The statements on the row ----

  function Issued(r: Row, hash: Option<nat>, now: Time): Row {
    r.(hash := hash, lastActivityAt := now,
       isActive := r.isActive && hash.Some?,
       expiresAt := if hash.Some? then Some(now + SLIDING) else r.expiresAt)
  }

  /** The WHERE clause of the swap. A null expiry or hash never matches. */
  predicate SwapMatches(r: Row, expected: nat, now: Time) {
    r.hash == Some(expected) && r.isActive && r.expiresAt.Some? && r.expiresAt.value > now
    && r.createdAt > now - ABSOLUTE
  }

  function Swapped(r: Row, expected: nat, hash: nat, createdAt: Time, now: Time): Row {
    if SwapMatches(r, expected, now)
    then r.(hash := Some(hash), lastActivityAt := now, expiresAt := Some(Min(now + SLIDING, createdAt + ABSOLUTE)))
    else r
  }

  function Deactivated(r: Row, now: Time): Row {
    r.(isActive := false, hash := None, lastActivityAt := now)
  }

  predicate Overdue(r: Row, now: Time) {
    now > r.createdAt + ABSOLUTE || (r.expiresAt.Some? && now > r.expiresAt.value)
  }

  /** validateSession's acceptance. */
  predicate Accepts(r: Row, now: Time) { r.isActive && !Overdue(r, now) }

  class SessionRow {
    var row: Row

    /** createSession; `requested` is the service's clock, `now` the database's. */
    constructor (requested: Time, now: Time)
      ensures row == Row(now, true, None, Some(requested + SLIDING), now)
    {
      row := Row(now, true, None, Some(requested + SLIDING), now);
    }

    method SetRefreshTokenHash(hash: Option<nat>, now: Time)
      modifies this
      ensures row == Issued(old(row), hash, now)
    {
      row := row.(hash := hash, lastActivityAt := now);
      if hash.None? { row := row.(isActive := false); }
      if hash.Some? { row := row.(expiresAt := Some(now + 7 * 24 * 60 * 60 * 1000)); }
    }

    method CompareAndSwapRefreshTokenHash(expected: nat, hash: nat, createdAt: Time, now: Time) returns (swapped: bool)
      modifies this
      ensures row == Swapped(old(row), expected, hash, createdAt, now)
      ensures swapped == SwapMatches(old(row), expected, now)
    {
      var absoluteCap := createdAt + 30 * 24 * 60 * 60 * 1000;
      var slidingWindow := now + 7 * 24 * 60 * 60 * 1000;
      var newExpiresAt := if slidingWindow < absoluteCap then slidingWindow else absoluteCap;
      swapped := row.hash == Some(expected) && row.isActive && row.expiresAt.Some? && row.expiresAt.value > now
                 && row.createdAt > now - 30 * 24 * 60 * 60 * 1000;
      if swapped {
        row := row.(hash := Some(hash), lastActivityAt := now, expiresAt := Some(newExpiresAt));
      }
    }

    method DeactivateSession(now: Time)
      modifies this
      ensures row == Deactivated(old(row), now)
    {
      row := row.(isActive := false, hash := None, lastActivityAt := now);
    }
  }

  /** validateSession on a row already read: rejected at once, rejected after a pending write, or accepted. */
  datatype Verdict = Rejected | Expire | Accepted

  method ValidateSession(session: Row, now: Time) returns (v: Verdict)
    ensures v.Accepted? <==> Accepts(session, now)
    ensures v.Expire? <==> session.isActive && Overdue(session, now)
  {
    if !session.isActive { return Rejected; }
    if now > session.createdAt + ABSOLUTE { return Expire; }
    if session.expiresAt.Some? && now > session.expiresAt.value { return Expire; }
    v := Accepted;
  }

  /** At any instant a swap succeeds only on a session validateSession would accept; an accepted session is
      refused exactly at one of the two expiry boundaries, for a null expiry, or for another hash. */
  lemma {:induction false} SwapAgainstValidate(r: Row, expected: nat, now: Time)
    ensures SwapMatches(r, expected, now) ==> Accepts(r, now)
    ensures Accepts(r, now) && !SwapMatches(r, expected, now) <==>
              Accepts(r, now) && (r.hash != Some(expected) || r.expiresAt == None || r.expiresAt == Some(now)
                                  || now == r.createdAt + 30 * DAY)
  {
  }

  // ---- The system ----

  /** Where a request stands: before its SELECT, before looking at the clock with the row it read, before
      writing an expiry, before signing a new token, or with its swap on the way to the database. */
  datatype CallPc =
    | Arrived(presented: Option<nat>)
    | Fetched(presented: Option<nat>, snapshot: Row)
    | Expiring
    | Matched(snapshot: Row)
    | Sent(snapshot: Row, hash: nat, at: Time)

  datatype Swap = Swap(call: nat, from: nat, to: nat)

  /** `used` are the hashes of all tokens ever signed, `spent` those that have been in the row; `swaps` the
      successful swaps and `grants` the accepted access checks, in order. */
  datatype System = System(row: Row, calls: map<nat, CallPc>, now: Time, used: set<nat>, spent: set<nat>,
                           issued: Option<nat>, swaps: seq<Swap>, grants: seq<nat>)

  /** A call presents a refresh token, or (None) an access token. `Fetch` is the SELECT and `Decide` its
      continuation; `Send` computes the swap's instants and `Land` is its UPDATE. */
  datatype Label =
    | Tick(ms: nat)
    | Issue(hash: nat)
    | Arrive(c: nat, presented: Option<nat>)
    | Fetch(c: nat)
    | Decide(c: nat)
    | WriteExpiry(c: nat)
    | Send(c: nat, hash: nat)
    | Land(c: nat)
    | Logout
    | Drop(c: nat)

  function Gone(s: System, c: nat): System { s.(calls := s.calls - {c}) }

  function At(s: System, c: nat, pc: CallPc): System { s.(calls := s.calls[c := pc]) }

  function Decided(s: System, c: nat, presented: Option<nat>, snapshot: Row): System {
    if snapshot.isActive && Overdue(snapshot, s.now) then At(s, c, Expiring)
    else if !Accepts(snapshot, s.now) then Gone(s, c)
    else if presented.None? then Gone(s, c).(grants := s.grants + [c])
    else if snapshot.hash == presented then At(s, c, Matched(snapshot))
    else Gone(s, c)
  }

  function Landed(s: System, c: nat, snapshot: Row, hash: nat, at: Time): System
    requires snapshot.hash.Some?
  {
    var expected := snapshot.hash.value;
    if SwapMatches(s.row, expected, at)
    then Gone(s, c).(row := Swapped(s.row, expected, hash, snapshot.createdAt, at), spent := s.spent + {hash},
                     swaps := s.swaps + [Swap(c, expected, hash)])
    else Gone(s, c)
  }

  /** Tokens are issued once, right after creation: no request can know the session before. */
  function Step(s: System, l: Label): System {
    match l
    case Tick(ms) => s.(now := s.now + ms)
    case Issue(hash) =>
      if s.issued.None? && hash !in s.used && s.now <= s.row.createdAt + (ABSOLUTE - SLIDING)
      then s.(row := Issued(s.row, Some(hash), s.now), used := s.used + {hash}, spent := s.spent + {hash},
              issued := Some(hash))
      else s
    case Arrive(c, presented) =>
      if c in s.calls || s.issued.None? then s else At(s, c, Arrived(presented))
    case Fetch(c) =>
      if c in s.calls && s.calls[c].Arrived? then At(s, c, Fetched(s.calls[c].presented, s.row)) else s
    case Decide(c) =>
      if c in s.calls && s.calls[c].Fetched? then Decided(s, c, s.calls[c].presented, s.calls[c].snapshot) else s
    case WriteExpiry(c) =>
      if c in s.calls && s.calls[c].Expiring? then Gone(s, c).(row := s.row.(isActive := false)) else s
    case Send(c, hash) =>
      if c in s.calls && s.calls[c].Matched? && hash !in s.used
      then At(s, c, Sent(s.calls[c].snapshot, hash, s.now)).(used := s.used + {hash}) else s
    case Land(c) =>
      if c in s.calls && s.calls[c].Sent? && s.calls[c].snapshot.hash.Some?
      then Landed(s, c, s.calls[c].snapshot, s.calls[c].hash, s.calls[c].at) else s
    case Logout => if s.issued.None? then s else s.(row := Deactivated(s.row, s.now))
    case Drop(c) => Gone(s, c)
  }

  predicate Init(s: System) {
    s.row.isActive && s.row.hash.None? && s.row.createdAt <= s.now && s.row.lastActivityAt <= s.now
    && s.row.expiresAt.Some? && s.row.expiresAt.value <= s.row.createdAt + SLIDING
    && s.calls == map[] && s.used == {} && s.spent == {} && s.issued.None? && s.swaps == [] && s.grants == []
  }

  ghost predicate Run(ss: seq<System>, ls: seq<Label>) {
    |ss| == |ls| + 1 && Init(ss[0]) && forall i :: 0 <= i < |ls| ==> ss[i + 1] == Step(ss[i], ls[i])
  }

  // ---- The invariant ----

  /** The hash the chain of swaps ends at. */
  function Head(s: System): Option<nat> {
    if s.swaps == [] then s.issued else Some(s.swaps[|s.swaps| - 1].to)
  }

  predicate Linked(swaps: seq<Swap>, first: Option<nat>) {
    && (swaps != [] ==> first == Some(swaps[0].from))
    && (forall i :: 0 < i < |swaps| ==> swaps[i].from == swaps[i - 1].to)
  }

  predicate ConsumedOnce(swaps: seq<Swap>, head: Option<nat>) {
    && (forall i :: 0 <= i < |swaps| ==> Some(swaps[i].from) != head)
    && (forall i, j :: 0 <= i < j < |swaps| ==> swaps[i].from != swaps[j].from)
  }

  predicate AllSpent(swaps: seq<Swap>, spent: set<nat>) {
    forall i :: 0 <= i < |swaps| ==> swaps[i].from in spent && swaps[i].to in spent
  }

  predicate Stored(s: System) {
    && (s.row.hash.Some? ==> s.row.hash == Head(s))
    && (s.row.isActive && s.issued.Some? ==> s.row.hash.Some?)
    && (Head(s).Some? ==> Head(s).value in s.spent)
    && (s.issued.None? ==> s.calls == map[] && s.row.isActive && s.row.hash.None? && s.swaps == [])
    && s.spent <= s.used
  }

  /** A token on its way to the row is signed, nobody else's, and has never been there. */
  ghost predicate FreshTokens(s: System) {
    && (forall c :: c in s.calls && s.calls[c].Sent? ==> s.calls[c].hash in s.used && s.calls[c].hash !in s.spent)
    && (forall c, d :: (c in s.calls && d in s.calls && s.calls[c].Sent? && s.calls[d].Sent?
                        && s.calls[c].hash == s.calls[d].hash) ==> c == d)
  }

  ghost predicate Chain(s: System) {
    Linked(s.swaps, s.issued) && ConsumedOnce(s.swaps, Head(s)) && AllSpent(s.swaps, s.spent) && Stored(s)
    && FreshTokens(s)
  }

  /** A row read earlier: its expiry is the row's own as long as its hash is. */
  predicate SnapshotOk(s: System, r: Row) {
    && r.createdAt == s.row.createdAt && r.expiresAt.Some? && r.expiresAt.value <= s.now + 7 * DAY
    && (r.hash.Some? ==> r.hash.value in s.spent)
    && (r.hash.Some? && r.hash == s.row.hash ==> r.expiresAt == s.row.expiresAt)
  }

  predicate CallOk(s: System, pc: CallPc) {
    match pc
    case Arrived(_) => true
    case Fetched(_, r) => SnapshotOk(s, r)
    case Expiring => true
    case Matched(r) => SnapshotOk(s, r)
    case Sent(r, _, at) => SnapshotOk(s, r) && at <= s.now && r.expiresAt.value <= at + 7 * DAY
  }

  predicate RowBounded(r: Row, now: Time) {
    r.createdAt <= now && r.expiresAt.Some? && r.expiresAt.value <= r.createdAt + 30 * DAY
    && r.expiresAt.value <= now + 7 * DAY
  }

  ghost predicate Bounded(s: System) {
    RowBounded(s.row, s.now) && forall c :: c in s.calls ==> CallOk(s, s.calls[c])
  }

  ghost predicate Inv(s: System) { Chain(s) && Bounded(s) }

  lemma {:induction false} LandChains(s: System, c: nat, snapshot: Row, hash: nat, at: Time)
    requires Chain(s) && c in s.calls && s.calls[c] == Sent(snapshot, hash, at) && snapshot.hash.Some?
    ensures Chain(Landed(s, c, snapshot, hash, at))
  {
    var s' := Landed(s, c, snapshot, hash, at);
    FreshAfter(s, c, snapshot, hash, at);
    StoredAfter(s, c, snapshot, hash, at);
    hide FreshTokens, Swapped;
    if SwapMatches(s.row, snapshot.hash.value, at) {
      ExtendChain(s.swaps, s.issued, Head(s), s.spent, Swap(c, snapshot.hash.value, hash));
    }
    hide Linked, ConsumedOnce, AllSpent, Stored;
  }

  lemma {:induction false} StoredAfter(s: System, c: nat, snapshot: Row, hash: nat, at: Time)
    requires Stored(s) && c in s.calls && snapshot.hash.Some? && hash in s.used
    ensures Stored(Landed(s, c, snapshot, hash, at))
    ensures SwapMatches(s.row, snapshot.hash.value, at) ==> Head(s) == snapshot.hash && snapshot.hash.value in s.spent
  {
  }

  lemma {:induction false} ExtendChain(swaps: seq<Swap>, first: Option<nat>, head: Option<nat>, spent: set<nat>,
                                       next: Swap)
    requires Linked(swaps, first) && ConsumedOnce(swaps, head) && AllSpent(swaps, spent)
    requires head == (if swaps == [] then first else Some(swaps[|swaps| - 1].to))
    requires head == Some(next.from) && next.from in spent && next.to !in spent
    ensures Linked(swaps + [next], first) && ConsumedOnce(swaps + [next], Some(next.to))
            && AllSpent(swaps + [next], spent + {next.to})
  {
  }

  lemma {:induction false} FreshAfter(s: System, c: nat, snapshot: Row, hash: nat, at: Time)
    requires FreshTokens(s) && c in s.calls && s.calls[c] == Sent(snapshot, hash, at) && snapshot.hash.Some?
    ensures FreshTokens(Landed(s, c, snapshot, hash, at)) && hash in s.used && hash !in s.spent
  {
    hide Swapped, SwapMatches;
  }

  lemma {:induction false} IssueChains(s: System, hash: nat)
    requires Chain(s)
    ensures Chain(Step(s, Issue(hash)))
  {
  }

  /** A step that touches neither the swaps nor their bookkeeping. */
  lemma {:induction false} OtherChains(s: System, l: Label)
    requires Chain(s) && !l.Issue? && !l.Land?
    ensures Chain(Step(s, l))
  {
    hide Linked, ConsumedOnce, AllSpent, Overdue, Issued, Swapped;
  }

  lemma {:induction false} ChainKept(s: System, l: Label)
    requires Chain(s)
    ensures Chain(Step(s, l))
  {
    hide Chain, Issued, Deactivated, Landed;
    match l
    case Issue(hash) => IssueChains(s, hash);
    case Land(c) =>
      if c in s.calls && s.calls[c].Sent? && s.calls[c].snapshot.hash.Some? {
        LandChains(s, c, s.calls[c].snapshot, s.calls[c].hash, s.calls[c].at);
      }
    case _ => OtherChains(s, l);
  }

  /** How a step may move the row for the calls that have read it: a hash new to the row comes with it. */
  predicate RowMoves(s: System, s': System) {
    && s'.row.createdAt == s.row.createdAt && s.now <= s'.now && s.spent <= s'.spent
    && (s'.row.hash.Some? ==>
        (s'.row.hash == s.row.hash && s'.row.expiresAt == s.row.expiresAt) || s'.row.hash.value !in s.spent)
  }

  lemma {:induction false} CallsKept(s: System, s': System)
    requires Bounded(s) && RowMoves(s, s') && RowBounded(s'.row, s'.now)
    requires forall c :: c in s'.calls ==> (c in s.calls && s'.calls[c] == s.calls[c]) || CallOk(s', s'.calls[c])
    ensures Bounded(s')
  {
  }

  lemma {:induction false} LandBounded(s: System, c: nat, snapshot: Row, hash: nat, at: Time)
    requires Inv(s) && c in s.calls && s.calls[c] == Sent(snapshot, hash, at) && snapshot.hash.Some?
    ensures Bounded(Landed(s, c, snapshot, hash, at))
  {
    assert FreshTokens(s) && CallOk(s, s.calls[c]);
    hide Chain;
    CallsKept(s, Landed(s, c, snapshot, hash, at));
  }

  lemma {:induction false} NoCallsBeforeIssue(s: System)
    requires Chain(s) && s.issued.None?
    ensures s.calls == map[]
  {
  }

  lemma {:induction false} BoundedKept(s: System, l: Label)
    requires Inv(s)
    ensures Bounded(Step(s, l))
  {
    hide Chain, Landed;
    match l
    case Issue(hash) => if s.issued.None? { NoCallsBeforeIssue(s); }
    case Land(c) =>
      if c in s.calls && s.calls[c].Sent? && s.calls[c].snapshot.hash.Some? {
        LandBounded(s, c, s.calls[c].snapshot, s.calls[c].hash, s.calls[c].at);
      }
    case Fetch(c) =>
      if s.row.hash.Some? { RowHashSpent(s); }
      CallsKept(s, Step(s, l));
    case _ => CallsKept(s, Step(s, l));
  }

  lemma {:induction false} RowHashSpent(s: System)
    requires Chain(s) && s.row.hash.Some?
    ensures s.row.hash.value in s.spent
  {
  }

  lemma {:induction false} StepKeeps(s: System, l: Label)
    requires Inv(s)
    ensures Inv(Step(s, l))
  {
    hide Step, Chain, Bounded;
    ChainKept(s, l);
    BoundedKept(s, l);
  }

  // ---- Whole runs ----

  lemma {:induction false} RunKeeps(ss: seq<System>, ls: seq<Label>, j: nat)
    requires Run(ss, ls) && j < |ss|
    ensures Inv(ss[j])
  {
    if j > 0 {
      hide Step;
      RunKeeps(ss, ls, j - 1);
      StepKeeps(ss[j - 1], ls[j - 1]);
    }
  }

  /** The successful swaps form one chain from the issued token to the stored one, and each token is
      consumed by at most one refresh. */
  lemma {:induction false} SwapsFormOneChain(ss: seq<System>, ls: seq<Label>, j: nat)
    requires Run(ss, ls) && j < |ss|
    ensures var swaps := ss[j].swaps;
            && (swaps != [] ==> ss[j].issued == Some(swaps[0].from))
            && (forall i :: 0 < i < |swaps| ==> swaps[i].from == swaps[i - 1].to)
            && (ss[j].row.hash.Some? && swaps != [] ==> ss[j].row.hash == Some(swaps[|swaps| - 1].to))
            && (forall i, k :: 0 <= i < |swaps| && 0 <= k < |swaps| && swaps[i].from == swaps[k].from ==> i == k)
  {
    RunKeeps(ss, ls, j);
    hide Bounded, FreshTokens, AllSpent;
  }

  /** A refresh sent at `at` either wins, consuming the stored token, strictly before the 30-day cap and leaving
      an expiry after `at`, no earlier than before and within the cap; or it changes nothing in the row. */
  lemma {:induction false} RefreshWinsOrChangesNothing(ss: seq<System>, ls: seq<Label>, i: nat)
    requires Run(ss, ls) && i < |ls| && ls[i].Land? && ls[i].c in ss[i].calls && ss[i].calls[ls[i].c].Sent?
    ensures var (s, s', call) := (ss[i], ss[i + 1], ss[i].calls[ls[i].c]);
            if |s'.swaps| > |s.swaps| then
              && s.row.hash == call.snapshot.hash && s.row.hash.Some?
              && s'.swaps == s.swaps + [Swap(ls[i].c, s.row.hash.value, call.hash)]
              && s'.row.hash == Some(call.hash) && call.hash !in s.spent
              && call.at < s.row.createdAt + 30 * DAY
              && call.at < s'.row.expiresAt.value <= s.row.createdAt + 30 * DAY
              && s.row.expiresAt.value <= s'.row.expiresAt.value
            else s'.row == s.row && s'.swaps == s.swaps
  {
    RunKeeps(ss, ls, i);
    var s := ss[i];
    assert CallOk(s, s.calls[ls[i].c]) && FreshTokens(s);
    hide Inv, FreshTokens;
    if s.calls[ls[i].c].snapshot.hash.Some? {
      LandWins(s, ls[i].c, s.calls[ls[i].c].snapshot, s.calls[ls[i].c].hash, s.calls[ls[i].c].at);
    }
    hide Landed;
  }

  /** A refresh wins exactly when the row still holds the token it read, is active, and had not expired or reached
      30 days when the refresh was sent. */
  lemma {:induction false} LandsExactly(ss: seq<System>, ls: seq<Label>, i: nat)
    requires Run(ss, ls) && i < |ls| && ls[i].Land? && ls[i].c in ss[i].calls && ss[i].calls[ls[i].c].Sent?
    ensures var (row, call) := (ss[i].row, ss[i].calls[ls[i].c]);
            |ss[i + 1].swaps| > |ss[i].swaps| <==>
              call.snapshot.hash.Some? && row.hash == call.snapshot.hash && row.isActive
              && row.expiresAt.Some? && call.at < row.expiresAt.value && call.at < row.createdAt + 30 * DAY
    ensures ls[i].c !in ss[i + 1].calls || ss[i].calls[ls[i].c].snapshot.hash.None?
  {
    assert ss[i + 1] == Step(ss[i], ls[i]);
  }

  /** The token is issued once, when it comes within 23 days of the creation, and lasts seven days. */
  lemma {:induction false} IssuesExactly(ss: seq<System>, ls: seq<Label>, i: nat)
    requires Run(ss, ls) && i < |ls| && ls[i].Issue? && ls[i].hash !in ss[i].used
    ensures var (s, s') := (ss[i], ss[i + 1]);
            if s.issued.None? && s.now <= s.row.createdAt + 23 * DAY
            then s'.issued == Some(ls[i].hash) && s'.row.hash == s'.issued && s'.row.expiresAt == Some(s.now + 7 * DAY)
            else s' == s
  {
    assert ss[i + 1] == Step(ss[i], ls[i]);
  }

  lemma {:induction false} LandWins(s: System, c: nat, snapshot: Row, hash: nat, at: Time)
    requires snapshot.hash.Some? && SnapshotOk(s, snapshot) && snapshot.expiresAt.value <= at + 7 * DAY
             && RowBounded(s.row, s.now)
    ensures var s' := Landed(s, c, snapshot, hash, at);
            if |s'.swaps| > |s.swaps| then
              && s.row.hash == snapshot.hash
              && s'.swaps == s.swaps + [Swap(c, s.row.hash.value, hash)] && s'.row.hash == Some(hash)
              && at < s.row.createdAt + 30 * DAY && at < s'.row.expiresAt.value <= s.row.createdAt + 30 * DAY
              && s.row.expiresAt.value <= s'.row.expiresAt.value
              && s'.row.expiresAt == Some(Min(at + 7 * DAY, s.row.createdAt + 30 * DAY))
            else s'.row == s.row && s'.swaps == s.swaps
  {
  }

  /** The expiry never passes 30 days from creation. */
  lemma {:induction false} ExpiryWithinCap(ss: seq<System>, ls: seq<Label>, j: nat)
    requires Run(ss, ls) && j < |ss|
    ensures ss[j].row.expiresAt.Some? && ss[j].row.expiresAt.value <= ss[j].row.createdAt + 30 * DAY
  {
    RunKeeps(ss, ls, j);
  }

  /** Issuing applies no cap of its own: it stays within 30 days exactly when it comes within 23 days of
      the creation, as it does directly after it. */
  lemma {:induction false} IssueWithinCap(r: Row, hash: nat, now: Time)
    ensures Issued(r, Some(hash), now).expiresAt.value <= r.createdAt + 30 * DAY <==> now <= r.createdAt + 23 * DAY
  {
  }

  // ---- Requests that read the row before it changes ----

  /** Call c read the row at step f and has yet to look at the clock. */
  predicate FetchedSince(ss: seq<System>, ls: seq<Label>, f: nat, i: nat, c: nat) {
    && f < i < |ss| && i <= |ls| && ls[f] == Fetch(c) && c in ss[f].calls && ss[f].calls[c].Arrived?
    && forall k :: f < k <= i ==> c in ss[k].calls && ss[k].calls[c] == Fetched(ss[f].calls[c].presented, ss[f].row)
  }

  /** Call c read the row at step f, looked at the clock at step d, and has been waiting to write the expiry
      off since. */
  predicate ExpiringSince(ss: seq<System>, ls: seq<Label>, f: nat, d: nat, i: nat, c: nat) {
    && d < i < |ss| && i <= |ls| && FetchedSince(ss, ls, f, d, c) && ls[d] == Decide(c)
    && ss[f].row.isActive && Overdue(ss[f].row, ss[d].now)
    && forall k :: d < k <= i ==> c in ss[k].calls && ss[k].calls[c] == Expiring
  }

  lemma {:induction false} FetchOrigin(ss: seq<System>, ls: seq<Label>, i: nat, c: nat) returns (f: nat)
    requires Run(ss, ls) && i < |ss| && c in ss[i].calls && ss[i].calls[c].Fetched?
    ensures FetchedSince(ss, ls, f, i, c)
  {
    assert i > 0 && ss[i] == Step(ss[i - 1], ls[i - 1]);
    if ls[i - 1] == Fetch(c) && c in ss[i - 1].calls && ss[i - 1].calls[c].Arrived? {
      f := i - 1;
    } else {
      FetchedBefore(ss[i - 1], ls[i - 1], c);
      hide Step;
      f := FetchOrigin(ss, ls, i - 1, c);
    }
  }

  lemma {:induction false} FetchedBefore(s: System, l: Label, c: nat)
    requires c in Step(s, l).calls && Step(s, l).calls[c].Fetched?
    ensures c in s.calls && (s.calls[c] == Step(s, l).calls[c] || (l == Fetch(c) && s.calls[c].Arrived?))
  {
  }

  lemma {:induction false} ExpiringBefore(s: System, l: Label, c: nat)
    requires c in Step(s, l).calls && Step(s, l).calls[c].Expiring?
    ensures c in s.calls
    ensures s.calls[c].Expiring?
            || (l == Decide(c) && s.calls[c].Fetched? && s.calls[c].snapshot.isActive
                && Overdue(s.calls[c].snapshot, s.now))
  {
  }

  lemma {:induction false} ExpiringOrigin(ss: seq<System>, ls: seq<Label>, i: nat, c: nat) returns (f: nat, d: nat)
    requires Run(ss, ls) && i < |ss| && c in ss[i].calls && ss[i].calls[c].Expiring?
    ensures ExpiringSince(ss, ls, f, d, i, c)
  {
    assert i > 0 && ss[i] == Step(ss[i - 1], ls[i - 1]);
    ExpiringBefore(ss[i - 1], ls[i - 1], c);
    hide Step;
    if ss[i - 1].calls[c].Expiring? {
      f, d := ExpiringOrigin(ss, ls, i - 1, c);
    } else {
      f := FetchOrigin(ss, ls, i - 1, c);
      d := i - 1;
    }
  }

  /** Step k puts a new token into the row. */
  predicate Swaps(ss: seq<System>, ls: seq<Label>, k: nat) {
    && k < |ls| && k + 1 < |ss| && ls[k].Land? && ls[k].c in ss[k].calls && ss[k].calls[ls[k].c].Sent?
    && |ss[k + 1].swaps| > |ss[k].swaps|
  }

  /** The expiry a swap leaves behind, from the instant it was sent. */
  function SwapExpiry(ss: seq<System>, ls: seq<Label>, k: nat): Time
    requires Swaps(ss, ls, k)
  {
    Min(ss[k].calls[ls[k].c].at + 7 * DAY, ss[k].row.createdAt + 30 * DAY)
  }

  /** k is the last swap to land after step f and before step i. */
  ghost predicate LastSwap(ss: seq<System>, ls: seq<Label>, f: nat, k: nat, i: nat) {
    f < k < i && Swaps(ss, ls, k) && forall m :: k < m < i ==> !Swaps(ss, ls, m)
  }

  /** Step k is a logout or writes an expiry off. */
  predicate Ends(ss: seq<System>, ls: seq<Label>, k: nat) {
    k < |ls| && k < |ss|
    && (ls[k].Logout? || (ls[k].WriteExpiry? && ls[k].c in ss[k].calls && ss[k].calls[ls[k].c].Expiring?))
  }

  lemma {:induction false} RowStep(ss: seq<System>, ls: seq<Label>, k: nat)
    requires Run(ss, ls) && k < |ls| && ss[k].issued.Some?
    ensures ss[k + 1].issued.Some? && ss[k + 1].row.createdAt == ss[k].row.createdAt && ss[k].now <= ss[k + 1].now
    ensures ss[k + 1].row.isActive == (ss[k].row.isActive && !Ends(ss, ls, k))
    ensures ss[k + 1].row.expiresAt == if Swaps(ss, ls, k) then Some(SwapExpiry(ss, ls, k)) else ss[k].row.expiresAt
  {
    RunKeeps(ss, ls, k);
    hide Inv, Issued;
    assert ss[k + 1] == Step(ss[k], ls[k]);
    if ls[k].Land? && ls[k].c in ss[k].calls && ss[k].calls[ls[k].c].Sent? && ss[k].calls[ls[k].c].snapshot.hash.Some? {
      var call := ss[k].calls[ls[k].c];
      assert CallOk(ss[k], call) && RowBounded(ss[k].row, ss[k].now) by { InvGives(ss[k], ls[k].c); }
      LandWins(ss[k], ls[k].c, call.snapshot, call.hash, call.at);
      LandKeepsActive(ss[k], ls[k].c, call.snapshot, call.hash, call.at);
      hide Landed;
    }
  }

  lemma {:induction false} InvGives(s: System, c: nat)
    requires Inv(s) && c in s.calls
    ensures CallOk(s, s.calls[c]) && RowBounded(s.row, s.now) && s.issued.Some?
  {
  }

  lemma {:induction false} LandKeepsActive(s: System, c: nat, snapshot: Row, hash: nat, at: Time)
    requires snapshot.hash.Some?
    ensures var s' := Landed(s, c, snapshot, hash, at);
            s'.row.isActive == s.row.isActive && s'.row.createdAt == s.row.createdAt && s'.issued == s.issued
            && s'.now == s.now
            && (|s'.swaps| <= |s.swaps| ==> s'.row == s.row)
  {
  }

  /** What the row's activity and expiry at step i owe to the steps since f. */
  lemma {:induction false} RowSince(ss: seq<System>, ls: seq<Label>, f: nat, i: nat)
    requires Run(ss, ls) && f < i < |ss| && ss[f].issued.Some?
    ensures ss[i].issued.Some? && ss[i].row.createdAt == ss[f].row.createdAt && ss[f].now <= ss[i].now
    ensures ss[i].row.isActive <==> ss[f].row.isActive && forall k :: f <= k < i ==> !Ends(ss, ls, k)
    decreases i - f
  {
    hide Step;
    RowStep(ss, ls, f);
    if f + 1 < i { RowSince(ss, ls, f + 1, i); }
  }

  lemma {:induction false} ExpirySince(ss: seq<System>, ls: seq<Label>, f: nat, i: nat)
    requires Run(ss, ls) && f < i < |ss| && ss[f + 1].issued.Some?
    ensures (forall k :: f < k < i ==> !Swaps(ss, ls, k)) ==> ss[i].row.expiresAt == ss[f + 1].row.expiresAt
    ensures forall k :: LastSwap(ss, ls, f, k, i) ==> ss[i].row.expiresAt == Some(SwapExpiry(ss, ls, k))
    decreases i - f
  {
    hide Step, SwapExpiry, Swaps;
    if f + 1 < i {
      ExpirySince(ss, ls, f, i - 1);
      if f + 1 < i - 1 { RowSince(ss, ls, f + 1, i - 1); }
      RowStep(ss, ls, i - 1);
      forall k: nat | LastSwap(ss, ls, f, k, i) ensures ss[i].row.expiresAt == Some(SwapExpiry(ss, ls, k)) {
        if k < i - 1 { assert LastSwap(ss, ls, f, k, i - 1) && !Swaps(ss, ls, i - 1); }
      }
    }
  }

  lemma {:induction false} FindLastSwap(ss: seq<System>, ls: seq<Label>, f: nat, i: nat) returns (k: nat)
    requires exists m :: f < m < i && Swaps(ss, ls, m)
    ensures LastSwap(ss, ls, f, k, i)
    decreases i
  {
    hide Swaps;
    if Swaps(ss, ls, i - 1) { k := i - 1; } else { k := FindLastSwap(ss, ls, f, i - 1); }
  }

  /** While a call is about to write the expiry off: the row is as active as nothing ended it, and its expiry is
      the one the call read, which has passed, unless a swap has replaced it. */
  lemma {:induction false} RowWhileExpiring(ss: seq<System>, ls: seq<Label>, f: nat, d: nat, i: nat, c: nat)
    requires Run(ss, ls) && ExpiringSince(ss, ls, f, d, i, c)
    ensures ss[i].row.isActive <==> forall k :: f < k < i ==> !Ends(ss, ls, k)
    ensures (forall k :: f < k < i ==> !Swaps(ss, ls, k)) ==> Overdue(ss[i].row, ss[i].now)
    ensures forall k :: LastSwap(ss, ls, f, k, i) ==> ss[i].row.expiresAt == Some(SwapExpiry(ss, ls, k))
    ensures RowBounded(ss[i].row, ss[i].now)
  {
    hide Step, Swaps, SwapExpiry, Ends, LastSwap;
    RunKeeps(ss, ls, f);
    InvGives(ss[f], c);
    RowStep(ss, ls, f);
    FetchChangesNoRow(ss, ls, f);
    RowSince(ss, ls, f, i);
    RowSince(ss, ls, f, d);
    if d < i { RowSince(ss, ls, d, i); }
    ExpirySince(ss, ls, f, i);
    RunKeeps(ss, ls, i);
    InvGives(ss[i], c);
    hide Inv, Run, CallOk, Accepts;
  }

  /** The write-off of an expired session, made on a row read earlier, ends a session that is still
      acceptable exactly when a swap landed after that row was read, nothing ended the session since, and
      the write comes within the expiry that the last such swap left. */
  lemma {:induction false} ExpiryWriteEndsLiveSession(ss: seq<System>, ls: seq<Label>, i: nat) returns (f: nat, d: nat)
    requires Run(ss, ls) && i < |ls| && ls[i].WriteExpiry? && ls[i].c in ss[i].calls && ss[i].calls[ls[i].c].Expiring?
    ensures ExpiringSince(ss, ls, f, d, i, ls[i].c) && !ss[i + 1].row.isActive
    ensures Accepts(ss[i].row, ss[i].now) <==>
              && (forall k :: f < k < i ==> !Ends(ss, ls, k))
              && exists k :: LastSwap(ss, ls, f, k, i) && ss[i].now <= SwapExpiry(ss, ls, k)
  {
    var c := ls[i].c;
    assert ss[i + 1] == Step(ss[i], ls[i]);
    f, d := ExpiringOrigin(ss, ls, i, c);
    RowWhileExpiring(ss, ls, f, d, i, c);
    hide Step, Run, Swaps, SwapExpiry, Ends, ExpiringSince;
    if exists k :: f < k < i && Swaps(ss, ls, k) { var k := FindLastSwap(ss, ls, f, i); }
  }

  lemma {:induction false} FetchChangesNoRow(ss: seq<System>, ls: seq<Label>, k: nat)
    requires k < |ls| && (ls[k].Fetch? || ls[k].Decide?)
    ensures !Ends(ss, ls, k) && !Swaps(ss, ls, k)
  {
  }

  /** A request is judged by the row as it was at its SELECT and the clock as it is now: an access check is
      granted, or a refresh goes on, exactly when that row is acceptable at this instant and, for a refresh,
      holds the presented token. */
  lemma {:induction false} JudgedBySnapshot(ss: seq<System>, ls: seq<Label>, j: nat) returns (f: nat)
    requires Run(ss, ls) && j < |ls| && ls[j].Decide? && ls[j].c in ss[j].calls && ss[j].calls[ls[j].c].Fetched?
    ensures FetchedSince(ss, ls, f, j, ls[j].c)
    ensures var (c, presented) := (ls[j].c, ss[f].calls[ls[j].c].presented);
            && (ss[j + 1].grants == ss[j].grants + [c] <==> presented.None? && Accepts(ss[f].row, ss[j].now))
            && (ss[j + 1].grants == ss[j].grants || presented.None?)
            && (c in ss[j + 1].calls && ss[j + 1].calls[c] == Expiring <==>
                  ss[f].row.isActive && Overdue(ss[f].row, ss[j].now))
            && (c in ss[j + 1].calls && ss[j + 1].calls[c].Matched? <==>
                  presented.Some? && Accepts(ss[f].row, ss[j].now) && ss[f].row.hash == presented)
  {
    f := FetchOrigin(ss, ls, j, ls[j].c);
    assert ss[j + 1] == Step(ss[j], ls[j]);
    hide Accepts, Overdue;
    assert Accepts(ss[f].row, ss[j].now) ==> !Overdue(ss[f].row, ss[j].now) by {
      AcceptedNotOverdue(ss[f].row, ss[j].now);
    }
  }

  lemma {:induction false} AcceptedNotOverdue(r: Row, now: Time)
    ensures Accepts(r, now) ==> !Overdue(r, now)
  {
  }

  lemma {:induction false} InactiveStep(s: System, l: Label)
    requires !s.row.isActive
    ensures var s' := Step(s, l); !s'.row.isActive && s'.swaps == s.swaps
    ensures !l.Decide? ==> Step(s, l).grants == s.grants
  {
    hide Overdue;
  }

  /** Once deactivated, a session stays so, and no swap succeeds any more, not even one read or sent before. */
  lemma {:induction false} DeactivatedForever(ss: seq<System>, ls: seq<Label>, i: nat, j: nat)
    requires Run(ss, ls) && i <= j < |ss| && !ss[i].row.isActive
    ensures !ss[j].row.isActive && ss[j].swaps == ss[i].swaps
    decreases j - i
  {
    hide Step;
    if i < j {
      DeactivatedForever(ss, ls, i, j - 1);
      InactiveStep(ss[j - 1], ls[j - 1]);
    }
  }

  /** After a deactivation an access check is granted only if it read the row before; every request that
      reads it afterwards is refused. */
  lemma {:induction false} FetchedAfterIsRefused(ss: seq<System>, ls: seq<Label>, i: nat, j: nat) returns (f: nat)
    requires Run(ss, ls) && i <= j < |ls| && !ss[i].row.isActive
    requires ls[j].Decide? && ls[j].c in ss[j].calls && ss[j].calls[ls[j].c].Fetched?
    ensures FetchedSince(ss, ls, f, j, ls[j].c)
    ensures i <= f ==> ls[j].c !in ss[j + 1].calls && ss[j + 1].grants == ss[j].grants
    ensures ss[j + 1].grants != ss[j].grants ==> f < i && Accepts(ss[f].row, ss[j].now)
  {
    f := FetchOrigin(ss, ls, j, ls[j].c);
    if i <= f { DeactivatedForever(ss, ls, i, f); }
    assert ss[j + 1] == Step(ss[j], ls[j]);
    hide Overdue;
  }

  /** A logout takes the stored hash away, and nothing ever puts another one into the row. */
  lemma {:induction false} LogoutClearsHash(ss: seq<System>, ls: seq<Label>, i: nat, j: nat)
    requires Run(ss, ls) && i < j < |ss| && ls[i] == Logout && ss[i].issued.Some?
    ensures ss[j].row.hash.None? && !ss[j].row.isActive
    decreases j - i
  {
    assert ss[j] == Step(ss[j - 1], ls[j - 1]);
    if i + 1 < j {
      hide Step, Run;
      LogoutClearsHash(ss, ls, i, j - 1);
      IssuedStays(ss, ls, i, j - 1);
      InactiveKeepsHash(ss[j - 1], ls[j - 1]);
    }
  }

  lemma {:induction false} IssuedStays(ss: seq<System>, ls: seq<Label>, i: nat, j: nat)
    requires Run(ss, ls) && i <= j < |ss| && ss[i].issued.Some?
    ensures ss[j].issued.Some?
    decreases j - i
  {
    hide Step;
    if i < j {
      IssuedStays(ss, ls, i, j - 1);
      RowStep(ss, ls, j - 1);
    }
  }

  lemma {:induction false} InactiveKeepsHash(s: System, l: Label)
    requires !s.row.isActive && s.row.hash.None? && s.issued.Some?
    ensures Step(s, l).row.hash.None? && !Step(s, l).row.isActive
  {
    hide Overdue;
  }

  /** The step is recorded as activity: tokens are issued, a swap lands, or the user logs out. */
  predicate Touches(ss: seq<System>, ls: seq<Label>, k: nat) {
    k < |ls| && k + 1 < |ss| &&
    ((ls[k].Issue? && ss[k].issued != ss[k + 1].issued) || Swaps(ss, ls, k) || (ls[k].Logout? && ss[k].issued.Some?))
  }

  /** The instant it is recorded with: for a swap, that at which it was sent. */
  function TouchedAt(ss: seq<System>, ls: seq<Label>, k: nat): Time
    requires Touches(ss, ls, k)
  {
    if ls[k].Land? then ss[k].calls[ls[k].c].at else ss[k].now
  }

  lemma {:induction false} ActivityStep(ss: seq<System>, ls: seq<Label>, k: nat)
    requires Run(ss, ls) && k < |ls|
    ensures ss[k + 1].row.lastActivityAt
            == if Touches(ss, ls, k) then TouchedAt(ss, ls, k) else ss[k].row.lastActivityAt
  {
    assert ss[k + 1] == Step(ss[k], ls[k]);
    hide Overdue, SwapMatches;
  }

  /** The row's last activity is that of the last such step, or of the creation. */
  lemma {:induction false} LastActivity(ss: seq<System>, ls: seq<Label>, k: nat, j: nat)
    requires Run(ss, ls) && k < j < |ss| && forall m :: k < m < j ==> !Touches(ss, ls, m)
    ensures ss[j].row.lastActivityAt == if Touches(ss, ls, k) then TouchedAt(ss, ls, k) else ss[k].row.lastActivityAt
    decreases j - k
  {
    hide Step, Touches, TouchedAt, Init;
    ActivityStep(ss, ls, j - 1);
    if k + 1 < j { LastActivity(ss, ls, k, j - 1); }
  }

  /** Storing no hash ends a session for good: no check accepts it and no swap matches it at any time. */
  lemma {:induction false} NullHashEndsSession(r: Row, expected: nat, now: Time, later: Time)
    ensures var r' := Issued(r, None, now); !Accepts(r', later) && !SwapMatches(r', expected, later) && r'.hash.None?
  {
  }

  // ---- Witness runs ----

  lemma {:induction false} Extended(ss: seq<System>, ls: seq<Label>, l: Label, s: System)
    requires Run(ss, ls) && s == Step(ss[|ls|], l)
    ensures Run(ss + [s], ls + [l])
  {
    hide Step;
    forall i | 0 <= i < |ls| + 1 ensures (ss + [s])[i + 1] == Step((ss + [s])[i], (ls + [l])[i]) {
      if i < |ls| { assert ss[i + 1] == Step(ss[i], ls[i]); }
    }
  }

  function NewSession(): System {
    System(Row(0, true, None, Some(SLIDING), 0), map[], 0, {}, {}, None, [], [])
  }

  /** A session whose token is issued at once; a refresh and an access check have read its row. */
  lemma TwoReaders() returns (ss: seq<System>, ls: seq<Label>)
    ensures Run(ss, ls) && |ls| == 5
    ensures var r := Row(0, true, Some(1), Some(SLIDING), 0);
            ss[5] == System(r, map[0 := Fetched(Some(1), r), 1 := Fetched(None, r)], 0, {1}, {1}, Some(1), [], [])
  {
    var r := Row(0, true, Some(1), Some(SLIDING), 0);
    var s := NewSession();
    ss, ls := [s], [];
    s := System(r, map[], 0, {1}, {1}, Some(1), [], []);
    Extended(ss, ls, Issue(1), s);
    ss, ls := ss + [s], ls + [Issue(1)];
    s := s.(calls := map[0 := Arrived(Some(1))]);
    Extended(ss, ls, Arrive(0, Some(1)), s);
    ss, ls := ss + [s], ls + [Arrive(0, Some(1))];
    s := s.(calls := map[0 := Arrived(Some(1)), 1 := Arrived(None)]);
    Extended(ss, ls, Arrive(1, None), s);
    ss, ls := ss + [s], ls + [Arrive(1, None)];
    s := s.(calls := map[0 := Fetched(Some(1), r), 1 := Arrived(None)]);
    Extended(ss, ls, Fetch(0), s);
    ss, ls := ss + [s], ls + [Fetch(0)];
    s := s.(calls := map[0 := Fetched(Some(1), r), 1 := Fetched(None, r)]);
    Extended(ss, ls, Fetch(1), s);
    ss, ls := ss + [s], ls + [Fetch(1)];
  }

  /** A logout between an access check's SELECT and its look at the clock: the check is granted on a session
      that is no longer active. */
  lemma StaleGrant() returns (ss: seq<System>, ls: seq<Label>)
    ensures Run(ss, ls) && |ls| == 7 && !ss[6].row.isActive && ss[6].grants == [] && ss[7].grants == [1]
  {
    ss, ls := TwoReaders();
    var s := ss[5].(row := Deactivated(ss[5].row, 0));
    Extended(ss, ls, Logout, s);
    ss, ls := ss + [s], ls + [Logout];
    s := Gone(s, 1).(grants := [1]);
    Extended(ss, ls, Decide(1), s);
    ss, ls := ss + [s], ls + [Decide(1)];
  }

  /** A refresh lands just before the old expiry, and the access check that read the row before it looks at
      the clock just after: it deactivates the session that has just been refreshed. */
  lemma RefreshedSessionEnded() returns (ss: seq<System>, ls: seq<Label>)
    ensures Run(ss, ls) && |ls| == 12 && ls[11] == WriteExpiry(1)
    ensures Accepts(ss[11].row, ss[11].now) && |ss[11].swaps| == 1 && !ss[12].row.isActive
  {
    ss, ls := RefreshedInTime();
    var s := ss[9].(now := SLIDING + 1);
    Extended(ss, ls, Tick(2), s);
    ss, ls := ss + [s], ls + [Tick(2)];
    s := s.(calls := map[1 := Expiring]);
    Extended(ss, ls, Decide(1), s);
    ss, ls := ss + [s], ls + [Decide(1)];
    s := s.(calls := map[], row := s.row.(isActive := false));
    Extended(ss, ls, WriteExpiry(1), s);
    ss, ls := ss + [s], ls + [WriteExpiry(1)];
  }

  lemma RefreshedInTime() returns (ss: seq<System>, ls: seq<Label>)
    ensures Run(ss, ls) && |ls| == 9
    ensures ss[9] == System(Row(0, true, Some(2), Some(2 * SLIDING - 1), SLIDING - 1),
                            map[1 := Fetched(None, Row(0, true, Some(1), Some(SLIDING), 0))], SLIDING - 1,
                            {1, 2}, {1, 2}, Some(1), [Swap(0, 1, 2)], [])
  {
    ss, ls := RefreshSent();
    var r := Row(0, true, Some(1), Some(SLIDING), 0);
    var s := System(Row(0, true, Some(2), Some(2 * SLIDING - 1), SLIDING - 1), map[1 := Fetched(None, r)], SLIDING - 1,
                    {1, 2}, {1, 2}, Some(1), [Swap(0, 1, 2)], []);
    Extended(ss, ls, Land(0), s);
    ss, ls := ss + [s], ls + [Land(0)];
  }

  lemma RefreshSent() returns (ss: seq<System>, ls: seq<Label>)
    ensures Run(ss, ls) && |ls| == 8
    ensures var r := Row(0, true, Some(1), Some(SLIDING), 0);
            ss[8] == System(r, map[0 := Sent(r, 2, SLIDING - 1), 1 := Fetched(None, r)], SLIDING - 1, {1, 2}, {1},
                            Some(1), [], [])
  {
    ss, ls := TwoReaders();
    var r := ss[5].row;
    var s := ss[5].(now := SLIDING - 1);
    Extended(ss, ls, Tick(SLIDING - 1), s);
    ss, ls := ss + [s], ls + [Tick(SLIDING - 1)];
    s := s.(calls := map[0 := Matched(r), 1 := Fetched(None, r)]);
    Extended(ss, ls, Decide(0), s);
    ss, ls := ss + [s], ls + [Decide(0)];
    s := s.(calls := map[0 := Sent(r, 2, SLIDING - 1), 1 := Fetched(None, r)], used := {1, 2});
    Extended(ss, ls, Send(0, 2), s);
    ss, ls := ss + [s], ls + [Send(0, 2)];
  }
}
