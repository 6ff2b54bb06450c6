/** The reference-counted subscription registry and the Redis connection it keeps in step. The pattern
    methods run the same code over their own map, so one registry stands for both. */
module PubSub {
  import opened Prelude

  type Channel = nat
  type Callback = nat

  /** A command on its way to the server; `call` is the subscribe call awaiting it. */
  datatype Command = Subscribing(ch: Channel, call: nat) | Unsubscribing(ch: Channel)

  type Subscriptions = map<Channel, set<Callback>>

  // ---- The three atomic segments ----

  /** Up to the await: a first subscriber creates an empty entry and sends the command. */
  function Begun(subs: Subscriptions, ch: Channel, cb: Callback): Subscriptions {
    if ch in subs then subs[ch := subs[ch] + {cb}] else subs[ch := {}]
  }

  /** After the await; a missing entry makes `get(channel)!.add` throw. */
  function Resumed(subs: Subscriptions, ch: Channel, cb: Callback): Subscriptions {
    if ch in subs then subs[ch := subs[ch] + {cb}] else subs
  }

  function Unsubscribed(subs: Subscriptions, ch: Channel, cb: Callback): Subscriptions {
    if ch !in subs then subs
    else if subs[ch] - {cb} == {} then subs - {ch}
    else subs[ch := subs[ch] - {cb}]
  }

  class MetricsPubSub {
    var subscriptions: Subscriptions
    var commands: seq<Command>

    constructor ()
      ensures subscriptions == map[] && commands == []
    {
      subscriptions := map[];
      commands := [];
    }

    method Subscribe(ch: Channel, cb: Callback, call: nat) returns (waits: bool)
      modifies this
      ensures subscriptions == Begun(old(subscriptions), ch, cb)
      ensures waits == (ch !in old(subscriptions))
      ensures commands == if waits then old(commands) + [Subscribing(ch, call)] else old(commands)
    {
      waits := ch !in subscriptions;
      if waits {
        subscriptions := subscriptions[ch := {}];
        commands := commands + [Subscribing(ch, call)];
      } else {
        subscriptions := subscriptions[ch := subscriptions[ch] + {cb}];
      }
    }

    method Resume(ch: Channel, cb: Callback) returns (found: bool)
      modifies this`subscriptions
      ensures subscriptions == Resumed(old(subscriptions), ch, cb) && found == (ch in old(subscriptions))
    {
      found := ch in subscriptions;
      if found { subscriptions := subscriptions[ch := subscriptions[ch] + {cb}]; }
    }

    method Unsubscribe(ch: Channel, cb: Callback)
      modifies this
      ensures subscriptions == Unsubscribed(old(subscriptions), ch, cb)
      ensures commands == if ch in old(subscriptions) && ch !in subscriptions
                          then old(commands) + [Unsubscribing(ch)] else old(commands)
    {
      if ch in subscriptions {
        var callbacks := subscriptions[ch] - {cb};
        subscriptions := subscriptions[ch := callbacks];
        if callbacks == {} {
          subscriptions := subscriptions - {ch};
          commands := commands + [Unsubscribing(ch)];
        }
      }
    }
  }

  // ---- The system ----

  datatype Pending = Pending(ch: Channel, cb: Callback, acked: bool)

  /** `creator` is history: the call that created each present entry. */
  datatype System = System(subs: Subscriptions, commands: seq<Command>, server: set<Channel>,
                           pending: map<nat, Pending>, creator: map<Channel, nat>)

  datatype Label =
    | Subscribe(call: nat, ch: Channel, cb: Callback)
    | Unsubscribe(ch: Channel, cb: Callback)
    | ServerStep
    | Resume(call: nat)

  function Applied(server: set<Channel>, c: Command): set<Channel> {
    if c.Subscribing? then server + {c.ch} else server - {c.ch}
  }

  function Step(s: System, l: Label): System {
    match l
    case Subscribe(call, ch, cb) =>
      if call in s.pending then s
      else if ch in s.subs then s.(subs := Begun(s.subs, ch, cb))
      else s.(subs := Begun(s.subs, ch, cb), commands := s.commands + [Subscribing(ch, call)],
              pending := s.pending[call := Pending(ch, cb, false)], creator := s.creator[ch := call])
    case Unsubscribe(ch, cb) =>
      var subs := Unsubscribed(s.subs, ch, cb);
      if ch in s.subs && ch !in subs
      then s.(subs := subs, commands := s.commands + [Unsubscribing(ch)], creator := s.creator - {ch})
      else s.(subs := subs)
    case ServerStep =>
      if s.commands == [] then s
      else
        var c := s.commands[0];
        s.(commands := s.commands[1..], server := Applied(s.server, c),
           pending := if c.Subscribing? && c.call in s.pending
                      then s.pending[c.call := s.pending[c.call].(acked := true)] else s.pending)
    case Resume(call) =>
      if call in s.pending && s.pending[call].acked
      then s.(subs := Resumed(s.subs, s.pending[call].ch, s.pending[call].cb), pending := s.pending - {call})
      else s
  }

  predicate Init(s: System) {
    s.subs == map[] && s.commands == [] && s.server == {} && s.pending == map[] && s.creator == map[]
  }

  ghost predicate Run(ss: seq<System>, ls: seq<Label>) {
    |ss| == |ls| + 1 && Init(ss[0]) && forall i :: 0 <= i < |ls| ==> ss[i + 1] == Step(ss[i], ls[i])
  }

  // ---- The invariant ----

  /** The server's channels once it has run the pending commands in order. */
  function Replay(server: set<Channel>, commands: seq<Command>): set<Channel>
    decreases commands
  {
    if commands == [] then server else Replay(Applied(server, commands[0]), commands[1..])
  }

  lemma {:induction false} ReplayAppend(server: set<Channel>, commands: seq<Command>, c: Command)
    ensures Replay(server, commands + [c]) == Applied(Replay(server, commands), c)
    decreases commands
  {
    if commands == [] {
      assert ([] + [c])[1..] == [];
    } else {
      assert (commands + [c])[1..] == commands[1..] + [c];
      ReplayAppend(Applied(server, commands[0]), commands[1..], c);
    }
  }

  ghost predicate Inv(s: System) {
    && Replay(s.server, s.commands) == s.subs.Keys == s.creator.Keys
    && (forall ch :: ch in s.subs && s.subs[ch] == {} ==>
          s.creator[ch] in s.pending && s.pending[s.creator[ch]].ch == ch)
  }

  lemma {:induction false} StepKeeps(s: System, l: Label)
    requires Inv(s)
    ensures Inv(Step(s, l))
  {
    match l
    case Subscribe(call, ch, cb) => ReplayAppend(s.server, s.commands, Subscribing(ch, call));
    case Unsubscribe(ch, cb) => ReplayAppend(s.server, s.commands, Unsubscribing(ch));
    case ServerStep =>
    case Resume(call) =>
  }

  // ---- Whole runs ----

  lemma {:induction false} RunKeeps(ss: seq<System>, ls: seq<Label>, j: nat)
    requires Run(ss, ls) && j < |ss|
    ensures Inv(ss[j])
  {
    if j > 0 {
      hide Step;
      RunKeeps(ss, ls, j - 1);
      StepKeeps(ss[j - 1], ls[j - 1]);
    }
  }

  /** Replaying the commands still on their way over the server's channels gives exactly the map's keys. */
  lemma {:induction false} ServerCatchesUp(ss: seq<System>, ls: seq<Label>, j: nat)
    requires Run(ss, ls) && j < |ss|
    ensures Replay(ss[j].server, ss[j].commands) == ss[j].subs.Keys
  {
    RunKeeps(ss, ls, j);
  }

  /** An entry is empty only while the very call that created it is pending. */
  lemma {:induction false} EmptyMeansPending(ss: seq<System>, ls: seq<Label>, j: nat, ch: Channel)
    requires Run(ss, ls) && j < |ss| && ch in ss[j].subs && ss[j].subs[ch] == {}
    ensures ch in ss[j].creator && ss[j].creator[ch] in ss[j].pending && ss[j].pending[ss[j].creator[ch]].ch == ch
  {
    RunKeeps(ss, ls, j);
  }

  /** With nothing on its way and no call pending, the server listens to exactly the channels that have callbacks. */
  lemma {:induction false} SettledInStep(ss: seq<System>, ls: seq<Label>, j: nat)
    requires Run(ss, ls) && j < |ss| && ss[j].commands == [] && ss[j].pending == map[]
    ensures ss[j].server == ss[j].subs.Keys && forall ch :: ch in ss[j].subs ==> ss[j].subs[ch] != {}
  {
    RunKeeps(ss, ls, j);
  }

  /** Step k takes the entry of ch away. */
  predicate Removes(ss: seq<System>, k: nat, ch: Channel) {
    k + 1 < |ss| && ch in ss[k].subs && ch !in ss[k + 1].subs
  }

  predicate Creates(ss: seq<System>, k: nat, ch: Channel) {
    k + 1 < |ss| && ch !in ss[k].subs && ch in ss[k + 1].subs
  }

  /** Only an unsubscribe that leaves no callback removes an entry. */
  lemma {:induction false} RemovalKind(s: System, l: Label, ch: Channel)
    requires ch in s.subs && ch !in Step(s, l).subs
    ensures l.Unsubscribe? && l.ch == ch && s.subs[ch] <= {l.cb}
  {
    if l.Unsubscribe? && l.ch == ch { assert s.subs[ch] <= {l.cb}; }
  }

  lemma {:induction false} LastChange(ss: seq<System>, i: nat, j: nat, ch: Channel) returns (k: nat)
    requires i < j < |ss| && ch in ss[i].subs && ch !in ss[j].subs
    ensures i <= k < j && Removes(ss, k, ch) && forall m :: k < m < j ==> !Creates(ss, m, ch)
    decreases j - i
  {
    if ch in ss[j - 1].subs {
      k := j - 1;
    } else {
      k := LastChange(ss, i, j - 1, ch);
    }
  }

  lemma {:induction false} StaysAbsent(ss: seq<System>, k: nat, j: nat, ch: Channel)
    requires k < j < |ss| && ch !in ss[k + 1].subs && forall m :: k < m < j ==> !Creates(ss, m, ch)
    ensures ch !in ss[j].subs
    decreases j - k
  {
    if k + 1 < j {
      StaysAbsent(ss, k, j - 1, ch);
      assert !Creates(ss, j - 1, ch);
    }
  }

  /** A resuming subscribe finds no entry exactly when, since it created one, an unsubscribe emptied the
      channel and nothing created it again. */
  lemma {:induction false} ResumeMisses(ss: seq<System>, ls: seq<Label>, i: nat, j: nat)
    requires Run(ss, ls) && i < j < |ls| && ls[i].Subscribe? && ls[j] == Resume(ls[i].call)
    requires ls[i].call !in ss[i].pending && ls[i].ch !in ss[i].subs
    ensures ls[i].ch !in ss[j].subs <==>
              exists k :: i < k < j && Removes(ss, k, ls[i].ch) && ls[k].Unsubscribe? && ls[k].ch == ls[i].ch
                          && forall m :: k < m < j ==> !Creates(ss, m, ls[i].ch)
  {
    var ch := ls[i].ch;
    assert ss[i + 1] == Step(ss[i], ls[i]);
    if ch !in ss[j].subs {
      var k := LastChange(ss, i + 1, j, ch);
      assert ss[k + 1] == Step(ss[k], ls[k]);
      RemovalKind(ss[k], ls[k], ch);
    }
    if k :| i < k < j && Removes(ss, k, ch) && ls[k].Unsubscribe? && ls[k].ch == ch
            && forall m :: k < m < j ==> !Creates(ss, m, ch) {
      StaysAbsent(ss, k, j, ch);
    }
  }

  lemma {:induction false} OthersKept(s: System, l: Label, ch: Channel, cb: Callback)
    requires ch in s.subs && cb in s.subs[ch] && l != Unsubscribe(ch, cb)
    ensures ch in Step(s, l).subs && cb in Step(s, l).subs[ch]
  {
  }

  /** A registered callback stays registered until it is itself unsubscribed. */
  lemma {:induction false} RegisteredUntilUnsubscribed(ss: seq<System>, ls: seq<Label>, i: nat, j: nat, ch: Channel,
                                                       cb: Callback)
    requires Run(ss, ls) && i <= j < |ss| && ch in ss[i].subs && cb in ss[i].subs[ch]
    requires forall k :: i <= k < j ==> ls[k] != Unsubscribe(ch, cb)
    ensures ch in ss[j].subs && cb in ss[j].subs[ch]
    decreases j - i
  {
    if i < j {
      hide Step;
      RegisteredUntilUnsubscribed(ss, ls, i, j - 1, ch, cb);
      OthersKept(ss[j - 1], ls[j - 1], ch, cb);
    }
  }

  // ---- Who is registered ----

  /** Step k begins a subscribe of a callback, which at once creates an entry and waits. */
  predicate Awaits(ss: seq<System>, ls: seq<Label>, k: nat, call: nat, ch: Channel, cb: Callback) {
    k < |ls| && k < |ss| && ls[k] == Subscribe(call, ch, cb) && call !in ss[k].pending && ch !in ss[k].subs
  }

  /** A waiting call is the one of some subscribe that found no entry, for the channel and callback named there. */
  lemma {:induction false} PendingOrigin(ss: seq<System>, ls: seq<Label>, j: nat, call: nat) returns (k: nat)
    requires Run(ss, ls) && j < |ss| && call in ss[j].pending
    ensures k < j && Awaits(ss, ls, k, call, ss[j].pending[call].ch, ss[j].pending[call].cb)
    decreases j
  {
    assert j > 0 && ss[j] == Step(ss[j - 1], ls[j - 1]);
    PendingBefore(ss[j - 1], ls[j - 1], call);
    if call in ss[j - 1].pending {
      hide Step;
      k := PendingOrigin(ss, ls, j - 1, call);
    } else {
      k := j - 1;
    }
  }

  lemma {:induction false} PendingBefore(s: System, l: Label, call: nat)
    requires call in Step(s, l).pending
    ensures var p := Step(s, l).pending[call];
            if call in s.pending then s.pending[call].ch == p.ch && s.pending[call].cb == p.cb
            else l == Subscribe(call, p.ch, p.cb) && p.ch !in s.subs
  {
    hide Begun, Resumed, Unsubscribed, Applied;
  }

  /** Step k registers the callback: a subscribe that finds the channel's entry, or the return of one that had to
      create it and still finds it. */
  predicate Joins(ss: seq<System>, ls: seq<Label>, k: nat, ch: Channel, cb: Callback) {
    k < |ls| && k < |ss| && ch in ss[k].subs &&
    match ls[k]
    case Subscribe(call, ch', cb') => call !in ss[k].pending && ch' == ch && cb' == cb
    case Resume(call) =>
      call in ss[k].pending && ss[k].pending[call].acked && ss[k].pending[call].ch == ch && ss[k].pending[call].cb == cb
    case _ => false
  }

  /** Some step registered the callback, and it has not been unsubscribed since. */
  ghost predicate Joined(ss: seq<System>, ls: seq<Label>, j: nat, ch: Channel, cb: Callback)
    requires j <= |ls|
  {
    exists k: nat :: k < j && Joins(ss, ls, k, ch, cb) && forall m: nat :: k < m < j ==> ls[m] != Unsubscribe(ch, cb)
  }

  predicate Registered(s: System, ch: Channel, cb: Callback) { ch in s.subs && cb in s.subs[ch] }

  lemma {:induction false} RegisteredStep(ss: seq<System>, ls: seq<Label>, j: nat, ch: Channel, cb: Callback)
    requires Run(ss, ls) && j < |ls|
    ensures Registered(ss[j + 1], ch, cb) <==>
              Joins(ss, ls, j, ch, cb) || (Registered(ss[j], ch, cb) && ls[j] != Unsubscribe(ch, cb))
  {
    assert ss[j + 1] == Step(ss[j], ls[j]);
    hide Applied;
  }

  lemma {:induction false} JoinedStep(ss: seq<System>, ls: seq<Label>, j: nat, ch: Channel, cb: Callback)
    requires j < |ls|
    ensures Joined(ss, ls, j + 1, ch, cb) <==>
              Joins(ss, ls, j, ch, cb) || (Joined(ss, ls, j, ch, cb) && ls[j] != Unsubscribe(ch, cb))
  {
    hide Joins;
    if Joined(ss, ls, j, ch, cb) && ls[j] != Unsubscribe(ch, cb) {
      var k: nat :| k < j && Joins(ss, ls, k, ch, cb) && forall m: nat :: k < m < j ==> ls[m] != Unsubscribe(ch, cb);
      assert forall m: nat :: k < m < j + 1 ==> ls[m] != Unsubscribe(ch, cb);
    }
  }

  /** In every run a callback is registered with a channel exactly when a subscribe has registered it, at once or
      on its return, and it has not been unsubscribed since. */
  lemma {:induction false} RegisteredExactly(ss: seq<System>, ls: seq<Label>, j: nat, ch: Channel, cb: Callback)
    requires Run(ss, ls) && j < |ss|
    ensures ch in ss[j].subs && cb in ss[j].subs[ch] <==> Joined(ss, ls, j, ch, cb)
    decreases j
  {
    hide Step;
    if j > 0 {
      hide Joined;
      RegisteredExactly(ss, ls, j - 1, ch, cb);
      RegisteredStep(ss, ls, j - 1, ch, cb);
      JoinedStep(ss, ls, j - 1, ch, cb);
    }
  }

  // ---- Which calls may return ----

  /** A waiting call goes on waiting until its answer has come and it returns, once. */
  lemma {:induction false} ReturnsOnce(s: System, l: Label, call: nat)
    requires call in s.pending
    ensures call !in Step(s, l).pending <==> l == Resume(call) && s.pending[call].acked
  {
    hide Begun, Resumed, Unsubscribed, Applied;
  }

  /** A call that the server has not answered has its command on the way. */
  ghost predicate Answering(s: System) {
    forall c :: c in s.pending && !s.pending[c].acked ==> Subscribing(s.pending[c].ch, c) in s.commands
  }

  lemma {:induction false} AnsweringStep(s: System, l: Label)
    requires Answering(s)
    ensures Answering(Step(s, l))
  {
    hide Begun, Resumed, Unsubscribed, Applied;
    if l.ServerStep? && s.commands != [] {
      assert s.commands == [s.commands[0]] + s.commands[1..];
    }
  }

  /** Once the server has run every command, each waiting call may return. */
  lemma {:induction false} AllAnswered(ss: seq<System>, ls: seq<Label>, j: nat)
    requires Run(ss, ls) && j < |ss|
    ensures Answering(ss[j])
    ensures ss[j].commands == [] ==> forall c :: c in ss[j].pending ==> ss[j].pending[c].acked
    decreases j
  {
    hide Step;
    if j > 0 {
      AllAnswered(ss, ls, j - 1);
      AnsweringStep(ss[j - 1], ls[j - 1]);
    }
  }

  // ---- A witness run ----

  lemma {:induction false} Extended(ss: seq<System>, ls: seq<Label>, l: Label, s: System)
    requires Run(ss, ls) && s == Step(ss[|ls|], l)
    ensures Run(ss + [s], ls + [l])
  {
    hide Step;
    forall i | 0 <= i < |ls| + 1 ensures (ss + [s])[i + 1] == Step((ss + [s])[i], (ls + [l])[i]) {
      if i < |ls| { assert ss[i + 1] == Step(ss[i], ls[i]); }
    }
  }

  /** A first subscriber unsubscribes before the server has answered ... */
  lemma SubscribedAndLeft() returns (ss: seq<System>, ls: seq<Label>)
    ensures Run(ss, ls) && ls == [Subscribe(0, 1, 2), Unsubscribe(1, 2)]
    ensures ss[2] == System(map[], [Subscribing(1, 0), Unsubscribing(1)], {}, map[0 := Pending(1, 2, false)], map[])
  {
    var s := System(map[], [], {}, map[], map[]);
    ss, ls := [s], [];
    s := System(map[1 := {}], [Subscribing(1, 0)], {}, map[0 := Pending(1, 2, false)], map[1 := 0]);
    Extended(ss, ls, Subscribe(0, 1, 2), s);
    ss, ls := ss + [s], ls + [Subscribe(0, 1, 2)];
    s := System(map[], [Subscribing(1, 0), Unsubscribing(1)], {}, map[0 := Pending(1, 2, false)], map[]);
    Extended(ss, ls, Unsubscribe(1, 2), s);
    ss, ls := ss + [s], ls + [Unsubscribe(1, 2)];
  }

  /** ... and when its subscribe resumes, the entry it created is gone. */
  lemma SubscribeMissesItsEntry() returns (ss: seq<System>, ls: seq<Label>)
    ensures Run(ss, ls) && ls == [Subscribe(0, 1, 2), Unsubscribe(1, 2), ServerStep, Resume(0)]
    ensures 0 in ss[3].pending && ss[3].pending[0].acked && 1 !in ss[3].subs && ss[4].subs == map[]
  {
    ss, ls := SubscribedAndLeft();
    var s := System(map[], [Unsubscribing(1)], {1}, map[0 := Pending(1, 2, true)], map[]);
    Extended(ss, ls, ServerStep, s);
    ss, ls := ss + [s], ls + [ServerStep];
    s := System(map[], [Unsubscribing(1)], {1}, map[], map[]);
    Extended(ss, ls, Resume(0), s);
    ss, ls := ss + [s], ls + [Resume(0)];
  }
}
