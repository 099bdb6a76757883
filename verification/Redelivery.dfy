/** When a queued job can be taken up, for the first time or again.

    A message stays in the stream until it is acknowledged, so another dispatch loop, or the same one
    after a failed acknowledgement, may fetch it while its job runs or after it has run. */
module Redelivery {
  import opened Dispatch
  import opened RedisStream

  /** What taking up a message logs. */
  function TakeUp(parses: string -> bool, m: Entry): Event {
    if parses(m.data) then JobStarted(m.id) else ParseFailed(m.id)
  }

  function TakeUps(parses: string -> bool, s: State, m: Entry): nat {
    multiset(s.log)[TakeUp(parses, m)]
  }

  ghost predicate Leads(parses: string -> bool, s: State, t: State) {
    exists states: seq<State>, actions: seq<Action> ::
      Continues(parses, s, states, actions) && states[|actions|] == t
  }

  /** In some continuation a loop takes the message up one more time. */
  ghost predicate CanBeTakenUp(parses: string -> bool, s: State, m: Entry) {
    exists t :: Leads(parses, s, t) && TakeUps(parses, t, m) > TakeUps(parses, s, m)
  }

  lemma LeadsToItself(parses: string -> bool, s: State)
    ensures Leads(parses, s, s)
  {
    assert Continues(parses, s, [s], []) && [s][0] == s;
  }

  lemma LeadsBy(parses: string -> bool, s: State, a: Action, t: State)
    requires Enabled(s, a) && Leads(parses, Apply(parses, s, a), t)
    ensures Leads(parses, s, t)
  {
    var states: seq<State>, actions: seq<Action> :|
      Continues(parses, Apply(parses, s, a), states, actions) && states[|actions|] == t;
    var longer, steps := [s] + states, [a] + actions;
    forall k | 0 <= k < |steps| ensures IsStep(parses, longer[k], steps[k], longer[k + 1]) {
      assert k > 0 ==> IsStep(parses, states[k - 1], actions[k - 1], states[k]);
    }
    assert Continues(parses, s, longer, steps) && longer[|steps|] == t;
  }

  lemma TakenUpBy(parses: string -> bool, s: State, a: Action, m: Entry)
    requires Enabled(s, a) && CanBeTakenUp(parses, Apply(parses, s, a), m)
    ensures CanBeTakenUp(parses, s, m)
  {
    var s' := Apply(parses, s, a);
    var t :| Leads(parses, s', t) && TakeUps(parses, t, m) > TakeUps(parses, s', m);
    LeadsBy(parses, s, a, t);
    assert s.log <= s'.log && s'.log == s.log + s'.log[|s.log|..];
  }

  lemma FetchedIsTakenUp(parses: string -> bool, s: State, w: nat, m: Entry)
    requires w < |s.workers| && s.workers[w] == Fetched(m)
    ensures CanBeTakenUp(parses, s, m)
  {
    var t := Apply(parses, s, Parse(w));
    LeadsToItself(parses, t);
    LeadsBy(parses, s, Parse(w), t);
  }

  /** What one loop logs about a message from fetching to acknowledging it. */
  function Handling(parses: string -> bool, m: Entry): seq<Event> {
    if parses(m.data) then [JobStarted(m.id), JobReturned(m.id)] else [ParseFailed(m.id)]
  }

  /** The state after an idle loop has dealt with the oldest message. */
  function HeadHandled(parses: string -> bool, s: State, w: nat): State
    requires s.stream.entries != [] && w < |s.workers| && s.workers[w].Idle?
  {
    var parsed := Apply(parses, Apply(parses, s, Fetch(w)), Parse(w));
    Deleting(if parsed.workers[w].Running? then Apply(parses, parsed, Return(w)) else parsed, w)
  }

  lemma HandlesHead(parses: string -> bool, s: State, w: nat, m: Entry)
    requires s.stream.entries != [] && w < |s.workers| && s.workers[w].Idle?
    requires CanBeTakenUp(parses, HeadHandled(parses, s, w), m)
    ensures CanBeTakenUp(parses, s, m)
  {
    var fetched := Apply(parses, s, Fetch(w));
    var parsed := Apply(parses, fetched, Parse(w));
    if parsed.workers[w].Running? {
      TakenUpBy(parses, Apply(parses, parsed, Return(w)), Ack(w), m);
      TakenUpBy(parses, parsed, Return(w), m);
    } else {
      TakenUpBy(parses, parsed, Ack(w), m);
    }
    TakenUpBy(parses, fetched, Parse(w), m);
    TakenUpBy(parses, s, Fetch(w), m);
  }

  lemma AfterHead(parses: string -> bool, s: State, w: nat)
    requires s.stream.entries != [] && w < |s.workers| && s.workers[w].Idle? && Increasing(s.stream.entries)
    ensures var s' := HeadHandled(parses, s, w);
      && s'.stream == s.stream.(entries := s.stream.entries[1..])
      && s'.workers == s.workers[w := Idle]
      && s'.log == s.log + Handling(parses, s.stream.entries[0])
  {
    WithoutAt(s.stream.entries, 0);
  }

  lemma HeadIsTakenUp(parses: string -> bool, s: State, w: nat)
    requires s.stream.entries != [] && w < |s.workers| && s.workers[w].Idle?
    ensures CanBeTakenUp(parses, s, s.stream.entries[0])
  {
    FetchedIsTakenUp(parses, Apply(parses, s, Fetch(w)), w, s.stream.entries[0]);
    TakenUpBy(parses, s, Fetch(w), s.stream.entries[0]);
  }

  /** An idle loop works its way through the stream to the message. */
  lemma {:induction false} QueuedIsTakenUp(parses: string -> bool, s: State, w: nat, m: Entry)
    requires Increasing(s.stream.entries) && m in s.stream.entries
    requires w < |s.workers| && s.workers[w].Idle?
    ensures CanBeTakenUp(parses, s, m)
    decreases |s.stream.entries|
  {
    if s.stream.entries[0] == m {
      HeadIsTakenUp(parses, s, w);
    } else {
      AfterHead(parses, s, w);
      QueuedIsTakenUp(parses, HeadHandled(parses, s, w), w, m);
      HandlesHead(parses, s, w, m);
    }
  }

  /** Deleted, and in no loop's hand to be parsed. */
  ghost predicate OutOfReach(s: State, m: Entry) {
    m in s.accepted && m.id in s.deleted && Fetched(m) !in s.workers
  }

  lemma StaysOutOfReach(parses: string -> bool, s: State, a: Action, m: Entry)
    requires Inv(parses, s) && Enabled(s, a) && OutOfReach(s, m)
    ensures OutOfReach(Apply(parses, s, a), m)
  {
    RemainingMembers(s.accepted, s.deleted);
    var s' := Apply(parses, s, a);
    forall w | 0 <= w < |s'.workers| ensures s'.workers[w] != Fetched(m) {
      if w < |s.workers| {
        assert s.workers[w] in s.workers;
      }
      if a.Fetch? && s.stream.entries != [] {
        assert s.stream.entries[0] in s.stream.entries;
      }
    }
  }

  lemma ParsesAnother(parses: string -> bool, s: State, w: nat, m: Entry)
    requires Inv(parses, s) && Enabled(s, Parse(w)) && OutOfReach(s, m)
    ensures s.workers[w].m.id != m.id
  {
    var x := s.workers[w];
    assert WorkerOk(parses, s, x) && x in s.workers;
    if x.m.id == m.id {
      SameIdSameEntry(s.accepted, x.m, m);
    }
  }

  lemma NotTakenUpBy(parses: string -> bool, s: State, a: Action, m: Entry)
    requires Inv(parses, s) && Enabled(s, a) && OutOfReach(s, m)
    ensures TakeUps(parses, Apply(parses, s, a), m) == TakeUps(parses, s, m)
  {
    if a.Parse? {
      ParsesAnother(parses, s, a.w, m);
    }
  }

  lemma {:induction false} NeverTakenUp(parses: string -> bool, s: State, states: seq<State>, actions: seq<Action>,
                                              k: nat, m: Entry)
    requires Continues(parses, s, states, actions) && k <= |actions|
    requires Inv(parses, s) && OutOfReach(s, m)
    ensures Inv(parses, states[k]) && OutOfReach(states[k], m)
    ensures TakeUps(parses, states[k], m) == TakeUps(parses, s, m)
    decreases k
  {
    if k == 0 {
    } else {
      NeverTakenUp(parses, s, states, actions, k - 1, m);
      assert IsStep(parses, states[k - 1], actions[k - 1], states[k]);
      StepKeepsInv(parses, states[k - 1], actions[k - 1]);
      StaysOutOfReach(parses, states[k - 1], actions[k - 1], m);
      NotTakenUpBy(parses, states[k - 1], actions[k - 1], m);
    }
  }

  /** In every reachable state an accepted message, taken up before or not, can be taken up (again) if
      and only if it is still in the stream or some loop has fetched it and not parsed it yet. */
  lemma TakenUpAgainIffNotOutOfReach(parses: string -> bool, states: seq<State>, actions: seq<Action>, k: nat, m: Entry)
    requires IsRun(parses, states, actions) && k <= |actions| && m in states[k].accepted
    ensures CanBeTakenUp(parses, states[k], m) <==> m in states[k].stream.entries || Fetched(m) in states[k].workers
  {
    InvAlways(parses, states, actions, k);
    var s := states[k];
    RemainingMembers(s.accepted, s.deleted);
    if Fetched(m) in s.workers {
      var w :| 0 <= w < |s.workers| && s.workers[w] == Fetched(m);
      FetchedIsTakenUp(parses, s, w, m);
    } else if m in s.stream.entries {
      QueuedIsTakenUp(parses, Apply(parses, s, Spawn), |s.workers|, m);
      TakenUpBy(parses, s, Spawn, m);
    } else {
      forall t | Leads(parses, s, t) ensures TakeUps(parses, t, m) == TakeUps(parses, s, m) {
        var more: seq<State>, steps: seq<Action> :| Continues(parses, s, more, steps) && more[|steps|] == t;
        NeverTakenUp(parses, s, more, steps, |steps|, m);
      }
    }
  }

  // ---------------------------------------------------------------- two loops and one message

  /** Two loops fetch and start the same message. */
  function OverlapAction(message: Entry, k: nat): Action {
    match k
    case 0 => Produce(message)
    case 1 => Spawn
    case 2 => Spawn
    case 3 => Fetch(0)
    case 4 => Fetch(1)
    case 5 => Parse(0)
    case _ => Parse(1)
  }

  function OverlapState(message: Entry, k: nat): State {
    var st := Stream([message], message.id);
    var busy, running, started := Fetched(message), Running(message), JobStarted(message.id);
    match k
    case 0 => INIT
    case 1 => State(st, [message], {}, [], [])
    case 2 => State(st, [message], {}, [Idle], [])
    case 3 => State(st, [message], {}, [Idle, Idle], [])
    case 4 => State(st, [message], {}, [busy, Idle], [])
    case 5 => State(st, [message], {}, [busy, busy], [])
    case 6 => State(st, [message], {}, [running, busy], [started])
    case _ => State(st, [message], {}, [running, running], [started, started])
  }

  lemma OverlapStep(parses: string -> bool, message: Entry, k: nat)
    requires parses(message.data) && message.id > 0 && k < 7
    ensures IsStep(parses, OverlapState(message, k), OverlapAction(message, k), OverlapState(message, k + 1))
  {}

  /** With two workers a job can run twice before it is acknowledged. */
  lemma TwoWorkersRunAJobTwice(parses: string -> bool, message: Entry)
    requires parses(message.data) && message.id > 0
    ensures exists states: seq<State>, actions: seq<Action> :: IsRun(parses, states, actions)
              && states[|actions|].log == [JobStarted(message.id), JobStarted(message.id)]
  {
    var states := seq(8, k requires 0 <= k => OverlapState(message, k));
    var actions := seq(7, k requires 0 <= k => OverlapAction(message, k));
    forall k | 0 <= k < 7 ensures IsStep(parses, states[k], actions[k], states[k + 1]) {
      OverlapStep(parses, message, k);
    }
    assert IsRun(parses, states, actions);
    assert states[|actions|] == OverlapState(message, 7);
  }
}
