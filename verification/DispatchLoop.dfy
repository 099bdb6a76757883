/** One dispatch loop on its own: exactly once and in order, and the loop itself over the queue object. */
module DispatchLoop {
  import opened Dispatch
  import opened Redelivery
  import opened RedisStream

  // ---------------------------------------------------------------- one worker, no crash, no refused ack

  /** At most one loop is ever started, whatever is queued before; it does not die, and every
      acknowledgement deletes, whether or not its reply comes back. */
  ghost predicate Undisturbed(actions: seq<Action>) {
    && (forall k :: 0 <= k < |actions| ==> !actions[k].Crash? && !actions[k].AckRefused?)
    && forall j, k :: 0 <= j < k < |actions| ==> !(actions[j].Spawn? && actions[k].Spawn?)
  }

  /** The messages a loop took up, each once, whether they parsed or not. */
  function TakenUp(log: seq<Event>): seq<nat> {
    if log == [] then []
    else
      var init, e := TakenUp(log[..|log| - 1]), log[|log| - 1];
      if e.JobReturned? then init else init + [e.id]
  }

  function Ids(entries: seq<Entry>): seq<nat> {
    seq(|entries|, i requires 0 <= i < |entries| => entries[i].id)
  }

  ghost predicate Holds(x: Worker, m: Entry) {
    x.Fetched? || x.Running? || x.Unparsable? || x.Returned? ==> x.m == m
  }

  /** The loop, which is as good as idle before it is started. */
  function Loop(s: State): Worker {
    if s.workers == [] then Idle else s.workers[0]
  }

  /** `done` messages are finished and gone; the loop is busy with the next one at most. */
  ghost predicate InOrder(s: State, done: nat) {
    && Increasing(s.accepted)
    && (forall m :: m in s.accepted ==> 0 < m.id <= s.stream.lastId)
    && done <= |s.accepted| && s.stream.entries == s.accepted[done..]
    && |s.workers| <= 1 && !Loop(s).Dead?
    && (!Loop(s).Idle? ==> done < |s.accepted| && Holds(Loop(s), s.accepted[done]))
    && TakenUp(s.log) == Ids(s.accepted[..Started(s, done)])
  }

  function Started(s: State, done: nat): nat {
    done + if NotTakenUp(Loop(s)) then 0 else 1
  }

  predicate NotTakenUp(x: Worker) {
    x.Idle? || x.Fetched?
  }

  lemma ProduceInOrder(parses: string -> bool, s: State, message: Entry, done: nat)
    requires InOrder(s, done) && Accepts(s.stream, message.id)
    ensures InOrder(Apply(parses, s, Produce(message)), done)
  {
    var s' := Apply(parses, s, Produce(message));
    var started := Started(s, done);
    assert s'.accepted[done..] == s.accepted[done..] + [message];
    assert s'.accepted[..started] == s.accepted[..started];
  }

  lemma FetchInOrder(parses: string -> bool, s: State, w: nat, done: nat)
    requires InOrder(s, done) && Enabled(s, Fetch(w))
    ensures InOrder(Apply(parses, s, Fetch(w)), done)
  {
    assert s.stream.entries != [] ==> s.stream.entries[0] == s.accepted[done];
  }

  lemma ParseInOrder(parses: string -> bool, s: State, w: nat, done: nat)
    requires InOrder(s, done) && Enabled(s, Parse(w))
    ensures InOrder(Apply(parses, s, Parse(w)), done)
  {
    var s' := Apply(parses, s, Parse(w));
    assert s'.log[..|s'.log| - 1] == s.log;
    assert Ids(s.accepted[..done + 1]) == Ids(s.accepted[..done]) + [s.accepted[done].id];
  }

  lemma ReturnInOrder(parses: string -> bool, s: State, w: nat, done: nat)
    requires InOrder(s, done) && Enabled(s, Return(w))
    ensures InOrder(Apply(parses, s, Return(w)), done)
  {
    var s' := Apply(parses, s, Return(w));
    assert s'.log[..|s'.log| - 1] == s.log;
  }

  lemma DeletingInOrder(s: State, w: nat, done: nat)
    requires InOrder(s, done) && HasWorker(s, w, (x: Worker) => MayAck(x))
    ensures InOrder(Deleting(s, w), done + 1)
  {
    var entries := s.stream.entries;
    assert entries[0] == s.accepted[done];
    forall e | e in entries[1..] ensures e.id != entries[0].id {
      var i :| done < i < |s.accepted| && s.accepted[i] == e;
    }
    WithoutFirst(entries);
    assert entries[1..] == s.accepted[done + 1..];
  }

  lemma InOrderStep(parses: string -> bool, s: State, a: Action, done: nat) returns (done': nat)
    requires InOrder(s, done) && Enabled(s, a)
    requires !a.Crash? && !a.AckRefused? && (a.Spawn? ==> s.workers == [])
    ensures InOrder(Apply(parses, s, a), done')
  {
    done' := done;
    match a
    case Produce(message) =>
      if Accepts(s.stream, message.id) {
        ProduceInOrder(parses, s, message, done);
      }
    case Spawn =>
    case Fetch(w) => FetchInOrder(parses, s, w, done);
    case Parse(w) => ParseInOrder(parses, s, w, done);
    case Return(w) => ReturnInOrder(parses, s, w, done);
    case Ack(w) =>
      DeletingInOrder(s, w, done);
      done' := done + 1;
    case AckReplyLost(w) =>
      DeletingInOrder(s, w, done);
      done' := done + 1;
  }

  lemma {:induction false} NoWorkerBeforeSpawn(parses: string -> bool, states: seq<State>, actions: seq<Action>, k: nat)
    requires IsRun(parses, states, actions) && k <= |actions|
    requires forall j :: 0 <= j < k ==> !actions[j].Spawn?
    ensures states[k].workers == []
    decreases k
  {
    if k == 0 {
    } else {
      NoWorkerBeforeSpawn(parses, states, actions, k - 1);
      assert IsStep(parses, states[k - 1], actions[k - 1], states[k]);
    }
  }

  lemma {:induction false} InOrderAlways(parses: string -> bool, states: seq<State>, actions: seq<Action>, k: nat)
    returns (done: nat)
    requires IsRun(parses, states, actions) && Undisturbed(actions) && k <= |actions|
    ensures InOrder(states[k], done)
    decreases k
  {
    if k == 0 {
      done := 0;
    } else {
      done := InOrderAlways(parses, states, actions, k - 1);
      assert IsStep(parses, states[k - 1], actions[k - 1], states[k]);
      if actions[k - 1].Spawn? {
        NoWorkerBeforeSpawn(parses, states, actions, k - 1);
      }
      done := InOrderStep(parses, states[k - 1], actions[k - 1], done);
    }
  }

  /** With one worker, started at any moment and never disturbed, the messages are taken up exactly
      once each and in id order: the sequence of ids is a prefix of the accepted ones, all of them once
      the stream is empty and the loop idle. */
  lemma SingleWorkerIsExactlyOnceInOrder(parses: string -> bool, states: seq<State>, actions: seq<Action>, k: nat)
    requires IsRun(parses, states, actions) && Undisturbed(actions) && k <= |actions|
    ensures TakenUp(states[k].log) <= Ids(states[k].accepted)
    ensures Increasing(states[k].accepted)
    ensures states[k].stream.entries == [] && Loop(states[k]).Idle? ==>
              TakenUp(states[k].log) == Ids(states[k].accepted)
  {
    var done := InOrderAlways(parses, states, actions, k);
    var s := states[k];
    var started := Started(s, done);
    assert Ids(s.accepted[..started]) == Ids(s.accepted)[..started];
    if s.stream.entries == [] {
      assert done == |s.accepted|;
    }
  }

  // ---------------------------------------------------------------- the loop over the queue object

  function Handlings(parses: string -> bool, entries: seq<Entry>): seq<Event> {
    if entries == [] then []
    else Handlings(parses, entries[..|entries| - 1]) + Handling(parses, entries[|entries| - 1])
  }

  lemma HeadOf(parses: string -> bool, entries: seq<Entry>, n: nat)
    requires n < |entries|
    ensures entries[n..][1..] == entries[n + 1..]
    ensures Handlings(parses, entries[..n + 1]) == Handlings(parses, entries[..n]) + Handling(parses, entries[n])
  {
    assert entries[..n + 1][..n] == entries[..n];
  }

  lemma LeadsThen(parses: string -> bool, s: State, t: State, a: Action)
    requires Leads(parses, s, t) && Enabled(t, a)
    ensures Leads(parses, s, Apply(parses, t, a))
  {
    var states: seq<State>, actions: seq<Action> :| Continues(parses, s, states, actions) && states[|actions|] == t;
    var longer, steps := states + [Apply(parses, t, a)], actions + [a];
    forall k | 0 <= k < |steps| ensures IsStep(parses, longer[k], steps[k], longer[k + 1]) {
      assert k < |actions| ==> IsStep(parses, states[k], actions[k], states[k + 1]);
    }
    assert Continues(parses, s, longer, steps) && longer[|steps|] == Apply(parses, t, a);
  }

  lemma LeadsPastHead(parses: string -> bool, s: State, t: State, w: nat)
    requires Leads(parses, s, t) && t.stream.entries != [] && w < |t.workers| && t.workers[w].Idle?
    ensures Leads(parses, s, HeadHandled(parses, t, w))
  {
    LeadsThen(parses, s, t, Fetch(w));
    var fetched := Apply(parses, t, Fetch(w));
    LeadsThen(parses, s, fetched, Parse(w));
    var parsed := Apply(parses, fetched, Parse(w));
    if parsed.workers[w].Running? {
      LeadsThen(parses, s, parsed, Return(w));
      LeadsThen(parses, s, Apply(parses, parsed, Return(w)), Ack(w));
    } else {
      LeadsThen(parses, s, parsed, Ack(w));
    }
  }

  /** The only worker of `before` has got to `after` by handling the first `n` of `entries`. */
  ghost predicate Worked(parses: string -> bool, before: State, after: State,
                         entries: seq<Entry>, n: nat, log: seq<Event>)
  {
    && n <= |entries| && Leads(parses, before, after)
    && after.stream == Stream(entries[n..], before.stream.lastId) && after.workers == [Idle]
    && after.log == before.log + log && log == Handlings(parses, entries[..n])
  }

  lemma WorksOn(parses: string -> bool, before: State, after: State, entries: seq<Entry>, n: nat, log: seq<Event>)
    requires Worked(parses, before, after, entries, n, log) && n < |entries| && Increasing(entries[n..])
    ensures Worked(parses, before, HeadHandled(parses, after, 0), entries, n + 1, log + Handling(parses, entries[n]))
  {
    HeadOf(parses, entries, n);
    AfterHead(parses, after, 0);
    LeadsPastHead(parses, before, after, 0);
  }

  /** One message: run its job if it parses, and acknowledge it either way. */
  method HandleMessage(queue: RedisQueue, parses: string -> bool, m: Entry) returns (log: seq<Event>)
    requires queue.Valid() && queue.entries != [] && m == queue.entries[0]
    modifies queue
    ensures queue.Valid() && queue.entries == old(queue.entries)[1..] && queue.lastId == old(queue.lastId)
    ensures log == Handling(parses, m)
  {
    if parses(m.data) {
      log := [JobStarted(m.id)];
      log := log + [JobReturned(m.id)];
    } else {
      log := [ParseFailed(m.id)];
    }
    WithoutAt(queue.entries, 0);
    queue.Acknowledge(m.id);
  }

  /** The loop of one undisturbed worker until the stream is empty; the loop of the source then goes
      on asking for more.  What it does are steps of the only worker of `before`. */
  method DrainQueue(queue: RedisQueue, parses: string -> bool, ghost before: State)
    returns (log: seq<Event>, ghost after: State)
    requires queue.Valid() && before.stream == queue.Contents() && before.workers == [Idle]
    modifies queue
    ensures queue.Valid() && queue.entries == [] && queue.lastId == old(queue.lastId)
    ensures log == Handlings(parses, old(queue.entries))
    ensures Leads(parses, before, after)
    ensures after.stream == queue.Contents() && after.workers == [Idle] && after.log == before.log + log
  {
    log, after := [], before;
    ghost var entries, n := queue.entries, 0;
    LeadsToItself(parses, before);
    while true
      invariant queue.Valid() && queue.lastId == before.stream.lastId
      invariant n <= |entries| && queue.entries == entries[n..]
      invariant Worked(parses, before, after, entries, n, log)
      decreases |queue.entries|
    {
      var messages := queue.Consume();
      if messages == [] {
        assert entries[..n] == entries;
        break;
      }
      WorksOn(parses, before, after, entries, n, log);
      var events := HandleMessage(queue, parses, messages[0]);
      log := log + events;
      after, n := HeadHandled(parses, after, 0), n + 1;
    }
  }
}
