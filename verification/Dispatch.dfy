/** The dispatch loop (`handle_dispatchjobs`, `operator/runer/src/api/msg_handler.rs`) over the queue.

    Each connection spawns a detached loop, so several may run at once, and any of them may die at
    any point.  A run of actions is one interleaving of producers, loops, crashes and failed
    acknowledgements. */
module Dispatch {
  import opened RedisStream

  /** One dispatch loop: the message it holds and how far it has come with it. */
  datatype Worker =
    | Idle
    | Fetched(m: Entry)
    | Unparsable(m: Entry)
    | Running(m: Entry)
    | Returned(m: Entry)
    | Dead

  datatype Event = ParseFailed(id: nat) | JobStarted(id: nat) | JobReturned(id: nat)

  /** `accepted` and `deleted` record what the stream took and gave up; `log` what the loops did. */
  datatype State = State(
    stream: Stream,
    accepted: seq<Entry>,
    deleted: set<nat>,
    workers: seq<Worker>,
    log: seq<Event>)

  const INIT := State(EMPTY, [], {}, [], [])

  datatype Action =
    | Produce(message: Entry)
    | Spawn
    | Fetch(w: nat)
    | Parse(w: nat)
    | Return(w: nat)
    | Ack(w: nat)
    | AckRefused(w: nat)
    | AckReplyLost(w: nat)
    | Crash(w: nat)

  predicate HasWorker(s: State, w: nat, p: Worker -> bool) {
    w < |s.workers| && p(s.workers[w])
  }

  predicate MayAck(w: Worker) {
    w.Unparsable? || w.Returned?
  }

  predicate Enabled(s: State, a: Action) {
    match a
    case Produce(_) => true
    case Spawn => true
    case Fetch(w) => HasWorker(s, w, (x: Worker) => x.Idle?)
    case Parse(w) => HasWorker(s, w, (x: Worker) => x.Fetched?)
    case Return(w) => HasWorker(s, w, (x: Worker) => x.Running?)
    case Ack(w) => HasWorker(s, w, (x: Worker) => MayAck(x))
    case AckRefused(w) => HasWorker(s, w, (x: Worker) => MayAck(x))
    case AckReplyLost(w) => HasWorker(s, w, (x: Worker) => MayAck(x))
    case Crash(w) => HasWorker(s, w, (x: Worker) => !x.Dead?)
  }

  function Deleting(s: State, w: nat): State
    requires HasWorker(s, w, (x: Worker) => MayAck(x))
  {
    var id := s.workers[w].m.id;
    s.(stream := XDel(s.stream, id), deleted := s.deleted + {id}, workers := s.workers[w := Idle])
  }

  /** `parses` says which payloads deserialize to a job; it depends on the payload only.  A refused
      message changes nothing, and the producer's caller is not told. */
  function Apply(parses: string -> bool, s: State, a: Action): State
    requires Enabled(s, a)
  {
    match a
    case Produce(message) =>
      if Accepts(s.stream, message.id)
      then s.(stream := XAdd(s.stream, message), accepted := s.accepted + [message])
      else s
    case Spawn => s.(workers := s.workers + [Idle])
    case Fetch(w) =>
      var messages := XRead(s.stream);
      if messages == [] then s else s.(workers := s.workers[w := Fetched(messages[0])])
    case Parse(w) =>
      var m := s.workers[w].m;
      if parses(m.data)
      then s.(workers := s.workers[w := Running(m)], log := s.log + [JobStarted(m.id)])
      else s.(workers := s.workers[w := Unparsable(m)], log := s.log + [ParseFailed(m.id)])
    case Return(w) =>
      var m := s.workers[w].m;
      s.(workers := s.workers[w := Returned(m)], log := s.log + [JobReturned(m.id)])
    case Ack(w) => Deleting(s, w)
    case AckRefused(w) => s.(workers := s.workers[w := Idle])
    case AckReplyLost(w) => Deleting(s, w)
    case Crash(w) => s.(workers := s.workers[w := Dead])
  }

  ghost predicate IsStep(parses: string -> bool, s: State, a: Action, s': State) {
    Enabled(s, a) && s' == Apply(parses, s, a)
  }

  ghost predicate Continues(parses: string -> bool, s: State, states: seq<State>, actions: seq<Action>) {
    && |states| == |actions| + 1
    && states[0] == s
    && forall k :: 0 <= k < |actions| ==> IsStep(parses, states[k], actions[k], states[k + 1])
  }

  ghost predicate IsRun(parses: string -> bool, states: seq<State>, actions: seq<Action>) {
    Continues(parses, INIT, states, actions)
  }

  // ---------------------------------------------------------------- any number of workers

  function Remaining(accepted: seq<Entry>, deleted: set<nat>): seq<Entry> {
    if accepted == [] then []
    else
      var init, last := Remaining(accepted[..|accepted| - 1], deleted), accepted[|accepted| - 1];
      if last.id in deleted then init else init + [last]
  }

  /** Why a message may be gone: it failed to parse, or some `do_job` on it returned. */
  ghost predicate Handled(parses: string -> bool, log: seq<Event>, m: Entry) {
    if parses(m.data) then JobReturned(m.id) in log else ParseFailed(m.id) in log
  }

  ghost predicate WorkerOk(parses: string -> bool, s: State, x: Worker) {
    match x
    case Idle => true
    case Dead => true
    case Fetched(m) => m in s.accepted
    case Running(m) => m in s.accepted && parses(m.data)
    case Unparsable(m) => m in s.accepted && Handled(parses, s.log, m)
    case Returned(m) => m in s.accepted && Handled(parses, s.log, m)
  }

  function LastAccepted(accepted: seq<Entry>): nat {
    if accepted == [] then 0 else accepted[|accepted| - 1].id
  }

  ghost predicate Inv(parses: string -> bool, s: State) {
    && WellOrdered(s.stream)
    && Increasing(s.accepted)
    && (forall m :: m in s.accepted ==> 0 < m.id <= s.stream.lastId)
    && s.stream.lastId == LastAccepted(s.accepted)
    && s.stream.entries == Remaining(s.accepted, s.deleted)
    && (forall id :: id in s.deleted ==> exists m :: m in s.accepted && m.id == id)
    && (forall m :: m in s.accepted && m.id in s.deleted ==> Handled(parses, s.log, m))
    && (forall w :: 0 <= w < |s.workers| ==> WorkerOk(parses, s, s.workers[w]))
  }

  lemma {:induction false} RemainingMembers(accepted: seq<Entry>, deleted: set<nat>)
    ensures forall m :: m in Remaining(accepted, deleted) <==> m in accepted && m.id !in deleted
    decreases |accepted|
  {
    if accepted == [] {
    } else {
      var init := accepted[..|accepted| - 1];
      RemainingMembers(init, deleted);
      assert accepted == init + [accepted[|accepted| - 1]];
    }
  }

  lemma {:induction false} RemainingDelete(accepted: seq<Entry>, deleted: set<nat>, id: nat)
    ensures Remaining(accepted, deleted + {id}) == Without(Remaining(accepted, deleted), id)
    decreases |accepted|
  {
    if accepted == [] {
    } else {
      var init, last := accepted[..|accepted| - 1], accepted[|accepted| - 1];
      RemainingDelete(init, deleted, id);
      WithoutAppend(Remaining(init, deleted), [last], id);
      assert Without([last], id) == if last.id == id then [] else [last];
    }
  }

  lemma {:induction false} WithoutKeepsOrder(entries: seq<Entry>, id: nat)
    requires Increasing(entries)
    ensures Increasing(Without(entries, id))
    ensures forall e :: e in Without(entries, id) ==> e in entries
  {
    if entries == [] {
    } else {
      var tail := entries[1..];
      WithoutKeepsOrder(tail, id);
      var rest := Without(tail, id);
      forall j | 0 <= j < |rest| ensures entries[0].id < rest[j].id {
        assert rest[j] in tail;
      }
    }
  }

  lemma ProduceKeepsInv(parses: string -> bool, s: State, message: Entry)
    requires Inv(parses, s) && Accepts(s.stream, message.id)
    ensures Inv(parses, Apply(parses, s, Produce(message)))
  {
    var s' := Apply(parses, s, Produce(message));
    forall id | id in s.deleted ensures id <= s.stream.lastId && exists m :: m in s'.accepted && m.id == id {
      var m :| m in s.accepted && m.id == id;
      assert m in s'.accepted;
    }
    RemainingSnoc(s.accepted, message, s.deleted);
    forall u | 0 <= u < |s'.workers| ensures WorkerOk(parses, s', s'.workers[u]) {
      assert WorkerOk(parses, s, s.workers[u]);
    }
  }

  lemma RemainingSnoc(accepted: seq<Entry>, last: Entry, deleted: set<nat>)
    requires last.id !in deleted
    ensures Remaining(accepted + [last], deleted) == Remaining(accepted, deleted) + [last]
  {
    assert (accepted + [last])[..|accepted|] == accepted;
  }

  lemma DeletingKeepsInv(parses: string -> bool, s: State, w: nat)
    requires Inv(parses, s) && HasWorker(s, w, (x: Worker) => MayAck(x))
    ensures Inv(parses, Deleting(s, w))
  {
    var s', m := Deleting(s, w), s.workers[w].m;
    assert WorkerOk(parses, s, s.workers[w]);
    RemainingDelete(s.accepted, s.deleted, m.id);
    WithoutKeepsOrder(s.stream.entries, m.id);
    forall i | 0 <= i < |s'.stream.entries| ensures 0 < s'.stream.entries[i].id <= s'.stream.lastId {
      assert s'.stream.entries[i] in s.stream.entries;
    }
    forall x | x in s'.accepted && x.id in s'.deleted ensures Handled(parses, s'.log, x) {
      if x.id == m.id {
        SameIdSameEntry(s.accepted, x, m);
      }
    }
    forall u | 0 <= u < |s'.workers| ensures WorkerOk(parses, s', s'.workers[u]) {
      assert WorkerOk(parses, s, s.workers[u]);
    }
  }

  lemma SameIdSameEntry(entries: seq<Entry>, a: Entry, b: Entry)
    requires Increasing(entries) && a in entries && b in entries && a.id == b.id
    ensures a == b
  {
    var i :| 0 <= i < |entries| && entries[i] == a;
    var j :| 0 <= j < |entries| && entries[j] == b;
    assert !(i < j) && !(j < i);
  }

  lemma WorkerStepKeepsInv(parses: string -> bool, s: State, a: Action)
    requires Inv(parses, s) && Enabled(s, a) && !a.Produce? && !a.Ack? && !a.AckReplyLost?
    ensures Inv(parses, Apply(parses, s, a))
  {
    var s' := Apply(parses, s, a);
    assert s'.stream == s.stream && s'.accepted == s.accepted && s'.deleted == s.deleted;
    forall m | m in s'.accepted && m.id in s'.deleted ensures Handled(parses, s'.log, m) {
      assert Handled(parses, s.log, m);
    }
    forall u | 0 <= u < |s'.workers| ensures WorkerOk(parses, s', s'.workers[u]) {
      MovedWorkerOk(parses, s, a, u);
    }
  }

  lemma MovedWorkerOk(parses: string -> bool, s: State, a: Action, u: nat)
    requires Inv(parses, s) && Enabled(s, a) && !a.Produce? && !a.Ack? && !a.AckReplyLost?
    requires u < |Apply(parses, s, a).workers|
    ensures WorkerOk(parses, Apply(parses, s, a), Apply(parses, s, a).workers[u])
  {
    if u < |s.workers| {
      assert WorkerOk(parses, s, s.workers[u]);
    }
    if a.Fetch? && s.stream.entries != [] {
      RemainingMembers(s.accepted, s.deleted);
      assert s.stream.entries[0] in s.stream.entries;
    }
  }

  lemma StepKeepsInv(parses: string -> bool, s: State, a: Action)
    requires Inv(parses, s) && Enabled(s, a)
    ensures Inv(parses, Apply(parses, s, a))
  {
    match a
    case Produce(message) =>
      if Accepts(s.stream, message.id) {
        ProduceKeepsInv(parses, s, message);
      }
    case Ack(w) => DeletingKeepsInv(parses, s, w);
    case AckReplyLost(w) => DeletingKeepsInv(parses, s, w);
    case _ => WorkerStepKeepsInv(parses, s, a);
  }

  lemma {:induction false} InvAlways(parses: string -> bool, states: seq<State>, actions: seq<Action>, k: nat)
    requires IsRun(parses, states, actions) && k <= |actions|
    ensures Inv(parses, states[k])
    decreases k
  {
    if k == 0 {
    } else {
      InvAlways(parses, states, actions, k - 1);
      assert IsStep(parses, states[k - 1], actions[k - 1], states[k]);
      StepKeepsInv(parses, states[k - 1], actions[k - 1]);
    }
  }

  /** With any number of workers and crashes, the accepted messages are exactly those still in the
      stream plus those deleted, in strictly increasing id order; none is lost. */
  lemma AcceptedIsKeptOrDeleted(parses: string -> bool, states: seq<State>, actions: seq<Action>, k: nat)
    requires IsRun(parses, states, actions) && k <= |actions|
    ensures Increasing(states[k].accepted) && Increasing(states[k].stream.entries)
    ensures forall m :: m in states[k].accepted <==>
              m in states[k].stream.entries || (m in states[k].accepted && m.id in states[k].deleted)
    ensures forall m :: m in states[k].stream.entries ==> m.id !in states[k].deleted
    ensures forall id :: id in states[k].deleted ==> exists m :: m in states[k].accepted && m.id == id
  {
    InvAlways(parses, states, actions, k);
    RemainingMembers(states[k].accepted, states[k].deleted);
  }

  /** A message is accepted if and only if its id is above every id accepted so far: a second job of
      the same millisecond, or one after the clock stepped back, is refused and leaves no trace. */
  lemma AcceptedIffAboveAll(parses: string -> bool, states: seq<State>, actions: seq<Action>, k: nat, message: Entry)
    requires IsRun(parses, states, actions) && k < |actions| && actions[k] == Produce(message)
    ensures states[k + 1].accepted == states[k].accepted + [message]
            <==> message.id > 0 && forall m :: m in states[k].accepted ==> m.id < message.id
    ensures states[k + 1].accepted != states[k].accepted + [message] ==> states[k + 1] == states[k]
  {
    InvAlways(parses, states, actions, k);
    assert IsStep(parses, states[k], actions[k], states[k + 1]);
    var accepted := states[k].accepted;
    if accepted != [] {
      assert accepted[|accepted| - 1] in accepted;
    }
    assert |accepted + [message]| != |accepted|;
  }

  /** What may happen next: messages and loops come at any moment, every loop may die, and each
      acknowledgement may delete, be refused, or delete and lose its reply. */
  lemma AnythingMayHappen(s: State, message: Entry, w: nat)
    ensures Enabled(s, Produce(message)) && Enabled(s, Spawn)
    ensures w < |s.workers| ==>
              match s.workers[w]
              case Idle => Enabled(s, Fetch(w)) && Enabled(s, Crash(w))
              case Fetched(_) => Enabled(s, Parse(w)) && Enabled(s, Crash(w))
              case Running(_) => Enabled(s, Return(w)) && Enabled(s, Crash(w))
              case Unparsable(_) => Enabled(s, Ack(w)) && Enabled(s, AckRefused(w)) && Enabled(s, AckReplyLost(w))
                                    && Enabled(s, Crash(w))
              case Returned(_) => Enabled(s, Ack(w)) && Enabled(s, AckRefused(w)) && Enabled(s, AckReplyLost(w))
                                  && Enabled(s, Crash(w))
              case Dead => true
  {}

  /** What a step does to the stream: an acknowledgement takes out the message the worker holds, also when
      its reply is lost; a refused one, like a crash or any other step of a worker, leaves the stream as
      it is; only a message that is produced comes in. */
  lemma OnlyAcknowledgementsDelete(parses: string -> bool, states: seq<State>, actions: seq<Action>, k: nat)
    requires IsRun(parses, states, actions) && k < |actions|
    ensures var s, s', a := states[k], states[k + 1], actions[k];
      && (a.Ack? || a.AckReplyLost? ==>
            a.w < |s.workers| && (s.workers[a.w].Unparsable? || s.workers[a.w].Returned?)
            && (forall e :: e in s'.stream.entries <==> e in s.stream.entries && e.id != s.workers[a.w].m.id))
      && (a.AckRefused? || a.Ack? || a.AckReplyLost? ==> |s'.workers| == |s.workers| && s'.workers[a.w] == Idle)
      && (a.Produce? ==> s'.stream.entries == s.stream.entries || s'.stream.entries == s.stream.entries + [a.message])
      && (!a.Ack? && !a.AckReplyLost? && !a.Produce? ==> s'.stream == s.stream)
  {
    assert IsStep(parses, states[k], actions[k], states[k + 1]);
    if actions[k].Ack? || actions[k].AckReplyLost? {
      WithoutMembers(states[k].stream.entries, states[k].workers[actions[k].w].m.id);
    }
  }

  lemma {:induction false} WithoutMembers(entries: seq<Entry>, id: nat)
    ensures forall e :: e in Without(entries, id) <==> e in entries && e.id != id
  {
    if entries == [] {
    } else {
      WithoutMembers(entries[1..], id);
    }
  }

  /** No message is deleted before some worker found it unparsable or returned from its job. */
  lemma DeletedOnlyAfterHandling(parses: string -> bool, states: seq<State>, actions: seq<Action>, k: nat, m: Entry)
    returns (j: nat, w: nat)
    requires IsRun(parses, states, actions) && k <= |actions|
    requires m in states[k].accepted && m.id in states[k].deleted
    ensures j < k && w < |states[j].workers|
    ensures if parses(m.data) then actions[j] == Return(w) && states[j].workers[w] == Running(m)
            else actions[j] == Parse(w) && states[j].workers[w] == Fetched(m)
  {
    InvAlways(parses, states, actions, k);
    j, w := LogHasCause(parses, states, actions, k, if parses(m.data) then JobReturned(m.id) else ParseFailed(m.id));
    InvAlways(parses, states, actions, j);
    assert WorkerOk(parses, states[j], states[j].workers[w]);
    AcceptedGrows(parses, states, actions, j, k);
    SameIdSameEntry(states[k].accepted, states[j].workers[w].m, m);
  }

  lemma {:induction false} LogHasCause(parses: string -> bool, states: seq<State>, actions: seq<Action>,
                                             k: nat, e: Event)
    returns (j: nat, w: nat)
    requires IsRun(parses, states, actions) && k <= |actions| && e in states[k].log && !e.JobStarted?
    ensures j < k && w < |states[j].workers|
    ensures e.JobReturned? ==> actions[j] == Return(w) && states[j].workers[w].Running?
                                && states[j].workers[w].m.id == e.id
    ensures e.ParseFailed? ==> actions[j] == Parse(w) && states[j].workers[w].Fetched?
                               && states[j].workers[w].m.id == e.id
                               && !parses(states[j].workers[w].m.data)
    decreases k
  {
    assert IsStep(parses, states[k - 1], actions[k - 1], states[k]);
    if e in states[k - 1].log {
      j, w := LogHasCause(parses, states, actions, k - 1, e);
    } else {
      j, w := k - 1, actions[k - 1].w;
    }
  }

  lemma {:induction false} AcceptedGrows(parses: string -> bool, states: seq<State>, actions: seq<Action>,
                                               j: nat, k: nat)
    requires IsRun(parses, states, actions) && j <= k <= |actions|
    ensures forall m :: m in states[j].accepted ==> m in states[k].accepted
    decreases k
  {
    if j == k {
    } else {
      AcceptedGrows(parses, states, actions, j, k - 1);
      assert IsStep(parses, states[k - 1], actions[k - 1], states[k]);
    }
  }
}
