/** What holds in every interleaving of the websocket protocol.

    The only hypothesis is that no two requests of the connection print the same id, which holds unless
    two of them lie a multiple of 2^64 allocations apart (`FreshUnlessWrapped`). */
module WsRuns {
  import opened MachineInts
  import opened Wrappers
  import opened WsProtocol

  ghost predicate FreshRun(states: seq<State>, actions: seq<Action>) {
    IsRun(states, actions) && DistinctIds(states[|actions|])
  }

  lemma {:induction false} NumberedAlways(states: seq<State>, actions: seq<Action>, k: nat)
    requires IsRun(states, actions) && k <= |actions|
    ensures Numbered(states[k])
    decreases k
  {
    if k == 0 {
    } else {
      NumberedAlways(states, actions, k - 1);
      assert IsStep(states[k - 1], actions[k - 1], states[k]);
      StepKeepsNumbers(states[k - 1], actions[k - 1]);
    }
  }

  lemma StepKeepsNumbers(s: State, a: Action)
    requires Numbered(s) && Enabled(s, a)
    ensures Numbered(Apply(s, a))
  {
    if a.Start? {
      StartKeepsIds(s);
    } else {
      NextIdWraps(s.issued);
      StepKeepsNames(s, a);
    }
  }

  lemma StepKeepsNames(s: State, a: Action)
    requires Enabled(s, a) && !a.Start?
    ensures var s' := Apply(s, a);
      && |s'.requests| == |s.requests|
      && (forall t :: 0 <= t < |s.requests| ==>
            s'.requests[t].num == s.requests[t].num && s'.requests[t].id == s.requests[t].id)
      && (!a.ForeignId? ==> s'.issued == s.issued && s'.nextId == s.nextId)
  {
    forall t | 0 <= t < |s.requests| ensures SameName(s, Apply(s, a), t) {
      StepKeepsName(s, a, t);
    }
  }

  predicate SameName(s: State, s': State, t: nat)
    requires t < |s.requests|
  {
    t < |s'.requests| && s'.requests[t].num == s.requests[t].num && s'.requests[t].id == s.requests[t].id
  }

  lemma StepKeepsName(s: State, a: Action, t: nat)
    requires Enabled(s, a) && t < |s.requests|
    ensures SameName(s, Apply(s, a), t)
  {}

  /** A run whose requests print distinct ids is what it takes: the printed ids repeat exactly when two
      requests of the connection lie a multiple of 2^64 allocations apart. */
  lemma FreshUnlessWrapped(states: seq<State>, actions: seq<Action>)
    requires IsRun(states, actions)
    ensures var last := states[|actions|];
      FreshRun(states, actions) <==>
        forall t, u :: 0 <= t < u < |last.requests| ==> (last.requests[t].num - last.requests[u].num) % U64_RANGE != 0
    ensures states[|actions|].issued <= U64_RANGE ==> FreshRun(states, actions)
  {
    NumberedAlways(states, actions, |actions|);
    DistinctUnlessWrapped(states[|actions|]);
  }

  lemma {:induction false} RunGrows(states: seq<State>, actions: seq<Action>, j: nat, k: nat)
    requires IsRun(states, actions) && j <= k <= |actions|
    ensures |states[j].requests| <= |states[k].requests|
    ensures |states[j].log| <= |states[k].log|
    decreases k
  {
    if j == k {
    } else {
      RunGrows(states, actions, j, k - 1);
      assert IsStep(states[k - 1], actions[k - 1], states[k]);
    }
  }

  lemma FreshBefore(states: seq<State>, actions: seq<Action>, k: nat)
    requires FreshRun(states, actions) && k <= |actions|
    ensures DistinctIds(states[k])
  {
    RunGrows(states, actions, k, |actions|);
    var s, last := states[k], states[|actions|];
    forall t, u | 0 <= t < u < |s.requests| ensures s.requests[t].id != s.requests[u].id {
      IdIsFixed(states, actions, t, k, |actions|);
      IdIsFixed(states, actions, u, k, |actions|);
      assert last.requests[t].id != last.requests[u].id;
    }
  }

  /** Every reachable state satisfies the invariant, however the tasks interleave. */
  lemma {:induction false} InvAlways(states: seq<State>, actions: seq<Action>, k: nat)
    requires FreshRun(states, actions) && k <= |actions|
    ensures Inv(states[k])
    decreases k
  {
    if k == 0 {
    } else {
      InvAlways(states, actions, k - 1);
      FreshBefore(states, actions, k);
      assert IsStep(states[k - 1], actions[k - 1], states[k]);
      StepKeepsInv(states[k - 1], actions[k - 1]);
    }
  }

  /** `insert` never overwrites a live entry. */
  lemma InsertNeverOverwrites(states: seq<State>, actions: seq<Action>, k: nat, t: nat)
    requires FreshRun(states, actions) && k < |actions| && actions[k] == Insert(t)
    ensures t < |states[k].requests| && states[k].requests[t].id !in states[k].callbacks
  {
    InvAlways(states, actions, k);
    RunGrows(states, actions, k, |actions|);
    assert IsStep(states[k], actions[k], states[k + 1]);
    InsertFindsNoEntry(states[k], t);
  }

  /** Every key in the callback map belongs to a request that still holds its drop guard, so the map
      is empty once no request is in flight. */
  lemma CallbacksBelongToGuardHolders(states: seq<State>, actions: seq<Action>, k: nat)
    requires FreshRun(states, actions) && k <= |actions|
    ensures forall id :: id in states[k].callbacks ==>
              var t := states[k].callbacks[id];
              t < |states[k].requests| && states[k].requests[t].id == id
              && HoldsGuard(states[k].requests[t].phase)
    ensures (forall r :: r in states[k].requests ==> !HoldsGuard(r.phase)) ==> states[k].callbacks == map[]
  {
    InvAlways(states, actions, k);
    forall id | id in states[k].callbacks
      ensures var t := states[k].callbacks[id];
              t < |states[k].requests| && states[k].requests[t].id == id
              && HoldsGuard(states[k].requests[t].phase)
    {
      assert EntryOk(states[k], id);
    }
    if states[k].callbacks != map[] {
      var id :| id in states[k].callbacks;
      assert states[k].requests[states[k].callbacks[id]] in states[k].requests;
    }
  }

  /** The step sends through, or drops, the sender of request `t`: a response is delivered, a close
      drains the map, the core is gone, or an entry leaves the map unused. */
  predicate UsesSender(s: State, a: Action, t: nat) {
    match a
    case Deliver => InHand(s, t)
    case CloseDrain => t in s.callbacks.Values
    case CloneCore(u) => u == t && !s.core.Open?
    case Insert(u) => TakesEntry(s, u, t)
    case DropGuard(u) => TakesEntry(s, u, t)
    case _ => false
  }

  predicate TakesEntry(s: State, u: nat, t: nat) {
    u < |s.requests| && s.requests[u].id in s.callbacks && s.callbacks[s.requests[u].id] == t
  }

  lemma StepUsesPending(s: State, a: Action, t: nat)
    requires Inv(s) && Enabled(s, a) && t < |s.requests|
    ensures |s.requests| <= |Apply(s, a).requests|
    ensures UsesSender(s, a, t) ==> s.requests[t].channel.Pending? && !Apply(s, a).requests[t].channel.Pending?
    ensures !UsesSender(s, a, t) ==> Apply(s, a).requests[t].channel == s.requests[t].channel
  {
    assert SenderOk(s, t);
    match a {
      case CloseDrain => FiledTickets(s, t);
      case Insert(u) => InsertFindsNoEntry(s, u);
      case DropGuard(u) => OwnEntryOnly(s, u);
      case _ =>
    }
  }

  lemma RunStep(states: seq<State>, actions: seq<Action>, k: nat)
    requires FreshRun(states, actions) && k < |actions|
    ensures Inv(states[k])
    ensures Enabled(states[k], actions[k]) && states[k + 1] == Apply(states[k], actions[k])
  {
    InvAlways(states, actions, k);
    RunGrows(states, actions, k, |actions|);
    assert IsStep(states[k], actions[k], states[k + 1]);
  }

  lemma StepKeepsSettled(states: seq<State>, actions: seq<Action>, t: nat, k: nat)
    requires FreshRun(states, actions) && k < |actions|
    requires t < |states[k].requests| && !states[k].requests[t].channel.Pending?
    ensures t < |states[k + 1].requests| && states[k + 1].requests[t].channel == states[k].requests[t].channel
  {
    RunStep(states, actions, k);
    StepUsesPending(states[k], actions[k], t);
  }

  /** A channel that was sent to, or lost its sender, never changes again. */
  lemma {:induction false} SettledStays(states: seq<State>, actions: seq<Action>, t: nat, j: nat, k: nat)
    requires FreshRun(states, actions) && j <= k <= |actions|
    requires t < |states[j].requests| && !states[j].requests[t].channel.Pending?
    ensures t < |states[k].requests| && states[k].requests[t].channel == states[j].requests[t].channel
    decreases k
  {
    if j == k {
    } else {
      SettledStays(states, actions, t, j, k - 1);
      StepKeepsSettled(states, actions, t, k - 1);
    }
  }

  /** A step that uses a sender finds its channel pending, so it is the only one that ever does; a
      step that does not use it leaves the channel alone. */
  lemma SenderFiresAtMostOnce(states: seq<State>, actions: seq<Action>, t: nat, j: nat, k: nat)
    requires FreshRun(states, actions) && j <= k < |actions| && t < |states[j].requests|
    ensures t < |states[k].requests| && t < |states[k + 1].requests|
    ensures UsesSender(states[k], actions[k], t) ==>
              states[k].requests[t].channel.Pending? && !states[k + 1].requests[t].channel.Pending?
    ensures !UsesSender(states[k], actions[k], t) ==>
              states[k + 1].requests[t].channel == states[k].requests[t].channel
    ensures UsesSender(states[j], actions[j], t) && UsesSender(states[k], actions[k], t) ==> j == k
  {
    RunGrows(states, actions, j, k);
    RunStep(states, actions, j);
    RunStep(states, actions, k);
    StepUsesPending(states[j], actions[j], t);
    StepUsesPending(states[k], actions[k], t);
    if UsesSender(states[j], actions[j], t) && j < k {
      SettledStays(states, actions, t, j + 1, k);
    }
  }

  /** A request's id never changes. */
  lemma {:induction false} IdIsFixed(states: seq<State>, actions: seq<Action>, t: nat, j: nat, k: nat)
    requires IsRun(states, actions) && j <= k <= |actions| && t < |states[j].requests|
    ensures t < |states[k].requests| && states[k].requests[t].id == states[j].requests[t].id
    decreases k
  {
    if j == k {
    } else {
      IdIsFixed(states, actions, t, j, k - 1);
      assert IsStep(states[k - 1], actions[k - 1], states[k]);
    }
  }

  /** Once the core is taken the connection never opens again. */
  lemma {:induction false} ClosedIsPermanent(states: seq<State>, actions: seq<Action>, j: nat, k: nat)
    requires IsRun(states, actions) && j <= k <= |actions|
    ensures !states[j].core.Open? ==> !states[k].core.Open?
    ensures states[j].core.Closed? ==> states[k].core.Closed?
    decreases k
  {
    if j == k {
    } else {
      ClosedIsPermanent(states, actions, j, k - 1);
      assert IsStep(states[k - 1], actions[k - 1], states[k]);
    }
  }

  lemma DrainFiresTheRegistered(s: State, t: nat)
    requires Inv(s) && Enabled(s, CloseDrain) && t < |s.requests|
    ensures var s' := Apply(s, CloseDrain);
      && s'.core == Closed && s'.callbacks == map[] && |s'.requests| == |s.requests|
      && (if InMap(s, t)
          then s.requests[t].channel.Pending? && s'.requests[t].channel == Sent(Err(ConnectionClosed))
          else s'.requests[t].channel == s.requests[t].channel)
      && (!InMap(s, t) && s.core != Taken(ByRequest(t)) ==> s'.requests[t] == s.requests[t])
  {
    assert SenderOk(s, t);
    FiledTickets(s, t);
  }

  /** `close` completes with ConnectionClosed every sender it finds registered, for good, and fires
      no other one. */
  lemma CloseCompletesEveryRegistered(states: seq<State>, actions: seq<Action>, k: nat, t: nat)
    requires FreshRun(states, actions) && k < |actions| && actions[k] == CloseDrain
    requires t < |states[k].requests|
    ensures states[k + 1].callbacks == map[] && states[|actions|].core.Closed?
    ensures |states[k].requests| <= |states[k + 1].requests| <= |states[|actions|].requests|
    ensures InMap(states[k], t) ==>
              states[k].requests[t].channel.Pending?
              && states[|actions|].requests[t].channel == Sent(Err(ConnectionClosed))
    ensures !InMap(states[k], t) ==> states[k + 1].requests[t].channel == states[k].requests[t].channel
    ensures !InMap(states[k], t) && states[k].core != Taken(ByRequest(t)) ==>
              states[k + 1].requests[t] == states[k].requests[t]
  {
    InvAlways(states, actions, k);
    assert IsStep(states[k], actions[k], states[k + 1]);
    DrainFiresTheRegistered(states[k], t);
    ClosedIsPermanent(states, actions, k + 1, |actions|);
    RunGrows(states, actions, k + 1, |actions|);
    if InMap(states[k], t) {
      SettledStays(states, actions, t, k + 1, |actions|);
    }
  }

  // ---------------------------------------------------------------- where an answer comes from

  predicate PastInsert(p: Phase) {
    Registered(p) || p.Closing? || (p.Done? && p.outcome != Returned(Err(WebsocketClosed)))
  }

  lemma {:induction false} WasInserted(states: seq<State>, actions: seq<Action>, k: nat, t: nat) returns (ins: nat)
    requires IsRun(states, actions) && k <= |actions|
    requires t < |states[k].requests| && PastInsert(states[k].requests[t].phase)
    ensures ins < k && actions[ins] == Insert(t)
    ensures states[k].requests[t].since == |states[ins].log|
    decreases k
  {
    assert IsStep(states[k - 1], actions[k - 1], states[k]);
    if actions[k - 1] == Insert(t) {
      ins := k - 1;
      InsertRecordsLog(states[ins], t);
    } else {
      StepKeepsSince(states[k - 1], actions[k - 1], t);
      ins := WasInserted(states, actions, k - 1, t);
    }
  }

  lemma InsertRecordsLog(s: State, t: nat)
    requires Enabled(s, Insert(t))
    ensures t < |Apply(s, Insert(t)).requests| && Apply(s, Insert(t)).requests[t].since == |s.log|
  {}

  lemma StepKeepsSince(s: State, a: Action, t: nat)
    requires Enabled(s, a) && a != Insert(t)
    requires t < |Apply(s, a).requests| && PastInsert(Apply(s, a).requests[t].phase)
    ensures t < |s.requests| && PastInsert(s.requests[t].phase)
    ensures Apply(s, a).requests[t].since == s.requests[t].since
  {}

  lemma {:induction false} WasReceived(states: seq<State>, actions: seq<Action>, k: nat, j: nat) returns (rcv: nat)
    requires IsRun(states, actions) && k <= |actions| && j < |states[k].log|
    ensures rcv < k && actions[rcv] == RecvResponse(states[k].log[j]) && |states[rcv].log| == j
    decreases k
  {
    assert IsStep(states[k - 1], actions[k - 1], states[k]);
    if j < |states[k - 1].log| {
      rcv := WasReceived(states, actions, k - 1, j);
    } else {
      rcv := k - 1;
    }
  }

  /** Between two states the log grows by exactly the received responses. */
  lemma {:induction false} LogGrows(states: seq<State>, actions: seq<Action>, m: nat, k: nat)
    requires IsRun(states, actions) && m < k <= |actions| && actions[m].RecvResponse?
    ensures |states[m].log| < |states[k].log|
    ensures states[k].log[|states[m].log|] == actions[m].response
    decreases k
  {
    assert IsStep(states[k - 1], actions[k - 1], states[k]);
    if m == k - 1 {
    } else {
      LogGrows(states, actions, m, k - 1);
    }
  }

  /** The result that settled a request came with the first response carrying the id it registered
      under, received after it registered. */
  lemma AnsweredByFirst(states: seq<State>, actions: seq<Action>, k: nat, t: nat, result: Option<Value>)
    returns (ins: nat, rcv: nat)
    requires FreshRun(states, actions) && k <= |actions| && t < |states[k].requests|
    requires PastInsert(states[k].requests[t].phase) && Answered(states[k].log, states[k].requests[t], result)
    ensures ins < rcv < k && actions[ins] == Insert(t)
    ensures t < |states[ins].requests| && states[ins].requests[t].id == states[k].requests[t].id
    ensures actions[rcv] == RecvResponse(Response(states[k].requests[t].id, result))
    ensures forall m :: ins <= m < rcv && actions[m].RecvResponse? ==>
              actions[m].response.id != states[k].requests[t].id
  {
    var r, log := states[k].requests[t], states[k].log;
    var j: nat :| FirstMatch(log, r, j) && log[j].result == result;
    ins := WasInserted(states, actions, k, t);
    RunStep(states, actions, ins);
    IdIsFixed(states, actions, t, ins, k);
    rcv := WasReceived(states, actions, k, j);
    if rcv < ins {
      LogGrows(states, actions, rcv, ins);
    }
    forall m | ins <= m < rcv && actions[m].RecvResponse? ensures actions[m].response.id != r.id {
      LogGrows(states, actions, m, k);
      LogGrows(states, actions, m, rcv);
      RunGrows(states, actions, ins, m);
      assert log[|states[m].log|].id != r.id;
    }
  }

  /** A request that returns `Ok(v)` was answered by the first response with the id it registered that
      arrived after the registration, and that response carried `v`. */
  lemma OkAnswersOwnRequest(states: seq<State>, actions: seq<Action>, k: nat, t: nat, v: Value)
    returns (ins: nat, rcv: nat)
    requires FreshRun(states, actions) && k <= |actions| && t < |states[k].requests|
    requires states[k].requests[t].phase == Done(Returned(Ok(v)))
    ensures ins < rcv < k && actions[ins] == Insert(t)
    ensures t < |states[ins].requests| && states[ins].requests[t].id == states[k].requests[t].id
    ensures actions[rcv] == RecvResponse(Response(states[k].requests[t].id, Some(v)))
    ensures forall m :: ins <= m < rcv && actions[m].RecvResponse? ==>
              actions[m].response.id != states[k].requests[t].id
  {
    InvAlways(states, actions, k);
    assert ReplyOk(states[k], t);
    ins, rcv := AnsweredByFirst(states, actions, k, t, Some(v));
  }

  lemma {:induction false} WasFiredByClose(states: seq<State>, actions: seq<Action>, k: nat, t: nat) returns (d: nat)
    requires FreshRun(states, actions) && k <= |actions| && t < |states[k].requests|
    requires states[k].requests[t].channel == Sent(Err(ConnectionClosed))
    ensures d < k && actions[d] == CloseDrain && t < |states[d].requests| && InMap(states[d], t)
    decreases k
  {
    d := k - 1;
    RunStep(states, actions, d);
    assert t < |states[d].requests|;
    FiledTickets(states[d], t);
    StepUsesPending(states[d], actions[d], t);
    if !UsesSender(states[d], actions[d], t) {
      d := WasFiredByClose(states, actions, d, t);
    }
  }

  /** A request reports ConnectionClosed only if some close found it registered, and ChannelError only
      if the first response with its id after its registration carried no result. */
  lemma ErrorsAreReported(states: seq<State>, actions: seq<Action>, k: nat, t: nat, error: WsError)
    returns (d: nat)
    requires FreshRun(states, actions) && k <= |actions| && t < |states[k].requests|
    requires states[k].requests[t].phase == Done(Returned(Err(error)))
    requires error.ConnectionClosed? || error.ChannelError?
    ensures d < k
    ensures error.ConnectionClosed? ==> actions[d] == CloseDrain && t < |states[d].requests| && InMap(states[d], t)
    ensures error.ChannelError? ==> actions[d] == RecvResponse(Response(states[k].requests[t].id, None))
  {
    InvAlways(states, actions, k);
    assert ReplyOk(states[k], t);
    if error.ConnectionClosed? {
      d := WasFiredByClose(states, actions, k, t);
    } else {
      var ins, rcv := AnsweredByFirst(states, actions, k, t, None);
      d := rcv;
    }
  }

  // ---------------------------------------------------------------- a response is delivered

  predicate SettledBy(s: State, t: nat, response: Response) {
    t < |s.requests|
    && (s.receiver == Delivering(t, response)
        || s.requests[t].channel
           == match response.result case Some(v) => Sent(Ok(v)) case None => SenderDropped)
  }

  lemma ResponseIsTaken(states: seq<State>, actions: seq<Action>, j: nat, t: nat)
    requires FreshRun(states, actions) && j < |actions| && actions[j].RecvResponse?
    requires t < |states[j].requests| && InMap(states[j], t) && actions[j].response.id == states[j].requests[t].id
    ensures SettledBy(states[j + 1], t, actions[j].response)
  {
    RunStep(states, actions, j);
  }

  lemma StepDelivers(s: State, a: Action, t: nat, response: Response)
    requires Inv(s) && Enabled(s, a) && SettledBy(s, t, response)
    ensures SettledBy(Apply(s, a), t, response)
  {
    if s.receiver != Delivering(t, response) {
      StepUsesPending(s, a, t);
    }
  }

  lemma StepDelivered(states: seq<State>, actions: seq<Action>, k: nat, t: nat, response: Response)
    requires FreshRun(states, actions) && k < |actions| && SettledBy(states[k], t, response)
    ensures SettledBy(states[k + 1], t, response)
  {
    RunStep(states, actions, k);
    StepDelivers(states[k], actions[k], t, response);
  }

  /** A response that finds its request registered is delivered: from then on the receive loop has the
      sender in hand, or the channel carries the response's result (or lost its sender, if the
      response has none). */
  lemma {:induction false} ResponsesAreDelivered(states: seq<State>, actions: seq<Action>, j: nat, k: nat, t: nat)
    requires FreshRun(states, actions) && j < k <= |actions| && actions[j].RecvResponse?
    requires t < |states[j].requests| && InMap(states[j], t) && actions[j].response.id == states[j].requests[t].id
    ensures SettledBy(states[k], t, actions[j].response)
    decreases k
  {
    if j == k - 1 {
      ResponseIsTaken(states, actions, j, t);
    } else {
      ResponsesAreDelivered(states, actions, j, k - 1, t);
      StepDelivered(states, actions, k - 1, t, actions[j].response);
    }
  }

  // ---------------------------------------------------------------- registering after a close

  /** Once the core is gone and the receive loop does not hold a clone of it, no response comes in. */
  predicate Deaf(s: State) {
    !s.core.Open? && !s.receiver.Holding?
  }

  lemma StepStaysDeaf(s: State, a: Action)
    requires Enabled(s, a) && !s.core.Open?
    ensures Deaf(s) ==> Deaf(Apply(s, a)) && !a.RecvResponse?
    ensures a.RecvResponse? ==> Deaf(Apply(s, a))
  {}

  lemma {:induction false} StaysDeaf(states: seq<State>, actions: seq<Action>, j: nat, k: nat)
    requires IsRun(states, actions) && j <= k <= |actions| && Deaf(states[j])
    ensures Deaf(states[k])
    decreases k
  {
    if j == k {
    } else {
      StaysDeaf(states, actions, j, k - 1);
      assert IsStep(states[k - 1], actions[k - 1], states[k]);
      StepStaysDeaf(states[k - 1], actions[k - 1]);
    }
  }

  /** After the core has been taken at most one more response is ever received. */
  lemma OneResponseAfterClose(states: seq<State>, actions: seq<Action>, j: nat, a: nat, b: nat)
    requires IsRun(states, actions) && j <= a < |actions| && j <= b < |actions|
    requires !states[j].core.Open? && actions[a].RecvResponse? && actions[b].RecvResponse?
    ensures a == b
  {
    if a != b {
      var first, second := if a < b then a else b, if a < b then b else a;
      ClosedIsPermanent(states, actions, j, first);
      ClosedIsPermanent(states, actions, j, second);
      assert IsStep(states[first], actions[first], states[first + 1]);
      assert IsStep(states[second], actions[second], states[second + 1]);
      StepStaysDeaf(states[first], actions[first]);
      StaysDeaf(states, actions, first + 1, second);
      StepStaysDeaf(states[second], actions[second]);
      assert false;
    }
  }

  /** Of the requests that cloned the core before a close and register after it was taken, at most one
      is ever answered, by the response the receive loop was already waiting for. */
  lemma OneLateRequestIsAnswered(states: seq<State>, actions: seq<Action>, j: nat, k: nat,
                                 t: nat, insT: nat, v: Value, u: nat, insU: nat, w: Value)
    requires FreshRun(states, actions) && j <= k <= |actions| && !states[j].core.Open?
    requires t < |states[k].requests| && states[k].requests[t].phase == Done(Returned(Ok(v)))
    requires u < |states[k].requests| && states[k].requests[u].phase == Done(Returned(Ok(w)))
    requires j <= insT < |actions| && actions[insT] == Insert(t)
    requires j <= insU < |actions| && actions[insU] == Insert(u)
    ensures t == u
  {
    var regT, rcvT := OkAnswersOwnRequest(states, actions, k, t, v);
    var regU, rcvU := OkAnswersOwnRequest(states, actions, k, u, w);
    InsertedOnce(states, actions, regT, insT, t);
    InsertedOnce(states, actions, regU, insU, u);
    OneResponseAfterClose(states, actions, j, rcvT, rcvU);
    FreshBefore(states, actions, k);
    IdsDistinct(states[k], t, u);
  }

  lemma StepStaysInserted(s: State, a: Action, t: nat)
    requires Enabled(s, a) && t < |s.requests|
    ensures t < |Apply(s, a).requests|
    ensures !TaskHoldsSender(s.requests[t].phase) || a == Insert(t) ==> !TaskHoldsSender(Apply(s, a).requests[t].phase)
    ensures a == Insert(t) ==> TaskHoldsSender(s.requests[t].phase)
  {}

  lemma {:induction false} StaysInserted(states: seq<State>, actions: seq<Action>, j: nat, k: nat, t: nat)
    requires IsRun(states, actions) && j < k <= |actions| && actions[j] == Insert(t)
    ensures t < |states[k].requests| && !TaskHoldsSender(states[k].requests[t].phase)
    decreases k
  {
    assert IsStep(states[k - 1], actions[k - 1], states[k]);
    if j < k - 1 {
      StaysInserted(states, actions, j, k - 1, t);
    }
    StepStaysInserted(states[k - 1], actions[k - 1], t);
  }

  /** A request registers once. */
  lemma InsertedOnce(states: seq<State>, actions: seq<Action>, j: nat, k: nat, t: nat)
    requires IsRun(states, actions) && j < |actions| && k < |actions|
    requires actions[j] == Insert(t) && actions[k] == Insert(t)
    ensures j == k
  {
    if j != k {
      var first, second := if j < k then j else k, if j < k then k else j;
      StaysInserted(states, actions, first, second, t);
      assert IsStep(states[second], actions[second], states[second + 1]);
      StepStaysInserted(states[second], actions[second], t);
    }
  }

  // ---------------------------------------------------------------- what a request returns

  predicate Decided(p: Phase, outcome: Outcome) {
    (p.Leaving? || p.Closing? || p.Done?) && p.outcome == outcome
  }

  lemma StepStaysDecided(s: State, a: Action, t: nat, outcome: Outcome)
    requires Enabled(s, a) && t < |s.requests| && Decided(s.requests[t].phase, outcome)
    ensures t < |Apply(s, a).requests| && Decided(Apply(s, a).requests[t].phase, outcome)
  {}

  lemma {:induction false} StaysDecided(states: seq<State>, actions: seq<Action>, j: nat, k: nat,
                                        t: nat, outcome: Outcome)
    requires IsRun(states, actions) && j <= k <= |actions|
    requires t < |states[j].requests| && Decided(states[j].requests[t].phase, outcome)
    ensures t < |states[k].requests| && Decided(states[k].requests[t].phase, outcome)
    decreases k
  {
    if j == k {
    } else {
      StaysDecided(states, actions, j, k - 1, t, outcome);
      assert IsStep(states[k - 1], actions[k - 1], states[k]);
      StepStaysDecided(states[k - 1], actions[k - 1], t, outcome);
    }
  }

  /** The step decides what request `t` returns, and how. */
  ghost predicate Decides(s: State, a: Action, t: nat, outcome: Outcome) {
    match a
    case Wake(u) =>
      u == t && t < |s.requests|
      && (match s.requests[t].channel
          case Sent(reply) => outcome == Returned(reply)
          case SenderDropped => outcome == Returned(Err(ChannelError))
          case Pending => false)
    case Timeout(u) => u == t && outcome == Returned(Err(ElapsedError))
    case SendFail(u, error) => u == t && outcome == Returned(Err(error))
    case Abandon(u) => u == t && outcome == Abandoned
    case CloneCore(u) => u == t && s.core == Closed && outcome == Returned(Err(WebsocketClosed))
    case _ => false
  }

  lemma StepDecides(s: State, a: Action, t: nat, outcome: Outcome)
    requires Enabled(s, a)
    ensures Decides(s, a, t, outcome) ==>
              t < |Apply(s, a).requests| && Decided(Apply(s, a).requests[t].phase, outcome)
    ensures t < |Apply(s, a).requests| && Decided(Apply(s, a).requests[t].phase, outcome)
            && !(t < |s.requests| && Decided(s.requests[t].phase, outcome)) ==>
              Decides(s, a, t, outcome)
  {}

  lemma {:induction false} WasDecided(states: seq<State>, actions: seq<Action>, k: nat, t: nat, outcome: Outcome)
    returns (j: nat)
    requires IsRun(states, actions) && k <= |actions|
    requires t < |states[k].requests| && Decided(states[k].requests[t].phase, outcome)
    ensures j < k && Decides(states[j], actions[j], t, outcome)
    decreases k
  {
    j := k - 1;
    assert IsStep(states[j], actions[j], states[k]);
    StepDecides(states[j], actions[j], t, outcome);
    if t < |states[j].requests| && Decided(states[j].requests[t].phase, outcome) {
      j := WasDecided(states, actions, j, t, outcome);
    }
  }

  /** What a request returns is what the step that ended its wait says: the reply that was sent,
      ChannelError for a dropped sender, ElapsedError for a timeout, the send's own error, or
      WebsocketClosed for a connection without a core; every request that has returned has one. */
  lemma ReturnsWhatWasDecided(states: seq<State>, actions: seq<Action>, k: nat, t: nat)
    requires IsRun(states, actions) && k <= |actions|
    requires t < |states[k].requests| && states[k].requests[t].phase.Done?
    ensures exists j :: 0 <= j < k && Decides(states[j], actions[j], t, states[k].requests[t].phase.outcome)
    ensures forall j, outcome :: 0 <= j < k && Decides(states[j], actions[j], t, outcome) ==>
              states[k].requests[t].phase == Done(outcome)
  {
    var j := WasDecided(states, actions, k, t, states[k].requests[t].phase.outcome);
    forall i, outcome | 0 <= i < k && Decides(states[i], actions[i], t, outcome)
      ensures states[k].requests[t].phase == Done(outcome)
    {
      assert IsStep(states[i], actions[i], states[i + 1]);
      StepDecides(states[i], actions[i], t, outcome);
      StaysDecided(states, actions, i + 1, k, t, outcome);
    }
  }

  /** So a waiting request that a close finds registered, and that then wakes, returns
      ConnectionClosed. */
  lemma CloseIsReported(states: seq<State>, actions: seq<Action>, d: nat, j: nat, k: nat, t: nat)
    requires FreshRun(states, actions) && d < j < k <= |actions|
    requires actions[d] == CloseDrain && t < |states[d].requests| && InMap(states[d], t)
    requires actions[j] == Wake(t) && t < |states[k].requests| && states[k].requests[t].phase.Done?
    ensures states[k].requests[t].phase == Done(Returned(Err(ConnectionClosed)))
  {
    InvAlways(states, actions, d);
    assert IsStep(states[d], actions[d], states[d + 1]);
    DrainFiresTheRegistered(states[d], t);
    SettledStays(states, actions, t, d + 1, j);
    assert Decides(states[j], actions[j], t, Returned(Err(ConnectionClosed)));
    ReturnsWhatWasDecided(states, actions, k, t);
  }

  // ---------------------------------------------------------------- failures close

  predicate MustClose(p: Phase) {
    (p.Leaving? && p.closes) || p.Closing?
  }

  /** The request still has to close, or it has returned from a close. */
  predicate ClosesOrClosed(s: State, t: nat) {
    t < |s.requests| && (MustClose(s.requests[t].phase) || (s.requests[t].phase.Done? && s.core.Closed?))
  }

  lemma StepStillCloses(s: State, a: Action, t: nat)
    requires Enabled(s, a) && ClosesOrClosed(s, t)
    ensures ClosesOrClosed(Apply(s, a), t)
  {}

  /** A request whose send failed or timed out closes the connection before it returns: it takes and
      drains the core itself, or finds that another close has done so. */
  lemma {:induction false} SendFailureCloses(states: seq<State>, actions: seq<Action>, j: nat, k: nat, t: nat)
    requires IsRun(states, actions) && j < k <= |actions| && actions[j].SendFail? && actions[j].t == t
    ensures ClosesOrClosed(states[k], t)
    decreases k
  {
    assert IsStep(states[k - 1], actions[k - 1], states[k]);
    if j == k - 1 {
    } else {
      SendFailureCloses(states, actions, j, k - 1, t);
      StepStillCloses(states[k - 1], actions[k - 1], t);
    }
  }

  lemma StepStillFailed(s: State, a: Action)
    requires Enabled(s, a) && (s.receiver.Failed? || s.core.Closed?)
    ensures Apply(s, a).receiver.Failed? || Apply(s, a).core.Closed?
  {}

  /** A receive loop that failed does nothing more until the connection is closed: it closes it itself
      or finds it closed. */
  lemma {:induction false} ReceiveFailureCloses(states: seq<State>, actions: seq<Action>, j: nat, k: nat)
    requires IsRun(states, actions) && j < k <= |actions| && actions[j] == RecvError
    ensures states[k].receiver.Failed? || states[k].core.Closed?
    decreases k
  {
    assert IsStep(states[k - 1], actions[k - 1], states[k]);
    if j == k - 1 {
    } else {
      ReceiveFailureCloses(states, actions, j, k - 1);
      StepStillFailed(states[k - 1], actions[k - 1]);
    }
  }

  // ---------------------------------------------------------------- nothing is scheduled away

  /** What may happen next in a state: other connections take ids and requests begin at any moment, a
      request with its guard may fail to send, run out of time or be dropped, anybody may close an open
      connection, and a receive loop that waits for a message may get anything or fail. */
  lemma AnythingMayHappen(s: State, t: nat, response: Response)
    ensures Enabled(s, ForeignId) && Enabled(s, Start)
    ensures s.core.Open? ==> Enabled(s, Close(Caller)) && (s.receiver.Listening? ==> Enabled(s, RecvClone))
    ensures s.core.Taken? ==> Enabled(s, CloseDrain)
    ensures s.receiver.Holding? ==>
              Enabled(s, RecvResponse(response)) && Enabled(s, RecvOther) && Enabled(s, RecvError)
    ensures s.receiver.Failed? && !s.core.Taken? ==> Enabled(s, Close(ByReceiver))
    ensures s.receiver.Delivering? && s.receiver.ticket < |s.requests| ==> Enabled(s, Deliver)
    ensures t < |s.requests| ==>
              match s.requests[t].phase
              case Named => !s.core.Taken? ==> Enabled(s, CloneCore(t))
              case Cloned => Enabled(s, MakeGuard(t))
              case Guarded => Enabled(s, Insert(t))
              case Sending => Enabled(s, SendOk(t)) && Enabled(s, SendFail(t, ElapsedError))
                              && Enabled(s, SendFail(t, TungsteniteError)) && Enabled(s, Abandon(t))
              case Awaiting => Enabled(s, Timeout(t)) && Enabled(s, Abandon(t))
                               && (!s.requests[t].channel.Pending? ==> Enabled(s, Wake(t)))
              case Leaving(_, _) => Enabled(s, DropGuard(t))
              case Closing(_) => !s.core.Taken? ==> Enabled(s, Close(ByRequest(t)))
              case Done(_) => true
  {}
}
