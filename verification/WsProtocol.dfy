/** Request/response correlation over one websocket connection (`crates/websocket/src/lib.rs`).

    The state is what the tasks share: the optional core, the callback map, the global id counter
    and one oneshot channel per request.  Every action is one atomic step, so a run of actions is
    one interleaving of requests, the receive loop, timeouts, cancellations and `close`. */
module WsProtocol {
  import opened MachineInts
  import opened Wrappers
  import opened Decimal

  // A serialized JSON value.
  type Value = string

  datatype WsError =
    | WebsocketClosed
    | ConnectionClosed
    | ElapsedError
    | TungsteniteError
    | ChannelError

  type Reply = Result<Value, WsError>

  /** A oneshot channel seen from its receiver: the sender still exists, was used, or was dropped. */
  datatype Channel = Pending | Sent(reply: Reply) | SenderDropped

  datatype Outcome = Returned(reply: Reply) | Abandoned

  /** How far a call of `request_timeout` has come.  From `Guarded` to `Leaving` it holds the drop
      guard `D`; in `Leaving` the outcome is fixed and only the guard's drop is still to run. */
  datatype Phase =
    | Named
    | Cloned
    | Guarded
    | Sending
    | Awaiting
    | Leaving(outcome: Outcome, closes: bool)
    | Closing(outcome: Outcome)
    | Done(outcome: Outcome)

  /** `num` counts id allocations; `since` is the length of the response log at registration. */
  datatype Request = Request(num: nat, id: string, phase: Phase, channel: Channel, since: nat)

  /** Who runs `close`: a caller of it, a request whose send failed, or the failed receive loop. */
  datatype Closer = Caller | ByRequest(ticket: nat) | ByReceiver

  /** `Taken`: a `close` has taken the core and still holds its lock, the callbacks not yet drained. */
  datatype Core = Open | Taken(closer: Closer) | Closed

  datatype Response = Response(id: string, result: Option<Value>)

  /** The single receive loop; `Delivering` has removed a sender from the map and not used it yet. */
  datatype Receiver =
    | Listening
    | Holding
    | Delivering(ticket: nat, response: Response)
    | Failed

  datatype State = State(
    core: Core,
    nextId: nat,
    issued: nat,
    requests: seq<Request>,
    callbacks: map<string, nat>,
    receiver: Receiver,
    log: seq<Response>)

  datatype Action =
    | ForeignId
    | Start
    | CloneCore(t: nat)
    | MakeGuard(t: nat)
    | Insert(t: nat)
    | SendOk(t: nat)
    | SendFail(t: nat, error: WsError)
    | Wake(t: nat)
    | Timeout(t: nat)
    | Abandon(t: nat)
    | DropGuard(t: nat)
    | Close(closer: Closer)
    | CloseDrain
    | RecvClone
    | RecvResponse(response: Response)
    | Deliver
    | RecvOther
    | RecvError

  const INIT := State(Open, 1, 0, [], map[], Listening, [])

  /** `id.to_string()` for the value returned by allocation number `num`; the u64 counter starts
      at one and wraps. */
  function WireId(num: nat): string {
    ToString((1 + num) % U64_RANGE)
  }

  function SetPhase(requests: seq<Request>, t: nat, phase: Phase): seq<Request>
    requires t < |requests|
  {
    requests[t := requests[t].(phase := phase)]
  }

  /** Dropping the sender filed under `id`, if there is one. */
  function Unfile(requests: seq<Request>, callbacks: map<string, nat>, id: string): seq<Request> {
    if id in callbacks && callbacks[id] < |requests|
    then var t := callbacks[id]; requests[t := requests[t].(channel := SenderDropped)]
    else requests
  }

  /** `CallbackMap::close`: every filed sender fires `ConnectionClosed`. */
  function Drained(requests: seq<Request>, callbacks: map<string, nat>): seq<Request> {
    seq(|requests|, t requires 0 <= t < |requests| =>
      if t in callbacks.Values
      then requests[t].(channel := Sent(Err(ConnectionClosed)))
      else requests[t])
  }

  predicate InPhase(s: State, t: nat, p: Phase -> bool) {
    t < |s.requests| && p(s.requests[t].phase)
  }

  /** What `close` returns to. */
  function Finish(s: State, who: Closer): State {
    match who
    case Caller => s
    case ByRequest(t) =>
      if InPhase(s, t, (p: Phase) => p.Closing?)
      then s.(requests := SetPhase(s.requests, t, Done(s.requests[t].phase.outcome)))
      else s
    case ByReceiver => if s.receiver.Failed? then s.(receiver := Listening) else s
  }

  predicate MayClose(s: State, who: Closer) {
    match who
    case Caller => true
    case ByRequest(t) => InPhase(s, t, (p: Phase) => p.Closing?)
    case ByReceiver => s.receiver.Failed?
  }

  /** `Start` is allowed on a closed connection too: `close` may come between the request's first look
      at the core and its allocation. */
  predicate Enabled(s: State, a: Action) {
    match a
    case ForeignId => true
    case Start => true
    case CloneCore(t) => InPhase(s, t, (p: Phase) => p.Named?) && !s.core.Taken?
    case MakeGuard(t) => InPhase(s, t, (p: Phase) => p.Cloned?)
    case Insert(t) => InPhase(s, t, (p: Phase) => p.Guarded?)
    case SendOk(t) => InPhase(s, t, (p: Phase) => p.Sending?)
    case SendFail(t, error) =>
      InPhase(s, t, (p: Phase) => p.Sending?) && (error.ElapsedError? || error.TungsteniteError?)
    case Wake(t) => InPhase(s, t, (p: Phase) => p.Awaiting?) && !s.requests[t].channel.Pending?
    case Timeout(t) => InPhase(s, t, (p: Phase) => p.Awaiting?)
    case Abandon(t) => InPhase(s, t, (p: Phase) => p.Sending? || p.Awaiting?)
    case DropGuard(t) => InPhase(s, t, (p: Phase) => p.Leaving?)
    case Close(who) => MayClose(s, who) && !s.core.Taken?
    case CloseDrain => s.core.Taken?
    case RecvClone => s.receiver.Listening? && s.core.Open?
    case RecvResponse(_) => s.receiver.Holding?
    case Deliver => s.receiver.Delivering? && s.receiver.ticket < |s.requests|
    case RecvOther => s.receiver.Holding?
    case RecvError => s.receiver.Holding?
  }

  /** What a response does to the sender it finds: a result is sent, without one the sender is lost. */
  function Delivery(response: Response): Channel {
    if response.result.Some? then Sent(Ok(response.result.value)) else SenderDropped
  }

  function WakeReply(c: Channel): Reply
    requires !c.Pending?
  {
    if c.Sent? then c.reply else Err(ChannelError)
  }

  function Apply(s: State, a: Action): State
    requires Enabled(s, a)
  {
    match a
    case ForeignId =>
      s.(nextId := (s.nextId + 1) % U64_RANGE, issued := s.issued + 1)
    case Start =>
      s.(nextId := (s.nextId + 1) % U64_RANGE, issued := s.issued + 1,
         requests := s.requests + [Request(s.issued, ToString(s.nextId), Named, Pending, 0)])
    case CloneCore(t) =>
      if s.core.Open? then s.(requests := SetPhase(s.requests, t, Cloned))
      else s.(requests := s.requests[t := s.requests[t].(
                phase := Done(Returned(Err(WebsocketClosed))),
                channel := SenderDropped)])
    case MakeGuard(t) => s.(requests := SetPhase(s.requests, t, Guarded))
    case Insert(t) =>
      var unfiled := Unfile(s.requests, s.callbacks, s.requests[t].id);
      s.(requests := unfiled[t := unfiled[t].(phase := Sending, since := |s.log|)],
         callbacks := s.callbacks[s.requests[t].id := t])
    case SendOk(t) => s.(requests := SetPhase(s.requests, t, Awaiting))
    case SendFail(t, error) =>
      s.(requests := SetPhase(s.requests, t, Leaving(Returned(Err(error)), true)))
    case Wake(t) =>
      s.(requests := SetPhase(s.requests, t,
                              Leaving(Returned(WakeReply(s.requests[t].channel)), false)))
    case Timeout(t) =>
      s.(requests := SetPhase(s.requests, t, Leaving(Returned(Err(ElapsedError)), false)))
    case Abandon(t) => s.(requests := SetPhase(s.requests, t, Leaving(Abandoned, false)))
    case DropGuard(t) =>
      var unfiled := Unfile(s.requests, s.callbacks, s.requests[t].id);
      var Leaving(outcome, closes) := s.requests[t].phase;
      s.(requests := SetPhase(unfiled, t, if closes then Closing(outcome) else Done(outcome)),
         callbacks := s.callbacks - {s.requests[t].id})
    case Close(who) => if s.core.Open? then s.(core := Taken(who)) else Finish(s, who)
    case CloseDrain =>
      Finish(s.(core := Closed, requests := Drained(s.requests, s.callbacks), callbacks := map[]), s.core.closer)
    case RecvClone => s.(receiver := Holding)
    case RecvResponse(response) =>
      s.(log := s.log + [response],
         callbacks := s.callbacks - {response.id},
         receiver := if response.id in s.callbacks
                     then Delivering(s.callbacks[response.id], response) else Listening)
    case Deliver =>
      var Delivering(t, response) := s.receiver;
      s.(receiver := Listening,
         requests := s.requests[t := s.requests[t].(channel := Delivery(response))])
    case RecvOther => s.(receiver := Listening)
    case RecvError => s.(receiver := Failed)
  }

  /** One interleaving: `states[k + 1]` follows `states[k]` by `actions[k]`. */
  ghost predicate IsRun(states: seq<State>, actions: seq<Action>) {
    && |states| == |actions| + 1
    && states[0] == INIT
    && forall k :: 0 <= k < |actions| ==> IsStep(states[k], actions[k], states[k + 1])
  }

  ghost predicate IsStep(s: State, a: Action, s': State) {
    Enabled(s, a) && s' == Apply(s, a)
  }

  // ---------------------------------------------------------------- the invariant

  predicate TaskHoldsSender(p: Phase) {
    p.Named? || p.Cloned? || p.Guarded?
  }

  predicate Registered(p: Phase) {
    p.Sending? || p.Awaiting? || p.Leaving?
  }

  /** The request still owns its drop guard. */
  predicate HoldsGuard(p: Phase) {
    p.Guarded? || Registered(p)
  }

  predicate InMap(s: State, t: nat)
    requires t < |s.requests|
  {
    s.requests[t].id in s.callbacks && s.callbacks[s.requests[t].id] == t
  }

  predicate InHand(s: State, t: nat) {
    s.receiver.Delivering? && s.receiver.ticket == t
  }

  predicate NoMatch(log: seq<Response>, id: string, from: nat, to: nat)
    requires to <= |log|
  {
    forall k :: from <= k < to ==> log[k].id != id
  }

  /** Entry `k` is the first response with the request's id since the request registered. */
  predicate FirstMatch(log: seq<Response>, r: Request, k: nat) {
    r.since <= k < |log| && log[k].id == r.id && NoMatch(log, r.id, r.since, k)
  }

  ghost predicate Answered(log: seq<Response>, r: Request, result: Option<Value>) {
    exists k: nat :: FirstMatch(log, r, k) && log[k].result == result
  }

  predicate HasReply(p: Phase) {
    (p.Leaving? || p.Closing? || p.Done?) && p.outcome.Returned?
  }

  ghost predicate Numbered(s: State) {
    && s.nextId == (1 + s.issued) % U64_RANGE
    && (forall t :: 0 <= t < |s.requests| ==>
          s.requests[t].num < s.issued && s.requests[t].id == WireId(s.requests[t].num))
    && (forall t, u :: 0 <= t < u < |s.requests| ==> s.requests[t].num < s.requests[u].num)
  }

  /** No two requests of this connection print the same id. */
  ghost predicate DistinctIds(s: State) {
    forall t, u :: 0 <= t < u < |s.requests| ==> s.requests[t].id != s.requests[u].id
  }

  ghost predicate IdsOk(s: State) {
    Numbered(s) && DistinctIds(s)
  }

  ghost predicate MapOk(s: State) {
    forall id <- s.callbacks.Keys :: EntryOk(s, id)
  }

  ghost predicate EntryOk(s: State, id: string)
    requires id in s.callbacks
  {
    var t := s.callbacks[id];
    t < |s.requests| && s.requests[t].id == id && Registered(s.requests[t].phase)
  }

  /** A sender that has not fired is in exactly one place: the task, the map or the receive loop. */
  ghost predicate SenderOk(s: State, t: nat)
    requires t < |s.requests|
  {
    var r := s.requests[t];
    && (r.channel.Pending? <==> TaskHoldsSender(r.phase) || InMap(s, t) || InHand(s, t))
    && (InHand(s, t) ==> !TaskHoldsSender(r.phase) && !InMap(s, t))
  }

  ghost predicate ReplyOk(s: State, t: nat)
    requires t < |s.requests|
  {
    var r := s.requests[t];
    && r.since <= |s.log|
    && (InMap(s, t) ==> NoMatch(s.log, r.id, r.since, |s.log|))
    && (InHand(s, t) ==> s.receiver.response.id == r.id && Answered(s.log, r, s.receiver.response.result))
    && (r.channel.Sent? && r.channel.reply.Ok? ==> Answered(s.log, r, Some(r.channel.reply.value)))
    && (r.channel.Sent? && r.channel.reply.Err? ==> r.channel.reply.error.ConnectionClosed? && s.core.Closed?)
    && ((r.phase.Sending? || r.phase.Awaiting?) && r.channel.SenderDropped? ==> Answered(s.log, r, None))
    && (HasReply(r.phase) ==> OutcomeOk(s, r))
  }

  ghost predicate OutcomeOk(s: State, r: Request)
    requires HasReply(r.phase)
  {
    match r.phase.outcome.reply
    case Ok(v) => r.channel == Sent(Ok(v))
    case Err(ConnectionClosed) => r.channel == Sent(Err(ConnectionClosed))
    case Err(ChannelError) => r.channel.SenderDropped? && Answered(s.log, r, None)
    case Err(WebsocketClosed) => s.core.Closed?
    case Err(_) => true
  }

  ghost predicate Inv(s: State) {
    && IdsOk(s)
    && MapOk(s)
    && (s.core.Taken? ==> MayClose(s, s.core.closer))
    && (s.receiver.Delivering? ==> s.receiver.ticket < |s.requests|)
    && (forall t :: 0 <= t < |s.requests| ==> SenderOk(s, t))
    && (forall t :: 0 <= t < |s.requests| ==> ReplyOk(s, t))
  }

  /** Printed ids repeat only after the u64 counter has gone all the way round. */
  lemma WireIdsCollide(m: nat, n: nat)
    ensures WireId(m) == WireId(n) <==> (m - n) % U64_RANGE == 0
  {
    ToStringInjective((1 + m) % U64_RANGE, (1 + n) % U64_RANGE);
    SameResidue(1 + m, 1 + n);
  }

  /** The id is a decimal number, counted from one in u64 arithmetic. */
  lemma WireIdCounts(num: nat)
    ensures AllDigits(WireId(num)) && ValueOf(WireId(num)) == (1 + num) % 0x1_0000_0000_0000_0000
  {
    ValueOfToString((1 + num) % U64_RANGE);
  }

  lemma SameResidue(a: int, b: int)
    ensures a % U64_RANGE == b % U64_RANGE <==> (a - b) % U64_RANGE == 0
  {
    var x, y := a / U64_RANGE - b / U64_RANGE, (a - b) / U64_RANGE;
    assert a - b == U64_RANGE * x + (a % U64_RANGE - b % U64_RANGE);
    assert a - b == U64_RANGE * y + (a - b) % U64_RANGE;
  }

  lemma IdsDistinct(s: State, t: nat, u: nat)
    requires DistinctIds(s)
    requires t < |s.requests| && u < |s.requests| && s.requests[t].id == s.requests[u].id
    ensures t == u
  {
    assert !(t < u) && !(u < t);
  }

  /** Ids are distinct if and only if no two requests of the connection lie a multiple of 2^64
      allocations apart; 2^64 allocations in all are few enough. */
  lemma DistinctUnlessWrapped(s: State)
    requires Numbered(s)
    ensures DistinctIds(s) <==>
              forall t, u :: 0 <= t < u < |s.requests| ==> (s.requests[t].num - s.requests[u].num) % U64_RANGE != 0
    ensures s.issued <= U64_RANGE ==> DistinctIds(s)
  {
    forall t, u | 0 <= t < u < |s.requests|
      ensures s.requests[t].id == s.requests[u].id <==> (s.requests[t].num - s.requests[u].num) % U64_RANGE == 0
      ensures s.issued <= U64_RANGE ==> s.requests[t].id != s.requests[u].id
    {
      IdsCollide(s.requests[t].num, s.requests[u].num, s.issued);
    }
  }

  lemma IdsCollide(m: nat, n: nat, issued: nat)
    requires m < n < issued
    ensures WireId(m) == WireId(n) <==> (m - n) % U64_RANGE == 0
    ensures issued <= U64_RANGE ==> WireId(m) != WireId(n)
  {
    WireIdsCollide(m, n);
  }

  // ---------------------------------------------------------------- preservation

  lemma AnsweredGrows(log: seq<Response>, extra: seq<Response>, r: Request, result: Option<Value>)
    requires Answered(log, r, result)
    ensures Answered(log + extra, r, result)
  {
    var k: nat :| FirstMatch(log, r, k) && log[k].result == result;
    assert forall i :: 0 <= i < |log| ==> (log + extra)[i] == log[i];
    assert FirstMatch(log + extra, r, k);
  }

  lemma IdsKept(s: State, s': State)
    requires IdsOk(s) && s'.nextId == s.nextId && s'.issued == s.issued && |s'.requests| == |s.requests|
    requires forall t :: 0 <= t < |s.requests| ==>
               s'.requests[t].num == s.requests[t].num && s'.requests[t].id == s.requests[t].id
    ensures IdsOk(s')
  {}

  lemma ForeignIdKeepsInv(s: State)
    requires Inv(s)
    ensures Inv(Apply(s, ForeignId))
  {
    var s' := Apply(s, ForeignId);
    NextIdWraps(s.issued);
    forall id | id in s'.callbacks ensures EntryOk(s', id) {
      assert EntryOk(s, id);
    }
    forall t | 0 <= t < |s'.requests| ensures SenderOk(s', t) && ReplyOk(s', t) {
      assert SenderOk(s, t) && ReplyOk(s, t);
    }
  }

  lemma NextIdWraps(n: nat)
    ensures ((1 + n) % U64_RANGE + 1) % U64_RANGE == (1 + (n + 1)) % U64_RANGE
  {}

  lemma StartKeepsIds(s: State)
    requires Numbered(s)
    ensures Numbered(Apply(s, Start))
  {
    NextIdWraps(s.issued);
    var s', n := Apply(s, Start), |s.requests|;
    forall t | 0 <= t < |s'.requests|
      ensures s'.requests[t].num < s'.issued && s'.requests[t].id == WireId(s'.requests[t].num)
    {
      assert t < n ==> s'.requests[t] == s.requests[t];
    }
  }

  lemma StartKeepsInv(s: State)
    requires Inv(s) && DistinctIds(Apply(s, Start))
    ensures Inv(Apply(s, Start))
  {
    var s', n := Apply(s, Start), |s.requests|;
    StartKeepsIds(s);
    if s'.requests[n].id in s.callbacks {
      var u := s.callbacks[s'.requests[n].id];
      assert EntryOk(s, s'.requests[n].id);
      IdsDistinct(s', u, n);
    }
    forall id | id in s'.callbacks ensures EntryOk(s', id) {
      assert EntryOk(s, id);
    }
    forall t | 0 <= t < n ensures SenderOk(s', t) && ReplyOk(s', t) {
      assert SenderOk(s, t) && ReplyOk(s, t);
    }
  }

  predicate PhaseOnly(a: Action) {
    a.CloneCore? || a.MakeGuard? || a.SendOk? || a.SendFail? || a.Wake? || a.Timeout? || a.Abandon?
  }

  /** Steps that move one request on and touch nothing shared. */
  lemma PhaseStepKeepsInv(s: State, a: Action)
    requires Inv(s) && PhaseOnly(a) && Enabled(s, a)
    ensures Inv(Apply(s, a))
  {
    var s' := Apply(s, a);
    IdsKept(s, s');
    forall id | id in s'.callbacks ensures EntryOk(s', id) {
      PhaseStepKeepsEntry(s, a, id);
    }
    forall t | 0 <= t < |s'.requests| ensures SenderOk(s', t) && ReplyOk(s', t) {
      PhaseStepOn(s, a, t);
    }
  }

  lemma PhaseStepKeepsEntry(s: State, a: Action, id: string)
    requires Inv(s) && PhaseOnly(a) && Enabled(s, a) && id in s.callbacks
    ensures EntryOk(Apply(s, a), id)
  {
    assert EntryOk(s, id);
  }

  lemma PhaseStepOn(s: State, a: Action, t: nat)
    requires Inv(s) && PhaseOnly(a) && Enabled(s, a) && t < |s.requests|
    ensures SenderOk(Apply(s, a), t) && ReplyOk(Apply(s, a), t)
  {
    var s' := Apply(s, a);
    assert SenderOk(s, t) && ReplyOk(s, t);
    assert InHand(s', t) <==> InHand(s, t);
    assert InMap(s', t) <==> InMap(s, t);
    if s'.requests[t] != s.requests[t] {
      MovedRequestOk(s, a, t);
    }
  }

  lemma MovedRequestOk(s: State, a: Action, t: nat)
    requires Inv(s) && PhaseOnly(a) && Enabled(s, a) && t < |s.requests|
    requires Apply(s, a).requests[t] != s.requests[t]
    ensures SenderOk(Apply(s, a), t) && ReplyOk(Apply(s, a), t)
  {
    assert s.requests[t].id in s.callbacks ==> EntryOk(s, s.requests[t].id);
    assert SenderOk(s, t) && ReplyOk(s, t);
    if a.Wake? {
      WokenRequestOk(s, t);
    } else if a.CloneCore? || a.MakeGuard? || a.SendOk? {
      StartedRequestOk(s, a, t);
    } else {
      EndedRequestOk(s, a, t);
    }
  }

  lemma WokenRequestOk(s: State, t: nat)
    requires Enabled(s, Wake(t)) && SenderOk(s, t) && ReplyOk(s, t)
    ensures SenderOk(Apply(s, Wake(t)), t) && ReplyOk(Apply(s, Wake(t)), t)
  {}

  lemma StartedRequestOk(s: State, a: Action, t: nat)
    requires (a.CloneCore? || a.MakeGuard? || a.SendOk?) && a.t == t && Enabled(s, a)
    requires SenderOk(s, t) && ReplyOk(s, t)
    requires s.requests[t].id in s.callbacks ==> EntryOk(s, s.requests[t].id)
    ensures SenderOk(Apply(s, a), t) && ReplyOk(Apply(s, a), t)
  {}

  lemma EndedRequestOk(s: State, a: Action, t: nat)
    requires (a.SendFail? || a.Timeout? || a.Abandon?) && a.t == t && Enabled(s, a)
    requires SenderOk(s, t) && ReplyOk(s, t)
    requires s.requests[t].id in s.callbacks ==> EntryOk(s, s.requests[t].id)
    ensures SenderOk(Apply(s, a), t) && ReplyOk(Apply(s, a), t)
  {}

  predicate NoRequestTouched(a: Action) {
    a.RecvClone? || a.RecvOther? || a.RecvError?
  }

  lemma QuietStepKeepsInv(s: State, a: Action)
    requires Inv(s) && NoRequestTouched(a) && Enabled(s, a)
    ensures Inv(Apply(s, a))
  {
    var s' := Apply(s, a);
    forall id | id in s'.callbacks ensures EntryOk(s', id) {
      assert EntryOk(s, id);
    }
    forall t | 0 <= t < |s'.requests| ensures SenderOk(s', t) && ReplyOk(s', t) {
      assert SenderOk(s, t) && ReplyOk(s, t);
    }
  }

  /** Registration finds no live entry to overwrite. */
  lemma InsertFindsNoEntry(s: State, t: nat)
    requires Inv(s) && Enabled(s, Insert(t))
    ensures s.requests[t].id !in s.callbacks
  {
    var id := s.requests[t].id;
    if id in s.callbacks {
      assert EntryOk(s, id);
      IdsDistinct(s, t, s.callbacks[id]);
    }
  }

  lemma InsertKeepsInv(s: State, t: nat)
    requires Inv(s) && Enabled(s, Insert(t))
    ensures Inv(Apply(s, Insert(t)))
  {
    InsertFindsNoEntry(s, t);
    var s' := Apply(s, Insert(t));
    IdsKept(s, s');
    forall id | id in s'.callbacks ensures EntryOk(s', id) {
      if id in s.callbacks {
        assert EntryOk(s, id);
      }
    }
    forall u | 0 <= u < |s'.requests| ensures SenderOk(s', u) && ReplyOk(s', u) {
      assert SenderOk(s, u) && ReplyOk(s, u);
      if u != t && s.requests[u].id == s.requests[t].id {
        IdsDistinct(s, t, u);
      }
    }
  }

  lemma DropGuardKeepsInv(s: State, t: nat)
    requires Inv(s) && Enabled(s, DropGuard(t))
    ensures Inv(Apply(s, DropGuard(t)))
  {
    var s' := Apply(s, DropGuard(t));
    var id := s.requests[t].id;
    OwnEntryOnly(s, t);
    IdsKept(s, s');
    forall k | k in s'.callbacks ensures EntryOk(s', k) {
      assert EntryOk(s, k);
    }
    forall u | 0 <= u < |s'.requests| ensures SenderOk(s', u) && ReplyOk(s', u) {
      DropGuardKeepsRequest(s, t, u);
    }
  }

  lemma DropGuardKeepsRequest(s: State, t: nat, u: nat)
    requires Inv(s) && Enabled(s, DropGuard(t)) && u < |s.requests|
    ensures SenderOk(Apply(s, DropGuard(t)), u) && ReplyOk(Apply(s, DropGuard(t)), u)
  {
    var s' := Apply(s, DropGuard(t));
    OwnEntryOnly(s, t);
    assert SenderOk(s, u) && ReplyOk(s, u);
    if u != t {
      assert s'.requests[u] == s.requests[u];
      assert InMap(s', u) <==> InMap(s, u);
    }
  }

  /** The entry under a request's id can only be its own. */
  lemma OwnEntryOnly(s: State, t: nat)
    requires Inv(s) && t < |s.requests|
    ensures s.requests[t].id in s.callbacks ==> s.callbacks[s.requests[t].id] == t
    ensures forall u :: 0 <= u < |s.requests| && s.requests[u].id == s.requests[t].id ==> u == t
  {
    var id := s.requests[t].id;
    if id in s.callbacks {
      assert EntryOk(s, id);
      IdsDistinct(s, t, s.callbacks[id]);
    }
    forall u | 0 <= u < |s.requests| && s.requests[u].id == id ensures u == t {
      IdsDistinct(s, t, u);
    }
  }

  lemma FiledTickets(s: State, t: nat)
    requires MapOk(s) && t < |s.requests|
    ensures t in s.callbacks.Values <==> InMap(s, t)
  {
    if t in s.callbacks.Values {
      var id :| id in s.callbacks && s.callbacks[id] == t;
      assert EntryOk(s, id);
    }
  }

  lemma DrainedRequestOk(s: State, s': State, u: nat)
    requires Inv(s) && u < |s.requests|
    requires s' == s.(core := Closed, requests := Drained(s.requests, s.callbacks), callbacks := map[])
    ensures SenderOk(s', u) && ReplyOk(s', u)
  {
    assert SenderOk(s, u) && ReplyOk(s, u);
    FiledTickets(s, u);
    if InMap(s, u) {
      assert EntryOk(s, s.requests[u].id);
      assert s'.requests[u] == s.requests[u].(channel := Sent(Err(ConnectionClosed)));
    } else {
      assert s'.requests[u] == s.requests[u];
    }
  }

  lemma DrainKeepsInv(s: State)
    requires Inv(s) && Enabled(s, CloseDrain)
    ensures Inv(Apply(s, CloseDrain))
  {
    var s' := s.(core := Closed, requests := Drained(s.requests, s.callbacks), callbacks := map[]);
    IdsKept(s, s');
    forall u | 0 <= u < |s'.requests| ensures SenderOk(s', u) && ReplyOk(s', u) {
      DrainedRequestOk(s, s', u);
    }
    FinishKeepsInv(s', s.core.closer);
  }

  lemma FinishKeepsInv(s: State, who: Closer)
    requires Inv(s) && s.core.Closed?
    ensures Inv(Finish(s, who))
  {
    var s' := Finish(s, who);
    IdsKept(s, s');
    forall id | id in s'.callbacks ensures EntryOk(s', id) {
      assert EntryOk(s, id);
    }
    forall u | 0 <= u < |s'.requests| ensures SenderOk(s', u) && ReplyOk(s', u) {
      FinishKeepsRequest(s, who, u);
    }
  }

  lemma FinishKeepsRequest(s: State, who: Closer, u: nat)
    requires Inv(s) && s.core.Closed? && u < |s.requests|
    ensures SenderOk(Finish(s, who), u) && ReplyOk(Finish(s, who), u)
  {
    assert SenderOk(s, u) && ReplyOk(s, u);
    assert s.requests[u].id in s.callbacks ==> EntryOk(s, s.requests[u].id);
    var s' := Finish(s, who);
    assert InHand(s', u) <==> InHand(s, u);
    assert InMap(s', u) <==> InMap(s, u);
  }

  lemma CloseKeepsInv(s: State, who: Closer)
    requires Inv(s) && Enabled(s, Close(who))
    ensures Inv(Apply(s, Close(who)))
  {
    if s.core.Open? {
      var s' := Apply(s, Close(who));
      forall id | id in s'.callbacks ensures EntryOk(s', id) {
        assert EntryOk(s, id);
      }
      forall t | 0 <= t < |s'.requests| ensures SenderOk(s', t) && ReplyOk(s', t) {
        assert SenderOk(s, t) && ReplyOk(s, t);
      }
    } else {
      FinishKeepsInv(s, who);
    }
  }

  lemma ResponseKeepsInv(s: State, response: Response)
    requires Inv(s) && Enabled(s, RecvResponse(response))
    ensures Inv(Apply(s, RecvResponse(response)))
  {
    var s' := Apply(s, RecvResponse(response));
    forall id | id in s'.callbacks ensures EntryOk(s', id) {
      assert EntryOk(s, id);
    }
    if response.id in s.callbacks {
      assert EntryOk(s, response.id);
    }
    forall u | 0 <= u < |s'.requests| ensures SenderOk(s', u) && ReplyOk(s', u) {
      assert SenderOk(s, u) && ReplyOk(s, u);
      var r := s.requests[u];
      forall result | Answered(s.log, r, result) ensures Answered(s'.log, r, result) {
        AnsweredGrows(s.log, [response], r, result);
      }
      if InMap(s, u) && r.id == response.id {
        assert FirstMatch(s'.log, r, |s.log|);
      }
    }
  }

  lemma DeliverKeepsInv(s: State)
    requires Inv(s) && Enabled(s, Deliver)
    ensures Inv(Apply(s, Deliver))
  {
    var s' := Apply(s, Deliver);
    assert SenderOk(s, s.receiver.ticket) && ReplyOk(s, s.receiver.ticket);
    forall id | id in s'.callbacks ensures EntryOk(s', id) {
      assert EntryOk(s, id);
    }
    forall u | 0 <= u < |s'.requests| ensures SenderOk(s', u) && ReplyOk(s', u) {
      assert SenderOk(s, u) && ReplyOk(s, u);
      assert InMap(s', u) <==> InMap(s, u);
    }
  }

  lemma StepKeepsInv(s: State, a: Action)
    requires Inv(s) && Enabled(s, a) && (a.Start? ==> DistinctIds(Apply(s, a)))
    ensures Inv(Apply(s, a))
  {
    if a.ForeignId? {
      ForeignIdKeepsInv(s);
    } else if a.Start? {
      StartKeepsInv(s);
    } else if PhaseOnly(a) {
      PhaseStepKeepsInv(s, a);
    } else if NoRequestTouched(a) {
      QuietStepKeepsInv(s, a);
    } else {
      match a
      case Insert(t) => InsertKeepsInv(s, t);
      case DropGuard(t) => DropGuardKeepsInv(s, t);
      case Close(who) => CloseKeepsInv(s, who);
      case CloseDrain => DrainKeepsInv(s);
      case RecvResponse(response) => ResponseKeepsInv(s, response);
      case Deliver => DeliverKeepsInv(s);
    }
  }
}
