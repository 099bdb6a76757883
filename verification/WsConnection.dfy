/** The shared objects of one websocket connection, updated in place: `CallbackMap`, `WsCoreSync`, the
    id counter and the oneshot channels.  Each method is one atomic step of `WsProtocol`;
    `ReceiveResponses` and `RequestTimeout` put the steps together. */
module WsConnection {
  import opened Decimal
  import opened MachineInts
  import opened Wrappers
  import opened WsProtocol

  function FireEntry(channels: seq<Channel>, t: nat): seq<Channel> {
    if t < |channels| then channels[t := Sent(Err(ConnectionClosed))] else channels
  }

  function Fired(channels: seq<Channel>, callbacks: map<string, nat>): seq<Channel> {
    seq(|channels|, t requires 0 <= t < |channels| =>
      if t in callbacks.Values then Sent(Err(ConnectionClosed)) else channels[t])
  }

  /** Draining may start with any entry. */
  lemma DrainOne(channels: seq<Channel>, callbacks: map<string, nat>, id: string)
    requires id in callbacks
    ensures Fired(FireEntry(channels, callbacks[id]), callbacks - {id}) == Fired(channels, callbacks)
  {
    var rest := callbacks - {id};
    forall t: nat ensures t in callbacks.Values <==> t in rest.Values || t == callbacks[id] {
      if t in callbacks.Values && t != callbacks[id] {
        var key :| key in callbacks && callbacks[key] == t;
        assert key in rest && rest[key] == t;
      }
    }
  }

  /** The loop of `CallbackMap::close`, in whatever order the hash map yields its entries. */
  method FireAll(channels: seq<Channel>, callbacks: map<string, nat>) returns (fired: seq<Channel>)
    ensures |fired| == |channels|
    ensures forall t :: 0 <= t < |channels| ==>
              fired[t] == if t in callbacks.Values then Sent(Err(ConnectionClosed)) else channels[t]
  {
    fired := channels;
    var rest := callbacks;
    while rest != map[]
      invariant Fired(fired, rest) == Fired(channels, callbacks)
      decreases |rest|
    {
      var id :| id in rest.Keys;
      DrainOne(fired, rest, id);
      assert rest.Keys == (rest - {id}).Keys + {id};
      fired := FireEntry(fired, rest[id]);
      rest := rest - {id};
    }
    assert fired == Fired(fired, map[]);
  }

  /** The first response that carries the id. */
  function FirstFor(responses: seq<Response>, id: string): Option<Response> {
    if responses == [] then None
    else if responses[0].id == id then Some(responses[0])
    else FirstFor(responses[1..], id)
  }

  lemma {:induction false} FirstForIsFirst(responses: seq<Response>, id: string)
    ensures FirstFor(responses, id).None? ==> forall k :: 0 <= k < |responses| ==> responses[k].id != id
    ensures FirstFor(responses, id).Some? ==>
              exists k :: 0 <= k < |responses| && responses[k] == FirstFor(responses, id).value
                          && responses[k].id == id && forall i :: 0 <= i < k ==> responses[i].id != id
  {
    if responses == [] {
    } else if responses[0].id == id {
      assert responses[0] == FirstFor(responses, id).value;
    } else {
      var rest := responses[1..];
      FirstForIsFirst(rest, id);
      if FirstFor(rest, id).Some? {
        var k :| 0 <= k < |rest| && rest[k] == FirstFor(rest, id).value && rest[k].id == id
                 && forall i :: 0 <= i < k ==> rest[i].id != id;
        assert responses[k + 1] == rest[k];
        forall i | 0 <= i < k + 1 ensures responses[i].id != id {
          assert i > 0 ==> responses[i] == rest[i - 1];
        }
      }
      forall k | 0 < k < |responses| ensures responses[k] == rest[k - 1] {}
    }
  }

  lemma {:induction false} FirstForSnoc(responses: seq<Response>, last: Response, id: string)
    ensures FirstFor(responses + [last], id)
            == if FirstFor(responses, id).Some? then FirstFor(responses, id)
               else if last.id == id then Some(last) else None
  {
    if responses == [] {
      assert [last][1..] == [];
    } else {
      assert (responses + [last])[1..] == responses[1..] + [last];
      FirstForSnoc(responses[1..], last, id);
    }
  }

  /** The channel of request `t` once `responses` have been received. */
  function Received(s: State, t: nat, responses: seq<Response>): Channel
    requires t < |s.requests|
  {
    if InMap(s, t) && FirstFor(responses, s.requests[t].id).Some?
    then Delivery(FirstFor(responses, s.requests[t].id).value)
    else s.requests[t].channel
  }

  function ReceivedIds(s: State, responses: seq<Response>): set<string> {
    set id | id in s.callbacks && FirstFor(responses, id).Some?
  }

  /** Everything the receive loop changes while `responses` arrive one after the other: each
      registered request gets the first one with its id, and leaves the map. */
  function Delivered(s: State, responses: seq<Response>): State {
    s.(requests := seq(|s.requests|, t requires 0 <= t < |s.requests| =>
                         s.requests[t].(channel := Received(s, t, responses))),
       callbacks := s.callbacks - ReceivedIds(s, responses),
       log := s.log + responses)
  }

  predicate Receiving(s: State) {
    s.core == Open && s.receiver == Listening
  }

  /** One turn of the receive loop, on a response. */
  function Turn(s: State, response: Response): State
    requires Receiving(s)
  {
    var taken := Apply(Apply(s, RecvClone), RecvResponse(response));
    if Enabled(taken, Deliver) then Apply(taken, Deliver) else taken
  }

  lemma DeliveredNext(s: State, responses: seq<Response>, last: Response)
    requires MapOk(s) && Receiving(s)
    ensures Turn(Delivered(s, responses), last) == Delivered(s, responses + [last])
  {
    var d, d' := Delivered(s, responses), Delivered(s, responses + [last]);
    var after := Turn(d, last);
    forall id | id in s.callbacks
      ensures id in d'.callbacks <==> id in d.callbacks && id != last.id
      ensures EntryOk(s, id)
    {
      FirstForSnoc(responses, last, id);
    }
    assert after.callbacks == d'.callbacks;
    assert last.id in d.callbacks ==> EntryOk(s, last.id);
    forall t | 0 <= t < |s.requests| ensures after.requests[t] == d'.requests[t] {
      FirstForSnoc(responses, last, s.requests[t].id);
    }
    assert after.requests == d'.requests;
    assert after.log == d'.log;
  }

  lemma DeliveredNothing(s: State)
    ensures Delivered(s, []) == s
  {
    assert Delivered(s, []).requests == s.requests;
    assert Delivered(s, []).callbacks == s.callbacks;
  }

  lemma {:induction false} DeliveredKeepsInv(s: State, responses: seq<Response>)
    requires Inv(s) && Receiving(s)
    ensures Inv(Delivered(s, responses))
    decreases |responses|
  {
    if responses == [] {
      DeliveredNothing(s);
    } else {
      var init, last := responses[..|responses| - 1], responses[|responses| - 1];
      DeliveredKeepsInv(s, init);
      assert init + [last] == responses;
      DeliveredNext(s, init, last);
      TurnKeepsInv(Delivered(s, init), last);
    }
  }

  lemma TurnKeepsInv(s: State, response: Response)
    requires Inv(s) && Receiving(s)
    ensures Inv(Turn(s, response))
  {
    StepKeepsInv(s, RecvClone);
    var held := Apply(s, RecvClone);
    StepKeepsInv(held, RecvResponse(response));
    var taken := Apply(held, RecvResponse(response));
    if Enabled(taken, Deliver) {
      StepKeepsInv(taken, Deliver);
    }
  }

  class Connection {
    var core: Core
    var nextId: nat
    var channels: seq<Channel>
    var callbacks: map<string, nat>
    ghost var state: State

    ghost predicate Valid()
      reads this
    {
      && state.core == core && state.nextId == nextId && state.callbacks == callbacks
      && |channels| == |state.requests|
      && forall t :: 0 <= t < |channels| ==> channels[t] == state.requests[t].channel
    }

    constructor ()
      ensures Valid() && state == INIT
    {
      core, nextId, channels, callbacks := Open, 1, [], map[];
      state := INIT;
    }

    /** `WireMessage::request` and the oneshot channel of the new request. */
    method StartRequest() returns (t: nat, id: string)
      requires Valid()
      modifies this
      ensures Valid() && state == Apply(old(state), Start)
      ensures t == |old(channels)| && id == ToString(old(nextId))
      ensures channels == old(channels) + [Pending] && nextId == (old(nextId) + 1) % U64_RANGE
    {
      t, id := |channels|, ToString(nextId);
      channels := channels + [Pending];
      nextId := (nextId + 1) % U64_RANGE;
      state := Apply(state, Start);
    }

    /** The first half of `WsCoreSync::exec`; the error path drops the captured sender. */
    method CloneForRequest(t: nat) returns (open: bool)
      requires Valid() && Enabled(state, CloneCore(t))
      modifies this
      ensures Valid() && state == Apply(old(state), CloneCore(t))
      ensures open <==> old(core) == Open
      ensures channels == if open then old(channels) else old(channels)[t := SenderDropped]
    {
      open := core == Open;
      if !open {
        channels := channels[t := SenderDropped];
      }
      state := Apply(state, CloneCore(t));
    }

    /** `CallbackMap::insert`: an entry already filed under the id is replaced and its sender lost. */
    method InsertCallback(t: nat, id: string)
      requires Valid() && Enabled(state, Insert(t)) && id == state.requests[t].id
      modifies this
      ensures Valid() && state == Apply(old(state), Insert(t))
      ensures callbacks == old(callbacks)[id := t]
    {
      if id in callbacks && callbacks[id] < |channels| {
        channels := channels[callbacks[id] := SenderDropped];
      }
      callbacks := callbacks[id := t];
      state := Apply(state, Insert(t));
    }

    /** `resp_r.await??` once the channel is settled: a dropped sender reads as a channel error. */
    method TakeReply(t: nat) returns (reply: Reply)
      requires Valid() && Enabled(state, Wake(t))
      modifies this
      ensures Valid() && state == Apply(old(state), Wake(t))
      ensures state.requests[t].phase == Leaving(Returned(reply), false)
      ensures match old(channels)[t]
        case Sent(sent) => reply == sent
        case SenderDropped => reply == Err(ChannelError)
        case Pending => false
    {
      match channels[t] {
        case Sent(r) => reply := r;
        case SenderDropped => reply := Err(ChannelError);
      }
      state := Apply(state, Wake(t));
    }

    /** The drop guard: `CallbackMap::remove` under the request's own id. */
    method DropRequestGuard(t: nat, id: string)
      requires Valid() && Enabled(state, DropGuard(t)) && id == state.requests[t].id
      modifies this
      ensures Valid() && state == Apply(old(state), DropGuard(t))
      ensures callbacks == old(callbacks) - {id}
    {
      if id in callbacks && callbacks[id] < |channels| {
        channels := channels[callbacks[id] := SenderDropped];
      }
      callbacks := callbacks - {id};
      state := Apply(state, DropGuard(t));
    }

    /** `WsCoreSync::close`, first half: `take` under the core lock, or nothing left to take. */
    method TakeCore(who: Closer) returns (taken: bool)
      requires Valid() && Enabled(state, Close(who))
      modifies this
      ensures Valid() && state == Apply(old(state), Close(who))
      ensures taken <==> old(core) == Open
    {
      taken := core == Open;
      if taken {
        core := Taken(who);
      }
      state := Apply(state, Close(who));
    }

    /** `WsCoreSync::close`, second half: the callbacks are drained under the same lock. */
    method DrainCallbacks()
      requires Valid() && Enabled(state, CloseDrain)
      modifies this
      ensures Valid() && state == Apply(old(state), CloseDrain)
      ensures core == Closed && callbacks == map[]
    {
      channels := FireAll(channels, callbacks);
      callbacks := map[];
      core := Closed;
      state := Apply(state, CloseDrain);
    }

    /** `recv_inner` on a response: the sender is removed from the map before it is used. */
    method TakeCallback(response: Response) returns (sender: Option<nat>)
      requires Valid() && Enabled(state, RecvResponse(response))
      modifies this
      ensures Valid() && state == Apply(old(state), RecvResponse(response))
      ensures sender == if response.id in old(callbacks) then Some(old(callbacks)[response.id]) else None
      ensures callbacks == old(callbacks) - {response.id}
      ensures channels == old(channels)
    {
      sender := None;
      if response.id in callbacks {
        sender := Some(callbacks[response.id]);
      }
      callbacks := callbacks - {response.id};
      state := Apply(state, RecvResponse(response));
    }

    /** A result is sent; a response without one drops the sender unused. */
    method DeliverResponse(t: nat, response: Response)
      requires Valid() && Enabled(state, Deliver) && state.receiver == Delivering(t, response)
      modifies this
      ensures Valid() && state == Apply(old(state), Deliver)
      ensures callbacks == old(callbacks)
    {
      match response.result {
        case Some(data) => channels := channels[t := Sent(Ok(data))];
        case None => channels := channels[t := SenderDropped];
      }
      state := Apply(state, Deliver);
    }

    /** `recv_inner` on one response. */
    method ReceiveResponse(response: Response)
      requires Valid() && Receiving(state)
      requires response.id in callbacks ==> callbacks[response.id] < |channels|
      modifies this
      ensures Valid() && state == Turn(old(state), response)
    {
      state := Apply(state, RecvClone);
      var sender := TakeCallback(response);
      if sender.Some? {
        DeliverResponse(sender.value, response);
      }
    }

    /** The receive loop, over responses that arrive one after the other. */
    method ReceiveResponses(responses: seq<Response>)
      requires Valid() && MapOk(state) && Receiving(state)
      modifies this
      ensures Valid() && state == Delivered(old(state), responses)
    {
      ghost var start := state;
      DeliveredNothing(start);
      for i := 0 to |responses|
        invariant Valid() && state == Delivered(start, responses[..i])
      {
        assert forall id <- callbacks.Keys :: EntryOk(start, id);
        DeliveredNext(start, responses[..i], responses[i]);
        assert responses[..i + 1] == responses[..i] + [responses[i]];
        ReceiveResponse(responses[i]);
      }
      assert responses[..|responses|] == responses;
    }

    /** Registration: everything up to the entry in the map. */
    method Register() returns (t: nat, id: string, open: bool)
      requires Valid() && Inv(state) && DistinctIds(Apply(state, Start)) && !core.Taken?
      modifies this
      ensures Valid() && Inv(state)
      ensures core == old(core) && state.receiver == old(state).receiver && (open <==> core == Open)
      ensures t == |old(state).requests| && id == ToString(old(nextId))
      ensures t < |state.requests| && state.requests[t].id == id
      ensures open ==> state.requests[t].phase == Sending && InMap(state, t) && state.requests[t].channel == Pending
      ensures !open ==> state.requests[t].phase == Done(Returned(Err(WebsocketClosed)))
    {
      ghost var s := state;
      t, id := StartRequest();
      StepKeepsInv(s, Start);
      s := state;
      open := CloneForRequest(t);
      StepKeepsInv(s, CloneCore(t));
      if open {
        StepKeepsInv(state, MakeGuard(t));
        state := Apply(state, MakeGuard(t));
        StepKeepsInv(state, Insert(t));
        InsertFindsNoEntry(state, t);
        InsertCallback(t, id);
      }
    }

    /** Leaving `request_timeout`, or the closure of `exec`: the guard drops. */
    method Leave(t: nat, id: string)
      requires Valid() && Inv(state)
      requires t < |state.requests| && state.requests[t].phase.Leaving? && state.requests[t].id == id
      modifies this
      ensures Valid() && Inv(state)
      ensures core == old(core) && id !in callbacks && t < |state.requests|
      ensures var Leaving(outcome, closes) := old(state).requests[t].phase;
        state.requests[t].phase == if closes then Closing(outcome) else Done(outcome)
    {
      StepKeepsInv(state, DropGuard(t));
      DropRequestGuard(t, id);
    }

    /** `close` by a request whose send failed. */
    method CloseByRequest(t: nat)
      requires Valid() && Inv(state) && core == Open
      requires t < |state.requests| && state.requests[t].phase.Closing?
      modifies this
      ensures Valid() && Inv(state) && core == Closed && callbacks == map[]
      ensures t < |state.requests| && state.requests[t].phase == Done(old(state).requests[t].phase.outcome)
    {
      StepKeepsInv(state, Close(ByRequest(t)));
      var taken := TakeCore(ByRequest(t));
      assert state.requests == old(state).requests && state.core == Taken(ByRequest(t));
      StepKeepsInv(state, CloseDrain);
      DrainCallbacks();
    }

    /** The error path: the guard drops, then `exec` closes the connection. */
    method FailRequest(t: nat, id: string, error: WsError)
      requires Valid() && Inv(state) && core == Open
      requires t < |state.requests| && state.requests[t].phase == Sending && state.requests[t].id == id
      requires error.ElapsedError? || error.TungsteniteError?
      modifies this
      ensures Valid() && Inv(state) && core == Closed && callbacks == map[]
      ensures t < |state.requests| && state.requests[t].phase == Done(Returned(Err(error)))
    {
      StepKeepsInv(state, SendFail(t, error));
      state := Apply(state, SendFail(t, error));
      Leave(t, id);
      CloseByRequest(t);
    }

    /** The end of the wait: a settled channel is read, a pending one runs out of time. */
    method EndWait(t: nat) returns (reply: Reply)
      requires Valid() && Inv(state)
      requires t < |state.requests| && state.requests[t].phase == Awaiting
      modifies this
      ensures Valid() && Inv(state) && core == old(core)
      ensures t < |state.requests| && state.requests[t].id == old(state).requests[t].id
      ensures state.requests[t].phase == Leaving(Returned(reply), false)
      ensures var channel := old(state).requests[t].channel;
        match channel
        case Pending => reply == Err(ElapsedError)
        case Sent(sent) => reply == sent
        case SenderDropped => reply == Err(ChannelError)
    {
      if channels[t].Pending? {
        StepKeepsInv(state, Timeout(t));
        state := Apply(state, Timeout(t));
        reply := Err(ElapsedError);
      } else {
        StepKeepsInv(state, Wake(t));
        reply := TakeReply(t);
      }
    }

    /** A sent request waits while the receive loop works. */
    method Wait(t: nat, id: string, responses: seq<Response>)
      requires Valid() && Inv(state) && Receiving(state)
      requires t < |state.requests| && state.requests[t].phase == Sending && state.requests[t].id == id
      requires InMap(state, t) && state.requests[t].channel == Pending
      modifies this
      ensures Valid() && Inv(state) && core == Open
      ensures t < |state.requests| && state.requests[t].phase == Awaiting && state.requests[t].id == id
      ensures var first := FirstFor(responses, id);
        match first
        case None => state.requests[t].channel == Pending
        case Some(Response(_, Some(v))) => state.requests[t].channel == Sent(Ok(v))
        case Some(Response(_, None)) => state.requests[t].channel == SenderDropped
    {
      StepKeepsInv(state, SendOk(t));
      state := Apply(state, SendOk(t));
      DeliveredKeepsInv(state, responses);
      ReceiveResponses(responses);
    }

    /** The waiting path: the first response with the id answers, or the time runs out. */
    method AwaitResponse(t: nat, id: string, responses: seq<Response>) returns (reply: Reply)
      requires Valid() && Inv(state) && Receiving(state)
      requires t < |state.requests| && state.requests[t].phase == Sending && state.requests[t].id == id
      requires InMap(state, t) && state.requests[t].channel == Pending
      modifies this
      ensures Valid() && Inv(state) && core == Open && id !in callbacks
      ensures match FirstFor(responses, id)
        case None => reply == Err(ElapsedError)
        case Some(Response(_, Some(v))) => reply == Ok(v)
        case Some(Response(_, None)) => reply == Err(ChannelError)
      ensures t < |state.requests| && state.requests[t].phase == Done(Returned(reply))
    {
      Wait(t, id, responses);
      reply := EndWait(t);
      Leave(t, id);
    }

    /** The whole of `request_timeout` while only the receive loop runs beside it: `sendError` is how
        the send ends, `responses` come in before the time is up. */
    method RequestTimeout(sendError: Option<WsError>, responses: seq<Response>) returns (reply: Reply)
      requires Valid() && Inv(state) && DistinctIds(Apply(state, Start)) && !core.Taken?
      requires core.Open? ==> state.receiver == Listening
      requires sendError.Some? ==> sendError.value.ElapsedError? || sendError.value.TungsteniteError?
      modifies this
      ensures Valid() && Inv(state)
      ensures old(core) == Closed ==> reply == Err(WebsocketClosed)
      ensures old(core) == Open && sendError.Some? ==> reply == Err(sendError.value)
      ensures old(core) == Open && sendError.None? ==>
        match FirstFor(responses, ToString(old(nextId)))
        case None => reply == Err(ElapsedError)
        case Some(Response(_, Some(v))) => reply == Ok(v)
        case Some(Response(_, None)) => reply == Err(ChannelError)
      ensures old(core) == Closed ==> state == old(state)
      ensures old(core) == Open ==>
                core == (if sendError.Some? then Closed else Open) && ToString(old(nextId)) !in callbacks
      ensures var t := |old(state).requests|;
        old(core) == Open ==> t < |state.requests| && state.requests[t].phase == Done(Returned(reply))
    {
      // The first look at the core, for the signer.
      if core == Closed {
        return Err(WebsocketClosed);
      }
      var t, id, open := Register();
      if sendError.Some? {
        FailRequest(t, id, sendError.value);
        reply := Err(sendError.value);
      } else {
        reply := AwaitResponse(t, id, responses);
      }
    }
  }
}
