/** The verify hub's shared `Server`: two channel maps behind one lock, and the one-place channels they
    lead to, updated in place.  Each method is one atomic step of `Rendezvous`. */
module HubServer {
  import opened Wrappers
  import opened Rendezvous

  predicate InMaps(tee: map<string, nat>, opml: map<string, nat>, key: Key) {
    if key.kind.Tee? then key.id in tee else key.id in opml
  }

  function FromMaps(tee: map<string, nat>, opml: map<string, nat>, key: Key): nat
    requires InMaps(tee, opml, key)
  {
    if key.kind.Tee? then tee[key.id] else opml[key.id]
  }

  /** The two maps are the TEE and the OPML part of one map keyed by kind and request id. */
  ghost predicate Agree(channels: map<Key, nat>, tee: map<string, nat>, opml: map<string, nat>) {
    forall key: Key ::
      (key in channels <==> InMaps(tee, opml, key))
      && (key in channels ==> channels[key] == FromMaps(tee, opml, key))
  }

  lemma AgreeOnMore(channels: map<Key, nat>, tee: map<string, nat>, opml: map<string, nat>, key: Key, h: nat)
    requires Agree(channels, tee, opml)
    ensures key.kind.Tee? ==> Agree(channels[key := h], tee[key.id := h], opml)
    ensures key.kind.Opml? ==> Agree(channels[key := h], tee, opml[key.id := h])
  {}

  /** A slot holds the answer of the callback that filled it. */
  function Slot(s: State, h: nat): Option<string>
    requires h < |s.handlers|
  {
    match s.handlers[h].slot
    case None => None
    case Some(c) => if c < |s.callbacks| then Some(s.callbacks[c].answer) else None
  }

  function Slots(s: State): (slots: seq<Option<string>>)
    ensures |slots| == |s.handlers|
    ensures forall h :: 0 <= h < |s.handlers| ==> slots[h] == Slot(s, h)
  {
    seq(|s.handlers|, h requires 0 <= h < |s.handlers| => Slot(s, h))
  }

  /** Which channels have a handler at their other end. */
  function Receivers(s: State): (receivers: seq<bool>)
    ensures |receivers| == |s.handlers|
    ensures forall h :: 0 <= h < |s.handlers| ==> receivers[h] == ReceiverAlive(s.handlers[h])
  {
    seq(|s.handlers|, h requires 0 <= h < |s.handlers| => ReceiverAlive(s.handlers[h]))
  }

  lemma SlotIsFree(s: State, h: nat)
    requires Inv(s) && h < |s.handlers|
    ensures Slots(s)[h] == None <==> s.handlers[h].slot == None
  {
    assert HandlerOk(s, h);
  }

  /** Filing and removing channels, and callbacks coming in, leave every slot alone. */
  lemma SlotsStay(s: State, a: Action)
    requires Inv(s) && Enabled(s, a) && (a.Register? || a.CleanUp? || a.Arrive?)
    ensures Slots(Apply(s, a)) == Slots(s)
  {
    forall h | 0 <= h < |s.handlers| ensures Slot(Apply(s, a), h) == Slot(s, h) {
      assert HandlerOk(s, h);
    }
  }

  /** The handler a callback with this key reaches: its channel is filed, listened to and empty. */
  function Recipient(s: State, key: Key): Option<nat> {
    if key !in s.channels || s.channels[key] >= |s.handlers| then None
    else
      var h := s.channels[key];
      if ReceiverAlive(s.handlers[h]) && s.handlers[h].slot.None? then Some(h) else None
  }

  /** The same handlers, in the same phases. */
  ghost predicate SameButSlots(s: State, s': State) {
    && |s'.handlers| == |s.handlers|
    && forall h :: 0 <= h < |s.handlers| ==>
         s'.handlers[h].key == s.handlers[h].key && s'.handlers[h].phase == s.handlers[h].phase
  }

  /** A callback that comes into a free lock gives it back when it leaves. */
  lemma LockIsGivenBack(s: State, key: Key, answer: string, a: Action)
    requires LockFree(s) && Enabled(s, Arrive(key, answer))
    requires a == Send(|s.callbacks|) || a == Abort(|s.callbacks|)
    requires Enabled(Apply(s, Arrive(key, answer)), a)
    ensures var s' := Apply(Apply(s, Arrive(key, answer)), a);
      LockFree(s') && SameButSlots(s, s') && s'.channels == s.channels
  {
    var s' := Apply(Apply(s, Arrive(key, answer)), a);
    assert SameButSlots(s, s');
    forall h | 0 <= h < |s'.handlers| ensures !s'.handlers[h].phase.Posting? {
      assert s.handlers[h] in s.handlers;
    }
    forall c | 0 <= c < |s'.callbacks| ensures !s'.callbacks[c].phase.Holding? {
      assert c < |s.callbacks| ==> s.callbacks[c] in s.callbacks;
    }
  }

  lemma ReceivingKeepsLock(s: State, h: nat)
    requires LockFree(s) && Enabled(s, Receive(h))
    ensures LockFree(Apply(s, Receive(h)))
  {}

  lemma SlotsSurviveAbort(s: State, c: nat)
    requires Enabled(s, Abort(c))
    ensures Slots(Apply(s, Abort(c))) == Slots(s) && Receivers(Apply(s, Abort(c))) == Receivers(s)
  {
    forall h | 0 <= h < |s.handlers| ensures Slot(Apply(s, Abort(c)), h) == Slot(s, h) {}
  }

  lemma SlotsSurviveExpiry(s: State, h: nat)
    requires Enabled(s, Expire(h))
    ensures Slots(Apply(s, Expire(h))) == Slots(s) && Receivers(Apply(s, Expire(h))) == Receivers(s)
  {
    forall g | 0 <= g < |s.handlers| ensures Slot(Apply(s, Expire(h)), g) == Slot(s, g) {}
  }

  /** The answer of the first callback that carries the key. */
  function FirstAnswer(callbacks: seq<(Key, string)>, key: Key): Option<string> {
    if callbacks == [] then None
    else if callbacks[0].0 == key then Some(callbacks[0].1)
    else FirstAnswer(callbacks[1..], key)
  }

  lemma {:induction false} FirstAnswerIsFirst(callbacks: seq<(Key, string)>, key: Key)
    ensures FirstAnswer(callbacks, key).None? ==> forall k :: 0 <= k < |callbacks| ==> callbacks[k].0 != key
    ensures FirstAnswer(callbacks, key).Some? ==>
              exists k :: 0 <= k < |callbacks| && callbacks[k] == (key, FirstAnswer(callbacks, key).value)
                          && forall i :: 0 <= i < k ==> callbacks[i].0 != key
  {
    if callbacks == [] {
    } else if callbacks[0].0 == key {
      assert callbacks[0] == (key, FirstAnswer(callbacks, key).value);
    } else {
      var rest := callbacks[1..];
      FirstAnswerIsFirst(rest, key);
      if FirstAnswer(rest, key).Some? {
        var k :| 0 <= k < |rest| && rest[k] == (key, FirstAnswer(rest, key).value)
                 && forall i :: 0 <= i < k ==> rest[i].0 != key;
        assert callbacks[k + 1] == rest[k];
        forall i | 0 <= i < k + 1 ensures callbacks[i].0 != key {
          assert i > 0 ==> callbacks[i] == rest[i - 1];
        }
      }
      forall k | 0 < k < |callbacks| ensures callbacks[k] == rest[k - 1] {}
    }
  }

  /** The handler waits on the empty channel filed under its key. */
  ghost predicate Awaits(s: State, h: nat, key: Key) {
    && h < |s.handlers| && s.handlers[h].key == key && s.handlers[h].phase == Waiting && s.handlers[h].slot == None
    && key in s.channels && s.channels[key] == h
  }

  class Server {
    var teeChannels: map<string, nat>
    var opmlChannels: map<string, nat>
    var slots: seq<Option<string>>
    var receivers: seq<bool>
    ghost var state: State

    ghost predicate Valid()
      reads this
    {
      && Inv(state)
      && Agree(state.channels, teeChannels, opmlChannels)
      && slots == Slots(state)
      && receivers == Receivers(state)
    }

    constructor ()
      ensures Valid() && state == INIT
    {
      teeChannels, opmlChannels, slots, receivers := map[], map[], [], [];
      state := INIT;
    }

    /** A new question, to be posted under the write lock, and its channel. */
    method OpenQuestion(key: Key) returns (h: nat)
      requires Valid() && Enabled(state, Begin(key))
      modifies this
      ensures Valid() && state == Apply(old(state), Begin(key))
      ensures h == |old(slots)| && slots == old(slots) + [None]
      ensures teeChannels == old(teeChannels) && opmlChannels == old(opmlChannels)
    {
      StepKeepsInv(state, Begin(key));
      h := |slots|;
      slots, receivers := slots + [None], receivers + [false];
      state := Apply(state, Begin(key));
    }

    /** A question handler files its fresh channel under the write lock. */
    method RegisterChannel(h: nat, key: Key)
      requires Valid() && Enabled(state, Register(h)) && key == state.handlers[h].key
      modifies this
      ensures Valid() && state == Apply(old(state), Register(h))
      ensures slots == old(slots)
      ensures teeChannels == if key.kind.Tee? then old(teeChannels)[key.id := h] else old(teeChannels)
      ensures opmlChannels == if key.kind.Opml? then old(opmlChannels)[key.id := h] else old(opmlChannels)
    {
      StepKeepsInv(state, Register(h));
      SlotsStay(state, Register(h));
      AgreeOnMore(state.channels, teeChannels, opmlChannels, key, h);
      match key.kind {
        case Tee => teeChannels := teeChannels[key.id := h];
        case Opml => opmlChannels := opmlChannels[key.id := h];
      }
      receivers := receivers[h := true];
      state := Apply(state, Register(h));
    }

    /** After a timeout the TEE handler removes its channel; the OPML one leaves it. */
    method CleanUpChannel(h: nat, key: Key)
      requires Valid() && Enabled(state, CleanUp(h)) && key == state.handlers[h].key
      modifies this
      ensures Valid() && state == Apply(old(state), CleanUp(h))
      ensures slots == old(slots) && opmlChannels == old(opmlChannels)
      ensures teeChannels == if key.kind.Tee? then old(teeChannels) - {key.id} else old(teeChannels)
    {
      StepKeepsInv(state, CleanUp(h));
      SlotsStay(state, CleanUp(h));
      if key.kind.Tee? {
        teeChannels := teeChannels - {key.id};
      }
      receivers := receivers[h := false];
      state := Apply(state, CleanUp(h));
    }

    /** `rx.recv()` empties the slot; the answer is that of a callback with the handler's own key. */
    method ReceiveAnswer(h: nat) returns (answer: string)
      requires Valid() && Enabled(state, Receive(h))
      modifies this
      ensures Valid() && state == Apply(old(state), Receive(h))
      ensures old(slots[h]) == Some(answer) && slots == old(slots)[h := None]
      ensures var c := old(state).handlers[h].slot.value;
        c < |state.callbacks| && state.callbacks[c].answer == answer && state.callbacks[c].key == state.handlers[h].key
    {
      StepKeepsInv(state, Receive(h));
      assert HandlerOk(state, h);
      answer := slots[h].value;
      slots, receivers := slots[h := None], receivers[h := false];
      state := Apply(state, Receive(h));
    }

    /** The lookup of `tee_callback` or `opml_callback`; a found channel keeps the lock held. */
    method EnterCallback(key: Key, answer: string) returns (channel: Option<nat>)
      requires Valid() && Enabled(state, Arrive(key, answer))
      modifies this
      ensures Valid() && state == Apply(old(state), Arrive(key, answer))
      ensures channel == if key in state.channels then Some(state.channels[key]) else None
      ensures slots == old(slots)
      ensures teeChannels == old(teeChannels) && opmlChannels == old(opmlChannels)
    {
      StepKeepsInv(state, Arrive(key, answer));
      SlotsStay(state, Arrive(key, answer));
      channel := None;
      match key.kind {
        case Tee => if key.id in teeChannels { channel := Some(teeChannels[key.id]); }
        case Opml => if key.id in opmlChannels { channel := Some(opmlChannels[key.id]); }
      }
      state := Apply(state, Arrive(key, answer));
    }

    /** `tx.send`: fails once the handler has returned. */
    method SendAnswer(h: nat, answer: string, ghost c: nat) returns (sent: bool)
      requires Valid() && Enabled(state, Send(c))
      requires state.callbacks[c].phase == Holding(h) && state.callbacks[c].answer == answer
      modifies this
      ensures Valid() && state == Apply(old(state), Send(c))
      ensures sent <==> ReceiverAlive(old(state).handlers[h])
      ensures slots == if sent then old(slots)[h := Some(answer)] else old(slots)
      ensures teeChannels == old(teeChannels) && opmlChannels == old(opmlChannels)
    {
      StepKeepsInv(state, Send(c));
      sent := receivers[h];
      if sent {
        slots := slots[h := Some(answer)];
      }
      state := Apply(state, Send(c));
    }

    /** The server's time limit on a callback, or a client that disconnects. */
    method CutOff(ghost c: nat)
      requires Valid() && Enabled(state, Abort(c))
      modifies this
      ensures Valid() && state == Apply(old(state), Abort(c))
      ensures slots == old(slots) && teeChannels == old(teeChannels) && opmlChannels == old(opmlChannels)
    {
      StepKeepsInv(state, Abort(c));
      SlotsSurviveAbort(state, c);
      state := Apply(state, Abort(c));
    }

    /** A whole callback while nothing else goes on: looked up, and delivered if its channel has room.
        One that finds the channel full would wait for good and is given up from outside. */
    method HandleCallback(key: Key, answer: string) returns (delivered: Option<nat>)
      requires Valid() && LockFree(state)
      modifies this
      ensures Valid() && LockFree(state)
      ensures teeChannels == old(teeChannels) && opmlChannels == old(opmlChannels)
      ensures state.channels == old(state).channels
      ensures delivered == Recipient(old(state), key)
      ensures delivered.Some? ==> slots == old(slots)[delivered.value := Some(answer)]
      ensures delivered.None? ==> slots == old(slots)
      ensures SameButSlots(old(state), state)
    {
      ghost var c := |state.callbacks|;
      var channel := EnterCallback(key, answer);
      delivered := None;
      if channel.Some? {
        assert CallbackOk(state, c);
        SlotIsFree(state, channel.value);
        if !receivers[channel.value] || slots[channel.value] == None {
          LockIsGivenBack(old(state), key, answer, Send(c));
          var sent := SendAnswer(channel.value, answer, c);
          delivered := if sent then channel else None;
        } else {
          LockIsGivenBack(old(state), key, answer, Abort(c));
          CutOff(c);
        }
      }
    }

    /** One callback while handler `h` waits: its own fills the slot, any other leaves it waiting. */
    method HandleWhileWaiting(h: nat, key: Key, k: Key, answer: string)
      requires Valid() && LockFree(state) && Awaits(state, h, key)
      modifies this
      ensures Valid() && LockFree(state)
      ensures k != key ==> Awaits(state, h, key)
      ensures k == key ==> h < |slots| && slots[h] == Some(answer) && Enabled(state, Receive(h))
      ensures InMaps(teeChannels, opmlChannels, key)
    {
      assert k in state.channels ==> ChannelOk(state, k);
      var delivered := HandleCallback(k, answer);
      SlotIsFree(state, h);
    }

    /** The end of the time limit. */
    method GiveUp(h: nat, key: Key)
      requires Valid() && LockFree(state) && Awaits(state, h, key)
      modifies this
      ensures Valid() && LockFree(state)
      ensures InMaps(teeChannels, opmlChannels, key) <==> key.kind.Opml?
    {
      StepKeepsInv(state, Expire(h));
      SlotsSurviveExpiry(state, h);
      state := Apply(state, Expire(h));
      CleanUpChannel(h, key);
    }

    /** Waiting for the answer: callbacks come in one after the other until one carries the key. */
    method AwaitAnswer(h: nat, key: Key, callbacks: seq<(Key, string)>) returns (reply: Result<string, AskError>)
      requires Valid() && LockFree(state) && Awaits(state, h, key)
      modifies this
      ensures Valid() && LockFree(state)
      ensures match FirstAnswer(callbacks, key)
        case Some(answer) => reply == Ok(answer)
        case None => reply == Err(RequestTimeout)
      ensures InMaps(teeChannels, opmlChannels, key) <==> !(reply.Err? && key.kind.Tee?)
    {
      for i := 0 to |callbacks|
        invariant Valid() && LockFree(state) && Awaits(state, h, key)
        invariant FirstAnswer(callbacks, key) == FirstAnswer(callbacks[i..], key)
      {
        HandleWhileWaiting(h, key, callbacks[i].0, callbacks[i].1);
        assert callbacks[i..][1..] == callbacks[i + 1..];
        if callbacks[i].0 == key {
          ReceivingKeepsLock(state, h);
          var answer := ReceiveAnswer(h);
          return Ok(answer);
        }
      }
      GiveUp(h, key);
      reply := Err(RequestTimeout);
    }

    /** The whole of `tee_question_handler` or `opml_question_handler` while only callbacks run beside
        it.  A TEE question waits whether or not its post succeeds. */
    method Ask(key: Key, posts: bool, callbacks: seq<(Key, string)>) returns (reply: Result<string, AskError>)
      requires Valid() && LockFree(state)
      modifies this
      ensures Valid() && LockFree(state)
      ensures !posts && key.kind.Opml? ==> reply == Err(SendFailed)
      ensures posts || key.kind.Tee? ==>
        match FirstAnswer(callbacks, key)
        case Some(answer) => reply == Ok(answer)
        case None => reply == Err(RequestTimeout)
      ensures reply != Err(SendFailed) ==>
                (InMaps(teeChannels, opmlChannels, key) <==> !(reply.Err? && key.kind.Tee?))
      ensures reply == Err(SendFailed) ==> teeChannels == old(teeChannels) && opmlChannels == old(opmlChannels)
    {
      var h := OpenQuestion(key);
      if !posts && key.kind.Opml? {
        StepKeepsInv(state, PostFailed(h));
        state := Apply(state, PostFailed(h));
        return Err(SendFailed);
      }
      StepKeepsInv(state, PostDone(h));
      state := Apply(state, PostDone(h));
      RegisterChannel(h, key);
      reply := AwaitAnswer(h, key, callbacks);
    }
  }
}
