/** The callback rendezvous of the verify hub (`operator/verify_hub/src/{tee,opml}/handler.rs`).

    A question handler posts its question under the server's write lock, then files a capacity-one
    channel under its request id, then waits.  A callback looks the id up and sends under the lock (a
    read lock for TEE, the write lock for OPML) and holds it for as long as the channel is full.
    Every action is one atomic step. */
module Rendezvous {
  import opened Wrappers

  datatype Kind = Tee | Opml

  datatype Key = Key(kind: Kind, id: string)

  datatype AskError = SendFailed | RequestTimeout

  datatype Outcome = Answered(callback: nat) | Failed(error: AskError)

  datatype Phase =
    | Posting
    | Posted
    | Waiting
    | TimedOut
    | Done(outcome: Outcome)

  /** `slot` is the one place of the channel; `since` the number of callbacks seen at registration. */
  datatype Handler = Handler(key: Key, phase: Phase, slot: Option<nat>, since: nat)

  datatype CallbackPhase = Holding(handler: nat) | Delivered(handler: nat) | Dropped

  datatype Callback = Callback(key: Key, answer: string, phase: CallbackPhase)

  datatype State = State(
    handlers: seq<Handler>,
    channels: map<Key, nat>,
    callbacks: seq<Callback>)

  const INIT := State([], map[], [])

  datatype Action =
    | Begin(key: Key)
    | PostDone(h: nat)
    | PostFailed(h: nat)
    | Register(h: nat)
    | Receive(h: nat)
    | Expire(h: nat)
    | CleanUp(h: nat)
    | Arrive(key: Key, answer: string)
    | Send(c: nat)
    | Abort(c: nat)

  /** The receiver lives until the handler returns. */
  predicate ReceiverAlive(h: Handler) {
    h.phase.Waiting? || h.phase.TimedOut?
  }

  // ---------------------------------------------------------------- the server's lock

  predicate NoWriter(s: State) {
    && (forall h <- s.handlers :: !h.phase.Posting?)
    && (forall c <- s.callbacks :: c.phase.Holding? ==> c.key.kind.Tee?)
  }

  predicate LockFree(s: State) {
    NoWriter(s) && forall c <- s.callbacks :: !c.phase.Holding?
  }

  predicate HandlerIs(s: State, h: nat, p: Handler -> bool) {
    h < |s.handlers| && p(s.handlers[h])
  }

  predicate Enabled(s: State, a: Action) {
    match a
    case Begin(_) => LockFree(s)
    case PostDone(h) => HandlerIs(s, h, (x: Handler) => x.phase.Posting?)
    case PostFailed(h) => HandlerIs(s, h, (x: Handler) => x.phase.Posting? && x.key.kind.Opml?)
    case Register(h) => HandlerIs(s, h, (x: Handler) => x.phase.Posted?) && LockFree(s)
    case Receive(h) => HandlerIs(s, h, (x: Handler) => x.phase.Waiting? && x.slot.Some?)
    case Expire(h) => HandlerIs(s, h, (x: Handler) => x.phase.Waiting?)
    case CleanUp(h) =>
      HandlerIs(s, h, (x: Handler) => x.phase.TimedOut?) && (s.handlers[h].key.kind.Tee? ==> LockFree(s))
    case Arrive(key, _) => if key.kind.Tee? then NoWriter(s) else LockFree(s)
    case Send(c) =>
      c < |s.callbacks| && s.callbacks[c].phase.Holding? && s.callbacks[c].phase.handler < |s.handlers|
      && var h := s.handlers[s.callbacks[c].phase.handler]; ReceiverAlive(h) ==> h.slot.None?
    case Abort(c) => c < |s.callbacks| && s.callbacks[c].phase.Holding?
  }

  function SetPhase(s: State, h: nat, phase: Phase): State
    requires h < |s.handlers|
  {
    s.(handlers := s.handlers[h := s.handlers[h].(phase := phase)])
  }

  function SetCallback(s: State, c: nat, phase: CallbackPhase): State
    requires c < |s.callbacks|
  {
    s.(callbacks := s.callbacks[c := s.callbacks[c].(phase := phase)])
  }

  /** A TEE question whose post fails still waits, so `PostDone` covers both results.  Only the TEE
      handler takes its channel out again, and only after a timeout.  `Abort` is the time limit the
      server puts on a callback request. */
  function Apply(s: State, a: Action): State
    requires Enabled(s, a)
  {
    match a
    case Begin(key) => s.(handlers := s.handlers + [Handler(key, Posting, None, 0)])
    case PostDone(h) => SetPhase(s, h, Posted)
    case PostFailed(h) => SetPhase(s, h, Done(Failed(SendFailed)))
    case Register(h) =>
      s.(handlers := s.handlers[h := s.handlers[h].(phase := Waiting, slot := None, since := |s.callbacks|)],
         channels := s.channels[s.handlers[h].key := h])
    case Receive(h) =>
      s.(handlers := s.handlers[h := s.handlers[h].(
           phase := Done(Answered(s.handlers[h].slot.value)), slot := None)])
    case Expire(h) => SetPhase(s, h, TimedOut)
    case CleanUp(h) =>
      var s' := SetPhase(s, h, Done(Failed(RequestTimeout)));
      if s.handlers[h].key.kind.Tee? then s'.(channels := s.channels - {s.handlers[h].key}) else s'
    case Arrive(key, answer) =>
      s.(callbacks := s.callbacks + [Callback(key, answer,
           if key in s.channels then Holding(s.channels[key]) else Dropped)])
    case Send(c) =>
      var h := s.callbacks[c].phase.handler;
      if ReceiverAlive(s.handlers[h])
      then SetCallback(s, c, Delivered(h)).(handlers := s.handlers[h := s.handlers[h].(slot := Some(c))])
      else SetCallback(s, c, Dropped)
    case Abort(c) => SetCallback(s, c, Dropped)
  }

  ghost predicate IsStep(s: State, a: Action, s': State) {
    Enabled(s, a) && s' == Apply(s, a)
  }

  ghost predicate Continues(s: State, states: seq<State>, actions: seq<Action>) {
    && |states| == |actions| + 1
    && states[0] == s
    && forall k :: 0 <= k < |actions| ==> IsStep(states[k], actions[k], states[k + 1])
  }

  ghost predicate IsRun(states: seq<State>, actions: seq<Action>) {
    Continues(INIT, states, actions)
  }

  // ---------------------------------------------------------------- the invariant

  predicate Registered(p: Phase) {
    p.Waiting? || p.TimedOut? || (p.Done? && p.outcome != Failed(SendFailed))
  }

  /** Callback `c` carries the handler's own id, came after its registration, and went to it. */
  predicate Delivers(s: State, c: nat, h: nat)
    requires h < |s.handlers|
  {
    && s.handlers[h].since <= c < |s.callbacks|
    && s.callbacks[c].key == s.handlers[h].key
    && s.callbacks[c].phase == Delivered(h)
  }

  predicate HandlerOk(s: State, h: nat)
    requires h < |s.handlers|
  {
    var x := s.handlers[h];
    && x.since <= |s.callbacks|
    && (x.phase.Posting? || x.phase.Posted? ==> x.slot.None?)
    && (x.slot.Some? ==> Delivers(s, x.slot.value, h))
    && (x.phase.Done? && x.phase.outcome.Answered? ==> x.slot.None? && Delivers(s, x.phase.outcome.callback, h))
    && (x.phase.Done? && x.phase.outcome == Failed(SendFailed) ==> x.key.kind.Opml?)
  }

  predicate ChannelOk(s: State, key: Key)
    requires key in s.channels
  {
    var h := s.channels[key];
    h < |s.handlers| && s.handlers[h].key == key && Registered(s.handlers[h].phase)
  }

  predicate CallbackOk(s: State, c: nat)
    requires c < |s.callbacks|
  {
    match s.callbacks[c].phase
    case Dropped => true
    case Holding(h) =>
      h < |s.handlers| && s.handlers[h].since <= c && s.callbacks[c].key == s.handlers[h].key
      && Registered(s.handlers[h].phase)
    case Delivered(h) => h < |s.handlers| && Registered(s.handlers[h].phase)
  }

  ghost predicate Inv(s: State) {
    && (forall h :: 0 <= h < |s.handlers| ==> HandlerOk(s, h))
    && (forall key <- s.channels.Keys :: ChannelOk(s, key))
    && (forall c :: 0 <= c < |s.callbacks| ==> CallbackOk(s, c))
  }

  lemma HandlerStepKeepsInv(s: State, a: Action)
    requires Inv(s) && Enabled(s, a) && !a.Arrive? && !a.Send? && !a.Abort?
    ensures Inv(Apply(s, a))
  {
    var s' := Apply(s, a);
    forall h | 0 <= h < |s'.handlers| ensures HandlerOk(s', h) {
      if h < |s.handlers| {
        assert HandlerOk(s, h);
      }
    }
    forall key | key in s'.channels ensures ChannelOk(s', key) {
      if key in s.channels {
        assert ChannelOk(s, key);
      }
    }
    forall c | 0 <= c < |s'.callbacks| ensures CallbackOk(s', c) {
      assert CallbackOk(s, c);
    }
  }

  lemma CallbackStepKeepsInv(s: State, a: Action)
    requires Inv(s) && Enabled(s, a) && (a.Arrive? || a.Send? || a.Abort?)
    ensures Inv(Apply(s, a))
  {
    var s' := Apply(s, a);
    forall h | 0 <= h < |s'.handlers| ensures HandlerOk(s', h) {
      assert HandlerOk(s, h);
      if a.Send? {
        assert CallbackOk(s, a.c);
      }
    }
    forall key | key in s'.channels ensures ChannelOk(s', key) {
      assert ChannelOk(s, key);
    }
    forall c | 0 <= c < |s'.callbacks| ensures CallbackOk(s', c) {
      if c < |s.callbacks| {
        assert CallbackOk(s, c);
      } else if a.key in s.channels {
        assert ChannelOk(s, a.key) && HandlerOk(s, s.channels[a.key]);
      }
    }
  }

  lemma StepKeepsInv(s: State, a: Action)
    requires Inv(s) && Enabled(s, a)
    ensures Inv(Apply(s, a))
  {
    if a.Arrive? || a.Send? || a.Abort? {
      CallbackStepKeepsInv(s, a);
    } else {
      HandlerStepKeepsInv(s, a);
    }
  }

  lemma {:induction false} InvAlways(states: seq<State>, actions: seq<Action>, k: nat)
    requires IsRun(states, actions) && k <= |actions|
    ensures Inv(states[k])
    decreases k
  {
    if k == 0 {
    } else {
      InvAlways(states, actions, k - 1);
      assert IsStep(states[k - 1], actions[k - 1], states[k]);
      StepKeepsInv(states[k - 1], actions[k - 1]);
    }
  }

  // ---------------------------------------------------------------- where an answer comes from

  lemma {:induction false} WasRegistered(states: seq<State>, actions: seq<Action>, k: nat, h: nat) returns (reg: nat)
    requires IsRun(states, actions) && k <= |actions|
    requires h < |states[k].handlers| && Registered(states[k].handlers[h].phase)
    ensures reg < k && actions[reg] == Register(h)
    ensures states[k].handlers[h].since == |states[reg].callbacks|
    decreases k
  {
    assert IsStep(states[k - 1], actions[k - 1], states[k]);
    if actions[k - 1] == Register(h) {
      reg := k - 1;
    } else {
      reg := WasRegistered(states, actions, k - 1, h);
    }
  }

  lemma {:induction false} HasArrived(states: seq<State>, actions: seq<Action>, k: nat, c: nat) returns (arr: nat)
    requires IsRun(states, actions) && k <= |actions| && c < |states[k].callbacks|
    ensures arr < k && |states[arr].callbacks| == c
    ensures actions[arr] == Arrive(states[k].callbacks[c].key, states[k].callbacks[c].answer)
    decreases k
  {
    assert IsStep(states[k - 1], actions[k - 1], states[k]);
    if c < |states[k - 1].callbacks| {
      arr := HasArrived(states, actions, k - 1, c);
    } else {
      arr := k - 1;
    }
  }

  lemma {:induction false} CallbacksGrow(states: seq<State>, actions: seq<Action>, j: nat, k: nat)
    requires IsRun(states, actions) && j <= k <= |actions|
    ensures |states[j].callbacks| <= |states[k].callbacks|
    ensures j < k && actions[j].Arrive? ==> |states[j].callbacks| < |states[k].callbacks|
    decreases k
  {
    if j == k {
    } else {
      CallbacksGrow(states, actions, j, k - 1);
      assert IsStep(states[k - 1], actions[k - 1], states[k]);
    }
  }

  /** An answer a handler returns came from a callback with the handler's own request id that
      arrived after its channel was registered. */
  lemma AnswerIsOwnCallback(states: seq<State>, actions: seq<Action>, k: nat, h: nat)
    returns (reg: nat, arr: nat)
    requires IsRun(states, actions) && k <= |actions| && h < |states[k].handlers|
    requires states[k].handlers[h].phase.Done? && states[k].handlers[h].phase.outcome.Answered?
    ensures reg < arr < k && actions[reg] == Register(h)
    ensures var c := states[k].handlers[h].phase.outcome.callback;
      && c < |states[k].callbacks|
      && actions[arr] == Arrive(states[k].handlers[h].key, states[k].callbacks[c].answer)
  {
    InvAlways(states, actions, k);
    assert HandlerOk(states[k], h);
    reg := WasRegistered(states, actions, k, h);
    arr := HasArrived(states, actions, k, states[k].handlers[h].phase.outcome.callback);
    if arr < reg {
      CallbacksGrow(states, actions, arr, reg);
    }
  }

  /** One callback answers at most one handler. */
  lemma CallbackAnswersOnce(states: seq<State>, actions: seq<Action>, k: nat, g: nat, h: nat)
    requires IsRun(states, actions) && k <= |actions| && g < |states[k].handlers| && h < |states[k].handlers|
    requires states[k].handlers[g].phase.Done? && states[k].handlers[g].phase.outcome.Answered?
    requires states[k].handlers[h].phase == states[k].handlers[g].phase
    ensures g == h
  {
    InvAlways(states, actions, k);
    assert HandlerOk(states[k], g) && HandlerOk(states[k], h);
  }

  /** A handler's outcome is final, so it consumes at most one answer. */
  lemma {:induction false} OutcomeIsFinal(states: seq<State>, actions: seq<Action>, h: nat, j: nat, k: nat)
    requires IsRun(states, actions) && j <= k <= |actions|
    requires h < |states[j].handlers| && states[j].handlers[h].phase.Done?
    ensures h < |states[k].handlers| && states[k].handlers[h].phase == states[j].handlers[h].phase
    decreases k
  {
    if j == k {
    } else {
      OutcomeIsFinal(states, actions, h, j, k - 1);
      assert IsStep(states[k - 1], actions[k - 1], states[k]);
    }
  }

  // ---------------------------------------------------------------- with fresh request ids

  ghost predicate FreshIds(s: State) {
    forall g, h :: 0 <= g < h < |s.handlers| ==> s.handlers[g].key != s.handlers[h].key
  }

  /** The channel is filed: it was registered and, for TEE, not cleaned up after a timeout. */
  predicate Filed(h: Handler) {
    Registered(h.phase) && !(h.key.kind.Tee? && h.phase == Done(Failed(RequestTimeout)))
  }

  ghost predicate FilingOk(s: State) {
    && (forall key <- s.channels.Keys :: FiledEntry(s, key))
    && (forall h :: 0 <= h < |s.handlers| && Filed(s.handlers[h]) ==> FiledUnderOwnKey(s, h))
  }

  ghost predicate FiledEntry(s: State, key: Key)
    requires key in s.channels
  {
    s.channels[key] < |s.handlers| && s.handlers[s.channels[key]].key == key && Filed(s.handlers[s.channels[key]])
  }

  ghost predicate FiledUnderOwnKey(s: State, h: nat)
    requires h < |s.handlers|
  {
    s.handlers[h].key in s.channels && s.channels[s.handlers[h].key] == h
  }

  lemma KeysAreFixed(s: State, a: Action)
    requires Enabled(s, a)
    ensures |s.handlers| <= |Apply(s, a).handlers|
    ensures forall h :: 0 <= h < |s.handlers| ==> Apply(s, a).handlers[h].key == s.handlers[h].key
  {}

  lemma EntryStaysFiled(s: State, a: Action, key: Key)
    requires FilingOk(s) && Enabled(s, a) && FreshIds(Apply(s, a)) && key in Apply(s, a).channels
    ensures FiledEntry(Apply(s, a), key)
  {
    KeysAreFixed(s, a);
    if key in s.channels {
      assert FiledEntry(s, key);
    }
  }

  lemma HandlerStaysFiled(s: State, a: Action, h: nat)
    requires FilingOk(s) && Enabled(s, a) && FreshIds(Apply(s, a))
    requires h < |Apply(s, a).handlers| && Filed(Apply(s, a).handlers[h])
    ensures FiledUnderOwnKey(Apply(s, a), h)
  {
    KeysAreFixed(s, a);
    if h < |s.handlers| && Filed(s.handlers[h]) {
      assert FiledUnderOwnKey(s, h);
    }
  }

  lemma StepKeepsFiling(s: State, a: Action)
    requires FilingOk(s) && Enabled(s, a) && FreshIds(Apply(s, a))
    ensures FilingOk(Apply(s, a))
  {
    var s' := Apply(s, a);
    forall key | key in s'.channels ensures FiledEntry(s', key) {
      EntryStaysFiled(s, a, key);
    }
    forall h | 0 <= h < |s'.handlers| && Filed(s'.handlers[h]) ensures FiledUnderOwnKey(s', h) {
      HandlerStaysFiled(s, a, h);
    }
  }

  lemma {:induction false} FreshBefore(states: seq<State>, actions: seq<Action>, j: nat, k: nat)
    requires IsRun(states, actions) && j <= k <= |actions| && FreshIds(states[k])
    ensures FreshIds(states[j])
    decreases k
  {
    if j == k {
    } else {
      var s, s' := states[k - 1], states[k];
      assert IsStep(s, actions[k - 1], s');
      forall g, h | 0 <= g < h < |s.handlers| ensures s.handlers[g].key != s.handlers[h].key {
        assert s'.handlers[g].key == s.handlers[g].key && s'.handlers[h].key == s.handlers[h].key;
      }
      FreshBefore(states, actions, j, k - 1);
    }
  }

  lemma {:induction false} FilingAlways(states: seq<State>, actions: seq<Action>, k: nat)
    requires IsRun(states, actions) && k <= |actions| && FreshIds(states[k])
    ensures FilingOk(states[k])
    decreases k
  {
    if k == 0 {
    } else {
      FreshBefore(states, actions, k - 1, k);
      FilingAlways(states, actions, k - 1);
      assert IsStep(states[k - 1], actions[k - 1], states[k]);
      StepKeepsFiling(states[k - 1], actions[k - 1]);
    }
  }

  /** With fresh ids a callback that arrives while a handler waits reaches exactly that handler, and
      one that arrives before the registration (or for an id nobody asked) is dropped. */
  lemma CallbacksAreRoutedToTheirJob(states: seq<State>, actions: seq<Action>, k: nat, h: nat)
    requires IsRun(states, actions) && k < |actions| && FreshIds(states[k])
    requires h < |states[k].handlers| && actions[k].Arrive? && actions[k].key == states[k].handlers[h].key
    ensures |states[k + 1].callbacks| == |states[k].callbacks| + 1
    ensures states[k + 1].callbacks[|states[k].callbacks|].phase
            == if Filed(states[k].handlers[h]) then Holding(h) else Dropped
  {
    FilingAlways(states, actions, k);
    var s := states[k];
    assert IsStep(s, actions[k], states[k + 1]);
    KeyIsFiled(s, h);
  }

  lemma KeyIsFiled(s: State, h: nat)
    requires FilingOk(s) && FreshIds(s) && h < |s.handlers|
    ensures s.handlers[h].key in s.channels <==> Filed(s.handlers[h])
    ensures Filed(s.handlers[h]) ==> s.channels[s.handlers[h].key] == h
  {
    if Filed(s.handlers[h]) {
      assert FiledUnderOwnKey(s, h);
    }
    if s.handlers[h].key in s.channels {
      assert FiledEntry(s, s.handlers[h].key);
      var g := s.channels[s.handlers[h].key];
      assert !(g < h) && !(h < g);
    }
  }

  /** What stays in the maps: every channel ever registered, except those of TEE questions that timed
      out and were cleaned up.  Answered questions and timed-out OPML ones leave theirs behind. */
  lemma ChannelsLeftBehind(states: seq<State>, actions: seq<Action>, k: nat)
    requires IsRun(states, actions) && k <= |actions| && FreshIds(states[k])
    ensures states[k].channels.Keys
            == set h | 0 <= h < |states[k].handlers| && Filed(states[k].handlers[h]) :: states[k].handlers[h].key
  {
    FilingAlways(states, actions, k);
    var s := states[k];
    forall key | key in s.channels.Keys
      ensures key in set h | 0 <= h < |s.handlers| && Filed(s.handlers[h]) :: s.handlers[h].key
    {
      assert FiledEntry(s, key);
    }
    forall h | 0 <= h < |s.handlers| && Filed(s.handlers[h]) ensures s.handlers[h].key in s.channels.Keys {
      assert FiledUnderOwnKey(s, h);
    }
  }

  // ---------------------------------------------------------------- nothing is scheduled away

  /** What may happen next: a question begins or registers whenever the lock is free, a callback comes
      whenever its lock is, a post ends, a wait ends by an answer or by time, and a callback that holds
      the lock may be ended from outside. */
  lemma AnythingMayHappen(s: State, key: Key, answer: string, h: nat, c: nat)
    ensures LockFree(s) ==> Enabled(s, Begin(key)) && Enabled(s, Arrive(key, answer))
    ensures NoWriter(s) && key.kind.Tee? ==> Enabled(s, Arrive(key, answer))
    ensures LockFree(s) <==>
              (forall g :: 0 <= g < |s.handlers| ==> !s.handlers[g].phase.Posting?)
              && (forall d :: 0 <= d < |s.callbacks| ==> !s.callbacks[d].phase.Holding?)
    ensures h < |s.handlers| ==>
              match s.handlers[h].phase
              case Posting => Enabled(s, PostDone(h)) && (s.handlers[h].key.kind.Opml? ==> Enabled(s, PostFailed(h)))
              case Posted => LockFree(s) ==> Enabled(s, Register(h))
              case Waiting => Enabled(s, Expire(h)) && (s.handlers[h].slot.Some? ==> Enabled(s, Receive(h)))
              case TimedOut => s.handlers[h].key.kind.Opml? || LockFree(s) ==> Enabled(s, CleanUp(h))
              case Done(_) => true
    ensures c < |s.callbacks| && s.callbacks[c].phase == Holding(h) && h < |s.handlers| ==>
              Enabled(s, Abort(c))
              && (s.handlers[h].slot.None? || s.handlers[h].phase.Done? ==> Enabled(s, Send(c)))
  {
    if h < |s.handlers| && LockFree(s) {
      assert s.handlers[h] in s.handlers;
    }
  }
}
