/** When a timed-out TEE question can still return (`operator/verify_hub/src/tee/handler.rs`).

    It wants the write lock to take its channel out of the map.  A callback for it that found the
    channel full keeps the read lock, and nobody empties the channel any more.  The lock here has no
    queue of waiters: any enabled action may come next. */
module HubStall {
  import opened FiniteSets
  import opened Rendezvous
  import opened Wrappers

  /** Callback `c` is in the handler's slot, or holds the lock to get there. */
  predicate Bears(s: State, c: nat, h: nat)
    requires h < |s.handlers|
  {
    c < |s.callbacks| && (s.callbacks[c].phase == Holding(h) || s.handlers[h].slot == Some(c))
  }

  predicate TeeTimedOut(s: State, h: nat) {
    h < |s.handlers| && s.handlers[h].key.kind.Tee? && s.handlers[h].phase.TimedOut?
  }

  /** A timed-out TEE handler wants the write lock, while one of two callbacks for it keeps the read
      lock: the slot takes one answer only, and nothing but the handler could empty it. */
  predicate Stalled(s: State, h: nat, c: nat, d: nat) {
    TeeTimedOut(s, h) && c != d && Bears(s, c, h) && Bears(s, d, h)
  }

  ghost predicate NoneStalled(s: State) {
    forall h, c, d :: !Stalled(s, h, c, d)
  }

  lemma StalledBlocksWriters(s: State, h: nat, c: nat, d: nat)
    requires Stalled(s, h, c, d)
    ensures !LockFree(s)
  {
    assert s.callbacks[c] in s.callbacks && s.callbacks[d] in s.callbacks;
  }

  lemma StepKeepsStall(s: State, a: Action, h: nat, c: nat, d: nat)
    requires Stalled(s, h, c, d) && Enabled(s, a) && a != Abort(c) && a != Abort(d)
    ensures Stalled(Apply(s, a), h, c, d) && !a.Begin? && !a.Register?
    ensures forall g :: TeeTimedOut(s, g) ==> a != CleanUp(g)
  {
    StalledBlocksWriters(s, h, c, d);
  }

  /** Only a client giving up on one of the two callbacks, or the server's time limit on it, ends the
      stall; until then no question begins, no channel is registered and no timed-out TEE question
      returns. */
  lemma {:induction false} StallLastsUntilAbort(s: State, states: seq<State>, actions: seq<Action>, k: nat,
                                                      h: nat, c: nat, d: nat)
    requires Continues(s, states, actions) && k <= |actions| && Stalled(s, h, c, d)
    requires forall m :: 0 <= m < k ==> actions[m] != Abort(c) && actions[m] != Abort(d)
    ensures Stalled(states[k], h, c, d)
    ensures forall m :: 0 <= m < k ==> !actions[m].Begin? && !actions[m].Register?
    ensures forall m, g :: 0 <= m < k && TeeTimedOut(states[m], g) ==> actions[m] != CleanUp(g)
    decreases k
  {
    if k == 0 {
    } else {
      StallLastsUntilAbort(s, states, actions, k - 1, h, c, d);
      assert IsStep(states[k - 1], actions[k - 1], states[k]);
      StepKeepsStall(states[k - 1], actions[k - 1], h, c, d);
    }
  }

  lemma {:induction false} TimedOutTeeStays(s: State, states: seq<State>, actions: seq<Action>, k: nat, h: nat)
    requires Continues(s, states, actions) && k <= |actions| && TeeTimedOut(s, h)
    requires forall m :: 0 <= m < k && TeeTimedOut(states[m], h) ==> actions[m] != CleanUp(h)
    ensures TeeTimedOut(states[k], h)
    decreases k
  {
    if k == 0 {
    } else {
      TimedOutTeeStays(s, states, actions, k - 1, h);
      assert IsStep(states[k - 1], actions[k - 1], states[k]);
    }
  }

  // ---------------------------------------------------------------- otherwise the lock comes free

  /** `s` can go on to `t` while no callback is ended from outside. */
  ghost predicate Leads(s: State, t: State) {
    exists states: seq<State>, actions: seq<Action> :: Path(s, states, actions, t)
  }

  ghost predicate Path(s: State, states: seq<State>, actions: seq<Action>, t: State) {
    Continues(s, states, actions) && states[|actions|] == t
    && forall a <- actions :: !a.Abort?
  }

  lemma LeadsToItself(s: State)
    ensures Leads(s, s)
  {
    assert Path(s, [s], [], s);
  }

  lemma LeadsBy(s: State, a: Action, t: State)
    requires Enabled(s, a) && !a.Abort? && Leads(Apply(s, a), t)
    ensures Leads(s, t)
  {
    var states, actions :| Path(Apply(s, a), states, actions, t);
    var longer, steps := [s] + states, [a] + actions;
    forall k | 0 <= k < |steps| ensures IsStep(longer[k], steps[k], longer[k + 1]) {
      assert k > 0 ==> IsStep(states[k - 1], actions[k - 1], states[k]);
    }
    assert Path(s, longer, steps, t);
  }

  function Holders(s: State): set<nat> {
    set c | 0 <= c < |s.callbacks| && s.callbacks[c].phase.Holding?
  }

  function Posters(s: State): set<nat> {
    set h | 0 <= h < |s.handlers| && s.handlers[h].phase.Posting?
  }

  ghost predicate Calm(s: State) {
    Inv(s) && NoneStalled(s)
  }

  /** Steps that add no timed-out TEE handler and no callback bearing on one keep the state calm. */
  lemma StaysCalm(s: State, a: Action)
    requires Calm(s) && Enabled(s, a) && (a.PostDone? || a.Receive? || a.CleanUp? || a.Send?)
    ensures Calm(Apply(s, a))
  {
    StepKeepsInv(s, a);
    var s' := Apply(s, a);
    forall h, c, d | Stalled(s', h, c, d) ensures false {
      assert Stalled(s, h, c, d);
    }
  }

  /** The action that lets callback `c`, which holds the lock, move on. */
  function Relief(s: State, c: nat): Action
    requires c in Holders(s)
  {
    var h := s.callbacks[c].phase.handler;
    if h < |s.handlers| && s.handlers[h].slot.Some? then
      match s.handlers[h].phase
      case Waiting => Receive(h)
      case TimedOut => CleanUp(h)
      case _ => Send(c)
    else Send(c)
  }

  lemma ReliefIsEnabled(s: State, c: nat)
    requires Calm(s) && c in Holders(s)
    ensures Enabled(s, Relief(s, c))
    ensures Relief(s, c).Receive? || Relief(s, c).CleanUp? || Relief(s, c) == Send(c)
    ensures forall h :: TeeTimedOut(s, h) ==> Relief(s, c) != CleanUp(h)
  {
    assert CallbackOk(s, c);
    var h := s.callbacks[c].phase.handler;
    assert HandlerOk(s, h);
    if s.handlers[h].phase.TimedOut? && s.handlers[h].slot.Some? {
      var d := s.handlers[h].slot.value;
      assert s.callbacks[d].phase == Delivered(h);
      assert !Stalled(s, h, c, d);
    }
  }

  function Alive(s: State): set<nat> {
    set h | 0 <= h < |s.handlers| && ReceiverAlive(s.handlers[h])
  }

  function Work(s: State): nat {
    |Posters(s)| + |Holders(s)| + |Alive(s)|
  }

  lemma PostingEnds(s: State, h: nat)
    requires h in Posters(s)
    ensures Enabled(s, PostDone(h)) && Work(Apply(s, PostDone(h))) < Work(s)
  {
    var s' := Apply(s, PostDone(h));
    ProperSubsetSize(Posters(s'), Posters(s), h);
    SubsetSize(Holders(s'), Holders(s));
    SubsetSize(Alive(s'), Alive(s));
  }

  lemma HolderMovesOn(s: State, c: nat)
    requires Calm(s) && c in Holders(s)
    ensures Enabled(s, Relief(s, c)) && Work(Apply(s, Relief(s, c))) < Work(s)
  {
    ReliefIsEnabled(s, c);
    var a := Relief(s, c);
    var s' := Apply(s, a);
    SubsetSize(Posters(s'), Posters(s));
    SubsetSize(Holders(s'), Holders(s));
    SubsetSize(Alive(s'), Alive(s));
    if a.Send? {
      ProperSubsetSize(Holders(s'), Holders(s), c);
    } else {
      ProperSubsetSize(Alive(s'), Alive(s), a.h);
    }
  }

  lemma IdleLockIsFree(s: State)
    requires Posters(s) == {} && Holders(s) == {}
    ensures LockFree(s)
  {
    forall h | 0 <= h < |s.handlers| ensures !s.handlers[h].phase.Posting? {
      assert h !in Posters(s);
    }
    forall c | 0 <= c < |s.callbacks| ensures !s.callbacks[c].phase.Holding? {
      assert c !in Holders(s);
    }
  }

  /** The handler can still return while no callback is ended from outside. */
  ghost predicate CanReturn(s: State, h: nat) {
    exists t :: Leads(s, t) && h < |t.handlers| && t.handlers[h].phase.Done?
  }

  lemma ReturnsBy(s: State, a: Action, h: nat)
    requires Enabled(s, a) && !a.Abort? && CanReturn(Apply(s, a), h)
    ensures CanReturn(s, h)
  {
    var t :| Leads(Apply(s, a), t) && h < |t.handlers| && t.handlers[h].phase.Done?;
    LeadsBy(s, a, t);
  }

  /** Without a stall every holder of the lock moves on, and then the handler gets it. */
  lemma {:induction false} CalmHandlerReturns(s: State, h: nat)
    requires Calm(s) && TeeTimedOut(s, h)
    ensures CanReturn(s, h)
    decreases Work(s)
  {
    if Posters(s) != {} {
      var g :| g in Posters(s);
      PostingEnds(s, g);
      StaysCalm(s, PostDone(g));
      CalmHandlerReturns(Apply(s, PostDone(g)), h);
      ReturnsBy(s, PostDone(g), h);
    } else if Holders(s) != {} {
      var c :| c in Holders(s);
      HolderMovesOn(s, c);
      ReliefIsEnabled(s, c);
      StaysCalm(s, Relief(s, c));
      CalmHandlerReturns(Apply(s, Relief(s, c)), h);
      ReturnsBy(s, Relief(s, c), h);
    } else {
      IdleLockIsFree(s);
      LeadsToItself(Apply(s, CleanUp(h)));
      ReturnsBy(s, CleanUp(h), h);
    }
  }

  lemma StalledHandlerStays(s: State, h: nat, g: nat, c: nat, d: nat)
    requires TeeTimedOut(s, h) && Stalled(s, g, c, d)
    ensures !CanReturn(s, h)
  {
    forall t | Leads(s, t) ensures TeeTimedOut(t, h) {
      var states: seq<State>, actions: seq<Action> :| Path(s, states, actions, t);
      forall m | 0 <= m < |actions| ensures !actions[m].Abort? {
        assert actions[m] in actions;
      }
      StallLastsUntilAbort(s, states, actions, |actions|, g, c, d);
      TimedOutTeeStays(s, states, actions, |actions|, h);
    }
  }

  /** In every reachable state a timed-out TEE question can still return, no callback being ended from
      outside, if and only if every timed-out TEE handler has at most one callback in its slot or
      holding the lock for it. */
  lemma ReturnsIffNoneStalled(states: seq<State>, actions: seq<Action>, k: nat, h: nat)
    requires IsRun(states, actions) && k <= |actions| && TeeTimedOut(states[k], h)
    ensures CanReturn(states[k], h) <==> NoneStalled(states[k])
  {
    InvAlways(states, actions, k);
    if NoneStalled(states[k]) {
      CalmHandlerReturns(states[k], h);
    } else {
      var g, c, d :| Stalled(states[k], g, c, d);
      StalledHandlerStays(states[k], h, g, c, d);
    }
  }

  /** Both callbacks of a stall carry the handler's own id and came after its registration, so where
      every id is called back at most once there is none. */
  lemma StallNeedsTwoCallbacks(states: seq<State>, actions: seq<Action>, k: nat, h: nat, c: nat, d: nat)
    requires IsRun(states, actions) && k <= |actions| && Stalled(states[k], h, c, d)
    ensures c != d && states[k].handlers[h].since <= c && states[k].handlers[h].since <= d
    ensures states[k].callbacks[c].key == states[k].callbacks[d].key == states[k].handlers[h].key
  {
    InvAlways(states, actions, k);
    assert HandlerOk(states[k], h) && CallbackOk(states[k], c) && CallbackOk(states[k], d);
  }

  // ---------------------------------------------------------------- a stall is reachable

  // One question whose two callbacks both enter before its time is up.
  function StallAction(id: string, k: nat): Action {
    var key := Key(Tee, id);
    match k
    case 0 => Begin(key)
    case 1 => PostDone(0)
    case 2 => Register(0)
    case 3 => Arrive(key, "")
    case 4 => Arrive(key, "")
    case _ => Expire(0)
  }

  function StallState(id: string, k: nat): State {
    var key := Key(Tee, id);
    var filed, holding := map[key := 0], Callback(key, "", Holding(0));
    match k
    case 0 => INIT
    case 1 => State([Handler(key, Posting, None, 0)], map[], [])
    case 2 => State([Handler(key, Posted, None, 0)], map[], [])
    case 3 => State([Handler(key, Waiting, None, 0)], filed, [])
    case 4 => State([Handler(key, Waiting, None, 0)], filed, [holding])
    case 5 => State([Handler(key, Waiting, None, 0)], filed, [holding, holding])
    case _ => State([Handler(key, TimedOut, None, 0)], filed, [holding, holding])
  }

  lemma StallStep(id: string, k: nat)
    requires k < 6
    ensures IsStep(StallState(id, k), StallAction(id, k), StallState(id, k + 1))
  {}

  /** The stall is reachable with a single question, whose two callbacks take the read lock before the
      handler asks for the write lock (a lock that queues its waiters would keep later ones out). */
  lemma StallIsReachable(id: string)
    ensures exists states: seq<State>, actions: seq<Action> ::
              IsRun(states, actions) && FreshIds(states[|actions|]) && Stalled(states[|actions|], 0, 0, 1)
  {
    var states := seq(7, k requires 0 <= k => StallState(id, k));
    var actions := seq(6, k requires 0 <= k => StallAction(id, k));
    forall k | 0 <= k < 6 ensures IsStep(states[k], actions[k], states[k + 1]) {
      StallStep(id, k);
    }
    assert IsRun(states, actions);
    assert states[|actions|] == StallState(id, 6);
  }
}
