/** One job, from dispatch to result (`do_job`, `do_opml_job`, `do_tee_job` in
    `operator/runer/src/api/msg_handler.rs`). */
module JobResult {
  import opened MachineInts
  import opened Wrappers
  import opened Decimal
  import opened OrdinaryClock
  import Hub = Rendezvous
  import opened VrfReply

  const MAX_RETRIES: nat := 600

  datatype JobError =
    | Timeout
    | HubError
    | ClockMissing
    | ClockUnparsable
    | ClockOverflow
    | UnsupportedTag
    | VrfError

  type WireClock = map<string, string>

  // ---------------------------------------------------------------- waiting for a worker

  /** `poll(i)` is the answer to status request number `i`, `None` when the request failed. */
  method AwaitOpmlWorker(poll: nat -> Option<string>) returns (ready: Result<nat, JobError>)
    ensures ready.Ok? ==> ready.value < 600 && poll(ready.value) == Some("0")
                          && forall i :: 0 <= i < ready.value ==> poll(i) != Some("0")
    ensures ready.Err? ==> ready.error == Timeout
    ensures ready.Err? ==> forall i :: 0 <= i < 600 ==> poll(i) != Some("0")
  {
    var retries := 0;
    while true
      invariant retries <= MAX_RETRIES
      invariant forall i :: 0 <= i < retries ==> poll(i) != Some("0")
      decreases MAX_RETRIES - retries
    {
      if retries >= MAX_RETRIES {
        return Err(Timeout);
      }
      var status := poll(retries);
      if status.None? {
        retries := retries + 1;
        continue;
      }
      if status.value == "0" {
        return Ok(retries);
      }
      retries := retries + 1;
    }
  }

  method AwaitTeeWorker(poll: nat -> Option<nat>) returns (ready: Result<nat, JobError>)
    ensures ready.Ok? ==> ready.value < 600 && poll(ready.value).Some? && poll(ready.value).value > 0
                          && forall i :: 0 <= i < ready.value ==> poll(i).None? || poll(i).value == 0
    ensures ready.Err? ==> ready.error == Timeout
    ensures ready.Err? ==> forall i :: 0 <= i < 600 ==> poll(i).None? || poll(i).value == 0
  {
    var retries := 0;
    while true
      invariant retries <= MAX_RETRIES
      invariant forall i :: 0 <= i < retries ==> poll(i).None? || poll(i).value == 0
      decreases MAX_RETRIES - retries
    {
      if retries >= MAX_RETRIES {
        return Err(Timeout);
      }
      var status := poll(retries);
      if status.None? {
        retries := retries + 1;
        continue;
      }
      if status.value > 0 {
        return Ok(retries);
      }
      retries := retries + 1;
    }
  }

  // ---------------------------------------------------------------- the result's clock

  /** The clock of a result: one entry of the dispatched clock, one further.  `chosen` is whichever
      entry the hash map happens to yield last. */
  function ResultClock(clock: WireClock, chosen: string): Result<WireClock, JobError>
    requires clock != map[] ==> chosen in clock
  {
    if clock == map[] then Err(ClockMissing)
    else
      var n := ParseU32(clock[chosen]);
      if n.None? then Err(ClockUnparsable)
      else if n.value + 1 >= U32_RANGE then Err(ClockOverflow)
      else Ok(map[chosen := ToString(n.value + 1)])
  }

  /** When there is no result clock, and what it is otherwise: the chosen entry alone, printed one
      higher. */
  lemma ResultClockCases(clock: WireClock, chosen: string)
    requires clock != map[] ==> chosen in clock
    ensures ResultClock(clock, chosen) == Err(ClockMissing) <==> clock == map[]
    ensures ResultClock(clock, chosen) == Err(ClockUnparsable) <==> clock != map[] && ParseU32(clock[chosen]).None?
    ensures ResultClock(clock, chosen) == Err(ClockOverflow)
            <==> clock != map[] && ParseU32(clock[chosen]) == Some(0xffff_ffff)
    ensures forall n :: clock != map[] && ParseU32(clock[chosen]) == Some(n) && n < 0xffff_ffff ==>
              && ResultClock(clock, chosen).Ok?
              && ResultClock(clock, chosen).value.Keys == {chosen}
              && ParseU32(ResultClock(clock, chosen).value[chosen]) == Some(n + 1)
  {
    if clock != map[] && ParseU32(clock[chosen]).Some? {
      ParsePrinted(ParseU32(clock[chosen]).value + 1);
    }
  }

  /** A clock as it travels: ids and counters printed in decimal. */
  function Wire(c: Clock): WireClock {
    PrintedIdsDiffer();
    map k | k in c.Keys :: ToString(k) := ToString(c[k])
  }

  lemma PrintedIdsDiffer()
    ensures forall j: KeyId, k: KeyId :: ToString(j) == ToString(k) ==> j == k
  {
    forall j: KeyId, k: KeyId | ToString(j) == ToString(k) ensures j == k {
      ToStringInjective(j, k);
    }
  }

  lemma WireEntry(c: Clock, k: KeyId)
    ensures ToString(k) in Wire(c) <==> k in c
    ensures k in c ==> Wire(c)[ToString(k)] == ToString(c[k])
  {
    PrintedIdsDiffer();
  }

  lemma WireSingleton(k: KeyId, n: u32)
    ensures Wire(map[k := n]) == map[ToString(k) := ToString(n)]
  {
    var c: Clock := map[k := n];
    WireEntry(c, k);
    forall id | id in Wire(c) ensures id == ToString(k) {
      var j :| j in c.Keys && id == ToString(j);
    }
  }

  /** The result's clock is the dispatched entry incremented, unless it stands at u32::MAX. */
  lemma ResultClockOfEntry(c: Clock, k: KeyId)
    requires k in c
    ensures ToString(k) in Wire(c)
    ensures ResultClock(Wire(c), ToString(k))
            == if c[k] == U32_RANGE - 1 then Err(ClockOverflow)
               else Ok(Wire(map[k := c[k] + 1]))
  {
    WireEntry(c, k);
    ParsePrinted(c[k]);
    if c[k] != U32_RANGE - 1 {
      WireSingleton(k, c[k] + 1);
    }
  }

  /** For a clock with one entry the result is the vector-clock update of the operator's own id. */
  lemma SingleEntryResultIsUpdate(c: Clock, k: KeyId)
    requires c.Keys == {k} && c[k] < U32_RANGE - 1
    ensures ToString(k) in Wire(c)
    ensures ResultClock(Wire(c), ToString(k)) == Ok(Wire(Updated(c, [], k)))
  {
    ResultClockOfEntry(c, k);
    UpdateOfSingleton(c, k);
  }

  lemma UpdateOfSingleton(c: Clock, k: KeyId)
    requires c.Keys == {k} && c[k] < U32_RANGE - 1
    ensures Updated(c, [], k) == map[k := c[k] + 1]
  {
    assert FoldMerge(c, []) == c;
  }

  /** For a clock with more entries it lies strictly above the dispatched clock if and only if every
      entry that was not chosen is zero. */
  lemma ResultAboveDispatched(c: Clock, k: KeyId)
    requires k in c && c[k] < U32_RANGE - 1
    ensures StrictlyAbove(map[k := c[k] + 1], c) <==> forall j :: j in c && j != k ==> c[j] == 0
  {
    var result: Clock := map[k := c[k] + 1];
    assert Get(result, k) > Get(c, k);
    if StrictlyAbove(result, c) {
      forall j | j in c && j != k ensures c[j] == 0 {
        assert Get(c, j) <= Get(result, j);
      }
    }
  }

  // ---------------------------------------------------------------- do_job

  /** `VRFReply::default()`. */
  const NO_VRF := Reply(false, "", "", "", "")

  datatype JobResult = JobResult(result: string, vrf: Reply, clock: WireClock)

  function WrongTypeMessage(nodeType: string, jobTag: string): string {
    "unsupported worker type, need " + nodeType + ", got " + jobTag
  }

  /** Which kind of worker the job is put to, if any. */
  function Routed(jobTag: string, nodeType: string, vrf: Reply): Option<Hub.Kind> {
    if jobTag != nodeType || !vrf.selected then None
    else if jobTag == "opml" then Some(Hub.Opml)
    else if jobTag == "tee" then Some(Hub.Tee)
    else None
  }

  /** The job's question handler has returned. */
  ghost predicate Returned(hub: Hub.State, h: nat, kind: Hub.Kind) {
    && Hub.Inv(hub)
    && h < |hub.handlers| && hub.handlers[h].key.kind == kind && hub.handlers[h].phase.Done?
  }

  /** What a question handler that has returned gives to its job. */
  ghost function HubReply(hub: Hub.State, h: nat, kind: Hub.Kind): Result<string, JobError>
    requires Returned(hub, h, kind)
  {
    assert Hub.HandlerOk(hub, h);
    match hub.handlers[h].phase.outcome
    case Answered(c) => Ok(hub.callbacks[c].answer)
    case Failed(RequestTimeout) => Err(Timeout)
    case Failed(SendFailed) => Err(HubError)
  }

  /** `do_opml_job` and `do_tee_job`: wait for a worker, ask the hub, step the clock. */
  ghost function Execute(kind: Hub.Kind, ready: Result<nat, JobError>, hub: Hub.State, h: nat,
                         clock: WireClock, chosen: string): Result<JobResult, JobError>
    requires clock != map[] ==> chosen in clock
    requires ready.Ok? ==> Returned(hub, h, kind)
  {
    if ready.Err? then Err(ready.error)
    else
      var answer :- HubReply(hub, h, kind);
      var next :- ResultClock(clock, chosen);
      Ok(JobResult(answer, NO_VRF, next))
  }

  /** `hub` and `h` are the hub and the job's handler in it when the handler returns, if the job gets
      as far as a question. */
  ghost function DoJob(jobTag: string, nodeType: string, vrf: Result<Reply, JobError>, clock: WireClock,
                       chosen: string, ready: Result<nat, JobError>, hub: Hub.State, h: nat)
    : Result<JobResult, JobError>
    requires clock != map[] ==> chosen in clock
    requires vrf.Ok? && ready.Ok? && Routed(jobTag, nodeType, vrf.value).Some? ==>
               Returned(hub, h, Routed(jobTag, nodeType, vrf.value).value)
  {
    var reply :- vrf;
    if jobTag != nodeType then
      var next :- ResultClock(clock, chosen);
      Ok(JobResult(WrongTypeMessage(nodeType, jobTag), reply, next))
    else if !reply.selected then
      var next :- ResultClock(clock, chosen);
      Ok(JobResult("", reply, next))
    else if jobTag == "opml" then Execute(Hub.Opml, ready, hub, h, clock, chosen)
    else if jobTag == "tee" then Execute(Hub.Tee, ready, hub, h, clock, chosen)
    else Err(UnsupportedTag)
  }

  /** In every interleaving of jobs and callbacks at the hub, the text of an executed job's result is
      the answer of a callback with the job's own request id that arrived after the job's channel was
      registered.  A question that times out, or cannot be sent, makes the job fail instead. */
  lemma JobAnswerIsOwnCallback(states: seq<Hub.State>, actions: seq<Hub.Action>, k: nat, h: nat,
                               jobTag: string, nodeType: string, vrf: Reply, clock: WireClock,
                               chosen: string, ready: Result<nat, JobError>)
    returns (reg: nat, arr: nat)
    requires Hub.IsRun(states, actions) && k <= |actions| && h < |states[k].handlers|
    requires clock != map[] ==> chosen in clock
    requires ready.Ok? && states[k].handlers[h].phase.Done?
    requires Routed(jobTag, nodeType, vrf) == Some(states[k].handlers[h].key.kind)
    ensures Returned(states[k], h, states[k].handlers[h].key.kind)
    ensures var x := states[k].handlers[h];
      match DoJob(jobTag, nodeType, Ok(vrf), clock, chosen, ready, states[k], h)
      case Ok(r) =>
        && reg < arr < k && actions[reg] == Hub.Register(h)
        && actions[arr] == Hub.Arrive(x.key, r.result)
      case Err(error) =>
        if x.phase.outcome == Hub.Failed(Hub.RequestTimeout) then error == Timeout
        else if x.phase.outcome == Hub.Failed(Hub.SendFailed) then error == HubError && jobTag == "opml"
        else ResultClock(clock, chosen) == Err(error)
  {
    Hub.InvAlways(states, actions, k);
    assert Hub.HandlerOk(states[k], h);
    reg, arr := 0, 0;
    if states[k].handlers[h].phase.outcome.Answered? {
      reg, arr := Hub.AnswerIsOwnCallback(states, actions, k, h);
    }
  }

  /** A result repeats the VRF reply exactly when no worker was asked, and then says why; after an
      executed job it carries the empty default, which says "not selected".  So no result has both the
      selected reply and a worker's answer.  Its clock is always the incremented entry. */
  lemma ResultOfJob(jobTag: string, nodeType: string, vrf: Reply, clock: WireClock, chosen: string,
                    ready: Result<nat, JobError>, hub: Hub.State, h: nat)
    requires clock != map[] ==> chosen in clock
    requires ready.Ok? && Routed(jobTag, nodeType, vrf).Some? ==>
               Returned(hub, h, Routed(jobTag, nodeType, vrf).value)
    requires DoJob(jobTag, nodeType, Ok(vrf), clock, chosen, ready, hub, h).Ok?
    ensures var r := DoJob(jobTag, nodeType, Ok(vrf), clock, chosen, ready, hub, h).value;
      && Ok(r.clock) == ResultClock(clock, chosen)
      && (jobTag != nodeType ==>
            r.vrf == vrf && r.result == "unsupported worker type, need " + nodeType + ", got " + jobTag)
      && (jobTag == nodeType && !vrf.selected ==> r.vrf == vrf && r.result == "")
      && (jobTag == nodeType && vrf.selected ==>
            && ready.Ok? && !r.vrf.selected
            && (jobTag == "opml" || jobTag == "tee")
            && var kind := if jobTag == "opml" then Hub.Opml else Hub.Tee;
               Returned(hub, h, kind) && Ok(r.result) == HubReply(hub, h, kind))
      && (r.vrf.selected ==> jobTag != nodeType)
  {}

  /** Why a job has no result: the VRF failed, the tag of a selected job is neither "opml" nor "tee",
      no worker became ready, the question failed, or the clock has no next value; in this order. */
  lemma FailureOfJob(jobTag: string, nodeType: string, vrf: Result<Reply, JobError>, clock: WireClock, chosen: string,
                     ready: Result<nat, JobError>, hub: Hub.State, h: nat)
    requires clock != map[] ==> chosen in clock
    requires vrf.Ok? && ready.Ok? && Routed(jobTag, nodeType, vrf.value).Some? ==>
               Returned(hub, h, Routed(jobTag, nodeType, vrf.value).value)
    ensures var job := DoJob(jobTag, nodeType, vrf, clock, chosen, ready, hub, h);
      && (vrf.Err? ==> job == Err(vrf.error))
      && (vrf.Ok? && (jobTag != nodeType || !vrf.value.selected) ==>
            (job.Ok? <==> ResultClock(clock, chosen).Ok?)
            && (job.Err? ==> job.error == ResultClock(clock, chosen).error))
      && (vrf.Ok? && jobTag == nodeType && vrf.value.selected ==>
            (jobTag != "opml" && jobTag != "tee" ==> job == Err(UnsupportedTag))
            && (jobTag == "opml" || jobTag == "tee" ==> (ready.Err? ==> job == Err(ready.error))))
  {}
}
