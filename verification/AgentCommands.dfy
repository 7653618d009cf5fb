/** Agent commands: generations raised by the control plane, delivered in
    heartbeat answers, acknowledged in heartbeat requests, over a network that
    loses, delays, duplicates and reorders both.
 */
module AgentCommands {
  import opened Wrappers

  type AgentId = nat
  type WorkerId = nat
  type Time = int

  datatype AgentStatus = Ready | Stopped
  datatype AgentDesiredStatus = Running | Stopped
  datatype AgentObservedStatus = Running | Failed
  datatype ObservationReason = CapReached | NoFreePort | SpawnFailed
  datatype AgentObservation = Running | Failed(reason: ObservationReason)

  datatype AgentCommand = AgentCommand(agentId: AgentId, desired: AgentDesiredStatus, generation: nat)
  datatype AgentAck = AgentAck(agentId: AgentId, generation: nat)

  /** The fields of an agent the protocol reads or writes. */
  datatype Agent = Agent(
    status: AgentStatus,
    workerId: Option<WorkerId>,
    assignedAt: Option<Time>,
    desired: AgentDesiredStatus,
    commandGeneration: nat,
    lastAckedGeneration: nat,
    commandIssuedAt: Option<Time>,
    commandControlEpoch: Option<nat>,
    observedStatus: Option<AgentObservedStatus>,
    observedAt: Option<Time>,
    observedReason: Option<ObservationReason>)
  {
    function WithPlacement(worker: WorkerId, at: Time): Agent {
      this.(workerId := Some(worker), assignedAt := Some(at))
    }

    function WithoutPlacement(): Agent {
      this.(workerId := None, assignedAt := None)
    }

    predicate CommandDelivered() {
      lastAckedGeneration == commandGeneration
    }

    predicate StartPending() {
      status == AgentStatus.Ready && desired == AgentDesiredStatus.Running && observedStatus.None?
    }

    function CommandUnackedFor(now: Time): Option<Time> {
      if CommandDelivered() || commandIssuedAt.None? then None
      else if now < commandIssuedAt.value then Some(0)
      else Some(now - commandIssuedAt.value)
    }

    function Unobserved(): Agent {
      this.(observedStatus := None, observedAt := None, observedReason := None)
    }

    /** A new command: the generation and its time of issue move together. */
    function Issue(now: Time): Agent {
      this.(commandGeneration := commandGeneration + 1, commandIssuedAt := Some(now))
    }
  }

  /** `Agent::new`. */
  const NEW_AGENT := Agent(AgentStatus.Ready, None, None, AgentDesiredStatus.Stopped, 0, 0, None, None, None, None,
                           None)

  /** The control plane's store. A worker's value is its slot cap, if it has one;
      `lease` is the epoch of the control lease, if one is held. */
  datatype Store = Store(agents: map<AgentId, Agent>, workers: map<WorkerId, Option<nat>>, lease: Option<nat>)

  type Fence = Option<nat>

  predicate FenceHolds(store: Store, fence: Fence) {
    fence.Some? ==> store.lease == fence
  }

  // ------------------------------------------------------------ operations

  function LiveOn(agents: map<AgentId, Agent>, worker: WorkerId): set<AgentId> {
    set id | id in agents && agents[id].workerId == Some(worker) && agents[id].status != AgentStatus.Stopped
  }

  /** `create_agent`: a placement that does not fit is dropped, the row is still written. */
  function CreateAgent(store: Store, id: AgentId, requested: Option<WorkerId>, now: Time): Store {
    if id in store.agents then store
    else
      var fits :=
        && requested.Some?
        && requested.value in store.workers
        && (var cap := store.workers[requested.value];
            cap.Some? ==> |LiveOn(store.agents, requested.value)| < cap.value);
      var wanted := if requested.Some? then NEW_AGENT.WithPlacement(requested.value, now) else NEW_AGENT;
      store.(agents := store.agents[id := if fits then wanted else wanted.WithoutPlacement()])
  }

  /** `update_agent_status`: retiring an agent also lowers what it is asked to be. */
  function StatusSet(a: Agent, status: AgentStatus, now: Time): Agent {
    var a' := a.(status := status);
    if status == AgentStatus.Stopped && a.desired != AgentDesiredStatus.Stopped
    then a'.(desired := AgentDesiredStatus.Stopped).Issue(now)
    else a'
  }

  function UpdateAgentStatus(store: Store, id: AgentId, status: AgentStatus, now: Time): Store {
    if id in store.agents then store.(agents := store.agents[id := StatusSet(store.agents[id], status, now)]) else store
  }

  datatype CommandIssue = Issued | NoSuchAgent | Fenced

  function DesiredSet(a: Agent, desired: AgentDesiredStatus, fence: Fence, now: Time): Agent {
    if a.desired != desired then a.(desired := desired, commandControlEpoch := fence).Issue(now) else a
  }

  function SetDesiredAnswer(store: Store, id: AgentId, fence: Fence): CommandIssue {
    if !FenceHolds(store, fence) then CommandIssue.Fenced
    else if id in store.agents then Issued
    else CommandIssue.NoSuchAgent
  }

  function SetDesired(store: Store, id: AgentId, desired: AgentDesiredStatus, fence: Fence, now: Time): Store {
    if SetDesiredAnswer(store, id, fence) == Issued
    then store.(agents := store.agents[id := DesiredSet(store.agents[id], desired, fence, now)])
    else store
  }

  datatype SlotClaim = Claimed | CapReached | NoSuchAgent | NoSuchWorker | Fenced | ObservedRunning

  function AssignAnswer(store: Store, id: AgentId, worker: WorkerId, fence: Fence): SlotClaim {
    if !FenceHolds(store, fence) then SlotClaim.Fenced
    else if id !in store.agents then SlotClaim.NoSuchAgent
    else if worker !in store.workers then NoSuchWorker
    else if store.workers[worker].Some? && |LiveOn(store.agents, worker) - {id}| >= store.workers[worker].value then
      SlotClaim.CapReached
    else if store.agents[id].observedStatus == Some(AgentObservedStatus.Running)
            && store.agents[id].workerId != Some(worker) then
      ObservedRunning
    else Claimed
  }

  /** Always a new generation; the observation survives only on the same worker. */
  function Reassigned(a: Agent, worker: WorkerId, fence: Fence, now: Time): Agent {
    var kept := if a.workerId != Some(worker) then a.Unobserved() else a;
    kept.WithPlacement(worker, now).Issue(now).(commandControlEpoch := fence)
  }

  function Assign(store: Store, id: AgentId, worker: WorkerId, fence: Fence, now: Time): Store {
    if AssignAnswer(store, id, worker, fence) == Claimed
    then store.(agents := store.agents[id := Reassigned(store.agents[id], worker, fence, now)])
    else store
  }

  function Released(a: Agent, worker: WorkerId): Agent {
    if a.workerId == Some(worker) then a.WithoutPlacement().Unobserved() else a
  }

  /** `delete_worker`: its agents lose placement and observation, not their generation. */
  function DeleteWorker(store: Store, worker: WorkerId): Store {
    if worker !in store.workers then store
    else store.(workers := store.workers - {worker},
                agents := map id | id in store.agents :: Released(store.agents[id], worker))
  }

  /** What a heartbeat answer carries: also a retired agent's command, until it is acknowledged. */
  function ListCommands(store: Store, worker: WorkerId): set<AgentCommand> {
    set id | id in store.agents && store.agents[id].workerId == Some(worker)
             && (store.agents[id].status != AgentStatus.Stopped
                 || store.agents[id].lastAckedGeneration < store.agents[id].commandGeneration)
           :: AgentCommand(id, store.agents[id].desired, store.agents[id].commandGeneration)
  }

  predicate AckApplies(a: Agent, worker: WorkerId, generation: nat) {
    a.workerId == Some(worker) && a.commandGeneration == generation && a.lastAckedGeneration < generation
  }

  function Acked(id: AgentId, a: Agent, worker: WorkerId, acks: set<AgentAck>): Agent {
    if AgentAck(id, a.commandGeneration) in acks && AckApplies(a, worker, a.commandGeneration)
    then a.(lastAckedGeneration := a.commandGeneration)
    else a
  }

  function AckCommands(agents: map<AgentId, Agent>, worker: WorkerId, acks: set<AgentAck>): map<AgentId, Agent> {
    map id | id in agents :: Acked(id, agents[id], worker, acks)
  }

  /** A report is the worker's whole truth: silence about one of its agents erases. */
  function Observed(id: AgentId, a: Agent, worker: WorkerId, report: map<AgentId, AgentObservation>, now: Time): Agent {
    if a.workerId != Some(worker) then a
    else if id !in report then a.Unobserved()
    else match report[id]
      case Running =>
        a.(observedStatus := Some(AgentObservedStatus.Running), observedAt := Some(now), observedReason := None)
      case Failed(reason) =>
        a.(observedStatus := Some(AgentObservedStatus.Failed), observedAt := Some(now), observedReason := Some(reason))
  }

  // ----------------------------------------------------- the store's object

  function AckSet(acks: seq<AgentAck>): set<AgentAck> {
    set ack <- acks
  }

  class AgentStore {
    var agents: map<AgentId, Agent>
    var workers: map<WorkerId, Option<nat>>
    var lease: Option<nat>

    function Contents(): Store
      reads this
    {
      Store(agents, workers, lease)
    }

    method SetAgentDesiredStatus(id: AgentId, desired: AgentDesiredStatus, fence: Fence, now: Time)
      returns (answer: CommandIssue)
      modifies this`agents
      ensures answer == SetDesiredAnswer(old(Contents()), id, fence)
      ensures Contents() == SetDesired(old(Contents()), id, desired, fence, now)
    {
      if !FenceHolds(Contents(), fence) {
        return CommandIssue.Fenced;
      }
      if id !in agents {
        return CommandIssue.NoSuchAgent;
      }
      var a := agents[id];
      if a.desired != desired {
        a := a.(desired := desired);
        a := a.(commandGeneration := a.commandGeneration + 1);
        a := a.(commandIssuedAt := Some(now));
        a := a.(commandControlEpoch := fence);
      }
      agents := agents[id := a];
      return Issued;
    }

    method AssignAgentWorker(id: AgentId, worker: WorkerId, fence: Fence, now: Time) returns (answer: SlotClaim)
      modifies this`agents
      ensures answer == AssignAnswer(old(Contents()), id, worker, fence)
      ensures Contents() == Assign(old(Contents()), id, worker, fence, now)
    {
      hide LiveOn;
      if !FenceHolds(Contents(), fence) {
        return SlotClaim.Fenced;
      }
      if id !in agents {
        return SlotClaim.NoSuchAgent;
      }
      if worker !in workers {
        return NoSuchWorker;
      }
      if workers[worker].Some? {
        var others := LiveOn(agents, worker) - {id};
        if |others| >= workers[worker].value {
          return SlotClaim.CapReached;
        }
      }
      var a := agents[id];
      if a.observedStatus == Some(AgentObservedStatus.Running) && a.workerId != Some(worker) {
        return ObservedRunning;
      }
      var moved := a.workerId != Some(worker);
      a := a.(workerId := Some(worker), assignedAt := Some(now));
      if moved {
        a := a.(observedStatus := None, observedAt := None, observedReason := None);
      }
      a := a.(commandGeneration := a.commandGeneration + 1, commandIssuedAt := Some(now), commandControlEpoch := fence);
      agents := agents[id := a];
      return Claimed;
    }

    /** The acknowledgements are applied one by one; neither their order nor
        their repetition matters, and `applied` counts the rows that moved. */
    method AckAgentCommands(worker: WorkerId, acks: seq<AgentAck>) returns (applied: nat)
      modifies this`agents
      ensures agents == AckCommands(old(agents), worker, AckSet(acks))
      ensures applied == |set id | id in old(agents) && agents[id] != old(agents)[id]|
    {
      applied := 0;
      ghost var moved: set<AgentId> := {};
      for i := 0 to |acks|
        invariant agents == AckCommands(old(agents), worker, AckSet(acks[..i]))
        invariant moved == set id | id in old(agents) && agents[id] != old(agents)[id]
        invariant applied == |moved|
      {
        var ack := acks[i];
        ghost var before := agents;
        if ack.agentId in agents && AckApplies(agents[ack.agentId], worker, ack.generation) {
          agents := agents[ack.agentId := agents[ack.agentId].(lastAckedGeneration := ack.generation)];
          applied := applied + 1;
          moved := moved + {ack.agentId};
        }
        OneMoreAck(old(agents), before, worker, acks, i);
      }
      assert acks[..|acks|] == acks;
    }
  }

  lemma OneMoreAck(was: map<AgentId, Agent>, agents: map<AgentId, Agent>, worker: WorkerId, acks: seq<AgentAck>, i: nat)
    requires i < |acks| && agents == AckCommands(was, worker, AckSet(acks[..i]))
    ensures AckCommands(was, worker, AckSet(acks[..i + 1]))
         == if acks[i].agentId in agents && AckApplies(agents[acks[i].agentId], worker, acks[i].generation)
            then agents[acks[i].agentId := agents[acks[i].agentId].(lastAckedGeneration := acks[i].generation)]
            else agents
  {
    assert AckSet(acks[..i + 1]) == AckSet(acks[..i]) + {acks[i]};
  }

  // ----------------------------------------------------------------- system

  datatype Beat = Beat(worker: WorkerId, acks: set<AgentAck>, report: map<AgentId, AgentObservation>)
  datatype Reply = Reply(worker: WorkerId, commands: set<AgentCommand>)
  datatype Receipt = Receipt(worker: WorkerId, command: AgentCommand)

  /** `beats` and `replies` are all messages ever sent: one may arrive late,
      twice, out of order, or never. `pending` is each worker's buffer of
      acknowledgements, lost when it restarts, `received` everything its replies
      ever told it. */
  datatype System = System(
    store: Store,
    pending: map<WorkerId, set<AgentAck>>,
    beats: set<Beat>,
    replies: set<Reply>,
    received: set<Receipt>)

  datatype Step =
    | Create(id: AgentId, requested: Option<WorkerId>, now: Time)
    | Update(id: AgentId, status: AgentStatus, now: Time)
    | Desire(id: AgentId, desired: AgentDesiredStatus, fence: Fence, now: Time)
    | Place(id: AgentId, worker: WorkerId, fence: Fence, now: Time)
    | RegisterWorker(worker: WorkerId, cap: Option<nat>)
    | DeregisterWorker(worker: WorkerId)
    | LeaseChanges(lease: Option<nat>)
    | SendBeat(worker: WorkerId, report: map<AgentId, AgentObservation>)
    | AckArrives(beat: Beat)
    | ReportArrives(beat: Beat, now: Time)
    | SendReply(worker: WorkerId)
    | ReplyArrives(reply: Reply)
    | RestartWorker(worker: WorkerId)

  function AckOf(c: AgentCommand): AgentAck {
    AgentAck(c.agentId, c.generation)
  }

  function PendingOf(sys: System, worker: WorkerId): set<AgentAck> {
    if worker in sys.pending then sys.pending[worker] else {}
  }

  /** The store after a step: the part of a step that reaches the control plane. */
  function StoreAfter(sys: System, step: Step): Store {
    var store := sys.store;
    match step
    case Create(id, requested, now) => CreateAgent(store, id, requested, now)
    case Update(id, status, now) => UpdateAgentStatus(store, id, status, now)
    case Desire(id, desired, fence, now) => SetDesired(store, id, desired, fence, now)
    case Place(id, worker, fence, now) => Assign(store, id, worker, fence, now)
    case RegisterWorker(worker, cap) => store.(workers := store.workers[worker := cap])
    case DeregisterWorker(worker) => DeleteWorker(store, worker)
    case LeaseChanges(lease) => store.(lease := lease)
    case AckArrives(beat) =>
      if beat in sys.beats then store.(agents := AckCommands(store.agents, beat.worker, beat.acks)) else store
    case ReportArrives(beat, now) =>
      if beat in sys.beats
      then store.(agents := map id | id in store.agents ::
                              Observed(id, store.agents[id], beat.worker, beat.report, now))
      else store
    case _ => store
  }

  function Do(sys: System, step: Step): System {
    var sys' := sys.(store := StoreAfter(sys, step));
    match step
    case SendBeat(worker, report) =>
      sys'.(beats := sys.beats + {Beat(worker, PendingOf(sys, worker), report)}, pending := sys.pending[worker := {}])
    case SendReply(worker) =>
      sys'.(replies := sys.replies + {Reply(worker, ListCommands(sys.store, worker))})
    case ReplyArrives(reply) =>
      if reply in sys.replies
      then sys'.(pending := sys.pending[reply.worker := set c | c in reply.commands :: AckOf(c)],
                 received := sys.received + set c | c in reply.commands :: Receipt(reply.worker, c))
      else sys'
    case RestartWorker(worker) => sys'.(pending := sys.pending[worker := {}])
    case _ => sys'
  }

  function Run(sys: System, steps: seq<Step>): System
    decreases steps
  {
    if steps == [] then sys else Do(Run(sys, steps[..|steps| - 1]), steps[|steps| - 1])
  }

  const INITIAL := System(Store(map[], map[], None), map[], {}, {}, {})

  // -------------------------------------------------------------- invariant

  /** How one agent may change: its generation never falls, and while it stands
      still neither the command nor the worker it is for is exchanged. */
  predicate Later(a: Agent, b: Agent) {
    && a.commandGeneration <= b.commandGeneration
    && (a.commandGeneration == b.commandGeneration ==>
          a.desired == b.desired && (b.workerId == a.workerId || b.workerId == None))
  }

  /** The fields that come and go together. */
  predicate Complete(a: Agent) {
    && (a.workerId.Some? <==> a.assignedAt.Some?)
    && (a.observedStatus.Some? <==> a.observedAt.Some?)
    && (a.observedReason.Some? <==> a.observedStatus == Some(AgentObservedStatus.Failed))
    && (a.observedStatus.Some? ==> a.workerId.Some?)
    && (a.commandIssuedAt.Some? <==> a.commandGeneration > 0)
  }

  /** A command a worker was sent is the one the agent carries, or an older one. */
  predicate Honest(store: Store, worker: WorkerId, c: AgentCommand) {
    && c.agentId in store.agents
    && var a := store.agents[c.agentId];
    && c.generation <= a.commandGeneration
    && (c.generation == a.commandGeneration ==> c.desired == a.desired && a.workerId in {None, Some(worker)})
  }

  predicate WasTold(received: set<Receipt>, worker: WorkerId, ack: AgentAck) {
    || Receipt(worker, AgentCommand(ack.agentId, AgentDesiredStatus.Running, ack.generation)) in received
    || Receipt(worker, AgentCommand(ack.agentId, AgentDesiredStatus.Stopped, ack.generation)) in received
  }

  /** The acknowledged generation is reached only through the worker itself. */
  predicate Settled(received: set<Receipt>, id: AgentId, a: Agent) {
    && a.lastAckedGeneration <= a.commandGeneration
    && (a.CommandDelivered() && a.commandGeneration > 0 && a.workerId.Some? ==>
          WasTold(received, a.workerId.value, AgentAck(id, a.commandGeneration)))
  }

  ghost predicate AllComplete(sys: System) {
    forall id <- sys.store.agents :: Complete(sys.store.agents[id])
  }

  ghost predicate RepliesHonest(sys: System) {
    forall r <- sys.replies, c <- r.commands :: Honest(sys.store, r.worker, c)
  }

  ghost predicate ReceiptsHonest(sys: System) {
    forall r <- sys.received :: Honest(sys.store, r.worker, r.command)
  }

  ghost predicate AcksTold(sys: System) {
    && (forall w <- sys.pending, ack <- sys.pending[w] :: WasTold(sys.received, w, ack))
    && (forall b <- sys.beats, ack <- b.acks :: WasTold(sys.received, b.worker, ack))
  }

  ghost predicate AllSettled(sys: System) {
    forall id <- sys.store.agents :: Settled(sys.received, id, sys.store.agents[id])
  }

  ghost predicate Inv(sys: System) {
    AllComplete(sys) && RepliesHonest(sys) && ReceiptsHonest(sys) && AcksTold(sys) && AllSettled(sys)
  }

  /** What any one step does to an existing agent. */
  lemma StepMovesForward(sys: System, step: Step, id: AgentId)
    requires id in sys.store.agents
    ensures id in Do(sys, step).store.agents && Later(sys.store.agents[id], Do(sys, step).store.agents[id])
  {
  }

  lemma DoStore(sys: System, step: Step)
    ensures Do(sys, step).store == StoreAfter(sys, step)
  {
    hide StoreAfter, ListCommands;
  }

  lemma StepKeepsComplete(sys: System, step: Step)
    requires AllComplete(sys)
    ensures AllComplete(Do(sys, step))
  {
    DoStore(sys, step);
    hide Do, LiveOn, ListCommands;
    forall id <- StoreAfter(sys, step).agents ensures Complete(StoreAfter(sys, step).agents[id]) {
      if id in sys.store.agents {
        assert Complete(sys.store.agents[id]);
      }
    }
  }

  lemma HonestLater(sys: System, step: Step, worker: WorkerId, c: AgentCommand)
    requires Honest(sys.store, worker, c)
    ensures Honest(Do(sys, step).store, worker, c)
  {
    StepMovesForward(sys, step, c.agentId);
    hide Do;
  }

  lemma ListIsHonest(store: Store, worker: WorkerId, c: AgentCommand)
    requires c in ListCommands(store, worker)
    ensures Honest(store, worker, c)
  {
  }

  lemma StepKeepsRepliesHonest(sys: System, step: Step)
    requires RepliesHonest(sys)
    ensures RepliesHonest(Do(sys, step))
  {
    var sys' := Do(sys, step);
    forall r <- sys'.replies, c <- r.commands ensures Honest(sys'.store, r.worker, c) {
      if r !in sys.replies {
        ListIsHonest(sys.store, r.worker, c);
      }
      hide ListCommands, StoreAfter;
      HonestLater(sys, step, r.worker, c);
    }
  }

  lemma StepKeepsReceiptsHonest(sys: System, step: Step)
    requires RepliesHonest(sys) && ReceiptsHonest(sys)
    ensures ReceiptsHonest(Do(sys, step))
  {
    hide ListCommands, StoreAfter;
    var sys' := Do(sys, step);
    forall r <- sys'.received ensures Honest(sys'.store, r.worker, r.command) {
      HonestLater(sys, step, r.worker, r.command);
    }
  }

  lemma TellsAck(received: set<Receipt>, worker: WorkerId, c: AgentCommand)
    requires Receipt(worker, c) in received
    ensures WasTold(received, worker, AckOf(c))
  {
    assert c == AgentCommand(c.agentId, c.desired, c.generation);
    match c.desired
    case Running => {}
    case Stopped => {}
  }

  lemma StepKeepsAcksTold(sys: System, step: Step)
    requires AcksTold(sys)
    ensures AcksTold(Do(sys, step))
  {
    hide ListCommands, StoreAfter;
    var sys' := Do(sys, step);
    forall w <- sys'.pending, ack <- sys'.pending[w] ensures WasTold(sys'.received, w, ack) {
      if step.ReplyArrives? && step.reply in sys.replies && w == step.reply.worker {
        var c :| c in step.reply.commands && ack == AckOf(c);
        assert Receipt(w, c) in sys'.received;
        TellsAck(sys'.received, w, c);
      }
    }
    forall b <- sys'.beats, ack <- b.acks ensures WasTold(sys'.received, b.worker, ack) {
      if b !in sys.beats {
        assert b.worker in sys.pending && ack in sys.pending[b.worker];
      }
    }
  }

  lemma ReceivedGrows(sys: System, step: Step)
    ensures sys.received <= Do(sys, step).received
  {
    hide StoreAfter, ListCommands;
  }

  lemma StoreKeepsSettled(sys: System, step: Step, id: AgentId)
    requires AcksTold(sys) && id in StoreAfter(sys, step).agents
    requires id in sys.store.agents ==> Settled(sys.received, id, sys.store.agents[id])
    ensures Settled(sys.received, id, StoreAfter(sys, step).agents[id])
  {
    hide LiveOn, ListCommands;
  }

  lemma StepKeepsSettled(sys: System, step: Step)
    requires AcksTold(sys) && AllSettled(sys)
    ensures AllSettled(Do(sys, step))
  {
    DoStore(sys, step);
    ReceivedGrows(sys, step);
    hide Do, StoreAfter, AcksTold;
    forall id <- StoreAfter(sys, step).agents
      ensures Settled(Do(sys, step).received, id, StoreAfter(sys, step).agents[id])
    {
      StoreKeepsSettled(sys, step, id);
    }
  }

  lemma {:induction false} RunKeepsInv(steps: seq<Step>)
    ensures Inv(Run(INITIAL, steps))
    decreases steps
  {
    if steps != [] {
      var n := |steps| - 1;
      var sys := Run(INITIAL, steps[..n]);
      RunKeepsInv(steps[..n]);
      StepKeepsComplete(sys, steps[n]);
      StepKeepsRepliesHonest(sys, steps[n]);
      StepKeepsReceiptsHonest(sys, steps[n]);
      StepKeepsAcksTold(sys, steps[n]);
      StepKeepsSettled(sys, steps[n]);
      hide Do, AllComplete, RepliesHonest, ReceiptsHonest, AcksTold, AllSettled;
    }
  }

  // ------------------------------------------------- what each operation does

  /** A control plane whose epoch is not the lease's is refused, and changes nothing. */
  lemma StaleControlPlaneIsRefused(store: Store, id: AgentId, desired: AgentDesiredStatus, worker: WorkerId,
                                   fence: Fence, now: Time)
    ensures SetDesiredAnswer(store, id, fence) == CommandIssue.Fenced <==> fence.Some? && store.lease != fence
    ensures AssignAnswer(store, id, worker, fence) == SlotClaim.Fenced <==> fence.Some? && store.lease != fence
    ensures fence.Some? && store.lease != fence ==>
              SetDesired(store, id, desired, fence, now) == store && Assign(store, id, worker, fence, now) == store
  {
  }

  function FenceOf(step: Step): Fence {
    if step.Desire? || step.Place? then step.fence else None
  }

  /** Over every run: a step fenced with an epoch the lease does not hold leaves
      the system as it was. */
  lemma StaleStepsChangeNothing(steps: seq<Step>, step: Step)
    ensures var sys := Run(INITIAL, steps);
            FenceOf(step).Some? && sys.store.lease != FenceOf(step) ==> Do(sys, step) == sys
  {
    hide Run;
    var sys := Run(INITIAL, steps);
    if step.Desire? {
      StaleControlPlaneIsRefused(sys.store, step.id, step.desired, 0, step.fence, step.now);
    } else if step.Place? {
      StaleControlPlaneIsRefused(sys.store, step.id, AgentDesiredStatus.Running, step.worker, step.fence, step.now);
    }
  }

  /** The other agents that take a slot of the worker. */
  function OthersOn(store: Store, id: AgentId, worker: WorkerId): set<AgentId> {
    set a | a in store.agents && a != id && store.agents[a].workerId == Some(worker)
            && store.agents[a].status == AgentStatus.Ready
  }

  /** When each placement answer is given. */
  lemma AssignAnswers(store: Store, id: AgentId, worker: WorkerId, fence: Fence)
    ensures var answer := AssignAnswer(store, id, worker, fence);
            var current := fence.None? || store.lease == fence;
            var full := worker in store.workers && store.workers[worker].Some?
                        && |OthersOn(store, id, worker)| >= store.workers[worker].value;
            var elsewhere := id in store.agents && store.agents[id].observedStatus == Some(AgentObservedStatus.Running)
                             && store.agents[id].workerId != Some(worker);
            && (answer == SlotClaim.NoSuchAgent <==> current && id !in store.agents)
            && (answer == NoSuchWorker <==> current && id in store.agents && worker !in store.workers)
            && (answer == SlotClaim.CapReached <==> current && id in store.agents && full)
            && (answer == ObservedRunning <==>
                  current && id in store.agents && worker in store.workers && !full && elsewhere)
            && (answer == Claimed <==>
                  current && id in store.agents && worker in store.workers && !full && !elsewhere)
  {
    assert LiveOn(store.agents, worker) - {id} == OthersOn(store, id, worker);
  }

  /** The row a claimed slot leaves: a new command for the new worker, about
      which nobody has reported anything unless the worker is the same. */
  lemma AssignedRow(store: Store, id: AgentId, worker: WorkerId, fence: Fence, now: Time)
    requires AssignAnswer(store, id, worker, fence) == Claimed
    ensures var a := store.agents[id];
            var stays := a.workerId == Some(worker);
            Assign(store, id, worker, fence, now) == store.(agents := store.agents[id :=
              Agent(a.status, Some(worker), Some(now), a.desired, a.commandGeneration + 1, a.lastAckedGeneration,
                    Some(now), fence,
                    if stays then a.observedStatus else None,
                    if stays then a.observedAt else None,
                    if stays then a.observedReason else None)])
  {
  }

  /** A wish that is news is a new command; one that is not leaves the row alone. */
  lemma DesiredRow(store: Store, id: AgentId, desired: AgentDesiredStatus, fence: Fence, now: Time)
    requires id in store.agents && (fence.None? || store.lease == fence)
    ensures SetDesiredAnswer(store, id, fence) == Issued
    ensures var a := store.agents[id];
            SetDesired(store, id, desired, fence, now) == store.(agents := store.agents[id :=
              if a.desired == desired then a
              else Agent(a.status, a.workerId, a.assignedAt, desired, a.commandGeneration + 1, a.lastAckedGeneration,
                         Some(now), fence, a.observedStatus, a.observedAt, a.observedReason)])
  {
    var a := store.agents[id];
    if a.desired == desired {
      assert store.agents[id := a] == store.agents;
    }
  }

  /** A retired agent is asked to stop, with a new command exactly if it was not
      asked before; any other status leaves the command alone. */
  lemma UpdatedRow(store: Store, id: AgentId, status: AgentStatus, now: Time)
    requires id in store.agents
    ensures var a := store.agents[id];
            var stops := status == AgentStatus.Stopped && a.desired == AgentDesiredStatus.Running;
            UpdateAgentStatus(store, id, status, now) == store.(agents := store.agents[id :=
              Agent(status, a.workerId, a.assignedAt,
                    if stops then AgentDesiredStatus.Stopped else a.desired,
                    if stops then a.commandGeneration + 1 else a.commandGeneration,
                    a.lastAckedGeneration,
                    if stops then Some(now) else a.commandIssuedAt,
                    a.commandControlEpoch, a.observedStatus, a.observedAt, a.observedReason)])
  {
  }

  /** A new agent is ready, asked for nothing, and placed exactly if the worker
      it asks for is registered and has a slot. */
  lemma CreatedRow(store: Store, id: AgentId, requested: Option<WorkerId>, now: Time)
    requires id !in store.agents
    ensures var placed := requested.Some? && requested.value in store.workers
                          && (store.workers[requested.value].Some? ==>
                                |OthersOn(store, id, requested.value)| < store.workers[requested.value].value);
            CreateAgent(store, id, requested, now) == store.(agents := store.agents[id :=
              Agent(AgentStatus.Ready, if placed then requested else None, if placed then Some(now) else None,
                    AgentDesiredStatus.Stopped, 0, 0, None, None, None, None, None)])
  {
    if requested.Some? {
      assert LiveOn(store.agents, requested.value) == OthersOn(store, id, requested.value);
    }
  }

  /** What a worker is told about: its ready agents, and each retired one
      until the stop is acknowledged; always the present command. */
  lemma ListedIff(store: Store, worker: WorkerId, c: AgentCommand)
    ensures c in ListCommands(store, worker) <==>
              && c.agentId in store.agents
              && var a := store.agents[c.agentId];
              && a.workerId == Some(worker) && c.desired == a.desired && c.generation == a.commandGeneration
              && (a.status == AgentStatus.Ready || a.lastAckedGeneration < a.commandGeneration)
  {
  }

  /** What a worker's report leaves in the row of one of its agents, and that it
      leaves every other worker's agents alone. */
  lemma ReportedRow(id: AgentId, a: Agent, worker: WorkerId, report: map<AgentId, AgentObservation>, now: Time)
    ensures var b := Observed(id, a, worker, report, now);
            && (a.workerId != Some(worker) ==> b == a)
            && (a.workerId == Some(worker) && id !in report ==>
                  b == a.(observedStatus := None, observedAt := None, observedReason := None))
            && (a.workerId == Some(worker) && id in report && report[id].Running? ==>
                  b == a.(observedStatus := Some(AgentObservedStatus.Running), observedAt := Some(now),
                          observedReason := None))
            && (a.workerId == Some(worker) && id in report && report[id].Failed? ==>
                  b == a.(observedStatus := Some(AgentObservedStatus.Failed), observedAt := Some(now),
                          observedReason := Some(report[id].reason)))
  {
  }

  /** Every agent's worker is registered. */
  ghost predicate PlacedOnRegistered(store: Store) {
    forall id <- store.agents :: store.agents[id].workerId.Some? ==> store.agents[id].workerId.value in store.workers
  }

  lemma StepKeepsPlaced(sys: System, step: Step)
    requires PlacedOnRegistered(sys.store)
    ensures PlacedOnRegistered(Do(sys, step).store)
  {
    DoStore(sys, step);
    hide Do, LiveOn, ListCommands;
  }

  /** Over every run no agent is placed on a worker that is not registered:
      removing a worker releases its agents, and nothing places one on it. */
  lemma {:induction false} NoAgentOnARemovedWorker(steps: seq<Step>)
    ensures PlacedOnRegistered(Run(INITIAL, steps).store)
    decreases steps
  {
    if steps != [] {
      NoAgentOnARemovedWorker(steps[..|steps| - 1]);
      StepKeepsPlaced(Run(INITIAL, steps[..|steps| - 1]), steps[|steps| - 1]);
      hide Do, PlacedOnRegistered;
    }
  }

  /** A removed worker's agents keep everything but placement and observation. */
  lemma ReleasedRow(store: Store, worker: WorkerId, id: AgentId)
    requires id in store.agents && worker in store.workers
    ensures var a := store.agents[id];
            && worker !in DeleteWorker(store, worker).workers && id in DeleteWorker(store, worker).agents
            && DeleteWorker(store, worker).agents[id]
            == if a.workerId == Some(worker)
               then a.(workerId := None, assignedAt := None, observedStatus := None, observedAt := None,
                       observedReason := None)
               else a
  {
  }

  // -------------------------------------------------- what the steps bring about

  /** A placement that is claimed is stored as a new command; any other changes nothing. */
  lemma PlacementsHappen(sys: System, id: AgentId, worker: WorkerId, fence: Fence, now: Time)
    ensures AssignAnswer(sys.store, id, worker, fence) == Claimed ==>
              var after := Do(sys, Place(id, worker, fence, now)).store.agents;
              id in after && after[id].workerId == Some(worker)
              && after[id].commandGeneration == sys.store.agents[id].commandGeneration + 1
    ensures AssignAnswer(sys.store, id, worker, fence) != Claimed ==> Do(sys, Place(id, worker, fence, now)) == sys
  {
    hide AssignAnswer;
  }

  /** A removed worker is gone, no agent is on it, and no agent is lost. */
  lemma DeregisteredIsGone(sys: System, worker: WorkerId)
    ensures var after := Do(sys, DeregisterWorker(worker)).store;
            && worker !in after.workers && after.agents.Keys == sys.store.agents.Keys
            && (worker in sys.store.workers ==> forall id <- after.agents :: after.agents[id].workerId != Some(worker))
  {
  }

  /** A beat that is sent and arrives is what the worker's agents are seen as. */
  lemma BeatIsSeen(sys: System, worker: WorkerId, report: map<AgentId, AgentObservation>, id: AgentId, now: Time)
    requires id in sys.store.agents && sys.store.agents[id].workerId == Some(worker)
    ensures var beat := Beat(worker, PendingOf(sys, worker), report);
            var after := Do(Do(sys, SendBeat(worker, report)), ReportArrives(beat, now)).store.agents;
            && id in after
            && (id in report ==> after[id].observedAt == Some(now))
            && after[id].observedStatus == (if id !in report then None
                                            else if report[id].Running? then Some(AgentObservedStatus.Running)
                                            else Some(AgentObservedStatus.Failed))
  {
    ReportedRow(id, sys.store.agents[id], worker, report, now);
    hide Observed;
  }

  /** A worker sends each batch of acknowledgements once, and none after a restart. */
  lemma AcksAreSentOnce(sys: System, worker: WorkerId, first: map<AgentId, AgentObservation>,
                        second: map<AgentId, AgentObservation>)
    ensures Do(Do(sys, SendBeat(worker, first)), SendBeat(worker, second)).beats
         == sys.beats + {Beat(worker, PendingOf(sys, worker), first), Beat(worker, {}, second)}
    ensures Do(Do(sys, RestartWorker(worker)), SendBeat(worker, first)).beats
         == sys.beats + {Beat(worker, {}, first)}
  {
  }

  // --------------------------------------------------------------- theorems

  /** After every run, whatever the network did: no agent is acknowledged beyond
      what it was commanded; and when a placed agent with an issued command
      counts as delivered, its present worker received exactly the command it
      carries now. */
  lemma DeliveredMeansReceived(steps: seq<Step>, id: AgentId)
    requires id in Run(INITIAL, steps).store.agents
    ensures var sys := Run(INITIAL, steps);
            var a := sys.store.agents[id];
            && a.lastAckedGeneration <= a.commandGeneration
            && (a.lastAckedGeneration == a.commandGeneration > 0 && a.workerId.Some? ==>
                  Receipt(a.workerId.value, AgentCommand(id, a.desired, a.commandGeneration)) in sys.received)
  {
    RunKeepsInv(steps);
    hide Run;
    var sys := Run(INITIAL, steps);
    assert Settled(sys.received, id, sys.store.agents[id]);
  }

  /** Placement, observation and issue time are each there as a whole or not at
      all, and only a placed agent is observed. */
  lemma RowsStayComplete(steps: seq<Step>, id: AgentId)
    requires id in Run(INITIAL, steps).store.agents
    ensures Complete(Run(INITIAL, steps).store.agents[id])
  {
    RunKeepsInv(steps);
    hide Run;
  }

  /** After every run, an agent has an age of its unacknowledged command exactly
      when its command is not delivered; the age is the time since the issue, and
      never negative. */
  lemma {:induction false} UnackedIffUndelivered(steps: seq<Step>, id: AgentId, now: Time)
    requires id in Run(INITIAL, steps).store.agents
    ensures var a := Run(INITIAL, steps).store.agents[id];
            && (a.CommandUnackedFor(now).None? <==> a.lastAckedGeneration == a.commandGeneration)
            && (a.CommandUnackedFor(now).Some? ==>
                  a.commandIssuedAt.Some?
                  && a.CommandUnackedFor(now).value
                  == if a.commandIssuedAt.value <= now then now - a.commandIssuedAt.value else 0)
  {
    RunKeepsInv(steps);
    hide Run;
    var sys := Run(INITIAL, steps);
    assert Settled(sys.received, id, sys.store.agents[id]) && Complete(sys.store.agents[id]);
  }

  lemma RunOfFour(sys: System, steps: seq<Step>)
    requires |steps| == 4
    ensures Run(sys, steps) == Do(Do(Do(Do(sys, steps[0]), steps[1]), steps[2]), steps[3])
  {
    hide Do;
    assert steps[..3][..2] == steps[..2] && steps[..2][..1] == steps[..1];
    assert Run(sys, steps[..1]) == Do(sys, steps[0]);
    assert Run(sys, steps[..2]) == Do(Do(sys, steps[0]), steps[1]);
    assert Run(sys, steps[..3]) == Do(Do(Do(sys, steps[0]), steps[1]), steps[2]);
  }

  /** Undisturbed, one answer and the next beat are enough: whatever was lost
      before, every agent of the worker then counts as delivered. */
  lemma OneRoundTripDelivers(sys: System, worker: WorkerId, report: map<AgentId, AgentObservation>, id: AgentId)
    requires AllSettled(sys)
    requires id in sys.store.agents && sys.store.agents[id].workerId == Some(worker)
    ensures var commands := ListCommands(sys.store, worker);
            var beat := Beat(worker, set c | c in commands :: AckOf(c), report);
            var trip := [SendReply(worker), ReplyArrives(Reply(worker, commands)), SendBeat(worker, report),
                         AckArrives(beat)];
            var a := Run(sys, trip).store.agents;
            id in a && a[id] == sys.store.agents[id].(lastAckedGeneration := sys.store.agents[id].commandGeneration)
  {
    var commands := ListCommands(sys.store, worker);
    var acks := set c | c in commands :: AckOf(c);
    var beat := Beat(worker, acks, report);
    var trip := [SendReply(worker), ReplyArrives(Reply(worker, commands)), SendBeat(worker, report), AckArrives(beat)];
    var s1 := Do(sys, trip[0]);
    var s2 := Do(s1, trip[1]);
    var s3 := Do(s2, trip[2]);
    assert Run(sys, trip) == Do(s3, trip[3]) by {
      RunOfFour(sys, trip);
    }
    assert beat in s3.beats;
    var a := sys.store.agents[id];
    assert Settled(sys.received, id, a);
    if !a.CommandDelivered() {
      var c := AgentCommand(id, a.desired, a.commandGeneration);
      assert c in commands && AckOf(c) in acks;
    }
  }

  /** Steps that say nothing new about where the agent runs. */
  predicate Undisturbed(step: Step, id: AgentId, worker: WorkerId) {
    && (step.DeregisterWorker? ==> step.worker != worker)
    && (step.ReportArrives? && step.beat.worker == worker ==> id in step.beat.report && step.beat.report[id].Running?)
  }

  /** An agent its worker reports as running stays there over every run in which
      that worker neither leaves nor stops reporting it: no sequence of
      placements, not even by way of its own worker, moves it. */
  lemma {:induction false} RunningAgentsStayPut(sys: System, steps: seq<Step>, id: AgentId, worker: WorkerId)
    requires id in sys.store.agents && sys.store.agents[id].workerId == Some(worker)
    requires sys.store.agents[id].observedStatus == Some(AgentObservedStatus.Running)
    requires forall i :: 0 <= i < |steps| ==> Undisturbed(steps[i], id, worker)
    ensures var a := Run(sys, steps).store.agents;
            id in a && a[id].workerId == Some(worker) && a[id].observedStatus == Some(AgentObservedStatus.Running)
    decreases steps
  {
    if steps != [] {
      RunningAgentsStayPut(sys, steps[..|steps| - 1], id, worker);
      assert Undisturbed(steps[|steps| - 1], id, worker);
    }
  }

  /** A start stays pending until the agent's own worker says anything about it:
      its silence, and any word of another worker, leave it pending. */
  lemma StartPendingUntilReported(id: AgentId, a: Agent, worker: WorkerId, report: map<AgentId, AgentObservation>,
                                  now: Time)
    ensures a.StartPending() <==>
              a.status == AgentStatus.Ready && a.desired == AgentDesiredStatus.Running && a.observedStatus.None?
    ensures a.StartPending() ==>
              (Observed(id, a, worker, report, now).StartPending() <==> a.workerId != Some(worker) || id !in report)
  {
  }

  /** A claim leaves the worker within its cap. */
  lemma ClaimRespectsCap(store: Store, id: AgentId, worker: WorkerId, fence: Fence, now: Time)
    requires AssignAnswer(store, id, worker, fence) == Claimed && store.workers[worker].Some?
    ensures |LiveOn(Assign(store, id, worker, fence, now).agents, worker)| <= store.workers[worker].value
  {
    var others := LiveOn(store.agents, worker) - {id};
    assert LiveOn(Assign(store, id, worker, fence, now).agents, worker) <= others + {id};
    SubsetIsSmaller(LiveOn(Assign(store, id, worker, fence, now).agents, worker), others + {id});
  }

  lemma {:induction false} SubsetIsSmaller(a: set<AgentId>, b: set<AgentId>)
    requires a <= b
    ensures |a| <= |b|
  {
    if a != {} {
      var x :| x in a;
      SubsetIsSmaller(a - {x}, b - {x});
    }
  }

  predicate WithinCap(store: Store, worker: WorkerId) {
    worker in store.workers && store.workers[worker].Some? ==>
      |LiveOn(store.agents, worker)| <= store.workers[worker].value
  }

  /** The step sets a stopped agent of the worker Ready again. */
  predicate Revives(store: Store, step: Step, worker: WorkerId) {
    && step.Update? && step.status == AgentStatus.Ready && step.id in store.agents
    && store.agents[step.id].workerId == Some(worker)
    && store.agents[step.id].status == AgentStatus.Stopped
  }

  /** The two ways past a cap that no claim guards: a registration that brings a
      cap below the live agents, and a stopped agent set Ready on a full worker. */
  predicate LeavesRoom(store: Store, step: Step, worker: WorkerId) {
    && (step.RegisterWorker? && step.worker == worker && step.cap.Some? ==>
          |LiveOn(store.agents, worker)| <= step.cap.value)
    && (Revives(store, step, worker) && worker in store.workers && store.workers[worker].Some? ==>
          |LiveOn(store.agents, worker)| < store.workers[worker].value)
  }

  lemma CreateStaysWithin(store: Store, id: AgentId, requested: Option<WorkerId>, now: Time, worker: WorkerId)
    requires WithinCap(store, worker)
    ensures WithinCap(CreateAgent(store, id, requested, now), worker)
  {
    var before, after := LiveOn(store.agents, worker), LiveOn(CreateAgent(store, id, requested, now).agents, worker);
    if after <= before {
      SubsetIsSmaller(after, before);
    } else {
      SubsetIsSmaller(after, before + {id});
      assert |before + {id}| <= |before| + 1;
    }
  }

  lemma PlaceStaysWithin(store: Store, id: AgentId, target: WorkerId, fence: Fence, now: Time, worker: WorkerId)
    requires WithinCap(store, worker)
    ensures WithinCap(Assign(store, id, target, fence, now), worker)
  {
    if AssignAnswer(store, id, target, fence) == Claimed {
      if target != worker {
        SubsetIsSmaller(LiveOn(Assign(store, id, target, fence, now).agents, worker), LiveOn(store.agents, worker));
      } else if store.workers[worker].Some? {
        ClaimRespectsCap(store, id, worker, fence, now);
      }
    }
  }

  lemma UpdateStaysWithinIff(store: Store, id: AgentId, status: AgentStatus, now: Time, worker: WorkerId)
    requires WithinCap(store, worker)
    ensures WithinCap(UpdateAgentStatus(store, id, status, now), worker)
       <==> LeavesRoom(store, Update(id, status, now), worker)
  {
    var before, after := LiveOn(store.agents, worker), LiveOn(UpdateAgentStatus(store, id, status, now).agents, worker);
    if Revives(store, Update(id, status, now), worker) {
      assert before !! {id} && after == before + {id};
      assert |after| == |before| + 1;
    } else {
      SubsetIsSmaller(after, before);
    }
  }

  /** Any other step leaves the live agents of a worker that stays registered. */
  lemma OtherStepsKeepLive(sys: System, step: Step, worker: WorkerId)
    requires !step.Create? && !step.Place? && !step.Update? && worker in StoreAfter(sys, step).workers
    ensures LiveOn(StoreAfter(sys, step).agents, worker) == LiveOn(sys.store.agents, worker)
  {
  }

  lemma StepStaysWithinIff(sys: System, step: Step, worker: WorkerId)
    requires WithinCap(sys.store, worker)
    ensures WithinCap(Do(sys, step).store, worker) <==> LeavesRoom(sys.store, step, worker)
  {
    DoStore(sys, step);
    hide Do, LiveOn, CreateAgent, Assign, UpdateAgentStatus;
    match step
    case Create(id, requested, now) => CreateStaysWithin(sys.store, id, requested, now, worker);
    case Place(id, target, fence, now) => PlaceStaysWithin(sys.store, id, target, fence, now, worker);
    case Update(id, status, now) => UpdateStaysWithinIff(sys.store, id, status, now, worker);
    case _ =>
      if worker in StoreAfter(sys, step).workers {
        OtherStepsKeepLive(sys, step, worker);
      }
  }

  /** The store as step `i` of a run finds it. */
  function StoreAt(steps: seq<Step>, i: nat): Store
    requires i <= |steps|
  {
    Run(INITIAL, steps[..i]).store
  }

  ghost predicate AlwaysWithin(steps: seq<Step>, n: nat, worker: WorkerId)
    requires n <= |steps|
  {
    forall i :: 0 <= i <= n ==> WithinCap(StoreAt(steps, i), worker)
  }

  ghost predicate AlwaysRoom(steps: seq<Step>, n: nat, worker: WorkerId)
    requires n <= |steps|
  {
    forall i :: 0 <= i < n ==> LeavesRoom(StoreAt(steps, i), steps[i], worker)
  }

  lemma WithinAtNextIff(steps: seq<Step>, i: nat, worker: WorkerId)
    requires i < |steps| && WithinCap(StoreAt(steps, i), worker)
    ensures WithinCap(StoreAt(steps, i + 1), worker) <==> LeavesRoom(StoreAt(steps, i), steps[i], worker)
  {
    assert steps[..i + 1][..i] == steps[..i];
    assert Run(INITIAL, steps[..i + 1]) == Do(Run(INITIAL, steps[..i]), steps[i]);
    hide Run, Do, WithinCap, LeavesRoom;
    StepStaysWithinIff(Run(INITIAL, steps[..i]), steps[i], worker);
  }

  lemma EmptyIsWithin(steps: seq<Step>, worker: WorkerId)
    ensures WithinCap(StoreAt(steps, 0), worker)
  {
    hide Do;
  }

  lemma {:induction false} WithinIff(steps: seq<Step>, n: nat, worker: WorkerId)
    requires n <= |steps|
    ensures AlwaysWithin(steps, n, worker) <==> AlwaysRoom(steps, n, worker)
    decreases n
  {
    hide StoreAt, WithinCap, LeavesRoom;
    if n == 0 {
      EmptyIsWithin(steps, worker);
    } else {
      WithinIff(steps, n - 1, worker);
      if WithinCap(StoreAt(steps, n - 1), worker) {
        WithinAtNextIff(steps, n - 1, worker);
      }
    }
  }

  /** Over every run: a worker stays within its cap throughout if and only if no
      registration of it brings the cap below its live agents and no stopped
      agent of it is set Ready again while it is full. No sequence of creations,
      placements and messages exceeds a cap. */
  lemma CapsHoldIff(steps: seq<Step>, worker: WorkerId)
    ensures (forall i :: 0 <= i <= |steps| ==> WithinCap(StoreAt(steps, i), worker))
       <==> (forall i :: 0 <= i < |steps| ==> LeavesRoom(StoreAt(steps, i), steps[i], worker))
  {
    WithinIff(steps, |steps|, worker);
    hide StoreAt, WithinCap, LeavesRoom;
  }

  /** Which steps retire an agent that was asked to run. */
  predicate Retires(step: Step, id: AgentId, a: Agent) {
    step.Update? && step.id == id && step.status == AgentStatus.Stopped && a.desired != AgentDesiredStatus.Stopped
  }

  /** The recorded control epoch is that of the call that issued the command
      now carried, with one exception: a step that raises the generation
      records its own epoch if and only if it does not retire the agent, or
      the old record happens to equal it. A step that leaves the generation
      alone leaves the record alone. */
  lemma EpochIsTheIssuersUnlessRetired(sys: System, step: Step, id: AgentId)
    requires id in sys.store.agents
    ensures var a, b := sys.store.agents[id], Do(sys, step).store.agents[id];
            && (a.commandGeneration == b.commandGeneration ==> a.commandControlEpoch == b.commandControlEpoch)
            && (a.commandGeneration < b.commandGeneration && !Retires(step, id, a) ==>
                  b.commandControlEpoch == FenceOf(step))
            && (Retires(step, id, a) ==>
                  a.commandGeneration < b.commandGeneration && a.commandControlEpoch == b.commandControlEpoch)
  {
    StepMovesForward(sys, step, id);
  }

  /** The fence of the last call in a run that issued a command of the agent
      other than by retiring it. */
  function LastFence(steps: seq<Step>, id: AgentId): Fence
    decreases steps
  {
    if steps == [] then None
    else
      var n := |steps| - 1;
      var before, after := Run(INITIAL, steps[..n]).store.agents, Run(INITIAL, steps).store.agents;
      if id in before && id in after && before[id].commandGeneration < after[id].commandGeneration
         && !Retires(steps[n], id, before[id])
      then FenceOf(steps[n])
      else LastFence(steps[..n], id)
  }

  /** Over every run, the recorded epoch is that of the last such call. */
  lemma {:induction false} EpochIsOfTheLastIssuer(steps: seq<Step>, id: AgentId)
    requires id in Run(INITIAL, steps).store.agents
    ensures Run(INITIAL, steps).store.agents[id].commandControlEpoch == LastFence(steps, id)
    decreases steps
  {
    var n := |steps| - 1;
    var before := Run(INITIAL, steps[..n]);
    if id in before.store.agents {
      EpochIsOfTheLastIssuer(steps[..n], id);
      EpochIsTheIssuersUnlessRetired(before, steps[n], id);
      StepMovesForward(before, steps[n], id);
      hide Do, Retires, FenceOf;
    } else {
      NothingBeforeCreation(steps[..n], id);
      NewAgentsHaveNoEpoch(before, steps[n], id);
      hide Do;
    }
  }

  lemma NewAgentsHaveNoEpoch(sys: System, step: Step, id: AgentId)
    requires id !in sys.store.agents && id in Do(sys, step).store.agents
    ensures Do(sys, step).store.agents[id].commandControlEpoch == None
  {
  }

  lemma {:induction false} NothingBeforeCreation(steps: seq<Step>, id: AgentId)
    requires id !in Run(INITIAL, steps).store.agents
    ensures LastFence(steps, id) == None
    decreases steps
  {
    if steps != [] {
      var n := |steps| - 1;
      if id in Run(INITIAL, steps[..n]).store.agents {
        StepMovesForward(Run(INITIAL, steps[..n]), steps[n], id);
      }
      hide Do, Retires, FenceOf;
      NothingBeforeCreation(steps[..n], id);
    }
  }

  /** The exception is real: an agent started under epoch 7 and then retired
      carries a stop command that still names epoch 7. */
  lemma RetiringKeepsTheOldEpoch()
    ensures var steps := [Create(0, None, 0), LeaseChanges(Some(7)), Desire(0, AgentDesiredStatus.Running, Some(7), 1),
                          LeaseChanges(Some(8)), Update(0, AgentStatus.Stopped, 2)];
            var sys := Run(INITIAL, steps);
            && 0 in sys.store.agents
            && sys.store.lease == Some(8)
            && sys.store.agents[0].commandGeneration == 2
            && sys.store.agents[0].commandControlEpoch == Some(7)
  {
    var steps := [Create(0, None, 0), LeaseChanges(Some(7)), Desire(0, AgentDesiredStatus.Running, Some(7), 1),
                  LeaseChanges(Some(8)), Update(0, AgentStatus.Stopped, 2)];
    assert steps[..4][..3] == steps[..3] && steps[..3][..2] == steps[..2] && steps[..2][..1] == steps[..1]
        && steps[..1][..0] == [];
    assert Run(INITIAL, steps[..1]) == Do(INITIAL, steps[0]);
    assert Run(INITIAL, steps[..2]) == Do(Run(INITIAL, steps[..1]), steps[1]);
    assert Run(INITIAL, steps[..3]) == Do(Run(INITIAL, steps[..2]), steps[2]);
    assert Run(INITIAL, steps[..4]) == Do(Run(INITIAL, steps[..3]), steps[3]);
  }
}
