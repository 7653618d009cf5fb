/** The life of a task under racing writers: the phase machine, the
    compare-and-set every writer goes through, control epochs, and the events
    that follow applied transitions.

    The store executes one compare-and-set at a time (one SQL statement, or one
    lock), so a run is a sequence of such steps. A writer may decide on any
    snapshot, however old, which is why a run lets every well-aimed request
    arrive at every moment.
 */
module TaskLifecycle {
  import opened Wrappers

  type TaskId = nat
  type Time = int

  datatype Phase = Pending | Dispatched | Completed | Failed | Cancelled

  datatype TaskStatus =
    | IsPending
    | IsDispatched(workerId: nat, startedAt: Time)
    | IsCompleted(result: string)
    | IsFailed(failure: string)
    | IsCancelled(reason: string, cancelledAt: Time)

  function PhaseOf(s: TaskStatus): Phase {
    match s
    case IsPending => Pending
    case IsDispatched(_, _) => Dispatched
    case IsCompleted(_) => Completed
    case IsFailed(_) => Failed
    case IsCancelled(_, _) => Cancelled
  }

  predicate IsTerminal(p: Phase) {
    p.Completed? || p.Failed? || p.Cancelled?
  }

  predicate TransitionAllowed(from: Phase, to: Phase) {
    match (from, to)
    case (Pending, Dispatched) => true
    case (Pending, Failed) => true
    case (Pending, Cancelled) => true
    case (Dispatched, Completed) => true
    case (Dispatched, Failed) => true
    case (Dispatched, Cancelled) => true
    case _ => false
  }

  function AllowedPredecessors(to: Phase): set<Phase> {
    match to
    case Pending => {}
    case Dispatched => {Pending}
    case Completed => {Dispatched}
    case Failed => {Pending, Dispatched}
    case Cancelled => {Pending, Dispatched}
  }

  /** The two tables describe one relation. */
  lemma PredecessorsInvertTheTable(from: Phase, to: Phase)
    ensures from in AllowedPredecessors(to) <==> TransitionAllowed(from, to)
    ensures IsTerminal(from) <==> forall next :: !TransitionAllowed(from, next)
  {
    if !IsTerminal(from) {
      assert TransitionAllowed(from, Failed);
    }
  }

  // -------------------------------------------------------- compare and set

  /** A stored task, as far as a status write reads or changes it. */
  datatype Row = Row(status: TaskStatus, dispatchedAt: Option<Time>, dispatchControlEpoch: Option<int>)

  /** "This instance still holds `epoch` of `cluster`." */
  datatype ControlFence = ControlFence(clusterId: string, epoch: int)

  datatype Origin = ControlDecision | WorkerOutcome

  datatype Outcome =
    | Applied
    | Rejected(current: Phase)
    | Fenced
    | StaleDispatchEpoch(dispatchedUnder: int)

  datatype StoreError = NotFound

  datatype Request = Request(
    id: TaskId,
    expected: set<Phase>,
    new_: TaskStatus,
    fence: Option<ControlFence>,
    origin: Origin,
    now: Time)

  datatype Store = Store(leases: map<string, int>, tasks: map<TaskId, Row>)

  predicate FenceHolds(s: Store, fence: Option<ControlFence>) {
    fence.Some? ==> fence.value.clusterId in s.leases && s.leases[fence.value.clusterId] == fence.value.epoch
  }

  /** The dispatch-epoch predicate a fenced worker outcome must also meet. */
  predicate OutcomeIsCurrent(row: Row, r: Request) {
    (r.fence.Some? && r.origin.WorkerOutcome? && row.dispatchControlEpoch.Some?) ==>
      row.dispatchControlEpoch.value == r.fence.value.epoch
  }

  /** The answer of `compare_and_set_task_status`: fence, then row, then dispatch epoch, then phase. */
  function Decide(s: Store, r: Request): Result<Outcome, StoreError> {
    if !FenceHolds(s, r.fence) then Ok(Fenced)
    else if r.id !in s.tasks then Err(NotFound)
    else if !OutcomeIsCurrent(s.tasks[r.id], r) then
      Ok(StaleDispatchEpoch(s.tasks[r.id].dispatchControlEpoch.value))
    else if PhaseOf(s.tasks[r.id].status) !in r.expected then Ok(Rejected(PhaseOf(s.tasks[r.id].status)))
    else Ok(Applied)
  }

  /** The row an applied request leaves: only a dispatch moves the dispatch
      time, and only a fenced dispatch records its epoch. */
  function Written(row: Row, r: Request): Row {
    if r.new_.IsDispatched? then
      Row(r.new_, Some(r.now),
          if r.fence.Some? then Some(r.fence.value.epoch) else row.dispatchControlEpoch)
    else
      row.(status := r.new_)
  }

  function AfterCas(s: Store, r: Request): Store {
    if Decide(s, r) == Ok(Applied) then s.(tasks := s.tasks[r.id := Written(s.tasks[r.id], r)]) else s
  }

  /** What every caller keeps to: it expects only phases its target may follow. */
  predicate WellAimed(r: Request) {
    r.expected <= AllowedPredecessors(PhaseOf(r.new_))
  }

  // ------------------------------------------------------------------ runs

  /** A transition that was applied, or the event that reports it. */
  datatype Note = Note(id: TaskId, status: TaskStatus)

  datatype Step =
    | Insert(id: TaskId)
    | AcquireLease(clusterId: string)
      /** One compare-and-set; `announces` says whether its caller appends an event when applied. */
    | Cas(request: Request, announces: bool)
      /** A caller that saw `Applied` appends its event. */
    | Announce(note: Note)
      /** Its append failed, or it died before it. */
    | Lose(note: Note)

  /** The dispatch of a task that was applied: the fence it carried and its time. */
  datatype Dispatch = Dispatch(fence: Option<ControlFence>, at: Time)

  /** `applied` and `dispatches` are history. */
  datatype System = System(
    store: Store,
    dispatches: map<TaskId, Dispatch>,
    applied: seq<Note>,
    inFlight: multiset<Note>,
    events: seq<Note>,
    lost: multiset<Note>,
    silent: multiset<Note>)

  const INIT: System := System(Store(map[], map[]), map[], [], multiset{}, [], multiset{}, multiset{})

  function Next(sys: System, step: Step): System {
    match step
    case Insert(id) =>
      if id in sys.store.tasks then sys
      else sys.(store := sys.store.(tasks := sys.store.tasks[id := Row(IsPending, None, None)]))
    case AcquireLease(c) =>
      var epoch := if c in sys.store.leases then sys.store.leases[c] + 1 else 1;
      sys.(store := sys.store.(leases := sys.store.leases[c := epoch]))
    case Cas(r, announces) =>
      if !WellAimed(r) || Decide(sys.store, r) != Ok(Applied) then sys
      else
        var note := Note(r.id, r.new_);
        sys.(store := AfterCas(sys.store, r), applied := sys.applied + [note],
             dispatches := if r.new_.IsDispatched? then sys.dispatches[r.id := Dispatch(r.fence, r.now)]
                           else sys.dispatches,
             inFlight := if announces then sys.inFlight + multiset{note} else sys.inFlight,
             silent := if announces then sys.silent else sys.silent + multiset{note})
    case Announce(note) =>
      if note !in sys.inFlight then sys
      else sys.(inFlight := sys.inFlight - multiset{note}, events := sys.events + [note])
    case Lose(note) =>
      if note !in sys.inFlight then sys
      else sys.(inFlight := sys.inFlight - multiset{note}, lost := sys.lost + multiset{note})
  }

  function Run(sys: System, steps: seq<Step>): System
    decreases steps
  {
    if steps == [] then sys else Run(Next(sys, steps[0]), steps[1..])
  }

  /** The statuses a task went through: where it began, then every applied write. */
  function Path(applied: seq<Note>, id: TaskId): (p: seq<TaskStatus>)
    ensures |p| >= 1 && p[0] == IsPending
  {
    if applied == [] then [IsPending]
    else
      var last := applied[|applied| - 1];
      Path(applied[..|applied| - 1], id) + (if last.id == id then [last.status] else [])
  }

  predicate LegalPath(p: seq<TaskStatus>) {
    && |p| >= 1
    && p[0] == IsPending
    && forall i :: 0 <= i < |p| - 1 ==> TransitionAllowed(PhaseOf(p[i]), PhaseOf(p[i + 1]))
  }

  ghost predicate TaskOk(applied: seq<Note>, tasks: map<TaskId, Row>, id: TaskId) {
    var p := Path(applied, id);
    && LegalPath(p)
    && (id in tasks ==> p[|p| - 1] == tasks[id].status)
    && (id in tasks && tasks[id].dispatchControlEpoch.Some? ==> |p| >= 2)
    && (id !in tasks ==> |p| == 1)
  }

  /** Every applied transition is announced, still to be announced, lost, or made by a silent caller. */
  ghost predicate Accounted(sys: System) {
    multiset(sys.applied) == multiset(sys.events) + sys.inFlight + sys.lost + sys.silent
  }

  ghost predicate Inv(sys: System) {
    Accounted(sys) && forall id :: TaskOk(sys.applied, sys.store.tasks, id)
  }

  lemma PathSnoc(applied: seq<Note>, note: Note, id: TaskId)
    ensures Path(applied + [note], id) == Path(applied, id) + (if note.id == id then [note.status] else [])
  {
    assert (applied + [note])[..|applied|] == applied;
  }

  lemma CasKeepsTask(sys: System, r: Request, id: TaskId)
    requires TaskOk(sys.applied, sys.store.tasks, id) && WellAimed(r) && Decide(sys.store, r) == Ok(Applied)
    ensures TaskOk(sys.applied + [Note(r.id, r.new_)], AfterCas(sys.store, r).tasks, id)
  {
    PathSnoc(sys.applied, Note(r.id, r.new_), id);
    PredecessorsInvertTheTable(PhaseOf(sys.store.tasks[r.id].status), PhaseOf(r.new_));
  }

  lemma StepKeepsAccount(sys: System, step: Step)
    requires Accounted(sys)
    ensures Accounted(Next(sys, step))
  {
    hide Decide, WellAimed, AfterCas;
  }

  lemma StepKeepsTask(sys: System, step: Step, id: TaskId)
    requires TaskOk(sys.applied, sys.store.tasks, id)
    ensures TaskOk(Next(sys, step).applied, Next(sys, step).store.tasks, id)
  {
    if step.Cas? {
      hide Decide, TaskOk, WellAimed, AfterCas;
      if WellAimed(step.request) && Decide(sys.store, step.request) == Ok(Applied) {
        CasKeepsTask(sys, step.request, id);
      }
    }
  }

  lemma StepKeepsInv(sys: System, step: Step)
    requires Inv(sys)
    ensures Inv(Next(sys, step))
  {
    StepKeepsAccount(sys, step);
    hide Next, TaskOk, Accounted;
    forall id ensures TaskOk(Next(sys, step).applied, Next(sys, step).store.tasks, id) {
      StepKeepsTask(sys, step, id);
    }
  }

  lemma {:induction false} RunKeepsInv(sys: System, steps: seq<Step>)
    requires Inv(sys)
    ensures Inv(Run(sys, steps))
    decreases steps
  {
    if steps != [] {
      StepKeepsInv(sys, steps[0]);
      RunKeepsInv(Next(sys, steps[0]), steps[1..]);
    }
  }

  lemma Reachable(steps: seq<Step>)
    ensures Inv(Run(INIT, steps))
  {
    forall id ensures TaskOk(INIT.applied, INIT.store.tasks, id) { }
    RunKeepsInv(INIT, steps);
  }

  // --------------------------------------------------------- what runs keep

  function Rank(s: TaskStatus): nat {
    if s.IsPending? then 0 else if s.IsDispatched? then 1 else 2
  }

  lemma {:induction false} RankGrows(p: seq<TaskStatus>, i: nat, j: nat)
    requires LegalPath(p) && i <= j < |p|
    ensures Rank(p[i]) + (j - i) <= Rank(p[j])
    decreases j - i
  {
    if i < j {
      RankGrows(p, i + 1, j);
    }
  }

  /** A legal path dispatches at most once, ends at most once, and ends there. */
  lemma LegalPathShape(p: seq<TaskStatus>)
    requires LegalPath(p)
    ensures |p| <= 3
    ensures forall i :: 0 <= i < |p| ==> (p[i].IsDispatched? ==> i == 1)
    ensures forall i :: 0 <= i < |p| ==> (IsTerminal(PhaseOf(p[i])) ==> i == |p| - 1)
    ensures forall i :: 0 <= i < |p| ==> (p[i].IsCompleted? ==> i == 2 && p[1].IsDispatched?)
    ensures forall i, j :: 0 <= i < j < |p| ==> p[i] != p[j]
  {
    RankGrows(p, 0, |p| - 1);
    forall i | 0 <= i < |p| ensures Rank(p[i]) >= i { RankGrows(p, 0, i); }
    forall i, j | 0 <= i < j < |p| ensures p[i] != p[j] { RankGrows(p, i, j); }
    if |p| > 1 { assert TransitionAllowed(PhaseOf(p[0]), PhaseOf(p[0 + 1])); }
    if |p| > 2 { assert TransitionAllowed(PhaseOf(p[1]), PhaseOf(p[1 + 1])); }
  }

  /** In every interleaving of any writers, the applied statuses of a stored
      task form a legal path that ends in the stored status, with at most one
      dispatch and at most one terminal status. */
  lemma AppliedStatusesFormAPath(steps: seq<Step>, id: TaskId)
    requires id in Run(INIT, steps).store.tasks
    ensures var sys := Run(INIT, steps);
            var p := Path(sys.applied, id);
            && LegalPath(p) && |p| <= 3 && p[|p| - 1] == sys.store.tasks[id].status
            && (forall i :: 0 <= i < |p| ==> (p[i].IsDispatched? ==> i == 1))
            && (forall i :: 0 <= i < |p| ==> (IsTerminal(PhaseOf(p[i])) ==> i == |p| - 1))
            && (forall i :: 0 <= i < |p| ==> (p[i].IsCompleted? ==> i == 2 && p[1].IsDispatched?))
  {
    Reachable(steps);
    assert TaskOk(Run(INIT, steps).applied, Run(INIT, steps).store.tasks, id);
    LegalPathShape(Path(Run(INIT, steps).applied, id));
  }

  lemma TerminalStep(sys: System, step: Step, id: TaskId)
    requires id in sys.store.tasks && IsTerminal(PhaseOf(sys.store.tasks[id].status))
    ensures id in Next(sys, step).store.tasks && Next(sys, step).store.tasks[id] == sys.store.tasks[id]
  {
    if step.Cas? && step.request.id == id && WellAimed(step.request) {
      PredecessorsInvertTheTable(PhaseOf(sys.store.tasks[id].status), PhaseOf(step.request.new_));
    }
  }

  /** A terminal status is never overwritten, by anyone, ever. */
  lemma {:induction false} TerminalIsForever(sys: System, steps: seq<Step>, id: TaskId)
    requires id in sys.store.tasks && IsTerminal(PhaseOf(sys.store.tasks[id].status))
    ensures id in Run(sys, steps).store.tasks && Run(sys, steps).store.tasks[id] == sys.store.tasks[id]
    decreases steps
  {
    if steps != [] {
      TerminalStep(sys, steps[0], id);
      TerminalIsForever(Next(sys, steps[0]), steps[1..], id);
    }
  }

  /** A task's path holds its applied transitions, each as often as it was applied. */
  lemma {:induction false} PathCounts(applied: seq<Note>, note: Note)
    ensures multiset(Path(applied, note.id)[1..])[note.status] == multiset(applied)[note]
  {
    if applied != [] {
      var n := |applied| - 1;
      var p, last := Path(applied[..n], note.id), applied[n];
      PathCounts(applied[..n], note);
      assert applied == applied[..n] + [last];
      if last.id == note.id {
        assert Path(applied, note.id)[1..] == p[1..] + [last.status];
      } else {
        assert Path(applied, note.id) == p;
      }
    }
  }

  lemma {:induction false} DistinctCount<T>(p: seq<T>, x: T)
    requires forall i, j :: 0 <= i < j < |p| ==> p[i] != p[j]
    ensures multiset(p)[x] <= 1
  {
    if p != [] {
      var n := |p| - 1;
      assert p == p[..n] + [p[n]];
      DistinctCount(p[..n], x);
      assert p[n] !in p[..n];
      assert p[n] !in multiset(p[..n]);
    }
  }

  /** No transition was applied twice. */
  lemma AppliedOnce(applied: seq<Note>, note: Note)
    requires LegalPath(Path(applied, note.id))
    ensures multiset(applied)[note] <= 1
  {
    PathCounts(applied, note);
    LegalPathShape(Path(applied, note.id));
    DistinctCount(Path(applied, note.id)[1..], note.status);
  }

  /** Events gated on `applied()` match the applied transitions: no event
      without one, none twice, and none missing once nothing is in flight,
      nothing was lost and every caller announces. */
  lemma EventsMatchApplied(steps: seq<Step>, note: Note)
    ensures var sys := Run(INIT, steps);
            && multiset(sys.events) <= multiset(sys.applied)
            && multiset(sys.events)[note] <= 1
            && (sys.inFlight == sys.lost == sys.silent == multiset{} ==> multiset(sys.events) == multiset(sys.applied))
  {
    Reachable(steps);
    var sys := Run(INIT, steps);
    assert TaskOk(sys.applied, sys.store.tasks, note.id);
    AppliedOnce(sys.applied, note);
  }

  // ----------------------------------------------------------------- epochs

  /** A new holder's epoch is above every earlier one, so the old holder is fenced at once. */
  lemma NewHolderFencesTheOld(sys: System, c: string, r: Request)
    requires c in sys.store.leases
    requires r.fence.Some? && r.fence.value.clusterId == c && r.fence.value.epoch <= sys.store.leases[c]
    ensures var after := Next(sys, AcquireLease(c));
            c in after.store.leases && sys.store.leases[c] < after.store.leases[c]
            && Decide(after.store, r) == Ok(Fenced)
  {
  }

  lemma {:induction false} LeasesGrow(sys: System, steps: seq<Step>, c: string)
    requires c in sys.store.leases
    ensures c in Run(sys, steps).store.leases && sys.store.leases[c] <= Run(sys, steps).store.leases[c]
    decreases steps
  {
    if steps != [] {
      LeasesGrow(Next(sys, steps[0]), steps[1..], c);
    }
  }

  /** How often a cluster's lease changed hands. */
  function Acquisitions(steps: seq<Step>, c: string): nat {
    if steps == [] then 0
    else Acquisitions(steps[1..], c) + if steps[0] == AcquireLease(c) then 1 else 0
  }

  function EpochIn(sys: System, c: string): int {
    if c in sys.store.leases then sys.store.leases[c] else 0
  }

  lemma OneMoreHolder(sys: System, step: Step, c: string)
    ensures EpochIn(Next(sys, step), c) == EpochIn(sys, c) + if step == AcquireLease(c) then 1 else 0
    ensures c in Next(sys, step).store.leases <==> c in sys.store.leases || step == AcquireLease(c)
  {
    hide Decide, WellAimed;
  }

  /** The epochs of a cluster count its holders from 1 on, whatever else is written. */
  lemma {:induction false} EpochsCountHolders(sys: System, steps: seq<Step>, c: string)
    ensures EpochIn(Run(sys, steps), c) == EpochIn(sys, c) + Acquisitions(steps, c)
    ensures c in Run(sys, steps).store.leases <==> c in sys.store.leases || Acquisitions(steps, c) > 0
    decreases steps
  {
    hide Next, EpochIn;
    if steps != [] {
      EpochsCountHolders(Next(sys, steps[0]), steps[1..], c);
      OneMoreHolder(sys, steps[0], c);
    }
  }

  /** A write that carries an epoch the lease has passed changes nothing, now
      and at every later moment, and is told so. */
  lemma StaleFenceIsPowerless(sys: System, steps: seq<Step>, r: Request)
    requires r.fence.Some? && r.fence.value.clusterId in sys.store.leases
    requires r.fence.value.epoch < sys.store.leases[r.fence.value.clusterId]
    ensures var later := Run(sys, steps);
            && Decide(later.store, r) == Ok(Fenced)
            && forall announces :: Next(later, Cas(r, announces)) == later
  {
    LeasesGrow(sys, steps, r.fence.value.clusterId);
  }

  lemma EpochStep(sys: System, step: Step, id: TaskId)
    requires Inv(sys) && id in sys.store.tasks && sys.store.tasks[id].dispatchControlEpoch.Some?
    ensures id in Next(sys, step).store.tasks
    ensures Next(sys, step).store.tasks[id].dispatchControlEpoch == sys.store.tasks[id].dispatchControlEpoch
  {
    if step.Cas? && step.request.id == id && WellAimed(step.request) && step.request.new_.IsDispatched? {
      assert TaskOk(sys.applied, sys.store.tasks, id);
      var p := Path(sys.applied, id);
      LegalPathShape(p);
      assert TransitionAllowed(PhaseOf(p[0]), PhaseOf(p[1]));
      assert !p[|p| - 1].IsPending?;
      assert Decide(sys.store, step.request) != Ok(Applied);
    }
  }

  /** The dispatch epoch is written once. */
  lemma {:induction false} DispatchEpochIsForever(sys: System, steps: seq<Step>, id: TaskId)
    requires Inv(sys) && id in sys.store.tasks && sys.store.tasks[id].dispatchControlEpoch.Some?
    ensures id in Run(sys, steps).store.tasks
    ensures Run(sys, steps).store.tasks[id].dispatchControlEpoch == sys.store.tasks[id].dispatchControlEpoch
    decreases steps
  {
    if steps != [] {
      EpochStep(sys, steps[0], id);
      StepKeepsInv(sys, steps[0]);
      DispatchEpochIsForever(Next(sys, steps[0]), steps[1..], id);
    }
  }

  /** Once the lease has moved past the epoch that dispatched a task, no fenced
      worker outcome for it lands any more, whichever epoch it carries. */
  lemma StaleOutcomeNeverLands(sys: System, steps: seq<Step>, r: Request)
    requires Inv(sys) && r.id in sys.store.tasks && sys.store.tasks[r.id].dispatchControlEpoch.Some?
    requires r.fence.Some? && r.origin.WorkerOutcome? && r.fence.value.clusterId in sys.store.leases
    requires sys.store.tasks[r.id].dispatchControlEpoch.value < sys.store.leases[r.fence.value.clusterId]
    ensures Decide(Run(sys, steps).store, r) != Ok(Applied)
    ensures r.fence.value.clusterId in Run(sys, steps).store.leases
    ensures Run(sys, steps).store.leases[r.fence.value.clusterId] == r.fence.value.epoch
        ==> Decide(Run(sys, steps).store, r) == Ok(StaleDispatchEpoch(sys.store.tasks[r.id].dispatchControlEpoch.value))
  {
    LeasesGrow(sys, steps, r.fence.value.clusterId);
    DispatchEpochIsForever(sys, steps, r.id);
  }

  /** When each answer is given. */
  lemma DecideIff(s: Store, r: Request)
    ensures Decide(s, r) == Ok(Fenced) <==>
              r.fence.Some?
              && !(r.fence.value.clusterId in s.leases && s.leases[r.fence.value.clusterId] == r.fence.value.epoch)
    ensures Decide(s, r) == Err(NotFound) <==> Decide(s, r) != Ok(Fenced) && r.id !in s.tasks
    ensures forall e :: Decide(s, r) == Ok(StaleDispatchEpoch(e))
              <==> r.fence.Some? && Decide(s, r) != Ok(Fenced) && r.origin.WorkerOutcome? && r.id in s.tasks
                   && s.tasks[r.id].dispatchControlEpoch == Some(e) && e != r.fence.value.epoch
    ensures Decide(s, r) == Ok(Applied)
       <==> Decide(s, r) != Ok(Fenced) && r.id in s.tasks && PhaseOf(s.tasks[r.id].status) in r.expected
            && (r.fence.Some? && r.origin.WorkerOutcome?
                ==> s.tasks[r.id].dispatchControlEpoch in {None, Some(r.fence.value.epoch)})
    ensures Decide(s, r) != Ok(Applied) ==> AfterCas(s, r) == s
  {
  }

  /** The phase a rejection reports is that of the stored status. */
  lemma RejectionNamesTheStatus(s: Store, r: Request, current: Phase)
    requires Decide(s, r) == Ok(Rejected(current))
    ensures var status := s.tasks[r.id].status;
            && (current == Pending <==> status.IsPending?)
            && (current == Dispatched <==> status.IsDispatched?)
            && (current == Completed <==> status.IsCompleted?)
            && (current == Failed <==> status.IsFailed?)
            && (current == Cancelled <==> status.IsCancelled?)
            && current !in r.expected
  {
  }

  /** What an applied request leaves in the row: its status always; the time and
      the epoch of its fence when it dispatches, and neither otherwise. */
  lemma AppliedRow(s: Store, r: Request)
    requires Decide(s, r) == Ok(Applied)
    ensures r.id in AfterCas(s, r).tasks
    ensures var before, after := s.tasks[r.id], AfterCas(s, r).tasks[r.id];
            && after.status == r.new_
            && after.dispatchedAt == (if r.new_.IsDispatched? then Some(r.now) else before.dispatchedAt)
            && after.dispatchControlEpoch
            == (if r.new_.IsDispatched? && r.fence.Some? then Some(r.fence.value.epoch)
                else before.dispatchControlEpoch)
    ensures forall id :: id != r.id ==>
              (id in AfterCas(s, r).tasks <==> id in s.tasks)
              && (id in s.tasks ==> AfterCas(s, r).tasks[id] == s.tasks[id])
    ensures AfterCas(s, r).leases == s.leases
  {
  }

  // ------------------------------------------------- what a dispatch records

  function EpochOf(fence: Option<ControlFence>): Option<int> {
    if fence.Some? then Some(fence.value.epoch) else None
  }

  /** A row's dispatch time and epoch are those of the task's applied dispatch. */
  ghost predicate Recorded(sys: System, id: TaskId) {
    && (id in sys.dispatches ==> id in sys.store.tasks && !sys.store.tasks[id].status.IsPending?)
    && (id in sys.store.tasks ==>
          var row := sys.store.tasks[id];
          if id in sys.dispatches
          then row.dispatchedAt == Some(sys.dispatches[id].at)
               && row.dispatchControlEpoch == EpochOf(sys.dispatches[id].fence)
          else row.dispatchedAt == None && row.dispatchControlEpoch == None && !row.status.IsDispatched?
               && !row.status.IsCompleted?)
  }

  lemma StepKeepsRecorded(sys: System, step: Step, id: TaskId)
    requires Recorded(sys, id)
    ensures Recorded(Next(sys, step), id)
  {
    if step.Cas? && WellAimed(step.request) && Decide(sys.store, step.request) == Ok(Applied) {
      AppliedRow(sys.store, step.request);
      assert PhaseOf(sys.store.tasks[step.request.id].status) in AllowedPredecessors(PhaseOf(step.request.new_));
      hide Decide, AfterCas, WellAimed;
    }
  }

  lemma {:induction false} RunKeepsRecorded(sys: System, steps: seq<Step>, id: TaskId)
    requires Recorded(sys, id)
    ensures Recorded(Run(sys, steps), id)
    decreases steps
  {
    if steps != [] {
      StepKeepsRecorded(sys, steps[0], id);
      RunKeepsRecorded(Next(sys, steps[0]), steps[1..], id);
    }
  }

  /** Over every run a task that was dispatched carries the time and the epoch of
      its one dispatch, none if that had no fence; a task that never was carries
      neither, and is neither dispatched nor completed. */
  lemma DispatchIsRecorded(steps: seq<Step>, id: TaskId)
    requires id in Run(INIT, steps).store.tasks
    ensures var sys := Run(INIT, steps);
            var row := sys.store.tasks[id];
            && (id in sys.dispatches ==>
                  row.dispatchedAt == Some(sys.dispatches[id].at)
                  && row.dispatchControlEpoch == EpochOf(sys.dispatches[id].fence))
            && (id !in sys.dispatches ==>
                  row.dispatchedAt == None && row.dispatchControlEpoch == None
                  && !row.status.IsDispatched? && !row.status.IsCompleted?)
  {
    RunKeepsRecorded(INIT, steps, id);
  }

  /** So whoever holds the lease later and reports an outcome is told exactly the
      epoch the task was dispatched under, unless it is the holder's own. */
  lemma LaterHoldersAreTold(steps: seq<Step>, r: Request, issuer: ControlFence)
    requires var sys := Run(INIT, steps);
             && r.id in sys.dispatches && sys.dispatches[r.id].fence == Some(issuer)
             && r.fence.Some? && r.origin.WorkerOutcome?
             && r.fence.value.clusterId in sys.store.leases
             && sys.store.leases[r.fence.value.clusterId] == r.fence.value.epoch
    ensures var answer := Decide(Run(INIT, steps).store, r);
            && (r.fence.value.epoch != issuer.epoch ==> answer == Ok(StaleDispatchEpoch(issuer.epoch)))
            && (r.fence.value.epoch == issuer.epoch ==>
                  answer.Ok? && !answer.value.StaleDispatchEpoch? && !answer.value.Fenced?)
  {
    RunKeepsRecorded(INIT, steps, r.id);
    hide Run;
  }

  /** The holder of the lease can always take a pending task through a dispatch
      to its outcome: both writes apply, and the second one leaves the record of
      the first. */
  lemma HolderFinishesWhatItDispatches(s: Store, id: TaskId, fence: ControlFence, worker: nat, at: Time,
                                       outcome: TaskStatus, now: Time)
    requires id in s.tasks && s.tasks[id].status == IsPending
    requires fence.clusterId in s.leases && s.leases[fence.clusterId] == fence.epoch
    requires outcome.IsCompleted? || outcome.IsFailed? || outcome.IsCancelled?
    ensures var dispatch := Request(id, AllowedPredecessors(Dispatched), IsDispatched(worker, at), Some(fence),
                                    ControlDecision, at);
            var finish := Request(id, AllowedPredecessors(PhaseOf(outcome)), outcome, Some(fence), WorkerOutcome, now);
            var s1 := AfterCas(s, dispatch);
            && Decide(s, dispatch) == Ok(Applied) && Decide(s1, finish) == Ok(Applied)
            && AfterCas(s1, finish).tasks[id] == Row(outcome, Some(at), Some(fence.epoch))
  {
  }

  /** From every state a new task can live and be reported: inserted, dispatched
      by the next holder of a lease, ended with an outcome, both announced; and
      nothing else of the state moves. */
  lemma ATaskCanLive(sys: System, id: TaskId, c: string, worker: nat, at: Time, result: string, now: Time)
    requires id !in sys.store.tasks
    ensures var epoch := EpochIn(sys, c) + 1;
            var fence := Some(ControlFence(c, epoch));
            var dispatch := Request(id, {Pending}, IsDispatched(worker, at), fence, ControlDecision, at);
            var finish := Request(id, {Dispatched}, IsCompleted(result), fence, WorkerOutcome, now);
            var first, second := Note(id, dispatch.new_), Note(id, finish.new_);
            var s1 := Next(Next(sys, Insert(id)), AcquireLease(c));
            var s2 := Next(Next(s1, Cas(dispatch, true)), Announce(first));
            var s3 := Next(Next(s2, Cas(finish, true)), Announce(second));
            && s3.store.tasks == sys.store.tasks[id := Row(IsCompleted(result), Some(at), Some(epoch))]
            && s3.store.leases == sys.store.leases[c := epoch]
            && s3.applied == sys.applied + [first, second] && s3.events == sys.events + [first, second]
            && s3.inFlight == sys.inFlight && s3.lost == sys.lost && s3.silent == sys.silent
  {
    var epoch := EpochIn(sys, c) + 1;
    var fence := ControlFence(c, epoch);
    var s1 := Next(Next(sys, Insert(id)), AcquireLease(c));
    hide *;
    InsertedAndLeased(sys, id, c);
    var dispatch := Request(id, {Pending}, IsDispatched(worker, at), Some(fence), ControlDecision, at);
    HolderWrites(s1, dispatch, fence, Row(IsDispatched(worker, at), Some(at), Some(epoch)));
    var s2 := Next(Next(s1, Cas(dispatch, true)), Announce(Note(id, dispatch.new_)));
    var finish := Request(id, {Dispatched}, IsCompleted(result), Some(fence), WorkerOutcome, now);
    HolderWrites(s2, finish, fence, Row(IsCompleted(result), Some(at), Some(epoch)));
  }

  lemma InsertedAndLeased(sys: System, id: TaskId, c: string)
    requires id !in sys.store.tasks
    ensures Next(Next(sys, Insert(id)), AcquireLease(c))
         == sys.(store := Store(sys.store.leases[c := EpochIn(sys, c) + 1],
                                sys.store.tasks[id := Row(IsPending, None, None)]))
  {
  }

  lemma HolderWrites(sys: System, r: Request, fence: ControlFence, row: Row)
    requires r.fence == Some(fence) && fence.clusterId in sys.store.leases
    requires sys.store.leases[fence.clusterId] == fence.epoch && r.id in sys.store.tasks
    requires var was := sys.store.tasks[r.id];
             || (was.status.IsPending? && r.expected == {Pending} && r.new_.IsDispatched?
                 && was.dispatchControlEpoch.None? && row == Row(r.new_, Some(r.now), Some(fence.epoch)))
             || (was.status.IsDispatched? && r.expected == {Dispatched} && r.new_.IsCompleted?
                 && was.dispatchControlEpoch == Some(fence.epoch) && row == was.(status := r.new_))
    ensures var note := Note(r.id, r.new_);
            var after := Next(Next(sys, Cas(r, true)), Announce(note));
            && after.store == sys.store.(tasks := sys.store.tasks[r.id := row])
            && after.applied == sys.applied + [note] && after.events == sys.events + [note]
            && after.inFlight == sys.inFlight && after.lost == sys.lost && after.silent == sys.silent
  {
    assert Decide(sys.store, r) == Ok(Applied);
    AppliedRow(sys.store, r);
    CasAndAnnounce(sys, r);
    hide Next, Decide;
  }

  /** A well-aimed request that applies and is announced. */
  lemma CasAndAnnounce(sys: System, r: Request)
    requires Decide(sys.store, r) == Ok(Applied) && r.expected <= AllowedPredecessors(PhaseOf(r.new_))
    ensures var note := Note(r.id, r.new_);
            var after := Next(Next(sys, Cas(r, true)), Announce(note));
            && after.store == AfterCas(sys.store, r)
            && after.applied == sys.applied + [note] && after.events == sys.events + [note]
            && after.inFlight == sys.inFlight && after.lost == sys.lost && after.silent == sys.silent
    ensures Next(Next(sys, Cas(r, true)), Lose(Note(r.id, r.new_))).lost == sys.lost + multiset{Note(r.id, r.new_)}
    ensures Next(sys, Cas(r, false)).silent == sys.silent + multiset{Note(r.id, r.new_)}
  {
    hide AfterCas, Decide;
  }

  /** A caller without a fence is never told about epochs. */
  lemma UnfencedNeverSeesEpochs(s: Store, r: Request)
    requires r.fence.None?
    ensures Decide(s, r) == Err(NotFound) || Decide(s, r) == Ok(Applied)
         || exists current :: Decide(s, r) == Ok(Rejected(current))
  {
    if r.id in s.tasks && PhaseOf(s.tasks[r.id].status) !in r.expected {
      assert Decide(s, r) == Ok(Rejected(PhaseOf(s.tasks[r.id].status)));
    }
  }

  /** The current holder can always reap: its decision to fail or cancel any
      task that has not ended applies, whichever epoch dispatched the task. */
  lemma NoOrphanIsUnreapable(steps: seq<Step>, id: TaskId, fence: ControlFence, status: TaskStatus, now: Time)
    requires var s := Run(INIT, steps).store;
             && id in s.tasks && (s.tasks[id].status.IsPending? || s.tasks[id].status.IsDispatched?)
             && fence.clusterId in s.leases && s.leases[fence.clusterId] == fence.epoch
    requires status.IsFailed? || status.IsCancelled?
    ensures var s := Run(INIT, steps).store;
            var r := Request(id, AllowedPredecessors(PhaseOf(status)), status, Some(fence), ControlDecision, now);
            && Decide(s, r) == Ok(Applied)
            && AfterCas(s, r).tasks[id].status == status
            && AfterCas(s, r).tasks[id].dispatchControlEpoch == s.tasks[id].dispatchControlEpoch
  {
    PredecessorsInvertTheTable(PhaseOf(Run(INIT, steps).store.tasks[id].status), PhaseOf(status));
  }

  /** Judged as an outcome instead, the same reaping would wait forever: the
      reason the caller has to name its origin. */
  lemma OriginMatters(sys: System, steps: seq<Step>, id: TaskId, fence: ControlFence, status: TaskStatus, now: Time)
    requires Inv(sys) && id in sys.store.tasks && sys.store.tasks[id].dispatchControlEpoch.Some?
    requires fence.clusterId in sys.store.leases
    requires sys.store.tasks[id].dispatchControlEpoch.value < sys.store.leases[fence.clusterId]
    ensures Decide(Run(sys, steps).store,
                   Request(id, AllowedPredecessors(PhaseOf(status)), status, Some(fence), WorkerOutcome, now))
         != Ok(Applied)
  {
    var r := Request(id, AllowedPredecessors(PhaseOf(status)), status, Some(fence), WorkerOutcome, now);
    StaleOutcomeNeverLands(sys, steps, r);
  }

  // ----------------------------------------------------- the store in place

  /** `fleet tasks cancel`, as the operator sees it end. */
  datatype CancelReport =
    | TaskCancelled
    | NoSuchTask
    | AlreadyTerminal(phase: Phase)
    | ReachedTerminal(phase: Phase)
    | StoreBug

  /** The requests other writers get in between two steps of one caller. */
  function AfterAll(s: Store, rs: seq<Request>): Store {
    if rs == [] then s else AfterCas(AfterAll(s, rs[..|rs| - 1]), rs[|rs| - 1])
  }

  lemma {:induction false} AfterAllKeepsRow(s: Store, rs: seq<Request>, id: TaskId)
    requires id in s.tasks
    ensures id in AfterAll(s, rs).tasks
  {
    if rs != [] {
      AfterAllKeepsRow(s, rs[..|rs| - 1], id);
    }
  }

  class TaskStore {
    var leases: map<string, int>
    var tasks: map<TaskId, Row>

    function Model(): Store
      reads this
    {
      Store(leases, tasks)
    }

    constructor ()
      ensures Model() == INIT.store
    {
      leases, tasks := map[], map[];
    }

    /** `compare_and_set_task_status`, check by check. */
    method CompareAndSet(r: Request) returns (answer: Result<Outcome, StoreError>)
      modifies this
      ensures answer == Decide(old(Model()), r)
      ensures Model() == AfterCas(old(Model()), r)
    {
      if r.fence.Some? {
        var f := r.fence.value;
        if !(f.clusterId in leases && leases[f.clusterId] == f.epoch) {
          return Ok(Fenced);
        }
      }
      if r.id !in tasks {
        return Err(NotFound);
      }
      var task := tasks[r.id];
      if r.fence.Some? && r.origin.WorkerOutcome? && task.dispatchControlEpoch.Some? {
        var under := task.dispatchControlEpoch.value;
        if under != r.fence.value.epoch {
          return Ok(StaleDispatchEpoch(under));
        }
      }
      var current := PhaseOf(task.status);
      if current !in r.expected {
        return Ok(Rejected(current));
      }
      task := task.(status := r.new_);
      if r.new_.IsDispatched? {
        task := task.(dispatchedAt := Some(r.now));
        if r.fence.Some? {
          task := task.(dispatchControlEpoch := Some(r.fence.value.epoch));
        }
      }
      tasks := tasks[r.id := task];
      return Ok(Applied);
    }

    /** Other processes writing while a caller waits. */
    method Interleave(others: seq<Request>)
      modifies this
      ensures Model() == AfterAll(old(Model()), others)
    {
      for i := 0 to |others|
        invariant Model() == AfterAll(old(Model()), others[..i])
      {
        var _ := CompareAndSet(others[i]);
        assert others[..i + 1][..i] == others[..i];
      }
      assert others[..|others|] == others;
    }

    /** `run_tasks_cancel`: read, check, then write without a fence, with any
        number of other writers in between. It cancels exactly when the task
        was open at the read and still is at the write, it never overwrites an
        end another writer reached, and the epoch answers cannot occur. */
    method RunTasksCancel(id: TaskId, reason: string, now: Time, others: seq<Request>) returns (report: CancelReport)
      modifies this
      ensures report == NoSuchTask <==> id !in old(tasks)
      ensures report.AlreadyTerminal? <==> id in old(tasks) && IsTerminal(PhaseOf(old(tasks)[id].status))
      ensures report == NoSuchTask || report.AlreadyTerminal? ==> Model() == old(Model())
      ensures !report.StoreBug?
      ensures var between := AfterAll(old(Model()), others);
              id in old(tasks) && !IsTerminal(PhaseOf(old(tasks)[id].status)) ==>
                && id in between.tasks
                && (if IsTerminal(PhaseOf(between.tasks[id].status))
                    then report == ReachedTerminal(PhaseOf(between.tasks[id].status)) && Model() == between
                    else report == TaskCancelled
                         && var row := between.tasks[id].(status := IsCancelled(reason, now));
                            Model() == between.(tasks := between.tasks[id := row]))
    {
      if id !in tasks {
        return NoSuchTask;
      }
      var task := tasks[id];
      if IsTerminal(PhaseOf(task.status)) {
        return AlreadyTerminal(PhaseOf(task.status));
      }
      AfterAllKeepsRow(Model(), others, id);
      Interleave(others);
      var r := Request(id, {Pending, Dispatched}, IsCancelled(reason, now), None, ControlDecision, now);
      var answer := CompareAndSet(r);
      match answer
      case Ok(Applied) => return TaskCancelled;
      case Ok(Rejected(current)) => return ReachedTerminal(current);
      case _ => return StoreBug;
    }
  }
}
