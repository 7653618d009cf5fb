/** The worker registry behind register, join, heartbeat and deregister. */
module WorkerRegistry {
  import opened Wrappers
  import opened Trimming

  type WorkerId = nat
  type Time = int

  datatype WorkerStatus = Online | Degraded | Draining | Offline | CircuitOpen
  datatype CircuitState = Closed | Open | HalfOpen
  datatype LivenessMode = Periodic | OnDemand

  /** What a worker says about itself when it registers. */
  datatype Profile = Profile(
    endpoint: string,
    labels: map<string, string>,
    maxConcurrent: nat,
    maxAgentProcesses: Option<nat>,
    version: Option<string>,
    liveness: LivenessMode)

  datatype Worker = Worker(
    name: string,
    profile: Profile,
    status: WorkerStatus,
    lastSeen: Option<Time>,
    lastActivityAt: Option<Time>,
    activeTasks: nat,
    circuit: CircuitState,
    registeredAt: Time,
    incarnationStartedAt: Time)

  type Workers = map<WorkerId, Worker>

  datatype ApiError = BadRequest | Unauthorized | Forbidden | NotFound | Conflict

  /** Who is asking: a worker by its own credential, or anyone else. */
  type Context = Option<WorkerId>

  /** `enforce_worker_self_binding`. */
  predicate MayActOn(ctx: Context, target: WorkerId) {
    ctx.Some? ==> ctx.value == target
  }

  predicate NameChar(c: char) {
    '0' <= c <= '9' || 'a' <= c <= 'z' || 'A' <= c <= 'Z' || c == '-' || c == '_' || c == '.'
  }

  predicate ValidName(name: string) {
    forall i :: 0 <= i < |name| ==> NameChar(name[i])
  }

  // --------------------------------------------------------------- lookups

  ghost predicate Named(workers: Workers, name: string, id: WorkerId) {
    id in workers && workers[id].name == name
  }

  ghost predicate NamesUnique(workers: Workers) {
    forall i <- workers, j <- workers :: workers[i].name == workers[j].name ==> i == j
  }

  /** `get_worker_by_name`. */
  ghost function ByName(workers: Workers, name: string): (id: Option<WorkerId>)
    ensures id.Some? ==> Named(workers, name, id.value)
    ensures id.None? ==> forall i :: !Named(workers, name, i)
  {
    if exists i :: Named(workers, name, i) then
      var i :| Named(workers, name, i);
      Some(i)
    else None
  }

  // --------------------------------------------------------------- register

  /** `existing_worker_id` as it came: absent, not a UUID, or an id. */
  datatype GivenId = NoId | BadId | Id(id: WorkerId)

  datatype Register = Register(ctx: Context, name: string, profile: Profile, given: GivenId, newId: WorkerId, now: Time)

  /** Which record a registration is for: the given id's if there is one, else
      the name's, else a new one. */
  ghost function Target(workers: Workers, r: Register): Result<WorkerId, ApiError> {
    var name := Trim(r.name);
    var byName := ByName(workers, name);
    if name == "" || Trim(r.profile.endpoint) == "" || !ValidName(name) || r.given.BadId? then Err(BadRequest)
    else if r.given.Id? && r.given.id in workers then
      if byName.Some? && byName.value != r.given.id then Err(Conflict) else Ok(r.given.id)
    else Ok(byName.UnwrapOr(r.newId))
  }

  ghost function RegisterAnswer(workers: Workers, r: Register): Result<WorkerId, ApiError> {
    match Target(workers, r)
    case Err(e) => Err(e)
    case Ok(id) => if MayActOn(r.ctx, id) then Ok(id) else Err(Forbidden)
  }

  function FreshRow(name: string, profile: Profile, now: Time): Worker {
    Worker(name, profile, Online, Some(now), None, 0, Closed, now, now)
  }

  /** A re-registration: a new process under the record's first registration. */
  function Reregistered(w: Worker, name: string, profile: Profile, now: Time): Worker {
    Worker(name, profile, Online, Some(now), w.lastActivityAt, 0, Closed, w.registeredAt, now)
  }

  ghost function AfterRegister(workers: Workers, r: Register): Workers {
    match RegisterAnswer(workers, r)
    case Err(_) => workers
    case Ok(id) =>
      var name := Trim(r.name);
      workers[id := if id in workers then Reregistered(workers[id], name, r.profile, r.now)
                    else FreshRow(name, r.profile, r.now)]
  }

  // ------------------------------------------------------------------- join

  datatype Join = Join(tokenGiven: bool, admitted: bool, name: string, profile: Profile, newId: WorkerId, now: Time)

  /** `admitted` is the store's verdict on the bootstrap token. */
  ghost function JoinAnswer(workers: Workers, r: Join): Result<WorkerId, ApiError> {
    var name := Trim(r.name);
    if !r.tokenGiven || name == "" || !ValidName(name) || Trim(r.profile.endpoint) == "" then Err(BadRequest)
    else if ByName(workers, name).Some? then Err(Conflict)
    else if !r.admitted then Err(Unauthorized)
    else Ok(r.newId)
  }

  /** A joining worker does not know its cap on agent processes yet. */
  ghost function AfterJoin(workers: Workers, r: Join): Workers {
    match JoinAnswer(workers, r)
    case Err(_) => workers
    case Ok(id) => workers[id := FreshRow(Trim(r.name), r.profile.(maxAgentProcesses := None), r.now)]
  }

  // -------------------------------------------------------------- heartbeat

  datatype Beat = Beat(ctx: Context, id: WorkerId, activeTasks: nat, healthy: bool, cpu: Option<real>,
                       ram: Option<real>, now: Time)

  predicate Overloaded(b: Beat) {
    (b.cpu.Some? && b.cpu.value > 90.0) || (b.ram.Some? && b.ram.value > 90.0)
  }

  function Reported(b: Beat): WorkerStatus {
    if b.healthy then Online else Degraded
  }

  /** Whether the beat writes the status, and with it the row as it was read. */
  predicate WritesStatus(w: Worker, b: Beat) {
    w.status != Draining && (w.status != Reported(b) || Overloaded(b))
  }

  predicate Drains(w: Worker, b: Beat) {
    w.status == Draining || Overloaded(b)
  }

  /** The row a beat leaves: its status, and its tasks and time only if no
      status write put back the row that was read before them. */
  function Beaten(w: Worker, b: Beat): Worker {
    if WritesStatus(w, b) then w.(status := if Overloaded(b) then Draining else Reported(b))
    else w.(activeTasks := b.activeTasks, lastSeen := Some(b.now))
  }

  /** `Ok(drain?)`. */
  function BeatAnswer(workers: Workers, b: Beat): Result<bool, ApiError> {
    if !MayActOn(b.ctx, b.id) then Err(Forbidden)
    else if b.id !in workers then Err(NotFound)
    else Ok(Drains(workers[b.id], b))
  }

  function AfterBeat(workers: Workers, b: Beat): Workers {
    if BeatAnswer(workers, b).Ok? then workers[b.id := Beaten(workers[b.id], b)] else workers
  }

  // ------------------------------------------------------------- deregister

  function DeregisterAnswer(workers: Workers, ctx: Context, id: WorkerId): Result<(), ApiError> {
    if !MayActOn(ctx, id) then Err(Forbidden)
    else if id !in workers then Err(NotFound)
    else Ok(())
  }

  function AfterDeregister(workers: Workers, ctx: Context, id: WorkerId): Workers {
    if DeregisterAnswer(workers, ctx, id).Ok? then workers - {id} else workers
  }

  // -------------------------------------------------------------- the object

  /** The store's worker table, and the handlers as they call it. */
  class WorkerRegistry {
    var workers: Workers

    constructor ()
      ensures workers == map[]
    {
      workers := map[];
    }

    /** Keeps the first registration and the incarnation of an existing row. */
    method UpsertWorker(id: WorkerId, w: Worker)
      modifies this
      ensures workers == old(workers)[id := if id in old(workers)
                then w.(registeredAt := old(workers)[id].registeredAt,
                        incarnationStartedAt := old(workers)[id].incarnationStartedAt)
                else w]
    {
      var next := w;
      if id in workers {
        next := next.(registeredAt := workers[id].registeredAt);
        next := next.(incarnationStartedAt := workers[id].incarnationStartedAt);
      }
      workers := workers[id := next];
    }

    method BumpWorkerIncarnation(id: WorkerId, now: Time)
      modifies this
      ensures workers == if id in old(workers)
                         then old(workers)[id := old(workers)[id].(incarnationStartedAt := now)] else old(workers)
    {
      if id in workers {
        workers := workers[id := workers[id].(incarnationStartedAt := now)];
      }
    }

    method GetWorkerByName(name: string) returns (id: Option<WorkerId>)
      requires NamesUnique(workers)
      ensures id == ByName(workers, name)
    {
      if i: WorkerId :| i in workers && workers[i].name == name {
        assert Named(workers, name, i);
        return Some(i);
      }
      assert forall i :: !Named(workers, name, i);
      return None;
    }

    method RegisterWorker(r: Register) returns (answer: Result<WorkerId, ApiError>)
      requires NamesUnique(workers) && r.newId !in workers
      modifies this
      ensures answer == RegisterAnswer(old(workers), r)
      ensures workers == AfterRegister(old(workers), r)
    {
      var name := Trim(r.name);
      if name == "" || Trim(r.profile.endpoint) == "" || !ValidName(name) {
        return Err(BadRequest);
      }
      var byName := GetWorkerByName(name);
      if r.given.BadId? {
        return Err(BadRequest);
      }
      var byId: Option<WorkerId> := if r.given.Id? && r.given.id in workers then Some(r.given.id) else None;
      if byName.Some? && byId.Some? && byName.value != byId.value {
        return Err(Conflict);
      }
      var id := if byId.Some? then byId.value else byName.UnwrapOr(r.newId);
      if !MayActOn(r.ctx, id) {
        return Err(Forbidden);
      }
      var existing := if byName.Some? then byName else byId;
      var row := FreshRow(name, r.profile, r.now);
      if existing.Some? {
        var w := workers[existing.value];
        row := row.(registeredAt := w.registeredAt, incarnationStartedAt := w.incarnationStartedAt,
                    lastActivityAt := w.lastActivityAt);
        BumpWorkerIncarnation(id, r.now);
      }
      UpsertWorker(id, row);
      return Ok(id);
    }

    method JoinWorker(r: Join) returns (answer: Result<WorkerId, ApiError>)
      requires NamesUnique(workers) && r.newId !in workers
      modifies this
      ensures answer == JoinAnswer(old(workers), r)
      ensures workers == AfterJoin(old(workers), r)
    {
      if !r.tokenGiven {
        return Err(BadRequest);
      }
      var name := Trim(r.name);
      if name == "" || !ValidName(name) || Trim(r.profile.endpoint) == "" {
        return Err(BadRequest);
      }
      var byName := GetWorkerByName(name);
      if byName.Some? {
        return Err(Conflict);
      }
      if !r.admitted {
        return Err(Unauthorized);
      }
      workers := workers[r.newId := FreshRow(name, r.profile.(maxAgentProcesses := None), r.now)];
      return Ok(r.newId);
    }

    method Heartbeat(b: Beat) returns (answer: Result<bool, ApiError>)
      modifies this
      ensures answer == BeatAnswer(old(workers), b)
      ensures workers == AfterBeat(old(workers), b)
    {
      if !MayActOn(b.ctx, b.id) {
        return Err(Forbidden);
      }
      if b.id !in workers {
        return Err(NotFound);
      }
      var worker := workers[b.id];
      workers := workers[b.id := worker.(activeTasks := b.activeTasks, lastSeen := Some(b.now))];
      if worker.status != Draining && worker.status != Reported(b) {
        var updated := worker.(status := Reported(b));
        UpsertWorker(b.id, updated);
      }
      if Overloaded(b) || worker.status == Draining {
        if worker.status != Draining {
          var updated := worker.(status := Draining);
          UpsertWorker(b.id, updated);
        }
        return Ok(true);
      }
      return Ok(false);
    }

    method DeregisterWorker(ctx: Context, id: WorkerId) returns (answer: Result<(), ApiError>)
      modifies this
      ensures answer == DeregisterAnswer(old(workers), ctx, id)
      ensures workers == AfterDeregister(old(workers), ctx, id)
    {
      if !MayActOn(ctx, id) {
        return Err(Forbidden);
      }
      if id !in workers {
        return Err(NotFound);
      }
      workers := workers - {id};
      return Ok(());
    }
  }

  // ------------------------------------------------------------------- runs

  datatype Request =
    | RegisterRequest(register: Register)
    | JoinRequest(join: Join)
    | BeatRequest(beat: Beat)
    | DeregisterRequest(ctx: Context, id: WorkerId)

  /** `starts` is history: when the registrations of each present record succeeded. */
  datatype System = System(workers: Workers, starts: map<WorkerId, seq<Time>>)

  /** Ids are drawn at random; a run never draws one that is in use. */
  predicate DrawsFresh(workers: Workers, q: Request) {
    && (q.RegisterRequest? ==> q.register.newId !in workers)
    && (q.JoinRequest? ==> q.join.newId !in workers)
  }

  ghost function WorkersAfter(workers: Workers, q: Request): Workers {
    match q
    case RegisterRequest(r) => AfterRegister(workers, r)
    case JoinRequest(r) => AfterJoin(workers, r)
    case BeatRequest(b) => AfterBeat(workers, b)
    case DeregisterRequest(ctx, id) => AfterDeregister(workers, ctx, id)
  }

  ghost function Do(sys: System, q: Request): System {
    if !DrawsFresh(sys.workers, q) then sys
    else
      var workers := WorkersAfter(sys.workers, q);
      match q
      case RegisterRequest(r) =>
        if RegisterAnswer(sys.workers, r).Ok? then
          var id := RegisterAnswer(sys.workers, r).value;
          System(workers, sys.starts[id := (if id in sys.starts then sys.starts[id] else []) + [r.now]])
        else sys
      case JoinRequest(r) =>
        if JoinAnswer(sys.workers, r).Ok? then System(workers, sys.starts[r.newId := [r.now]]) else sys
      case BeatRequest(b) => System(workers, sys.starts)
      case DeregisterRequest(ctx, id) => System(workers, if id in workers then sys.starts else sys.starts - {id})
  }

  ghost function Run(sys: System, qs: seq<Request>): System
    decreases qs
  {
    if qs == [] then sys else Do(Run(sys, qs[..|qs| - 1]), qs[|qs| - 1])
  }

  const EMPTY := System(map[], map[])

  ghost predicate NamesValid(workers: Workers) {
    forall id <- workers :: workers[id].name != "" && ValidName(workers[id].name)
  }

  predicate Dated(w: Worker, starts: seq<Time>) {
    starts != [] && w.registeredAt == starts[0] && w.incarnationStartedAt == starts[|starts| - 1]
  }

  ghost predicate AllDated(sys: System) {
    && sys.starts.Keys == sys.workers.Keys
    && forall id <- sys.workers :: Dated(sys.workers[id], sys.starts[id])
  }

  /** A row whose name a request wrote is the only one with that name. */
  lemma WrittenNameIsFree(workers: Workers, q: Request, i: WorkerId, j: WorkerId)
    requires NamesUnique(workers) && DrawsFresh(workers, q)
    requires i in WorkersAfter(workers, q) && j in workers && j != i
    requires i in workers ==> workers[i].name != WorkersAfter(workers, q)[i].name
    ensures workers[j].name != WorkersAfter(workers, q)[i].name
  {
    assert Named(workers, workers[j].name, j);
  }

  lemma OnlyOneNameChanges(workers: Workers, q: Request, i: WorkerId, j: WorkerId)
    requires DrawsFresh(workers, q) && i != j
    requires i in WorkersAfter(workers, q) && j in WorkersAfter(workers, q)
    requires i in workers ==> workers[i].name != WorkersAfter(workers, q)[i].name
    ensures j in workers && WorkersAfter(workers, q)[j] == workers[j]
  {
  }

  lemma StepKeepsNames(workers: Workers, q: Request)
    requires NamesUnique(workers) && NamesValid(workers) && DrawsFresh(workers, q)
    ensures NamesUnique(WorkersAfter(workers, q)) && NamesValid(WorkersAfter(workers, q))
  {
    StepKeepsValid(workers, q);
    hide WorkersAfter, NamesValid;
    var after := WorkersAfter(workers, q);
    forall i <- after, j <- after | after[i].name == after[j].name ensures i == j {
      if i != j {
        OneOfTwo(workers, q, i, j);
      }
    }
  }

  lemma OneOfTwo(workers: Workers, q: Request, i: WorkerId, j: WorkerId)
    requires NamesUnique(workers) && DrawsFresh(workers, q) && i != j
    requires i in WorkersAfter(workers, q) && j in WorkersAfter(workers, q)
    ensures WorkersAfter(workers, q)[i].name != WorkersAfter(workers, q)[j].name
  {
    hide WorkersAfter;
    var after := WorkersAfter(workers, q);
    if !(i in workers && workers[i].name == after[i].name) {
      OnlyOneNameChanges(workers, q, i, j);
      WrittenNameIsFree(workers, q, i, j);
    } else if !(j in workers && workers[j].name == after[j].name) {
      OnlyOneNameChanges(workers, q, j, i);
      WrittenNameIsFree(workers, q, j, i);
    }
  }

  lemma StepKeepsValid(workers: Workers, q: Request)
    requires NamesValid(workers)
    ensures NamesValid(WorkersAfter(workers, q))
  {
  }

  lemma StepKeepsDates(sys: System, q: Request)
    requires AllDated(sys)
    ensures AllDated(Do(sys, q))
  {
  }

  lemma {:induction false} RunKeepsInv(qs: seq<Request>)
    ensures NamesUnique(Run(EMPTY, qs).workers) && NamesValid(Run(EMPTY, qs).workers) && AllDated(Run(EMPTY, qs))
    decreases qs
  {
    if qs != [] {
      var sys, q := Run(EMPTY, qs[..|qs| - 1]), qs[|qs| - 1];
      RunKeepsInv(qs[..|qs| - 1]);
      if DrawsFresh(sys.workers, q) {
        StepKeepsNames(sys.workers, q);
      }
      StepKeepsDates(sys, q);
      DoWorkers(sys, q);
      hide Do, NamesUnique, NamesValid, AllDated;
    }
  }

  lemma DoWorkers(sys: System, q: Request)
    ensures Do(sys, q).workers == if DrawsFresh(sys.workers, q) then WorkersAfter(sys.workers, q) else sys.workers
  {
  }

  /** Every request reaches the store, provided a new id is new. */
  lemma RequestsHappen(sys: System, q: Request)
    requires q.RegisterRequest? ==> q.register.newId !in sys.workers
    requires q.JoinRequest? ==> q.join.newId !in sys.workers
    ensures Do(sys, q).workers
         == match q
            case RegisterRequest(r) => AfterRegister(sys.workers, r)
            case JoinRequest(r) => AfterJoin(sys.workers, r)
            case BeatRequest(b) => AfterBeat(sys.workers, b)
            case DeregisterRequest(ctx, id) => AfterDeregister(sys.workers, ctx, id)
  {
    hide AfterBeat, AfterDeregister;
  }

  /** After every run: names are valid and belong to one record each; a record's
      `registered_at` is its first registration's time and never moves, and its
      incarnation began at its latest registration, whatever beats came between. */
  lemma RegistryStaysConsistent(qs: seq<Request>, i: WorkerId, j: WorkerId)
    requires i in Run(EMPTY, qs).workers && j in Run(EMPTY, qs).workers
    ensures var sys := Run(EMPTY, qs);
            && (sys.workers[i].name == sys.workers[j].name ==> i == j)
            && sys.workers[i].name != "" && Spelled(sys.workers[i].name)
            && i in sys.starts && Dated(sys.workers[i], sys.starts[i])
  {
    RunKeepsInv(qs);
    SpelledIsValid(Run(EMPTY, qs).workers[i].name);
    hide Run;
  }

  // --------------------------------------------------- what each request does

  /** Letters, digits, `-`, `_` and `.` only. */
  predicate Spelled(name: string) {
    forall c <- name :: 'a' <= c <= 'z' || 'A' <= c <= 'Z' || '0' <= c <= '9' || c in "-_."
  }

  /** The record a registration is for: the one its id names, else the one its
      name names, else a new one. */
  ghost predicate IsFor(workers: Workers, r: Register, id: WorkerId) {
    if r.given.Id? && r.given.id in workers then id == r.given.id
    else if exists i <- workers :: workers[i].name == Trim(r.name) then
      id in workers && workers[id].name == Trim(r.name)
    else id == r.newId
  }

  /** When each answer of a registration is given, and for which record. */
  lemma RegisterAnswers(workers: Workers, r: Register, id: WorkerId)
    requires NamesUnique(workers)
    ensures var answer := RegisterAnswer(workers, r);
            var bad := Trim(r.name) == "" || !Spelled(Trim(r.name)) || Trim(r.profile.endpoint) == "" || r.given.BadId?;
            var clash := r.given.Id? && r.given.id in workers
                         && exists i <- workers :: i != r.given.id && workers[i].name == Trim(r.name);
            && (answer == Err(BadRequest) <==> bad)
            && (answer == Err(Conflict) <==> !bad && clash)
            && (answer == Ok(id) <==> !bad && !clash && IsFor(workers, r, id) && (r.ctx.None? || r.ctx.value == id))
            && (answer == Err(Forbidden) ==> r.ctx.Some?)
  {
    var name := Trim(r.name);
    SpelledIsValid(name);
    hide Trim, ValidName, Spelled;
    forall i | i in workers && workers[i].name == name ensures Named(workers, name, i) {
    }
    if ByName(workers, name).Some? {
      assert Named(workers, name, ByName(workers, name).value);
    }
  }

  lemma SpelledIsValid(name: string)
    ensures Spelled(name) <==> ValidName(name)
  {
    if ValidName(name) {
      forall c <- name ensures 'a' <= c <= 'z' || 'A' <= c <= 'Z' || '0' <= c <= '9' || c in "-_." {
        var i :| 0 <= i < |name| && name[i] == c;
        assert NameChar(name[i]);
      }
    }
    if Spelled(name) {
      forall i | 0 <= i < |name| ensures NameChar(name[i]) {
        assert name[i] in name;
      }
    }
  }

  /** The row an accepted registration leaves: a new process under what the
      worker now says about itself; only the first registration and the last
      sign of life are kept. */
  lemma RegisteredRow(workers: Workers, r: Register, id: WorkerId)
    requires RegisterAnswer(workers, r) == Ok(id)
    ensures AfterRegister(workers, r) == workers[id :=
              Worker(Trim(r.name), r.profile, Online, Some(r.now),
                     if id in workers then workers[id].lastActivityAt else None, 0, Closed,
                     if id in workers then workers[id].registeredAt else r.now, r.now)]
  {
    hide Trim, ByName;
  }

  /** A registration ends a drain: a healthy worker's next beat is not told to drain. */
  lemma RegistrationEndsDrain(workers: Workers, r: Register, b: Beat)
    requires RegisterAnswer(workers, r) == Ok(b.id) && (b.ctx.None? || b.ctx.value == b.id)
    requires b.healthy && (b.cpu.Some? ==> b.cpu.value <= 90.0) && (b.ram.Some? ==> b.ram.value <= 90.0)
    ensures BeatAnswer(AfterRegister(workers, r), b) == Ok(false)
  {
    RegisteredRow(workers, r, b.id);
    hide AfterRegister, RegisterAnswer;
  }

  /** When each answer of a join is given, and the row it leaves. */
  lemma JoinAnswers(workers: Workers, r: Join)
    ensures var answer := JoinAnswer(workers, r);
            var bad := !r.tokenGiven || Trim(r.name) == "" || !Spelled(Trim(r.name)) || Trim(r.profile.endpoint) == "";
            var taken := exists i <- workers :: workers[i].name == Trim(r.name);
            && (answer == Err(BadRequest) <==> bad)
            && (answer == Err(Conflict) <==> !bad && taken)
            && (answer == Err(Unauthorized) <==> !bad && !taken && !r.admitted)
            && (answer == Ok(r.newId) <==> !bad && !taken && r.admitted)
            && (answer.Ok? ==>
                  AfterJoin(workers, r) == workers[r.newId :=
                    Worker(Trim(r.name), r.profile.(maxAgentProcesses := None), Online, Some(r.now), None, 0, Closed,
                           r.now, r.now)])
  {
    var name := Trim(r.name);
    SpelledIsValid(name);
    hide Trim, ValidName, Spelled;
    if ByName(workers, name).None? {
      forall i <- workers ensures workers[i].name != name {
        assert !Named(workers, name, i);
      }
    }
  }

  /** When each answer of a beat is given, and the status it leaves. */
  lemma BeatAnswers(workers: Workers, b: Beat)
    ensures var answer := BeatAnswer(workers, b);
            var mine := b.ctx.None? || b.ctx.value == b.id;
            var loaded := (b.cpu.Some? && b.cpu.value > 90.0) || (b.ram.Some? && b.ram.value > 90.0);
            && (answer == Err(Forbidden) <==> !mine)
            && (answer == Err(NotFound) <==> mine && b.id !in workers)
            && (answer == Ok(true) <==> mine && b.id in workers && (workers[b.id].status == Draining || loaded))
            && (answer == Ok(false) <==> mine && b.id in workers && workers[b.id].status != Draining && !loaded)
            && (answer == Ok(true) ==> AfterBeat(workers, b)[b.id].status == Draining)
            && (answer == Ok(false) ==> AfterBeat(workers, b)[b.id].status == if b.healthy then Online else Degraded)
            && (answer.Err? ==> AfterBeat(workers, b) == workers)
  {
  }

  /** A beat changes at most the status, the tasks and the time of its record. */
  lemma BeatTouchesLittle(workers: Workers, b: Beat)
    requires BeatAnswer(workers, b).Ok?
    ensures var w, w' := workers[b.id], AfterBeat(workers, b)[b.id];
            AfterBeat(workers, b) == workers[b.id := w']
            && w' == w.(status := w'.status, activeTasks := w'.activeTasks, lastSeen := w'.lastSeen)
  {
  }

  /** A removal removes the record it names, if the caller may act on it. */
  lemma DeregisterAnswers(workers: Workers, ctx: Context, id: WorkerId)
    ensures var answer := DeregisterAnswer(workers, ctx, id);
            var mine := ctx.None? || ctx.value == id;
            && (answer == Err(Forbidden) <==> !mine)
            && (answer == Err(NotFound) <==> mine && id !in workers)
            && AfterDeregister(workers, ctx, id) == if mine then workers - {id} else workers
  {
    if id !in workers {
      assert workers - {id} == workers;
    }
  }

  function ContextOf(q: Request): Context {
    match q
    case RegisterRequest(r) => r.ctx
    case JoinRequest(_) => None
    case BeatRequest(b) => b.ctx
    case DeregisterRequest(ctx, _) => ctx
  }

  /** A request made with worker `w`'s own credential neither creates a record
      nor changes or deletes any record but `w`'s. */
  lemma BoundRequestsTouchOnlyTheirs(workers: Workers, q: Request, w: WorkerId, id: WorkerId)
    requires ContextOf(q) == Some(w) && DrawsFresh(workers, q)
    ensures id in WorkersAfter(workers, q) ==> id in workers || id == w
    ensures id != w && id in workers ==> id in WorkersAfter(workers, q) && WorkersAfter(workers, q)[id] == workers[id]
    ensures w !in workers && (q.RegisterRequest? ==> q.register.newId != w) ==> WorkersAfter(workers, q) == workers
  {
  }

  /** However long it goes on: over every run of requests made with worker `w`'s
      own credential, the other records stay what they were and no other record
      appears. */
  lemma {:induction false} BoundRunsTouchOnlyTheirs(sys: System, qs: seq<Request>, w: WorkerId, id: WorkerId)
    requires (forall q <- qs :: ContextOf(q) == Some(w)) && id != w
    ensures id in Run(sys, qs).workers <==> id in sys.workers
    ensures id in sys.workers ==> Run(sys, qs).workers[id] == sys.workers[id]
    decreases qs
  {
    if qs != [] {
      var before, q := Run(sys, qs[..|qs| - 1]), qs[|qs| - 1];
      BoundRunsTouchOnlyTheirs(sys, qs[..|qs| - 1], w, id);
      DoWorkers(before, q);
      if DrawsFresh(before.workers, q) {
        BoundRequestsTouchOnlyTheirs(before.workers, q, w, id);
      }
      hide Do, WorkersAfter, DrawsFresh;
    }
  }

  /** A beat answers "drain" exactly when the record is then Draining. */
  lemma DrainAnswersTheStatus(workers: Workers, b: Beat)
    requires BeatAnswer(workers, b).Ok?
    ensures BeatAnswer(workers, b).value <==> AfterBeat(workers, b)[b.id].status == Draining
  {
  }

  /** Requests that end a drain: a registration of the record, or its removal. */
  ghost predicate EndsDrain(workers: Workers, q: Request, id: WorkerId) {
    || (q.RegisterRequest? && RegisterAnswer(workers, q.register) == Ok(id))
    || (q.DeregisterRequest? && q.id == id)
  }

  /** Drain lasts: as long as the record is not registered again or removed, it
      stays Draining and every beat of it is told to drain, healthy or not. */
  lemma {:induction false} DrainLasts(sys: System, qs: seq<Request>, id: WorkerId, b: Beat)
    requires id in sys.workers && sys.workers[id].status == Draining
    requires forall i :: 0 <= i < |qs| ==> !EndsDrain(Run(sys, qs[..i]).workers, qs[i], id)
    requires b.id == id && (b.ctx.None? || b.ctx.value == id)
    ensures id in Run(sys, qs).workers && Run(sys, qs).workers[id].status == Draining
    ensures BeatAnswer(Run(sys, qs).workers, b) == Ok(true)
    decreases qs
  {
    if qs != [] {
      var n := |qs| - 1;
      forall i | 0 <= i < n ensures !EndsDrain(Run(sys, qs[..n][..i]).workers, qs[..n][i], id) {
        assert qs[..n][..i] == qs[..i];
      }
      DrainLasts(sys, qs[..n], id, b);
      assert !EndsDrain(Run(sys, qs[..n]).workers, qs[n], id);
      hide Run;
      StillDraining(Run(sys, qs[..n]), qs[n], id);
    }
  }

  lemma StillDraining(sys: System, q: Request, id: WorkerId)
    requires id in sys.workers && sys.workers[id].status == Draining && !EndsDrain(sys.workers, q, id)
    ensures id in Do(sys, q).workers && Do(sys, q).workers[id].status == Draining
  {
    DoWorkers(sys, q);
    hide Do;
  }

  /** A beat does not always record what it reports. The reported tasks and the
      time of the beat are stored if and only if the beat writes no status, or
      they are what was stored before: a status write puts back the row as it
      was read before the beat. */
  lemma BeatIsRecordedIff(workers: Workers, b: Beat)
    requires BeatAnswer(workers, b).Ok?
    ensures var w, w' := workers[b.id], AfterBeat(workers, b)[b.id];
            (w'.activeTasks == b.activeTasks && w'.lastSeen == Some(b.now))
            <==> !WritesStatus(w, b) || (w.activeTasks == b.activeTasks && w.lastSeen == Some(b.now))
  {
  }

  /** What a record last took in: a registration starts it without tasks, a
      beat reports its own. */
  datatype Report = Report(activeTasks: nat, at: Time)

  /** The latest registration of the record or beat of it that wrote no status. */
  ghost function LastReport(qs: seq<Request>, id: WorkerId): Option<Report>
    decreases qs
  {
    if qs == [] then None
    else
      var n := |qs| - 1;
      var workers, earlier := Run(EMPTY, qs[..n]).workers, LastReport(qs[..n], id);
      if !DrawsFresh(workers, qs[n]) then earlier
      else match qs[n]
        case RegisterRequest(r) => if RegisterAnswer(workers, r) == Ok(id) then Some(Report(0, r.now)) else earlier
        case JoinRequest(r) => if JoinAnswer(workers, r) == Ok(id) then Some(Report(0, r.now)) else earlier
        case BeatRequest(b) =>
          if b.id == id && BeatAnswer(workers, b).Ok? && !WritesStatus(workers[id], b)
          then Some(Report(b.activeTasks, b.now))
          else earlier
        case DeregisterRequest(_, _) => earlier
  }

  predicate Shows(w: Worker, report: Option<Report>) {
    report.Some? && w.activeTasks == report.value.activeTasks && w.lastSeen == Some(report.value.at)
  }

  /** After every run a record shows the tasks and the time of its latest
      registration or status-preserving beat: beats that wrote a status left
      no trace in either. */
  lemma {:induction false} RecordsShowTheirLastReport(qs: seq<Request>, id: WorkerId)
    requires id in Run(EMPTY, qs).workers
    ensures Shows(Run(EMPTY, qs).workers[id], LastReport(qs, id))
    decreases qs
  {
    var n := |qs| - 1;
    var before := Run(EMPTY, qs[..n]);
    if id in before.workers {
      RecordsShowTheirLastReport(qs[..n], id);
    }
    DoWorkers(before, qs[n]);
    hide Do, Target, ByName;
  }

  /** How a worker last described itself: its latest registration or join. */
  ghost function LastProfile(qs: seq<Request>, id: WorkerId): Option<(string, Profile)>
    decreases qs
  {
    if qs == [] then None
    else
      var n := |qs| - 1;
      var workers, earlier := Run(EMPTY, qs[..n]).workers, LastProfile(qs[..n], id);
      if !DrawsFresh(workers, qs[n]) then earlier
      else match qs[n]
        case RegisterRequest(r) =>
          if RegisterAnswer(workers, r) == Ok(id) then Some((Trim(r.name), r.profile)) else earlier
        case JoinRequest(r) =>
          if JoinAnswer(workers, r) == Ok(id) then Some((Trim(r.name), r.profile.(maxAgentProcesses := None)))
          else earlier
        case _ => earlier
  }

  /** After every run a record's name and profile are those of its latest
      registration or join, whatever beats came between. */
  lemma {:induction false} RecordsKeepTheirProfile(qs: seq<Request>, id: WorkerId)
    requires id in Run(EMPTY, qs).workers
    ensures LastProfile(qs, id) == Some((Run(EMPTY, qs).workers[id].name, Run(EMPTY, qs).workers[id].profile))
    decreases qs
  {
    var n := |qs| - 1;
    var before := Run(EMPTY, qs[..n]);
    if id in before.workers {
      RecordsKeepTheirProfile(qs[..n], id);
    }
    DoWorkers(before, qs[n]);
    hide Do, Target, ByName, Trim;
  }

  /** So a worker that comes back from Offline is Online again, but looks as
      long unseen as before. */
  lemma RecoveryKeepsLastSeen(w: Worker, id: WorkerId, b: Beat)
    requires w.status == Offline && b.id == id && b.ctx.None? && b.healthy && b.cpu.None? && b.ram.None?
    ensures var after := AfterBeat(map[id := w], b);
            id in after && after[id].status == Online && after[id].lastSeen == w.lastSeen
  {
  }

  /** A worker that registers under a name finds the record of that name again. */
  lemma ReconnectFindsTheRecord(workers: Workers, r: Register, again: Register)
    requires NamesUnique(workers) && r.newId !in workers
    requires RegisterAnswer(workers, r).Ok? && again.given.NoId? && again.ctx.None?
    requires Trim(again.name) == Trim(r.name) && Trim(again.profile.endpoint) != ""
    ensures RegisterAnswer(AfterRegister(workers, r), again) == RegisterAnswer(workers, r)
  {
    var id := RegisterAnswer(workers, r).value;
    var after := AfterRegister(workers, r);
    assert Named(after, Trim(r.name), id);
    forall j | Named(after, Trim(r.name), j) ensures j == id {
      assert j != id ==> Named(workers, Trim(r.name), j);
    }
  }
}
