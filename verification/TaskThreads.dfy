/** Threads of tasks: the flat `thread_id` against the walk up `parent_task_id`
    it replaces, and what a reply inherits on the way.
 */
module TaskThreads {
  import opened Wrappers

  type TaskId = nat

  /** The part of a submission that inheritance looks at. */
  datatype Request = Request(
    serverHint: Option<string>,
    cwd: Option<string>,
    model: Option<string>,
    projectId: Option<nat>,
    agentId: Option<nat>)

  /** The part of a stored task that threads are about. */
  datatype Row = Row(
    id: TaskId,
    threadId: TaskId,
    parentTaskId: Option<TaskId>,
    serverHint: Option<string>,
    cwd: Option<string>,
    model: Option<string>,
    projectId: Option<nat>,
    agentId: Option<nat>)

  /** `Task::from_request` for a submission that names no parent itself. */
  function FromRequest(id: TaskId, req: Request): Row {
    Row(id, id, None, req.serverHint, req.cwd, req.model, req.projectId, req.agentId)
  }

  function Or<T>(own: Option<T>, inherited: Option<T>): Option<T> {
    if own.Some? then own else inherited
  }

  /** What `inherit_from_parent` makes of a row. */
  function Inherited(row: Row, parent: Row): Row {
    row.(parentTaskId := Some(parent.id),
         threadId := parent.threadId,
         serverHint := Or(row.serverHint, parent.serverHint),
         cwd := Or(row.cwd, parent.cwd),
         model := Or(row.model, parent.model),
         projectId := Or(row.projectId, parent.projectId))
  }

  class Task {
    const id: TaskId
    var threadId: TaskId
    var parentTaskId: Option<TaskId>
    var serverHint: Option<string>
    var cwd: Option<string>
    var model: Option<string>
    var projectId: Option<nat>
    var agentId: Option<nat>

    function Model(): Row
      reads this
    {
      Row(id, threadId, parentTaskId, serverHint, cwd, model, projectId, agentId)
    }

    constructor (id: TaskId, req: Request)
      ensures Model() == FromRequest(id, req)
    {
      this.id, threadId, parentTaskId := id, id, None;
      serverHint, cwd, model, projectId, agentId := req.serverHint, req.cwd, req.model, req.projectId, req.agentId;
    }

    method InheritFromParent(parent: Task)
      requires parent != this
      modifies this
      ensures Model() == Inherited(old(Model()), parent.Model())
    {
      parentTaskId := Some(parent.id);
      threadId := parent.threadId;
      if serverHint.None? {
        serverHint := parent.serverHint;
      }
      if cwd.None? {
        cwd := parent.cwd;
      }
      if model.None? {
        model := parent.model;
      }
      if projectId.None? {
        projectId := parent.projectId;
      }
    }
  }

  // ------------------------------------------------------------------ runs

  /** How a task came to be: its place in the order of creation, what was asked, and the task it replies to. */
  datatype Birth = Birth(rank: nat, req: Request, parent: Option<TaskId>)

  datatype Step =
    | CreateRoot(id: TaskId, req: Request)
    | CreateReply(id: TaskId, req: Request, parent: TaskId)
    | End(id: TaskId)
    | Delete(id: TaskId)

  /** Every task ever created, the rows still stored, and the tasks that have
      reached a terminal status. */
  datatype State = State(born: map<TaskId, Birth>, live: map<TaskId, Row>, ended: set<TaskId>)

  const INIT: State := State(map[], map[], {})

  /** Deleting a task, which must have ended, clears `parent_task_id` in the rows that named it, and nothing else. */
  function Forget(row: Row, id: TaskId): Row {
    if row.parentTaskId == Some(id) then row.(parentTaskId := None) else row
  }

  function Next(s: State, step: Step): State {
    match step
    case CreateRoot(id, req) =>
      if id in s.born then s
      else s.(born := s.born[id := Birth(|s.born|, req, None)], live := s.live[id := FromRequest(id, req)])
    case CreateReply(id, req, parent) =>
      if id in s.born || parent !in s.live then s
      else s.(born := s.born[id := Birth(|s.born|, req, Some(parent))],
              live := s.live[id := Inherited(FromRequest(id, req), s.live[parent])])
    case End(id) => s.(ended := s.ended + {id})
    case Delete(id) =>
      if id !in s.live || id !in s.ended then s
      else s.(live := map t | t in s.live && t != id :: Forget(s.live[t], id))
  }

  function Run(s: State, steps: seq<Step>): State
    decreases steps
  {
    if steps == [] then s else Run(Next(s, steps[0]), steps[1..])
  }

  /** Parents were born before their children, which is why walking up ends. */
  ghost predicate WellFounded(born: map<TaskId, Birth>) {
    && (forall id :: id in born ==> born[id].rank < |born|)
    && forall id :: id in born && born[id].parent.Some? ==>
         born[id].parent.value in born && born[born[id].parent.value].rank < born[id].rank
  }

  /** The task a thread began with. */
  ghost function Root(born: map<TaskId, Birth>, id: TaskId): TaskId
    requires WellFounded(born) && id in born
    decreases born[id].rank
  {
    if born[id].parent.None? then id else Root(born, born[id].parent.value)
  }

  /** The first explicit value met on the way up from a task. */
  ghost function Nearest<T>(born: map<TaskId, Birth>, id: TaskId, pick: Request -> Option<T>): Option<T>
    requires WellFounded(born) && id in born
    decreases born[id].rank
  {
    if pick(born[id].req).Some? || born[id].parent.None? then pick(born[id].req)
    else Nearest(born, born[id].parent.value, pick)
  }

  function HintOf(r: Request): Option<string> { r.serverHint }
  function CwdOf(r: Request): Option<string> { r.cwd }
  function ModelOf(r: Request): Option<string> { r.model }
  function ProjectOf(r: Request): Option<nat> { r.projectId }

  ghost predicate RowOk(born: map<TaskId, Birth>, live: map<TaskId, Row>, id: TaskId)
    requires WellFounded(born) && id in born && id in live
  {
    var row := live[id];
    && row.id == id
    && row.threadId == Root(born, id)
    && row.serverHint == Nearest(born, id, HintOf)
    && row.cwd == Nearest(born, id, CwdOf)
    && row.model == Nearest(born, id, ModelOf)
    && row.projectId == Nearest(born, id, ProjectOf)
    && row.agentId == born[id].req.agentId
    && row.parentTaskId == (if born[id].parent.Some? && born[id].parent.value in live then born[id].parent else None)
  }

  ghost predicate Inv(s: State) {
    && WellFounded(s.born)
    && s.live.Keys <= s.born.Keys
    && forall id :: id in s.live ==> RowOk(s.born, s.live, id)
  }

  /** A new birth leaves every earlier walk as it was. */
  lemma {:induction false} BirthKeepsWalks(born: map<TaskId, Birth>, newborn: TaskId, birth: Birth, id: TaskId)
    requires WellFounded(born) && newborn !in born && WellFounded(born[newborn := birth]) && id in born
    ensures Root(born[newborn := birth], id) == Root(born, id)
    ensures forall pick: Request -> Option<string> ::
              Nearest(born[newborn := birth], id, pick) == Nearest(born, id, pick)
    ensures forall pick: Request -> Option<nat> :: Nearest(born[newborn := birth], id, pick) == Nearest(born, id, pick)
    decreases born[id].rank
  {
    if born[id].parent.Some? {
      BirthKeepsWalks(born, newborn, birth, born[id].parent.value);
    }
  }

  lemma CreateKeepsInv(s: State, id: TaskId, birth: Birth, row: Row)
    requires Inv(s) && id !in s.born && birth.rank == |s.born|
    requires birth.parent.Some? ==> birth.parent.value in s.live
    requires row == if birth.parent.None? then FromRequest(id, birth.req)
                    else Inherited(FromRequest(id, birth.req), s.live[birth.parent.value])
    ensures Inv(s.(born := s.born[id := birth], live := s.live[id := row]))
  {
    var born, live := s.born[id := birth], s.live[id := row];
    assert |born| == |s.born| + 1;
    assert WellFounded(born);
    if birth.parent.Some? {
      BirthKeepsWalks(s.born, id, birth, birth.parent.value);
      assert RowOk(s.born, s.live, birth.parent.value);
    }
    forall t | t in live ensures RowOk(born, live, t) {
      if t != id {
        BirthKeepsWalks(s.born, id, birth, t);
        assert RowOk(s.born, s.live, t);
      }
    }
  }

  lemma StepKeepsInv(s: State, step: Step)
    requires Inv(s)
    ensures Inv(Next(s, step))
  {
    match step
    case CreateRoot(id, req) =>
      if id !in s.born { CreateKeepsInv(s, id, Birth(|s.born|, req, None), FromRequest(id, req)); }
    case CreateReply(id, req, parent) =>
      if id !in s.born && parent in s.live {
        CreateKeepsInv(s, id, Birth(|s.born|, req, Some(parent)), Inherited(FromRequest(id, req), s.live[parent]));
      }
    case End(id) =>
    case Delete(id) =>
      var live := Next(s, step).live;
      forall t | t in live ensures RowOk(s.born, live, t) { assert RowOk(s.born, s.live, t); }
  }

  lemma {:induction false} RunKeepsInv(s: State, steps: seq<Step>)
    requires Inv(s)
    ensures Inv(Run(s, steps))
    decreases steps
  {
    if steps != [] {
      StepKeepsInv(s, steps[0]);
      RunKeepsInv(Next(s, steps[0]), steps[1..]);
    }
  }

  // --------------------------------------------------------- what runs keep

  /** Over every run of creations and deletions, a stored task carries the
      thread of its root and the nearest explicit values on the way up, and
      only its own agent. */
  lemma RowsAgreeWithTheWalk(steps: seq<Step>, id: TaskId)
    requires id in Run(INIT, steps).live
    ensures var s := Run(INIT, steps);
            && WellFounded(s.born) && id in s.born
            && s.live[id].threadId == Root(s.born, id)
            && s.live[id].serverHint == Nearest(s.born, id, HintOf)
            && s.live[id].cwd == Nearest(s.born, id, CwdOf)
            && s.live[id].model == Nearest(s.born, id, ModelOf)
            && s.live[id].projectId == Nearest(s.born, id, ProjectOf)
            && s.live[id].agentId == s.born[id].req.agentId
  {
    RunKeepsInv(INIT, steps);
    assert RowOk(Run(INIT, steps).born, Run(INIT, steps).live, id);
  }

  /** Two stored tasks are found under one `thread_id` exactly when they share a root. */
  lemma SameThreadIffSameRoot(steps: seq<Step>, a: TaskId, b: TaskId)
    requires a in Run(INIT, steps).live && b in Run(INIT, steps).live
    ensures var s := Run(INIT, steps);
            && WellFounded(s.born) && a in s.born && b in s.born
            && (s.live[a].threadId == s.live[b].threadId <==> Root(s.born, a) == Root(s.born, b))
  {
    RowsAgreeWithTheWalk(steps, a);
    RowsAgreeWithTheWalk(steps, b);
  }

  /** Over every run a task that has not ended stays stored, and keeps
      everything but the link to a parent that was deleted. */
  lemma {:induction false} OpenTasksStay(s: State, steps: seq<Step>, id: TaskId)
    requires Inv(s) && id in s.live && id !in s.ended
    requires forall i :: 0 <= i < |steps| ==> steps[i] != End(id)
    ensures id in Run(s, steps).live
    ensures Run(s, steps).live[id] == s.live[id].(parentTaskId := Run(s, steps).live[id].parentTaskId)
    decreases steps
  {
    if steps != [] {
      var next := Next(s, steps[0]);
      assert id in s.born;
      OpenTaskStays(s, steps[0], id);
      StepKeepsInv(s, steps[0]);
      hide Inv, Next;
      assert forall i {:trigger steps[1..][i]} :: 0 <= i < |steps| - 1 ==> steps[1..][i] == steps[i + 1];
      OpenTasksStay(next, steps[1..], id);
    }
  }

  lemma OpenTaskStays(s: State, step: Step, id: TaskId)
    requires id in s.born && id in s.live && id !in s.ended && step != End(id)
    ensures id in Next(s, step).live && id !in Next(s, step).ended
    ensures Next(s, step).live[id] == s.live[id].(parentTaskId := Next(s, step).live[id].parentTaskId)
  {
  }

  // ----------------------------------------- the walk over the stored rows

  /** Where following `parent_task_id` through the stored rows ends. */
  ghost function StoredRoot(s: State, id: TaskId): TaskId
    requires Inv(s) && id in s.live
    decreases s.born[id].rank
  {
    assert RowOk(s.born, s.live, id);
    if s.live[id].parentTaskId.None? then id else StoredRoot(s, s.live[id].parentTaskId.value)
  }

  /** No task on the way up was deleted. */
  ghost predicate AncestorsStored(s: State, id: TaskId)
    requires WellFounded(s.born) && id in s.born
    decreases s.born[id].rank
  {
    id in s.live && (s.born[id].parent.Some? ==> AncestorsStored(s, s.born[id].parent.value))
  }

  lemma {:induction false} RootIsOlder(born: map<TaskId, Birth>, id: TaskId)
    requires WellFounded(born) && id in born
    ensures Root(born, id) in born && born[Root(born, id)].rank <= born[id].rank
    decreases born[id].rank
  {
    if born[id].parent.Some? {
      RootIsOlder(born, born[id].parent.value);
    }
  }

  /** The recursive walk over stored rows finds the same thread exactly while
      every ancestor is still stored: a deletion cuts the walk, never the
      flat index. */
  lemma {:induction false} StoredWalkIff(s: State, id: TaskId)
    requires Inv(s) && id in s.live
    ensures StoredRoot(s, id) == s.live[id].threadId <==> AncestorsStored(s, id)
    decreases s.born[id].rank
  {
    assert RowOk(s.born, s.live, id);
    var parent := s.born[id].parent;
    if parent.Some? {
      if parent.value in s.live {
        assert RowOk(s.born, s.live, parent.value);
        StoredWalkIff(s, parent.value);
      } else {
        RootIsOlder(s.born, parent.value);
      }
    }
  }

  lemma WalkFindsTheThreadIff(steps: seq<Step>, id: TaskId)
    requires id in Run(INIT, steps).live
    ensures var s := Run(INIT, steps);
            Inv(s) && (StoredRoot(s, id) == s.live[id].threadId <==> AncestorsStored(s, id))
  {
    RunKeepsInv(INIT, steps);
    StoredWalkIff(Run(INIT, steps), id);
  }

  ghost predicate NoDeletions(steps: seq<Step>) {
    forall i :: 0 <= i < |steps| ==> !steps[i].Delete?
  }

  lemma {:induction false} NothingIsLost(s: State, steps: seq<Step>)
    requires Inv(s) && s.live.Keys == s.born.Keys && NoDeletions(steps)
    ensures Run(s, steps).live.Keys == Run(s, steps).born.Keys
    decreases steps
  {
    if steps != [] {
      StepKeepsInv(s, steps[0]);
      NothingIsLost(Next(s, steps[0]), steps[1..]);
    }
  }

  lemma {:induction false} AllStored(s: State, id: TaskId)
    requires WellFounded(s.born) && id in s.born && s.live.Keys == s.born.Keys
    ensures AncestorsStored(s, id)
    decreases s.born[id].rank
  {
    assert id in s.live.Keys;
    if s.born[id].parent.Some? {
      AllStored(s, s.born[id].parent.value);
    }
  }

  /** While nothing is deleted, the flat index and the recursive walk agree everywhere. */
  lemma FlatIndexReplacesTheWalk(steps: seq<Step>, id: TaskId)
    requires NoDeletions(steps) && id in Run(INIT, steps).live
    ensures Inv(Run(INIT, steps)) && StoredRoot(Run(INIT, steps), id) == Run(INIT, steps).live[id].threadId
  {
    RunKeepsInv(INIT, steps);
    NothingIsLost(INIT, steps);
    AllStored(Run(INIT, steps), id);
    StoredWalkIff(Run(INIT, steps), id);
  }

  /** A reply outlives its ended root: the walk now stops at the reply, the index still names the root. */
  lemma DeletingTheRootCutsTheWalk(s: State, root: TaskId, reply: TaskId, req: Request)
    requires Inv(s) && root !in s.born && reply !in s.born && root != reply
    ensures var s' := Next(Next(Next(Next(s, CreateRoot(root, req)), CreateReply(reply, req, root)), End(root)),
                           Delete(root));
            Inv(s') && reply in s'.live && s'.live[reply].threadId == root && StoredRoot(s', reply) == reply
  {
    var s1 := Next(s, CreateRoot(root, req));
    var s2 := Next(s1, CreateReply(reply, req, root));
    var ended := Next(s2, End(root));
    var s3 := Next(ended, Delete(root));
    StepKeepsInv(s, CreateRoot(root, req));
    StepKeepsInv(s1, CreateReply(reply, req, root));
    StepKeepsInv(s2, End(root));
    StepKeepsInv(ended, Delete(root));
    assert s2.live[reply].threadId == root && s2.live[reply].parentTaskId == Some(root);
    assert s3.live[reply] == Forget(s2.live[reply], root);
  }
}
