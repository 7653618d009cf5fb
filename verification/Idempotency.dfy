/** Idempotent submission: one task per `(created_by, idempotency_key)`, and
    what a repeated key is told.
 */
module Idempotency {
  import opened Wrappers
  import opened Utf8
  import opened TaskRequests
  import Hashing

  type TaskId = nat
  type Digest = seq<byte> -> seq<byte>

  datatype Submission = Submission(id: TaskId, req: Request)

  /** The part of a stored task that submission looks at. */
  datatype StoredTask = StoredTask(
    id: TaskId,
    createdBy: string,
    idempotencyKey: Option<string>,
    idempotencyPayloadHash: Option<string>)

  /** `Task::from_request`: the hash is attached only behind a key. */
  function RowOf(digest: Digest, s: Submission): (row: StoredTask)
    ensures row.idempotencyPayloadHash.Some? <==> row.idempotencyKey.Some?
  {
    StoredTask(s.id, s.req.createdBy, s.req.idempotencyKey,
               if s.req.idempotencyKey.Some? then Some(PayloadHashOf(digest, s.req)) else None)
  }

  datatype IdempotentInsert =
    | Inserted
    | Duplicate(task: StoredTask)
    | Conflict(existingTaskId: TaskId)

  datatype StoreError = TaskExists(id: TaskId)

  predicate Uses(row: StoredTask, createdBy: string, key: string) {
    row.createdBy == createdBy && row.idempotencyKey == Some(key)
  }

  /** The first stored row that uses the pair. */
  function FindRow(rows: seq<StoredTask>, createdBy: string, key: string): Option<StoredTask> {
    if rows == [] then None
    else
      var n := |rows| - 1;
      match FindRow(rows[..n], createdBy, key)
      case Some(row) => Some(row)
      case None => if Uses(rows[n], createdBy, key) then Some(rows[n]) else None
  }

  /** The answer of `insert_task_idempotent`. */
  function Answer(rows: seq<StoredTask>, t: StoredTask): Result<IdempotentInsert, StoreError> {
    if exists i :: 0 <= i < |rows| && rows[i].id == t.id then Err(TaskExists(t.id))
    else if t.idempotencyKey.None? then Ok(Inserted)
    else
      match FindRow(rows, t.createdBy, t.idempotencyKey.value)
      case None => Ok(Inserted)
      case Some(row) =>
        if row.idempotencyPayloadHash == t.idempotencyPayloadHash then Ok(Duplicate(row)) else Ok(Conflict(row.id))
  }

  function AfterInsert(rows: seq<StoredTask>, t: StoredTask): seq<StoredTask> {
    if Answer(rows, t) == Ok(Inserted) then rows + [t] else rows
  }

  /** The row found uses the pair, no earlier row does, and none does when none is found. */
  lemma {:induction false} FoundRow(rows: seq<StoredTask>, createdBy: string, key: string) returns (i: nat)
    ensures i <= |rows|
    ensures forall j :: 0 <= j < i ==> rows[j].createdBy != createdBy || rows[j].idempotencyKey != Some(key)
    ensures i < |rows| ==> rows[i].createdBy == createdBy && rows[i].idempotencyKey == Some(key)
    ensures FindRow(rows, createdBy, key) == if i < |rows| then Some(rows[i]) else None
  {
    if rows == [] {
      i := 0;
    } else {
      var n := |rows| - 1;
      i := FoundRow(rows[..n], createdBy, key);
      assert forall j :: 0 <= j < n ==> rows[..n][j] == rows[j];
      if i == n && !Uses(rows[n], createdBy, key) {
        i := n + 1;
      }
    }
  }

  /** What is answered, on the rows as they are: a taken id is refused; without
      a key, or with a pair no row uses, the task is inserted at the end; else
      the first row with the pair is returned if it has the same hash, and named
      if it has not, and in all these cases nothing is stored. */
  lemma InsertAnswers(rows: seq<StoredTask>, t: StoredTask) returns (i: nat)
    ensures i <= |rows|
    ensures forall j :: 0 <= j < i ==>
              t.idempotencyKey.None? || rows[j].createdBy != t.createdBy || rows[j].idempotencyKey != t.idempotencyKey
    ensures i < |rows| ==>
              t.idempotencyKey.Some? && rows[i].createdBy == t.createdBy && rows[i].idempotencyKey == t.idempotencyKey
    ensures Answer(rows, t)
         == if exists j :: 0 <= j < |rows| && rows[j].id == t.id then Err(TaskExists(t.id))
            else if i == |rows| then Ok(Inserted)
            else if rows[i].idempotencyPayloadHash == t.idempotencyPayloadHash then Ok(Duplicate(rows[i]))
            else Ok(Conflict(rows[i].id))
    ensures AfterInsert(rows, t) == if Answer(rows, t) == Ok(Inserted) then rows + [t] else rows
  {
    if t.idempotencyKey.None? {
      i := |rows|;
    } else {
      i := FoundRow(rows, t.createdBy, t.idempotencyKey.value);
      hide FindRow;
    }
  }

  /** The store of tasks, rows in the order they were inserted. */
  class TaskStore {
    var rows: seq<StoredTask>

    constructor ()
      ensures rows == []
    {
      rows := [];
    }

    method InsertTaskIdempotent(t: StoredTask) returns (answer: Result<IdempotentInsert, StoreError>)
      modifies this
      ensures answer == Answer(old(rows), t)
      ensures rows == AfterInsert(old(rows), t)
    {
      for i := 0 to |rows|
        invariant forall j :: 0 <= j < i ==> rows[j].id != t.id
        invariant rows == old(rows)
      {
        if rows[i].id == t.id {
          return Err(TaskExists(t.id));
        }
      }
      if t.idempotencyKey.None? {
        rows := rows + [t];
        return Ok(Inserted);
      }
      var key := t.idempotencyKey.value;
      var existing := None;
      for i := 0 to |rows|
        invariant existing == FindRow(rows[..i], t.createdBy, key)
        invariant rows == old(rows)
      {
        assert rows[..i + 1][..i] == rows[..i];
        if existing.None? && Uses(rows[i], t.createdBy, key) {
          existing := Some(rows[i]);
        }
      }
      assert rows[..|rows|] == rows;
      match existing
      case None =>
        rows := rows + [t];
        return Ok(Inserted);
      case Some(row) =>
        if row.idempotencyPayloadHash == t.idempotencyPayloadHash {
          return Ok(Duplicate(row));
        }
        return Ok(Conflict(row.id));
    }
  }

  // ------------------------------------------------------------------ runs

  /** The rows left by a sequence of submissions. */
  function Rows(digest: Digest, subs: seq<Submission>): seq<StoredTask> {
    if subs == [] then []
    else AfterInsert(Rows(digest, subs[..|subs| - 1]), RowOf(digest, subs[|subs| - 1]))
  }

  /** Task ids are drawn afresh, and every request is one Rust can hold. */
  ghost predicate FreshIds(subs: seq<Submission>) {
    forall i, j :: 0 <= i < j < |subs| ==> subs[i].id != subs[j].id
  }

  predicate FitsAll(subs: seq<Submission>) {
    forall i :: 0 <= i < |subs| ==> Fits(subs[i].req)
  }

  predicate Claims(s: Submission, createdBy: string, key: string) {
    s.req.createdBy == createdBy && s.req.idempotencyKey == Some(key)
  }

  /** The index of the submission that used a pair first. */
  function FirstClaim(subs: seq<Submission>, createdBy: string, key: string): (first: Option<nat>)
    ensures first.Some? ==> first.value < |subs|
  {
    if subs == [] then None
    else
      var n := |subs| - 1;
      match FirstClaim(subs[..n], createdBy, key)
      case Some(i) => Some(i)
      case None => if Claims(subs[n], createdBy, key) then Some(n) else None
  }

  ghost predicate NoneClaims(subs: seq<Submission>, n: nat, createdBy: string, key: string)
    requires n <= |subs|
  {
    forall j :: 0 <= j < n ==> !Claims(subs[j], createdBy, key)
  }

  /** It claims the pair and nothing before it does; without one, nothing does. */
  lemma {:induction false} FirstClaimIsFirst(subs: seq<Submission>, createdBy: string, key: string)
    ensures FirstClaim(subs, createdBy, key).Some? ==>
              Claims(subs[FirstClaim(subs, createdBy, key).value], createdBy, key)
    ensures NoneClaims(subs, FirstClaim(subs, createdBy, key).UnwrapOr(|subs|), createdBy, key)
  {
    hide Claims;
    if subs != [] {
      var n := |subs| - 1;
      var before := FirstClaim(subs[..n], createdBy, key);
      FirstClaimIsFirst(subs[..n], createdBy, key);
      forall j | 0 <= j < before.UnwrapOr(n)
        ensures !Claims(subs[j], createdBy, key)
      {
        assert subs[..n][j] == subs[j];
      }
      if before.Some? {
        assert subs[..n][before.value] == subs[before.value];
      }
    }
  }

  ghost predicate Submitted(subs: seq<Submission>, id: TaskId) {
    exists j :: 0 <= j < |subs| && subs[j].id == id
  }

  lemma {:induction false} RowsComeFromSubmissions(digest: Digest, subs: seq<Submission>, i: nat)
    requires i < |Rows(digest, subs)|
    ensures Submitted(subs, Rows(digest, subs)[i].id)
  {
    hide Answer, PayloadHashOf;
    var n := |subs| - 1;
    var before := Rows(digest, subs[..n]);
    if i < |before| {
      RowsComeFromSubmissions(digest, subs[..n], i);
      var j :| 0 <= j < |subs[..n]| && subs[..n][j].id == before[i].id;
      assert subs[j].id == Rows(digest, subs)[i].id;
    } else {
      assert subs[n].id == Rows(digest, subs)[i].id;
    }
  }

  lemma NewIdIsFree(digest: Digest, subs: seq<Submission>, s: Submission)
    requires FreshIds(subs + [s])
    ensures forall i :: 0 <= i < |Rows(digest, subs)| ==> Rows(digest, subs)[i].id != s.id
  {
    forall i | 0 <= i < |Rows(digest, subs)| ensures Rows(digest, subs)[i].id != s.id {
      RowsComeFromSubmissions(digest, subs, i);
      var j :| 0 <= j < |subs| && subs[j].id == Rows(digest, subs)[i].id;
      assert (subs + [s])[j] == subs[j] && (subs + [s])[|subs|] == s;
    }
  }

  lemma FreshPrefix(subs: seq<Submission>)
    requires FreshIds(subs) && subs != []
    ensures FreshIds(subs[..|subs| - 1]) && FreshIds(subs[..|subs| - 1] + [subs[|subs| - 1]])
  {
    assert subs[..|subs| - 1] + [subs[|subs| - 1]] == subs;
  }

  /** The row found for a pair is the row of the submission that used it first. */
  lemma {:induction false} FoundIsFirst(digest: Digest, subs: seq<Submission>, createdBy: string, key: string)
    requires FreshIds(subs)
    ensures FindRow(Rows(digest, subs), createdBy, key)
         == match FirstClaim(subs, createdBy, key) case None => None case Some(i) => Some(RowOf(digest, subs[i]))
  {
    hide PayloadHashOf;
    FirstClaimIsFirst(subs, createdBy, key);
    if subs != [] {
      var n := |subs| - 1;
      var before, t := Rows(digest, subs[..n]), RowOf(digest, subs[n]);
      FreshPrefix(subs);
      NewIdIsFree(digest, subs[..n], subs[n]);
      FoundIsFirst(digest, subs[..n], createdBy, key);
      if t.idempotencyKey.Some? {
        FoundIsFirst(digest, subs[..n], t.createdBy, t.idempotencyKey.value);
      }
      assert (before + [t])[..|before|] == before;
    }
  }

  /** What a submission is told: a pair used for the first time is inserted,
      a keyless submission always is, and a repeated pair is a duplicate of the
      first task exactly when it means the same, a conflict with its id otherwise. */
  function Expected(digest: Digest, subs: seq<Submission>, s: Submission): IdempotentInsert {
    if s.req.idempotencyKey.None? then Inserted
    else
      match FirstClaim(subs, s.req.createdBy, s.req.idempotencyKey.value)
      case None => Inserted
      case Some(i) =>
        if MeaningOf(subs[i].req) == MeaningOf(s.req) then Duplicate(RowOf(digest, subs[i])) else Conflict(subs[i].id)
  }

  lemma AnswerToAFreshRow(digest: Digest, subs: seq<Submission>, s: Submission)
    requires FreshIds(subs + [s]) && FitsAll(subs + [s]) && Hashing.CollisionFree(digest)
    requires s.req.idempotencyKey.Some?
    ensures Expected(digest, subs, s)
         == match FindRow(Rows(digest, subs), s.req.createdBy, s.req.idempotencyKey.value)
            case None => Inserted
            case Some(row) =>
              if row.idempotencyPayloadHash == RowOf(digest, s).idempotencyPayloadHash then Duplicate(row)
              else Conflict(row.id)
  {
    hide FindRow, Rows, MeaningOf, PayloadHashOf, Fits, FirstClaim;
    var key := s.req.idempotencyKey.value;
    assert (subs + [s])[..|subs|] == subs;
    FreshPrefix(subs + [s]);
    FoundIsFirst(digest, subs, s.req.createdBy, key);
    FirstClaimIsFirst(subs, s.req.createdBy, key);
    var claim := FirstClaim(subs, s.req.createdBy, key);
    if claim.Some? {
      assert (subs + [s])[claim.value] == subs[claim.value] && (subs + [s])[|subs|] == s;
      HashIffMeaning(digest, subs[claim.value].req, s.req);
    }
  }

  /** Every answer, after every sequence of submissions. */
  lemma EveryAnswer(digest: Digest, subs: seq<Submission>, s: Submission)
    requires FreshIds(subs + [s]) && FitsAll(subs + [s]) && Hashing.CollisionFree(digest)
    ensures Answer(Rows(digest, subs), RowOf(digest, s)) == Ok(Expected(digest, subs, s))
  {
    hide FindRow, Rows, PayloadHashOf, FitsAll, FirstClaim;
    NewIdIsFree(digest, subs, s);
    if s.req.idempotencyKey.Some? {
      AnswerToAFreshRow(digest, subs, s);
    }
  }

  /** Over every sequence of submissions no two stored rows have the same id, nor
      the same submitter and key. */
  lemma {:induction false} OneRowPerPair(digest: Digest, subs: seq<Submission>, i: nat, j: nat)
    requires i < j < |Rows(digest, subs)|
    ensures var rows := Rows(digest, subs);
            && rows[i].id != rows[j].id
            && (rows[i].idempotencyKey.Some? && rows[i].createdBy == rows[j].createdBy ==>
                  rows[i].idempotencyKey != rows[j].idempotencyKey)
  {
    var n := |subs| - 1;
    var before, t := Rows(digest, subs[..n]), RowOf(digest, subs[n]);
    if j < |before| {
      OneRowPerPair(digest, subs[..n], i, j);
    } else {
      var k := InsertAnswers(before, t);
    }
    hide Answer, PayloadHashOf, RowOf;
  }

  /** Of all submissions that use a pair, only the first is ever inserted. */
  lemma InsertedAtMostOnce(digest: Digest, subs: seq<Submission>, s: Submission, i: nat, createdBy: string, key: string)
    requires FreshIds(subs + [s]) && FitsAll(subs + [s]) && Hashing.CollisionFree(digest)
    requires i < |subs| && Claims(subs[i], createdBy, key) && Claims(s, createdBy, key)
    ensures Answer(Rows(digest, subs), RowOf(digest, s)) != Ok(Inserted)
  {
    hide Answer, Rows, FirstClaim, MeaningOf, RowOf, FitsAll, FreshIds;
    EveryAnswer(digest, subs, s);
    FirstClaimIsFirst(subs, createdBy, key);
  }
}
