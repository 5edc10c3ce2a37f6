/**
  The task store (features/tasks/repository.go): the `tasks` table as a
  map from id to row, with soft deletion, and the append-only
  `task_events` log whose sequence numbers are the existing maximum plus
  one. A write that the database refuses is the flag `writeFails`; the
  transaction then leaves everything as it was.
 */
module TaskRepository {
  import opened Common
  import opened TaskModel
  import Sorting

  /** A row of `tasks`; `deletedAt` is set by the soft delete. */
  datatype TaskRow = TaskRow(task: Task, deletedAt: Option<int>)

  datatype TaskStore = TaskStore(tasks: map<TaskId, TaskRow>, events: seq<TaskEvent>)

  datatype TaskError = StoreFailed | DuplicateId | NotFound

  /**
    `COALESCE(MAX(sequence_number), 0)`: 0 for an empty log, otherwise the
    largest sequence number in it, whatever its sign.
   */
  function MaxSequence(events: seq<TaskEvent>): (m: int)
    ensures events == [] ==> m == 0
    ensures events != [] ==> exists e :: e in events && e.sequence == m
    ensures forall e :: e in events ==> e.sequence <= m
  {
    if |events| <= 1 then (if events == [] then 0 else events[0].sequence)
    else
      var rest := MaxSequence(events[..|events| - 1]);
      var last := events[|events| - 1];
      assert forall e :: e in events ==> e in events[..|events| - 1] || e == last by {
        assert events == events[..|events| - 1] + [last];
      }
      if last.sequence > rest then last.sequence else rest
  }

  /** The sequence number the next event gets: one past every number in the log, 1 in an empty one. */
  function NextSequence(events: seq<TaskEvent>): (n: int)
    ensures forall e :: e in events ==> e.sequence < n
    ensures events == [] ==> n == 1
    ensures events != [] ==> exists e :: e in events && e.sequence == n - 1
  {
    MaxSequence(events) + 1
  }

  /** Sequence numbers grow along the log. */
  predicate SequencesIncrease(events: seq<TaskEvent>) {
    forall i, j :: 0 <= i < j < |events| ==> events[i].sequence < events[j].sequence
  }

  /** Appending with the next sequence number keeps the log increasing. */
  lemma AppendKeepsOrder(events: seq<TaskEvent>, e: TaskEvent)
    requires SequencesIncrease(events)
    requires e.sequence == NextSequence(events)
    ensures SequencesIncrease(events + [e])
  {
    var log := events + [e];
    forall i, j | 0 <= i < j < |log|
      ensures log[i].sequence < log[j].sequence
    {
      if j == |events| {
        assert log[i] in events;
      }
    }
  }

  /** In an increasing log the maximum is the last entry's number, so the next one follows it directly. */
  lemma MaxIsLast(events: seq<TaskEvent>)
    requires SequencesIncrease(events) && events != []
    ensures MaxSequence(events) == events[|events| - 1].sequence
    ensures NextSequence(events) == events[|events| - 1].sequence + 1
  {
    var n := |events| - 1;
    forall e | e in events
      ensures e.sequence <= events[n].sequence
    {
      var i :| 0 <= i < |events| && events[i] == e;
      if i < n {
        assert events[i].sequence < events[n].sequence;
      }
    }
    assert events[n] in events;
  }

  /** The event a write logs for a task, numbered after the log's last. */
  function EventFor(events: seq<TaskEvent>, t: Task, eventType: string, payload: EventPayload): TaskEvent {
    TaskEvent(t.id, eventType, payload, t.version, t.vectorClock, t.ownerId, NextSequence(events))
  }

  /**
    `Create`: the task row and its `TaskCreated` event, in one transaction.
    An id already in the table is refused by its key.
   */
  function Create(st: TaskStore, t: Task, writeFails: bool): (r: Result<TaskStore, TaskError>)
    ensures r.Ok? <==> !writeFails && t.id !in st.tasks
    ensures r.Ok? ==> r.value.tasks == st.tasks[t.id := TaskRow(t, None)]
    ensures r.Ok? ==> |r.value.events| == |st.events| + 1 && r.value.events[..|st.events|] == st.events
    ensures r.Ok? ==> var e := r.value.events[|st.events|];
              e.taskId == t.id && e.eventType == TaskCreated && e.version == t.version
              && e.vectorClock == t.vectorClock && e.userId == t.ownerId
              && e.payload == CreatedPayload(t.title, t.description)
              && forall old_ :: old_ in st.events ==> old_.sequence < e.sequence
  {
    if writeFails then Err(StoreFailed)
    else if t.id in st.tasks then Err(DuplicateId)
    else
      Ok(TaskStore(st.tasks[t.id := TaskRow(t, None)],
                   st.events + [EventFor(st.events, t, TaskCreated, CreatedPayload(t.title, t.description))]))
  }

  /** The row `Update` writes: the patched fields, version and clock, and the time of the write. */
  function Overwrite(row: TaskRow, t: Task, now: int): TaskRow {
    row.(task := row.task.(title := t.title, description := t.description, priority := t.priority,
                           status := t.status, dueDate := t.dueDate, version := t.version,
                           vectorClock := t.vectorClock, updatedAt := now))
  }

  /** `Update`'s `WHERE`: the id and the owner; deletion is not looked at. */
  predicate UpdateMatches(st: TaskStore, t: Task) {
    t.id in st.tasks && st.tasks[t.id].task.ownerId == t.ownerId
  }

  /**
    `Update`: overwrite the matching row and log a `TaskUpdated` event. The
    number of rows changed is not checked, so the event is logged even
    when no row matched.
   */
  function Update(st: TaskStore, t: Task, now: int, writeFails: bool): (r: Result<TaskStore, TaskError>)
    ensures r.Ok? <==> !writeFails
    ensures r.Ok? && UpdateMatches(st, t) ==> r.value.tasks.Keys == st.tasks.Keys
    ensures r.Ok? && UpdateMatches(st, t) ==>
              var row := r.value.tasks[t.id].task;
              row.title == t.title && row.description == t.description && row.priority == t.priority
              && row.status == t.status && row.dueDate == t.dueDate && row.version == t.version
              && row.vectorClock == t.vectorClock && row.updatedAt == now
              && row.id == st.tasks[t.id].task.id && row.ownerId == t.ownerId
              && row.createdAt == st.tasks[t.id].task.createdAt
              && r.value.tasks[t.id].deletedAt == st.tasks[t.id].deletedAt
    ensures r.Ok? ==> forall id :: id in st.tasks && id != t.id ==> id in r.value.tasks && r.value.tasks[id] == st.tasks[id]
    ensures r.Ok? && !UpdateMatches(st, t) ==> r.value.tasks == st.tasks
    ensures r.Ok? ==> |r.value.events| == |st.events| + 1 && r.value.events[..|st.events|] == st.events
    ensures r.Ok? ==> var e := r.value.events[|st.events|];
              e.taskId == t.id && e.eventType == TaskUpdated && e.version == t.version
              && e.vectorClock == t.vectorClock && e.userId == t.ownerId
              && e.payload == UpdatedPayload(t.status, t.version)
              && forall old_ :: old_ in st.events ==> old_.sequence < e.sequence
  {
    if writeFails then Err(StoreFailed)
    else
      var tasks := if UpdateMatches(st, t) then st.tasks[t.id := Overwrite(st.tasks[t.id], t, now)] else st.tasks;
      Ok(TaskStore(tasks, st.events + [EventFor(st.events, t, TaskUpdated, UpdatedPayload(t.status, t.version))]))
  }

  /** A row the owner can still see: theirs and not deleted. */
  predicate Visible(st: TaskStore, taskId: TaskId, userId: UserId) {
    taskId in st.tasks && st.tasks[taskId].task.ownerId == userId && st.tasks[taskId].deletedAt.None?
  }

  /**
    `Delete`, a soft delete: stamp the row if it is the caller's and not
    yet deleted; otherwise "not found". No event is logged.
   */
  function Delete(st: TaskStore, taskId: TaskId, userId: UserId, now: int, writeFails: bool): (r: Result<TaskStore, TaskError>)
    ensures !writeFails && !Visible(st, taskId, userId) ==> r == Err(NotFound)
    ensures r.Ok? <==> !writeFails && Visible(st, taskId, userId)
    ensures r.Ok? ==> r.value.events == st.events && r.value.tasks.Keys == st.tasks.Keys
    ensures r.Ok? ==> r.value.tasks[taskId] == st.tasks[taskId].(deletedAt := Some(now))
    ensures r.Ok? ==> forall id :: id in st.tasks && id != taskId ==> r.value.tasks[id] == st.tasks[id]
  {
    if writeFails then Err(StoreFailed)
    else if !Visible(st, taskId, userId) then Err(NotFound)
    else Ok(st.(tasks := st.tasks[taskId := st.tasks[taskId].(deletedAt := Some(now))]))
  }

  /** `FindByID`: the caller's task if it is there and not deleted, otherwise nothing. */
  function FindById(st: TaskStore, taskId: TaskId, userId: UserId): (r: Option<Task>)
    ensures r.Some? <==> Visible(st, taskId, userId)
    ensures r.Some? ==> r.value == st.tasks[taskId].task && r.value.ownerId == userId
  {
    if Visible(st, taskId, userId) then Some(st.tasks[taskId].task) else None
  }

  /**
    `FindByID` with its query: a read the database refuses is an error,
    a missing row (`sql.ErrNoRows`) is "nothing" without an error, and
    otherwise the caller's visible task.
   */
  function Find(st: TaskStore, taskId: TaskId, userId: UserId, readFails: bool): (r: Result<Option<Task>, TaskError>)
    ensures r.Err? <==> readFails
    ensures r.Err? ==> r.error == StoreFailed
    ensures r.Ok? ==> (r.value.Some? <==> Visible(st, taskId, userId))
    ensures r.Ok? && r.value.Some? ==> r.value.value == st.tasks[taskId].task && r.value.value.ownerId == userId
  {
    if readFails then Err(StoreFailed) else Ok(FindById(st, taskId, userId))
  }

  /**
    What the writes promise together: a created task is found by its
    owner, a deleted one is not found and cannot be deleted again, and
    nobody but the owner finds or deletes a task.
   */
  lemma FindAfterWrites(st: TaskStore, t: Task, taskId: TaskId, userId: UserId, other: UserId, now: int)
    ensures Create(st, t, false).Ok? ==> FindById(Create(st, t, false).value, t.id, t.ownerId) == Some(t)
    ensures Delete(st, taskId, userId, now, false).Ok? ==>
              var st1 := Delete(st, taskId, userId, now, false).value;
              FindById(st1, taskId, userId).None? && Delete(st1, taskId, userId, now, false) == Err(NotFound)
    ensures taskId in st.tasks && st.tasks[taskId].task.ownerId != other ==>
              FindById(st, taskId, other).None? && Delete(st, taskId, other, now, false) == Err(NotFound)
  {
  }

  /** Creating and updating keep the log's sequence numbers increasing. */
  lemma WritesKeepLogOrdered(st: TaskStore, t: Task, now: int)
    requires SequencesIncrease(st.events)
    ensures Create(st, t, false).Ok? ==> SequencesIncrease(Create(st, t, false).value.events)
    ensures SequencesIncrease(Update(st, t, now, false).value.events)
  {
    if t.id !in st.tasks {
      AppendKeepsOrder(st.events, EventFor(st.events, t, TaskCreated, CreatedPayload(t.title, t.description)));
    }
    AppendKeepsOrder(st.events, EventFor(st.events, t, TaskUpdated, UpdatedPayload(t.status, t.version)));
  }

  /** The store agrees with its keys: each row holds the task of that id. */
  predicate KeyedById(st: TaskStore) {
    forall id :: id in st.tasks ==> st.tasks[id].task.id == id
  }

  /** Every write keeps each row under its own id. */
  lemma WritesKeepKeys(st: TaskStore, t: Task, taskId: TaskId, userId: UserId, now: int)
    requires KeyedById(st)
    ensures Create(st, t, false).Ok? ==> KeyedById(Create(st, t, false).value)
    ensures KeyedById(Update(st, t, now, false).value)
    ensures Delete(st, taskId, userId, now, false).Ok? ==> KeyedById(Delete(st, taskId, userId, now, false).value)
  {
  }

  function NewestCreatedFirst(t: Task): int {
    0 - t.createdAt
  }

  /** `List`: the caller's tasks that are not deleted, newest created first. */
  method List(st: TaskStore, userId: UserId) returns (r: seq<Task>)
    requires KeyedById(st)
    ensures forall t :: t in r <==> Visible(st, t.id, userId) && st.tasks[t.id].task == t
    ensures forall i, j :: 0 <= i < j < |r| ==> r[i].createdAt >= r[j].createdAt && r[i].id != r[j].id
  {
    var rows := set id | id in st.tasks && Visible(st, id, userId) :: st.tasks[id].task;
    r := Sorting.OrderBy(rows, NewestCreatedFirst);
    forall i, j | 0 <= i < j < |r|
      ensures r[i].createdAt >= r[j].createdAt && r[i].id != r[j].id
    {
      assert NewestCreatedFirst(r[i]) <= NewestCreatedFirst(r[j]);
      Sorting.DistinctInOrder(rows, r, i, j);
      assert r[i] in rows && r[j] in rows;
    }
  }

  function VersionOf(t: Task): int {
    t.version
  }

  /** A row `ListChanges` returns: the caller's, newer than the version given, deleted or not. */
  predicate Changed(st: TaskStore, id: TaskId, userId: UserId, minVersion: Int64) {
    id in st.tasks && st.tasks[id].task.ownerId == userId && st.tasks[id].task.version > minVersion
  }

  /**
    `ListChanges`: the caller's tasks whose version is above `minVersion`,
    soft-deleted ones included, in ascending version order.
   */
  method ListChanges(st: TaskStore, userId: UserId, minVersion: Int64) returns (r: seq<Task>)
    requires KeyedById(st)
    ensures forall t :: t in r <==> Changed(st, t.id, userId, minVersion) && st.tasks[t.id].task == t
    ensures forall i, j :: 0 <= i < j < |r| ==> r[i].version <= r[j].version && r[i].id != r[j].id
  {
    var rows := set id | id in st.tasks && Changed(st, id, userId, minVersion) :: st.tasks[id].task;
    r := Sorting.OrderBy(rows, VersionOf);
    forall i, j | 0 <= i < j < |r|
      ensures r[i].version <= r[j].version && r[i].id != r[j].id
    {
      assert VersionOf(r[i]) <= VersionOf(r[j]);
      Sorting.DistinctInOrder(rows, r, i, j);
      assert r[i] in rows && r[j] in rows;
    }
  }

  /** A deleted task still shows up among the changes, but no longer in the list. */
  lemma DeletedStillChanged(st: TaskStore, taskId: TaskId, userId: UserId, now: int, minVersion: Int64)
    requires Delete(st, taskId, userId, now, false).Ok?
    requires st.tasks[taskId].task.version > minVersion
    ensures var st1 := Delete(st, taskId, userId, now, false).value;
            Changed(st1, taskId, userId, minVersion) && !Visible(st1, taskId, userId)
  {
  }
}
