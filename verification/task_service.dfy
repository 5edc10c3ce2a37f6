/**
  The task service (features/tasks/service.go): creation with version 1
  and the clock {creator: 1}, and the patch that bumps the version and the
  caller's clock entry. The Snowflake id and the current time are
  parameters.

  `UpdateTask` is modelled twice. `UpdateTask` follows the code: decoding
  the JSON literal `null` replaces the fresh map with a nil one, and the
  increment that follows panics. `UpdateTaskFixed` starts from the empty
  clock in that case, which is what the code's own comment says it does.
 */
module TaskService {
  import opened Common
  import opened TaskModel
  import opened TaskRepository

  const InitialVersion: Int64 := 1

  /** The task `CreateTask` builds for the caller. */
  function NewTask(taskId: TaskId, userId: UserId, req: CreateTaskRequest, now: int): Task {
    Task(taskId, req.title, req.description, req.priority, InitialStatus, userId, req.dueDate,
         InitialVersion, Encoded(map[userId := 1]), now, now)
  }

  /**
    `CreateTask`: a pending task owned by the caller at version 1 whose
    clock counts the caller once. On a store error nothing is returned and
    nothing is written.
   */
  function CreateTask(st: TaskStore, userId: UserId, req: CreateTaskRequest, taskId: TaskId, now: int, writeFails: bool)
    : (r: (Result<Task, TaskError>, TaskStore))
    ensures r.0.Ok? <==> !writeFails && taskId !in st.tasks
    ensures r.0.Err? ==> r.1 == st
    ensures r.0.Ok? ==> var t := r.0.value;
              t.id == taskId && t.ownerId == userId && t.status == "Pending" && t.version == 1
              && t.vectorClock == Encoded(map[userId := 1])
              && t.title == req.title && t.description == req.description
              && t.priority == req.priority && t.dueDate == req.dueDate
    ensures r.0.Ok? ==> FindById(r.1, taskId, userId) == Some(r.0.value)
    ensures r.0.Ok? ==> |r.1.events| == |st.events| + 1 && r.1.events[|st.events|].userId == userId
  {
    var t := NewTask(taskId, userId, req, now);
    match Create(st, t, writeFails)
    case Err(e) => (Err(e), st)
    case Ok(st1) => (Ok(t), st1)
  }

  /** The present fields of a patch replace the task's; nothing else changes. */
  function Patch(t: Task, req: UpdateTaskRequest): Task {
    t.(title := req.title.GetOr(t.title),
       description := req.description.GetOr(t.description),
       priority := req.priority.GetOr(t.priority),
       status := req.status.GetOr(t.status),
       dueDate := if req.dueDate.Some? then req.dueDate else t.dueDate)
  }

  /**
    Patching is idempotent, the empty patch changes nothing, and identity,
    owner, creation time, version and clock are never touched by it.
   */
  lemma PatchProperties(t: Task, req: UpdateTaskRequest)
    ensures Patch(Patch(t, req), req) == Patch(t, req)
    ensures Patch(t, UpdateTaskRequest(None, None, None, None, None)) == t
    ensures var p := Patch(t, req);
            p.id == t.id && p.ownerId == t.ownerId && p.createdAt == t.createdAt
            && p.version == t.version && p.vectorClock == t.vectorClock && p.updatedAt == t.updatedAt
    ensures var p := Patch(t, req);
            (req.title.None? ==> p.title == t.title) && (req.status.None? ==> p.status == t.status)
            && (req.title.Some? ==> p.title == req.title.value) && (req.status.Some? ==> p.status == req.status.value)
  {
  }

  /**
    Decoding the stored clock into a fresh map: no bytes or bytes that do
    not decode leave it empty; `null` turns it into a nil map (None).
   */
  function DecodeClock(raw: RawClock): (r: Option<Clock>)
    ensures raw.Encoded? ==> r == Some(raw.clock)
    ensures (raw.Blank? || raw.Malformed?) ==> r == Some(map[])
    ensures r.None? <==> raw.JsonNull?
  {
    match raw
    case Blank => Some(map[])
    case Encoded(c) => Some(c)
    case Malformed => Some(map[])
    case JsonNull => None
  }

  /** `clockMap[userID]++` on a non-nil map: an absent entry counts from 0, int64 arithmetic. */
  function Tick(c: Clock, userId: UserId): (r: Clock)
    ensures r.Keys == c.Keys + {userId}
    ensures userId in c && c[userId] < MaxInt64 ==> r[userId] == c[userId] + 1
    ensures userId !in c ==> r[userId] == 1
    ensures forall u :: u in c && u != userId ==> r[u] == c[u]
  {
    c[userId := Inc64(if userId in c then c[userId] else 0)]
  }

  /** What `UpdateTask` gives back: the updated task, an error, or a runtime panic. */
  datatype UpdateOutcome = Updated(task: Task) | Failed(error: TaskError) | Panicked

  /** The patched task with its version bumped and its clock ticked for the caller. */
  function Advance(t: Task, req: UpdateTaskRequest, userId: UserId, c: Clock): Task {
    Patch(t, req).(version := Inc64(t.version), vectorClock := Encoded(Tick(c, userId)))
  }

  /**
    `UpdateTask` as written: find, patch, bump, decode and tick the clock,
    save. A refused read is passed on and nothing is written.
   */
  function UpdateTask(st: TaskStore, userId: UserId, taskId: TaskId, req: UpdateTaskRequest, now: int,
                      readFails: bool, writeFails: bool)
    : (r: (UpdateOutcome, TaskStore))
    ensures readFails ==> r == (Failed(StoreFailed), st)
    ensures !readFails && FindById(st, taskId, userId).None? ==> r == (Failed(NotFound), st)
    ensures r.0.Panicked? <==> !readFails && FindById(st, taskId, userId).Some? && st.tasks[taskId].task.vectorClock.JsonNull?
    ensures !r.0.Updated? ==> r.1 == st
  {
    match Find(st, taskId, userId, readFails)
    case Err(e) => (Failed(e), st)
    case Ok(None) => (Failed(NotFound), st)
    case Ok(Some(t)) =>
      match DecodeClock(t.vectorClock)
      case None => (Panicked, st)
      case Some(c) =>
        var t1 := Advance(t, req, userId, c);
        match Update(st, t1, now, writeFails)
        case Err(e) => (Failed(e), st)
        case Ok(st1) => (Updated(t1), st1)
  }

  /**
    `UpdateTask` with a `null` clock read as the empty clock. The update
    never panics; a success bumps the version by one (int64), counts the
    caller once more in the clock and leaves every other actor's count
    alone, overwrites exactly the fields the patch carries, and logs one
    event for the owner. A refused read is passed on and nothing is written.
   */
  function UpdateTaskFixed(st: TaskStore, userId: UserId, taskId: TaskId, req: UpdateTaskRequest, now: int,
                           readFails: bool, writeFails: bool)
    : (r: (UpdateOutcome, TaskStore))
    ensures !r.0.Panicked?
    ensures r.0.Updated? <==> !readFails && FindById(st, taskId, userId).Some? && !writeFails
    ensures readFails ==> r == (Failed(StoreFailed), st)
    ensures !readFails && FindById(st, taskId, userId).None? ==> r == (Failed(NotFound), st)
    ensures !r.0.Updated? ==> r.1 == st
    ensures r.0.Updated? ==>
              var old_ := st.tasks[taskId].task;
              var t := r.0.task;
              t.id == old_.id && t.ownerId == userId && t.createdAt == old_.createdAt
              && t.version == Inc64(old_.version)
              && t == Patch(old_, req).(version := t.version, vectorClock := t.vectorClock)
    ensures r.0.Updated? ==>
              var c := DecodeClock(st.tasks[taskId].task.vectorClock).GetOr(map[]);
              r.0.task.vectorClock == Encoded(Tick(c, userId))
    ensures KeyedById(st) && r.0.Updated? ==>
              taskId in r.1.tasks && r.1.tasks[taskId].task == r.0.task.(updatedAt := now)
              && |r.1.events| == |st.events| + 1 && r.1.events[|st.events|].userId == userId
              && r.1.events[|st.events|].version == r.0.task.version
  {
    match Find(st, taskId, userId, readFails)
    case Err(e) => (Failed(e), st)
    case Ok(None) => (Failed(NotFound), st)
    case Ok(Some(t)) =>
      var t1 := Advance(t, req, userId, DecodeClock(t.vectorClock).GetOr(map[]));
      assert t1 == Patch(t, req).(version := t1.version, vectorClock := t1.vectorClock);
      match Update(st, t1, now, writeFails)
      case Err(e) => (Failed(e), st)
      case Ok(st1) =>
        assert KeyedById(st) ==> st1.tasks[taskId].task == t1.(updatedAt := now);
        (Updated(t1), st1)
  }

  /** The two versions agree on every task whose stored clock is not `null`. */
  lemma FixOnlyChangesNull(st: TaskStore, userId: UserId, taskId: TaskId, req: UpdateTaskRequest, now: int,
                           readFails: bool, writeFails: bool)
    requires FindById(st, taskId, userId).Some? ==> !st.tasks[taskId].task.vectorClock.JsonNull?
    ensures UpdateTask(st, userId, taskId, req, now, readFails, writeFails)
         == UpdateTaskFixed(st, userId, taskId, req, now, readFails, writeFails)
  {
  }

  /** The input that shows the panic: a visible task whose clock column holds `null`. */
  lemma NullClockPanics(t: Task, req: UpdateTaskRequest, now: int)
    requires t.vectorClock == JsonNull
    ensures var st := TaskStore(map[t.id := TaskRow(t, None)], []);
            UpdateTask(st, t.ownerId, t.id, req, now, false, false).0 == Panicked
            && UpdateTaskFixed(st, t.ownerId, t.id, req, now, false, false).0.Updated?
            && UpdateTaskFixed(st, t.ownerId, t.id, req, now, false, false).0.task.vectorClock == Encoded(map[t.ownerId := 1])
  {
    var st := TaskStore(map[t.id := TaskRow(t, None)], []);
    assert Visible(st, t.id, t.ownerId);
  }

  /** A clock that is missing or does not decode restarts at {caller: 1}. */
  lemma UnreadableClockRestarts(st: TaskStore, userId: UserId, taskId: TaskId, req: UpdateTaskRequest, now: int)
    requires Visible(st, taskId, userId)
    requires st.tasks[taskId].task.vectorClock.Blank? || st.tasks[taskId].task.vectorClock.Malformed?
    ensures UpdateTask(st, userId, taskId, req, now, false, false).0.Updated?
    ensures UpdateTask(st, userId, taskId, req, now, false, false).0.task.vectorClock == Encoded(map[userId := 1])
  {
    assert Tick(map[], userId) == map[userId := 1];
  }

  /** Every stored clock is a decoded map, as the service itself writes them. */
  predicate ClocksEncoded(st: TaskStore) {
    forall id :: id in st.tasks ==> st.tasks[id].task.vectorClock.Encoded?
  }

  /**
    The service never writes `null`: creating, updating and deleting keep
    every stored clock encoded, so in a store only the service has written
    the panic cannot happen.
   */
  lemma ServiceWritesEncodedClocks(st: TaskStore, userId: UserId, taskId: TaskId, req: UpdateTaskRequest,
                                   creq: CreateTaskRequest, now: int, readFails: bool, writeFails: bool)
    requires ClocksEncoded(st) && KeyedById(st)
    ensures ClocksEncoded(CreateTask(st, userId, creq, taskId, now, writeFails).1)
    ensures ClocksEncoded(UpdateTask(st, userId, taskId, req, now, readFails, writeFails).1)
    ensures Delete(st, taskId, userId, now, writeFails).Ok? ==> ClocksEncoded(Delete(st, taskId, userId, now, writeFails).value)
    ensures !UpdateTask(st, userId, taskId, req, now, readFails, writeFails).0.Panicked?
  {
    if !readFails && Visible(st, taskId, userId) && !writeFails {
      var t := st.tasks[taskId].task;
      var t1 := Advance(t, req, userId, t.vectorClock.clock);
      assert UpdateMatches(st, t1);
      var st1 := Update(st, t1, now, writeFails).value;
      assert UpdateTask(st, userId, taskId, req, now, readFails, writeFails).1 == st1;
      assert st1.tasks[taskId].task.vectorClock == t1.vectorClock;
    }
  }

  /**
    The service itself checks nothing, so only validation keeps stored
    tasks well-formed: a valid create request yields a well-formed task
    and a valid patch keeps a well-formed task so, while a two-letter title
    is stored as given, whether it comes in a patch (which the update
    handler validates first) or in a create request (which the create
    handler passes on unvalidated).
   */
  lemma ValidRequestsKeepTasksWellFormed(st: TaskStore, userId: UserId, taskId: TaskId, creq: CreateTaskRequest,
                                         req: UpdateTaskRequest, now: int, writeFails: bool)
    ensures ValidCreateRequest(creq) && CreateTask(st, userId, creq, taskId, now, writeFails).0.Ok? ==>
              WellFormedTask(CreateTask(st, userId, creq, taskId, now, writeFails).0.value)
    ensures ValidUpdateRequest(req) && Visible(st, taskId, userId) && WellFormedTask(st.tasks[taskId].task) ==>
              var r := UpdateTaskFixed(st, userId, taskId, req, now, false, writeFails);
              r.0.Updated? ==> WellFormedTask(r.0.task)
    ensures Visible(st, taskId, userId) && !writeFails ==>
              var r := UpdateTaskFixed(st, userId, taskId, req.(title := Some("ab")), now, false, writeFails);
              r.0.Updated? && !WellFormedTask(r.0.task) && !ValidUpdateRequest(req.(title := Some("ab")))
    ensures taskId !in st.tasks && !writeFails ==>
              var r := CreateTask(st, userId, creq.(title := "ab"), taskId, now, writeFails);
              r.0.Ok? && !WellFormedTask(r.0.value) && !ValidCreateRequest(creq.(title := "ab"))
  {
    assert InitialStatus in Statuses;
  }

  /** Versions only move forward: a successful update stores exactly one more than before, short of the int64 limit. */
  lemma VersionAdvances(st: TaskStore, userId: UserId, taskId: TaskId, req: UpdateTaskRequest, now: int)
    requires KeyedById(st) && Visible(st, taskId, userId) && st.tasks[taskId].task.version < MaxInt64
    ensures var r := UpdateTaskFixed(st, userId, taskId, req, now, false, false);
            r.0.Updated? && r.1.tasks[taskId].task.version == st.tasks[taskId].task.version + 1
  {
  }
}
