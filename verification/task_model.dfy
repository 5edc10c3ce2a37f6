/**
  The records of the tasks feature (features/tasks/model.go): a task with
  its version and vector clock, the event-log row, and the create and
  patch requests with the checks their `validate` tags ask for.

  Times are integers on one clock. The stored `vector_clock` bytes are
  abstracted to what decoding them into a map yields.
 */
module TaskModel {
  import opened Common

  /** A vector clock: how many times each actor has changed the task. */
  type Clock = map<UserId, Int64>

  /**
    The `vector_clock` column as `UpdateTask` decodes it: no bytes at all,
    a JSON object of counters, bytes that do not decode, or the JSON
    literal `null`.
   */
  datatype RawClock =
    | Blank
    | Encoded(clock: Clock)
    | Malformed
    | JsonNull

  datatype Task = Task(
    id: TaskId,
    title: string,
    description: string,
    priority: string,
    status: string,
    ownerId: UserId,
    dueDate: Option<int>,
    version: Int64,
    vectorClock: RawClock,
    createdAt: int,
    updatedAt: int)

  /** The payload an event row carries; the event type is given by the variant. */
  datatype EventPayload =
    | CreatedPayload(title: string, description: string)
    | UpdatedPayload(status: string, version: Int64)

  const TaskCreated: string := "TaskCreated"
  const TaskUpdated: string := "TaskUpdated"

  /** A row of the append-only `task_events` log. */
  datatype TaskEvent = TaskEvent(
    taskId: TaskId,
    eventType: string,
    payload: EventPayload,
    version: Int64,
    vectorClock: RawClock,
    userId: UserId,
    sequence: int)

  datatype CreateTaskRequest = CreateTaskRequest(
    title: string,
    description: string,
    priority: string,
    dueDate: Option<int>)

  /** A partial update: a missing field leaves the task's value alone. */
  datatype UpdateTaskRequest = UpdateTaskRequest(
    title: Option<string>,
    description: Option<string>,
    priority: Option<string>,
    status: Option<string>,
    dueDate: Option<int>)

  const Priorities: set<string> := {"Low", "Medium", "High"}
  const Statuses: set<string> := {"Pending", "InProgress", "Done", "Canceled"}
  const InitialStatus: string := "Pending"

  /** The tags of `CreateTaskRequest`: a title of at least three characters and a known priority. */
  predicate ValidCreateRequest(r: CreateTaskRequest) {
    |r.title| >= 3 && r.priority in Priorities
  }

  /** The tags of `UpdateTaskRequest`: every field optional, and each present one well-formed. */
  predicate ValidUpdateRequest(r: UpdateTaskRequest) {
    (r.title.Some? ==> |r.title.value| >= 3)
    && (r.priority.Some? ==> r.priority.value in Priorities)
    && (r.status.Some? ==> r.status.value in Statuses)
  }

  /** A task as the tags would have it: a title of three characters or more, a known priority and status. */
  predicate WellFormedTask(t: Task) {
    |t.title| >= 3 && t.priority in Priorities && t.status in Statuses
  }
}
