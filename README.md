# Task tracker core in Dafny

This project models the core of a small Go task-tracking backend:

- **Domain types** (`Domain`). A task status is a plain string, and three
  status names are predefined: `done`, `in_progress` and `ready`. A task
  holds an id, a data string and a status.
- **Request validation** (`RestTypes`). A status string is valid when it is
  one of the three names or empty. A list request carries the `status`
  query value as its filter. A create request is checked after decoding.
- **In-memory task registry** (`RamStorage.TaskRepo`). This class holds a
  map from id to task and the next id to hand out. `Post` stamps the task
  with that id and stores it. `Get` looks up one id and reports
  `ErrNotFound` on a miss. `GetAll` walks the map and keeps the tasks that
  the status filter selects; the empty filter selects every task. The
  class invariant `Valid` says two things. The stored keys are exactly
  `1 .. nextID - 1`, and each stored task's id equals its key.
- **Bounded drop-on-full logger** (`EventLog.Logger`). A buffered queue of
  entries with a fixed capacity. `Log` never waits: it appends when there
  is room, and otherwise drops the entry and prints one fallback line. One
  consumer writes entries out in arrival order. `Stop` closes the queue and
  waits for it to drain. The class invariant keeps the queue within its
  capacity. It also says that the accepted entries are exactly the written
  ones followed by the queued ones, which is first-in, first-out.

Each registry method is one atomic step. The consumer goroutine appears as
`ConsumeOne`, one turn of its loop, which a caller may run between any two
`Log` calls. `Stop` runs the remaining turns itself. What the consumer
writes is kept in the ghost sequence `emitted`. The fallback lines are
kept as the ghost count `fallbackLines`.

Three facts about the source that the model keeps:

- `domain.Task` has no title field (domain/task.go:11-15), although the
  handler at api/rest/task.go:86 sets one. The model has no title.
- `validateStatus("")` is true (api/rest/types/task.go:88). So a create
  request with an empty status is accepted unchanged
  (`RestTypes.CreateSetRequestAcceptsEmptyStatus`). `Post` then stores the
  status as given, because its ensures store the task with only its id
  replaced (`RamStorage.TaskRepo.Post`).
- `Log` before `Start` queues the entry, as a buffered channel does.

## Model

| member | source | states |
|---|---|---|
| Domain.StatusConstants | domain/task.go:5-9 | the three status names are `done`, `in_progress`, `ready`; they are pairwise distinct and none is empty |
| RestTypes.ValidateStatus | api/rest/types/task.go:84-92 | a status is valid exactly when it is one of the three predefined names or the empty string |
| RestTypes.ValidateStatusRejectsOthers | api/rest/types/task.go:85-90 | every string other than the three names and `""` is refused |
| RestTypes.CreateGetAllRequest | api/rest/types/task.go:59-72 | the request is built exactly when the status is valid, and its filter is that status unchanged (`""` included); otherwise the error is "unexpected status" and there is no request |
| RestTypes.CreateSetRequest | api/rest/types/task.go:37-49 | a body that does not decode gives a decode error; a decoded request is accepted unchanged exactly when its status is valid, and otherwise refused with "unexpected status" |
| RestTypes.CreateSetRequestAcceptsEmptyStatus | api/rest/types/task.go:44-48 | a decoded request with an empty status is accepted unchanged |
| RamStorage.KeyRangeSize | internal/repository/ram_storage/task.go:37-39 | a key set that is exactly `1 .. n - 1` has `n - 1` elements, so the map size equals the number of posts |
| RamStorage.TaskRepo.NewTaskRepo | internal/repository/ram_storage/task.go:15-20 | a new registry has an empty map and next id 1, and satisfies the invariant |
| RamStorage.TaskRepo.Get | internal/repository/ram_storage/task.go:22-31 | a stored id gives its task, whose id is that key, and no error; any other id gives the zero task and `ErrNotFound`, which always happens for ids `<= 0` or `>= nextID`; the state is unchanged |
| RamStorage.TaskRepo.Post | internal/repository/ram_storage/task.go:33-41 | returns the old next id, which is positive and was not a key; stores the task with its id overwritten by that value; increments the next id; every earlier entry is unchanged; the invariant is kept |
| RamStorage.TaskRepo.GetAll | internal/repository/ram_storage/task.go:43-54 | every returned task is stored under its own id and kept by the filter; every stored task the filter keeps is returned; no task is returned twice; the count equals the number of matching ids; with the empty filter the count is the map size, `nextID - 1`; the state is unchanged |
| RamStorage.PostThenGet | internal/repository/ram_storage/task.go:22-41 | getting the id that `Post` returned yields the posted task with that id, with no error |
| RamStorage.PostEach | internal/repository/ram_storage/task.go:33-41 | successive posts return consecutive ids from the old next id, so they strictly increase, never repeat and are positive; each task is stored under its id; earlier entries are unchanged |
| EventLog.Logger.NewLogger | pkg/log.go:15-20 | a new logger has an empty queue of the given capacity, has written nothing, has printed no fallback line, and is not started |
| EventLog.Logger.Start | pkg/log.go:22-29 | starting moves the logger from created to running; nothing else changes |
| EventLog.Logger.Log | pkg/log.go:31-37 | with room in the queue the entry is appended at the back and nothing else changes; with the queue full the queue is unchanged (the newest entry is dropped) and one fallback line is added; the queue never exceeds its capacity; no precondition on fullness |
| EventLog.Logger.ConsumeOne | pkg/log.go:25-27 | the consumer takes the oldest queued entry and appends it to what was written |
| EventLog.Logger.Stop | pkg/log.go:39-42 | afterwards the queue is empty, what was written is the old written sequence followed by the whole old queue, and the logger is stopped |
| EventLog.LogBatchThenStop | pkg/log.go:15-42 | logging a batch into a fresh, started logger and then stopping writes the first `capacity` entries in order, and one fallback line for each other entry; a batch within capacity is written entirely, in order |

## Left out

- The `sync.RWMutex` of the registry: each method is modelled as one atomic step, and interleavings are not modelled.
- The logger's goroutine, the `doneChannel` handshake and real blocking: the consumer is the explicit step `ConsumeOne`, and `Stop` drains the queue itself.
- The text printed by `log.Printf` and `log.Println`: written entries and fallback lines are recorded as ghost state instead.
- EventLog.Logger.NewLogger: a buffer size of 0 is modelled as a queue that is always full, so every entry is dropped; the rendezvous of an unbuffered Go channel with a waiting consumer is not modelled. A negative size, which panics in Go, is excluded by the `nat` type.
- EventLog.Logger.Log, EventLog.Logger.Stop and EventLog.Logger.Start: in Go these cases panic or block forever, so preconditions exclude them. They are a `Log` after `Stop`, a second `Stop`, and a `Stop` without `Start`. They also include a second `Start` or a `Start` after `Stop`. Either one launches another consumer, whose deferred close of the done channel panics on a double close, and two consumers would break first-in, first-out output. The application calls `Start` once at startup.
- RamStorage.TaskRepo.Post: ids are unbounded integers. Go's `nextID` is a machine `int`, and wrap-around past the largest `int` is not modelled. That wrap cannot happen: every post keeps one entry in the map, so reaching it would need more stored tasks than memory can hold.
- The order of `GetAll`'s result: Go's map iteration order is unspecified, so the result is stated as a collection without an order.
- `CreateGetRequest` (id parsing with `strconv.Atoi` and `PathValue`), JSON decoding, and reading the query string: these are library calls, so the decoded values are inputs.
- The HTTP handlers in `api/rest/task.go`, the service pass-through in `internal/service/task.go`, and startup and shutdown in `cmd/app/main.go` are not part of this model.
- The declaration of `ErrNotFound` is not part of this model. It is modelled as the only value of `Domain.Error`.
