# Task tracker: a verified model of the task store

This project models the task-collection logic of the interactive command-line task
tracker in `1-task-tracker/main.go`. A `TaskTracker` owns an ordered collection of
tasks (identifier, description, status, creation and update timestamps) and each menu
operation is a read-modify-write of that collection: generate the next identifier,
find a task by identifier, add a `todo` task, replace a description, delete with
confirmation, set a status from a numbered code, and list tasks with an optional status
filter.

Layout:

- `tasks.dfy`, module `Tasks`: the `Task` value, the three statuses, and the pure
  functions the operations are specified by: `MaxId`/`NextId` (identifier generation),
  `IndexFrom`/`IndexOf` (first index with an identifier, or -1), `StatusOfCode` and
  `ListFilter` (the numbered menu codes), `Select` (the filtered listing), `Lower` and
  `IsAffirmative` (the delete confirmation), with lemmas about them.
- `tracker.dfy`, module `Tracker`: class `TaskTracker` with the `tasks: seq<Task>` field
  that the methods update in place, a ghost `persisted` field standing for the document
  on disk, the operations as methods with loops where the Go code loops, and three
  client methods whose postconditions state the scenarios below, proved from the class contracts.

Values the program reads from the console are method parameters: the description, the
already-parsed identifier, the status or list option code, and the confirmation answer.
The clock is the integer `now`. Whether writing the document succeeded is the boolean
`writeOk`; as in the Go code, the in-memory change has already happened when a failed
write is reported. Go's `os.WriteFile` truncates the file before writing, so after a failed
write the model says nothing about the document.

Where the code and the design description of the program differ, the model follows the
code:

- Identifiers are not "never reused": the next identifier is one more than the maximum
  identifier currently in the store (or 1), so deleting the task with the largest
  identifier and adding a task hands out that identifier again. `Tracker.DeletedIdIsReused`
  exhibits this on a concrete sequence of calls.
- A description is rejected only when it is exactly empty; a blank description such as
  `" "` is accepted.
- An unknown list option shows all tasks, while an unknown status number is an error.
- The next identifier is `max(0, identifiers) + 1`, so it is "maximum plus one" only when
  some identifier is not negative (identifiers loaded from a document can be anything);
  otherwise it is 1.

## Model

| member | source | states |
|---|---|---|
| Tasks.MaxId | 1-task-tracker/main.go:125-130 | the running maximum starting from 0 is at least 0, bounds every identifier, and is 0 or the identifier of some task |
| Tasks.NextId | 1-task-tracker/main.go:124-132 | the next identifier is at least 1, strictly above every identifier, 1 for an empty store, and otherwise 1 or one more than an existing identifier |
| Tasks.NextIdIsLeast | 1-task-tracker/main.go:124-132 | no positive integer above every identifier is smaller than the next identifier |
| Tasks.NextIdIsMaxPlusOne | 1-task-tracker/main.go:124-132 | when the largest identifier is not negative, the next identifier is that identifier plus one |
| Tasks.IndexFrom | 1-task-tracker/main.go:165-170 | scanning from index k yields -1 exactly when no task from k on has the identifier, and otherwise the first such index |
| Tasks.IndexOf | 1-task-tracker/main.go:164-171 | the lookup yields -1 exactly when no task has the identifier, and otherwise an index holding it with no earlier index holding it |
| Tasks.RemoveAtDropsId | 1-task-tracker/main.go:236 | splicing one task out of a store with unique identifiers keeps them unique and leaves no task with the removed identifier |
| Tasks.StatusOfCode | 1-task-tracker/main.go:273-283 | a status is chosen exactly for the codes "1", "2" and "3", and the chosen status is one of todo, in-progress and done |
| Tasks.CodeOfStatus | 1-task-tracker/main.go:264-267 | the number the mark menu prints beside each status selects that status |
| Tasks.StatusCodeIsCanonical | 1-task-tracker/main.go:264-283 | every accepted status number is the one the menu prints for its status, so codes and statuses correspond one to one |
| Tasks.ListFilter | 1-task-tracker/main.go:310-323 | options "2", "3", "4" filter by one of the three statuses; "1" and every unrecognised option mean no filter |
| Tasks.Shown | 1-task-tracker/main.go:334 | a task is shown when there is no filter or its status equals the filter |
| Tasks.Select | 1-task-tracker/main.go:333-334 | the listing is never longer than the store |
| Tasks.SelectIsSubseq | 1-task-tracker/main.go:333-342 | the listed rows are a subsequence of the store, in store order |
| Tasks.SelectCount | 1-task-tracker/main.go:333-342 | every task value occurs in the listing as often as in the store when its status matches the filter (or there is none), and not at all otherwise |
| Tasks.SelectMembership | 1-task-tracker/main.go:333-342 | a task is listed if and only if it is in the store and shown under the filter |
| Tasks.SelectAll | 1-task-tracker/main.go:312-313 | with no filter the listing is the whole store |
| Tasks.LowerChar | 1-task-tracker/main.go:230 | the result is never an upper-case ASCII letter, is a lower-case ASCII letter exactly when the input is an ASCII letter of either case |
| Tasks.Lower | 1-task-tracker/main.go:230 | lower-casing keeps the length and lower-cases each character in place |
| Tasks.IsAffirmative | 1-task-tracker/main.go:230-232 | the answer confirms a deletion when its lower-cased form is "y" or "yes" (its meaning on raw input is AffirmativeAnswers) |
| Tasks.AffirmativeAnswers | 1-task-tracker/main.go:230-234 | a deletion is confirmed exactly by "y" or "yes" in any mix of upper and lower case |
| Tracker.TaskTracker.constructor | 1-task-tracker/main.go:74-80 | a new tracker has an empty store, the file name "tasks.json", and has written nothing yet |
| Tracker.TaskTracker.SaveTasks | 1-task-tracker/main.go:107-119 | a successful write makes the document the current collection and reports success; a failed one reports a write error and leaves the document unspecified |
| Tracker.TaskTracker.GetNextID | 1-task-tracker/main.go:124-132 | the loop returns NextId of the store, strictly above every identifier in it |
| Tracker.TaskTracker.FindTask | 1-task-tracker/main.go:164-171 | the loop returns the first index holding the identifier, or -1 exactly when none does |
| Tracker.TaskTracker.AddTask | 1-task-tracker/main.go:136-160 | an empty description is an error and changes nothing; otherwise exactly one task is appended with the next identifier, status todo and both timestamps now, earlier tasks untouched; unique identifiers and valid statuses are preserved |
| Tracker.TaskTracker.UpdateTask | 1-task-tracker/main.go:175-208 | an unknown identifier or an empty description is an error and changes nothing; otherwise only the first matching task's description and update time change; length, order, identifiers and statuses are kept |
| Tracker.TaskTracker.DeleteTask | 1-task-tracker/main.go:213-244 | an unknown identifier or an answer other than y/yes (any case) is an error and changes nothing; otherwise the store becomes the tasks before the match followed by those after it, and with unique identifiers no remaining task has the deleted one |
| Tracker.TaskTracker.MarkTask | 1-task-tracker/main.go:249-294 | an unknown identifier or a status number other than 1-3 is an error and changes nothing; otherwise only the matching task's status and update time change, to the status the code selects; unique identifiers and valid statuses are preserved |
| Tracker.TaskTracker.ListTasks | 1-task-tracker/main.go:299-343 | the rows are exactly the tasks shown under the option's filter, in store order, as a subsequence of the store; with no filter they are the whole store; the store is not modified |
| Tracker.DeletedIdIsReused | 1-task-tracker/main.go:124-132 | adding two tasks, deleting the second and adding again gives the new task the deleted identifier 2 |
| Tracker.FirstAdditionScenario | 1-task-tracker/main.go:141-153 | on an empty store, adding "buy milk" and listing all tasks shows exactly one task: identifier 1, status todo |
| Tracker.DoneFilterScenario | 1-task-tracker/main.go:310-342 | with task 1 todo and task 2 marked done, the done filter lists only task 2 |

## Left out

- Console I/O: the prompts and messages, the scanner reads, `showMenu` and the menu loop
  in `main`; the values read arrive as method parameters.
- Identifier parsing with `strconv.Atoi`: the identifier arrives as an `int`; a parse
  failure returns before the store is touched, so it is the same as not calling the operation.
- `LoadTasks` and the JSON encoding in `SaveTasks` (file and foreign serialisation); the
  document is the ghost field `persisted`, which is `None` until this tracker first writes it.
- `time.Now()` and the date formatting of the listing: the clock is the parameter `now`.
  `AddTask` reads the clock twice in Go, so its two timestamps may differ by the time between
  the calls; the model gives both the same `now`.
- The printed output of `ListTasks` ("No tasks found", the header, the warning for an
  unrecognised option): the method returns the rows that would be printed.
- Tracker.TaskTracker.GetNextID: identifiers are unbounded integers; Go's `int` is 64 bits on 64-bit platforms (32 on 32-bit ones),
  so a loaded task with identifier 2^63-1 would make the next identifier wrap to a negative one.
- Tasks.NextId: the same 64-bit wrap-around is not modelled.
- Tasks.Lower: only ASCII letters are lower-cased, where Go's `strings.ToLower` follows
  Unicode; no non-ASCII character lower-cases to 'y', 'e' or 's', so the confirmation test
  is unaffected. Go strings are bytes; the model uses strings of characters.
- Tracker.TaskTracker.SaveTasks: what a failed write leaves in the file (nothing, a prefix of
  the new encoding, or the old content when opening fails) is not modelled; after a failure
  `persisted` may be any value.
