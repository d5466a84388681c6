/** The task tracker: a store object that owns the ordered task collection and updates it
    in place. Console input arrives as parameters, the clock as `now`, and the outcome of
    writing the document as `writeOk`. */
module Tracker {
  import opened Tasks

  datatype TaskError =
    | EmptyDescription
    | NotFound(id: int)
    | DeletionCancelled
    | InvalidStatusNumber
    | WriteFailed

  datatype Outcome = Ok | Fail(error: TaskError)

  /** What writing the document reports. */
  function SaveOutcome(writeOk: bool): Outcome
  {
    if writeOk then Ok else Fail(WriteFailed)
  }

  class TaskTracker {
    var tasks: seq<Task>
    const filename: string
    /** The collection most recently written to the document by this tracker, if any. */
    ghost var persisted: Option<seq<Task>>

    constructor ()
      ensures tasks == [] && filename == "tasks.json" && persisted == None
    {
      tasks := [];
      filename := "tasks.json";
      persisted := None;
    }

    /** Writes the whole collection. The file is truncated before it is written, so after a
        failed write nothing is known about the document. */
    method SaveTasks(writeOk: bool) returns (r: Outcome)
      modifies this`persisted
      ensures r == SaveOutcome(writeOk)
      ensures writeOk ==> persisted == Some(tasks)
    {
      if !writeOk {
        ghost var damaged: Option<seq<Task>> :| true;
        persisted := damaged;
        return Fail(WriteFailed);
      }
      persisted := Some(tasks);
      r := Ok;
    }

    method GetNextID() returns (id: int)
      ensures id == NextId(tasks)
      ensures forall i :: 0 <= i < |tasks| ==> tasks[i].id < id
    {
      var maxId := 0;
      for k := 0 to |tasks|
        invariant maxId == MaxId(tasks[..k])
      {
        assert tasks[..k + 1][..k] == tasks[..k];
        if tasks[k].id > maxId {
          maxId := tasks[k].id;
        }
      }
      assert tasks[..|tasks|] == tasks;
      id := maxId + 1;
    }

    /** The index of the first task with identifier id, or -1. */
    method FindTask(id: int) returns (index: int)
      ensures index == IndexOf(tasks, id)
      ensures -1 <= index < |tasks|
      ensures index == -1 <==> forall j :: 0 <= j < |tasks| ==> tasks[j].id != id
      ensures index >= 0 ==> tasks[index].id == id && forall j :: 0 <= j < index ==> tasks[j].id != id
    {
      for i := 0 to |tasks|
        invariant IndexFrom(tasks, id, i) == IndexOf(tasks, id)
      {
        if tasks[i].id == id {
          return i;
        }
      }
      return -1;
    }

    method AddTask(description: string, now: int, writeOk: bool) returns (r: Outcome)
      modifies this
      ensures description == "" ==>
        r == Fail(EmptyDescription) && tasks == old(tasks) && persisted == old(persisted)
      ensures description != "" ==>
        && tasks == old(tasks) + [Task(NextId(old(tasks)), description, Todo, now, now)]
        && r == SaveOutcome(writeOk)
        && (writeOk ==> persisted == Some(tasks))
      ensures UniqueIds(old(tasks)) ==> UniqueIds(tasks)
      ensures ValidStatuses(old(tasks)) ==> ValidStatuses(tasks)
    {
      if description == "" {
        return Fail(EmptyDescription);
      }
      var id := GetNextID();
      var task := Task(id, description, Todo, now, now);
      tasks := tasks + [task];
      r := SaveTasks(writeOk);
    }

    method UpdateTask(id: int, description: string, now: int, writeOk: bool) returns (r: Outcome)
      modifies this
      ensures var i := IndexOf(old(tasks), id);
        if i < 0 then
          r == Fail(NotFound(id)) && tasks == old(tasks) && persisted == old(persisted)
        else if description == "" then
          r == Fail(EmptyDescription) && tasks == old(tasks) && persisted == old(persisted)
        else
          && tasks == old(tasks)[i := old(tasks)[i].(description := description, updatedAt := now)]
          && r == SaveOutcome(writeOk)
          && (writeOk ==> persisted == Some(tasks))
      ensures |tasks| == |old(tasks)|
      ensures forall j :: 0 <= j < |tasks| ==> tasks[j].id == old(tasks)[j].id
      ensures forall j :: 0 <= j < |tasks| ==> tasks[j].status == old(tasks)[j].status
      ensures UniqueIds(old(tasks)) ==> UniqueIds(tasks)
      ensures ValidStatuses(old(tasks)) ==> ValidStatuses(tasks)
    {
      var index := FindTask(id);
      if index < 0 {
        return Fail(NotFound(id));
      }
      if description == "" {
        return Fail(EmptyDescription);
      }
      tasks := tasks[index := tasks[index].(description := description, updatedAt := now)];
      r := SaveTasks(writeOk);
    }

    method DeleteTask(id: int, confirm: string, writeOk: bool) returns (r: Outcome)
      modifies this
      ensures var i := IndexOf(old(tasks), id);
        if i < 0 then
          r == Fail(NotFound(id)) && tasks == old(tasks) && persisted == old(persisted)
        else if !IsAffirmative(confirm) then
          r == Fail(DeletionCancelled) && tasks == old(tasks) && persisted == old(persisted)
        else
          && tasks == old(tasks)[..i] + old(tasks)[i + 1..]
          && r == SaveOutcome(writeOk)
          && (writeOk ==> persisted == Some(tasks))
      ensures UniqueIds(old(tasks)) ==> UniqueIds(tasks)
      ensures UniqueIds(old(tasks)) && |tasks| < |old(tasks)| ==>
        forall j :: 0 <= j < |tasks| ==> tasks[j].id != id
      ensures ValidStatuses(old(tasks)) ==> ValidStatuses(tasks)
    {
      var index := FindTask(id);
      if index < 0 {
        return Fail(NotFound(id));
      }
      var answer := Lower(confirm);
      if answer != "y" && answer != "yes" {
        return Fail(DeletionCancelled);
      }
      ghost var before := tasks;
      tasks := tasks[..index] + tasks[index + 1..];
      if UniqueIds(before) {
        RemoveAtDropsId(before, index, tasks);
      }
      assert forall j :: 0 <= j < |tasks| ==> tasks[j] == before[if j < index then j else j + 1];
      r := SaveTasks(writeOk);
    }

    method MarkTask(id: int, statusNum: string, now: int, writeOk: bool) returns (r: Outcome)
      modifies this
      ensures var i := IndexOf(old(tasks), id);
        if i < 0 then
          r == Fail(NotFound(id)) && tasks == old(tasks) && persisted == old(persisted)
        else if StatusOfCode(statusNum).None? then
          r == Fail(InvalidStatusNumber) && tasks == old(tasks) && persisted == old(persisted)
        else
          && tasks == old(tasks)[i := old(tasks)[i].(status := StatusOfCode(statusNum).value, updatedAt := now)]
          && r == SaveOutcome(writeOk)
          && (writeOk ==> persisted == Some(tasks))
      ensures |tasks| == |old(tasks)|
      ensures forall j :: 0 <= j < |tasks| ==> tasks[j].id == old(tasks)[j].id
      ensures UniqueIds(old(tasks)) ==> UniqueIds(tasks)
      ensures ValidStatuses(old(tasks)) ==> ValidStatuses(tasks)
    {
      var index := FindTask(id);
      if index < 0 {
        return Fail(NotFound(id));
      }
      var status: string;
      if statusNum == "1" {
        status := Todo;
      } else if statusNum == "2" {
        status := InProgress;
      } else if statusNum == "3" {
        status := Done;
      } else {
        return Fail(InvalidStatusNumber);
      }
      tasks := tasks[index := tasks[index].(status := status, updatedAt := now)];
      r := SaveTasks(writeOk);
    }

    /** The rows the listing shows for a filter option, in store order. */
    method ListTasks(option: string) returns (rows: seq<Task>)
      ensures rows == Select(tasks, ListFilter(option))
      ensures IsSubseq(rows, tasks)
      ensures forall t :: t in rows <==> t in tasks && Shown(t, ListFilter(option))
      ensures ListFilter(option) == "" ==> rows == tasks
    {
      var status := ListFilter(option);
      rows := [];
      if |tasks| == 0 {
        return;
      }
      for k := 0 to |tasks|
        invariant rows == Select(tasks[..k], status)
      {
        assert tasks[..k + 1][..k] == tasks[..k];
        if status == "" || tasks[k].status == status {
          rows := rows + [tasks[k]];
        }
      }
      assert tasks[..|tasks|] == tasks;
      SelectIsSubseq(tasks, status);
      SelectAll(tasks);
      forall t {
        SelectMembership(tasks, status, t);
      }
    }
  }

  /** Deleting the task with the largest identifier and adding another hands the new task
      that same identifier: identifiers are max + 1 over the current store. */
  method DeletedIdIsReused() returns (deleted: int, reused: int)
    ensures deleted == 2 && reused == 2
  {
    var tracker := new TaskTracker();
    var r := tracker.AddTask("write report", 10, true);
    r := tracker.AddTask("send report", 20, true);
    deleted := tracker.tasks[1].id;
    r := tracker.DeleteTask(deleted, "Y", true);
    r := tracker.AddTask("file report", 30, true);
    reused := tracker.tasks[1].id;
  }

  /** An empty store, one addition: the task gets identifier 1 and status todo, and listing
      all tasks shows exactly that task. */
  method FirstAdditionScenario() returns (rows: seq<Task>)
    ensures rows == [Task(1, "buy milk", Todo, 5, 5)]
  {
    var tracker := new TaskTracker();
    var r := tracker.AddTask("buy milk", 5, true);
    rows := tracker.ListTasks("1");
  }

  /** Tasks 1 (todo) and 2 (done): the done filter lists only task 2. */
  method DoneFilterScenario() returns (rows: seq<Task>)
    ensures |rows| == 1 && rows[0].id == 2 && rows[0].status == Done
  {
    var tracker := new TaskTracker();
    var r := tracker.AddTask("a", 1, true);
    r := tracker.AddTask("b", 2, true);
    r := tracker.MarkTask(2, "3", 3, true);
    rows := tracker.ListTasks("4");
  }
}
