/** The task store of `store/tasks.ts`: the task record, the pure list
    transformations behind its five mutators, and the store object that
    replaces its `tasks` list and emits one notification per mutation. */
module Tasks {
  import opened JsArray

  /** `TaskData`; `description` is the one optional field. */
  datatype TaskData = TaskData(
    id: string,
    title: string,
    description: Option<string>,
    assignee: string,
    priority: string,
    dueDate: string,
    status: string)

  /** `Partial<TaskData>`: `None` is a key the patch does not carry. For
      `description`, `Some(None)` is a key carried with the value `undefined`,
      which a spread copies like any other. */
  datatype TaskPatch = TaskPatch(
    id: Option<string>,
    title: Option<string>,
    description: Option<Option<string>>,
    assignee: Option<string>,
    priority: Option<string>,
    dueDate: Option<string>,
    status: Option<string>)

  const EmptyPatch := TaskPatch(None, None, None, None, None, None, None)

  /** The patch `{ status: newStatus }`. */
  function StatusPatch(status: string): TaskPatch
  {
    EmptyPatch.(status := Some(status))
  }

  /** The patch that carries every field of `task`, as the edit form submits it. */
  function PatchOf(task: TaskData): TaskPatch
  {
    TaskPatch(Some(task.id), Some(task.title), Some(task.description), Some(task.assignee),
              Some(task.priority), Some(task.dueDate), Some(task.status))
  }

  function Overlay<T>(current: T, patched: Option<T>): T
  {
    if patched.Some? then patched.value else current
  }

  /** A property value of a task object: a string, or `undefined`. */
  datatype FieldValue = Str(text: string) | Undefined

  function DescriptionValue(d: Option<string>): FieldValue
  {
    if d.Some? then Str(d.value) else Undefined
  }

  /** The key names of `TaskData`. */
  datatype Key = Id | Title | Description | Assignee | Priority | DueDate | Status

  const TaskKeys: set<Key> := {Id, Title, Description, Assignee, Priority, DueDate, Status}

  /** `task[key]`; a missing `description` reads as `undefined`. */
  function TaskField(task: TaskData, key: Key): FieldValue
  {
    match key
    case Id => Str(task.id)
    case Title => Str(task.title)
    case Description => DescriptionValue(task.description)
    case Assignee => Str(task.assignee)
    case Priority => Str(task.priority)
    case DueDate => Str(task.dueDate)
    case Status => Str(task.status)
  }

  function StrValue(v: Option<string>): Option<FieldValue>
  {
    if v.Some? then Some(Str(v.value)) else None
  }

  /** The value the patch carries under `key`, or `None` when it does not carry that key. */
  function PatchField(patch: TaskPatch, key: Key): Option<FieldValue>
  {
    match key
    case Id => StrValue(patch.id)
    case Title => StrValue(patch.title)
    case Description =>
      if patch.description.Some? then Some(DescriptionValue(patch.description.value)) else None
    case Assignee => StrValue(patch.assignee)
    case Priority => StrValue(patch.priority)
    case DueDate => StrValue(patch.dueDate)
    case Status => StrValue(patch.status)
  }

  /** A task seen as a JavaScript object: every key of the type, with its value. */
  function TaskObject(task: TaskData): map<Key, FieldValue>
  {
    map key | key in TaskKeys :: TaskField(task, key)
  }

  /** A patch seen as a JavaScript object: only the keys it carries. */
  function PatchObject(patch: TaskPatch): map<Key, FieldValue>
  {
    map key | key in TaskKeys && PatchField(patch, key).Some? :: PatchField(patch, key).value
  }

  /** The object view loses nothing: two tasks with the same keys and values are equal. */
  lemma TaskObjectInjective(a: TaskData, b: TaskData)
    requires TaskObject(a) == TaskObject(b)
    ensures a == b
  {
    assert TaskObject(a)[Description] == TaskObject(b)[Description];
    assert TaskObject(a)[Id] == TaskObject(b)[Id];
    assert TaskObject(a)[Title] == TaskObject(b)[Title];
    assert TaskObject(a)[Assignee] == TaskObject(b)[Assignee];
    assert TaskObject(a)[Priority] == TaskObject(b)[Priority];
    assert TaskObject(a)[DueDate] == TaskObject(b)[DueDate];
    assert TaskObject(a)[Status] == TaskObject(b)[Status];
  }

  /** Overlaying field by field is overriding the task object by the patch object. */
  lemma OverlayIsOverride(task: TaskData, patch: TaskPatch, r: TaskData)
    requires r.id == Overlay(task.id, patch.id) && r.title == Overlay(task.title, patch.title)
    requires r.description == Overlay(task.description, patch.description)
    requires r.assignee == Overlay(task.assignee, patch.assignee) && r.priority == Overlay(task.priority, patch.priority)
    requires r.dueDate == Overlay(task.dueDate, patch.dueDate) && r.status == Overlay(task.status, patch.status)
    ensures TaskObject(r) == TaskObject(task) + PatchObject(patch)
  {
    var merged := TaskObject(task) + PatchObject(patch);
    forall key | key in TaskKeys
      ensures TaskObject(r)[key] == merged[key]
    {
      assert merged[key] == if PatchField(patch, key).Some? then PatchField(patch, key).value else TaskField(task, key);
    }
    assert TaskObject(r).Keys == merged.Keys;
  }

  /** The shallow merge `{ ...task, ...patch }`: as objects, the task's keys overridden
      by every key the patch carries, `id` included. */
  function Merge(task: TaskData, patch: TaskPatch): (r: TaskData)
    ensures TaskObject(r) == TaskObject(task) + PatchObject(patch)
  {
    var r := TaskData(
      Overlay(task.id, patch.id),
      Overlay(task.title, patch.title),
      Overlay(task.description, patch.description),
      Overlay(task.assignee, patch.assignee),
      Overlay(task.priority, patch.priority),
      Overlay(task.dueDate, patch.dueDate),
      Overlay(task.status, patch.status));
    OverlayIsOverride(task, patch, r);
    r
  }

  /** No two tasks share an id. The store assumes this and never enforces it. */
  ghost predicate UniqueIds(tasks: seq<TaskData>)
  {
    forall i, j :: 0 <= i < j < |tasks| ==> tasks[i].id != tasks[j].id
  }

  ghost predicate HasId(tasks: seq<TaskData>, id: string)
  {
    exists i :: 0 <= i < |tasks| && tasks[i].id == id
  }

  /** The list `updateTask(taskId, patch)` stores. */
  function Updated(tasks: seq<TaskData>, taskId: string, patch: TaskPatch): (r: seq<TaskData>)
    ensures |r| == |tasks|
    ensures forall i :: 0 <= i < |tasks| && tasks[i].id != taskId ==> r[i] == tasks[i]
    ensures forall i :: 0 <= i < |tasks| && tasks[i].id == taskId ==> r[i] == Merge(tasks[i], patch)
  {
    Map(tasks, (t: TaskData) => if t.id == taskId then Merge(t, patch) else t)
  }

  /** The list `updateStatus(taskId, newStatus)` stores. */
  function StatusUpdated(tasks: seq<TaskData>, taskId: string, newStatus: string): (r: seq<TaskData>)
    ensures |r| == |tasks|
    ensures forall i :: 0 <= i < |tasks| && tasks[i].id != taskId ==> r[i] == tasks[i]
    ensures forall i :: 0 <= i < |tasks| && tasks[i].id == taskId ==> r[i] == tasks[i].(status := newStatus)
  {
    Map(tasks, (t: TaskData) => if t.id == taskId then t.(status := newStatus) else t)
  }

  /** The list `removeTask(taskId)` stores. */
  function Removed(tasks: seq<TaskData>, taskId: string): (r: seq<TaskData>)
    ensures IsSubsequence(r, tasks)
    ensures forall i :: 0 <= i < |r| ==> r[i].id != taskId
    ensures forall t :: t in tasks && t.id != taskId ==> t in r
    ensures forall t :: multiset(r)[t] == if t.id != taskId then multiset(tasks)[t] else 0
  {
    Filter(tasks, (t: TaskData) => t.id != taskId)
  }

  /** Merging an empty patch changes nothing. */
  lemma MergeEmptyPatch(task: TaskData)
    ensures Merge(task, EmptyPatch) == task
  {
  }

  /** Merging the same patch twice is merging it once. */
  lemma MergeIdempotent(task: TaskData, patch: TaskPatch)
    ensures Merge(Merge(task, patch), patch) == Merge(task, patch)
  {
  }

  /** A patch carrying every field replaces the task outright. */
  lemma MergeFullPatch(task: TaskData, replacement: TaskData)
    ensures Merge(task, PatchOf(replacement)) == replacement
  {
  }

  /** `updateTask(taskId, patch)` twice is `updateTask(taskId, patch)` once, even when
      the patch moves the task to another id. */
  lemma UpdatedIdempotent(tasks: seq<TaskData>, taskId: string, patch: TaskPatch)
    ensures Updated(Updated(tasks, taskId, patch), taskId, patch) == Updated(tasks, taskId, patch)
  {
    var once := Updated(tasks, taskId, patch);
    var twice := Updated(once, taskId, patch);
    forall i | 0 <= i < |tasks| ensures twice[i] == once[i] {
      MergeIdempotent(tasks[i], patch);
    }
  }

  /** `updateStatus(taskId, newStatus)` twice is `updateStatus(taskId, newStatus)` once. */
  lemma StatusUpdatedIdempotent(tasks: seq<TaskData>, taskId: string, newStatus: string)
    ensures StatusUpdated(StatusUpdated(tasks, taskId, newStatus), taskId, newStatus)
         == StatusUpdated(tasks, taskId, newStatus)
  {
    var once := StatusUpdated(tasks, taskId, newStatus);
    assert forall i :: 0 <= i < |tasks| ==> StatusUpdated(once, taskId, newStatus)[i] == once[i];
  }

  /** `updateStatus` is `updateTask` with the patch `{ status }`. */
  lemma StatusUpdatedIsUpdate(tasks: seq<TaskData>, taskId: string, newStatus: string)
    ensures StatusUpdated(tasks, taskId, newStatus) == Updated(tasks, taskId, StatusPatch(newStatus))
  {
    var a, b := StatusUpdated(tasks, taskId, newStatus), Updated(tasks, taskId, StatusPatch(newStatus));
    assert forall i :: 0 <= i < |tasks| ==> a[i] == b[i];
  }

  /** `updateStatus` changes the status field of the matching tasks, and no other field. */
  lemma StatusUpdatedKeepsOtherFields(tasks: seq<TaskData>, taskId: string, newStatus: string, i: int)
    requires 0 <= i < |tasks|
    ensures var r := StatusUpdated(tasks, taskId, newStatus)[i];
      && r.id == tasks[i].id && r.title == tasks[i].title && r.description == tasks[i].description
      && r.assignee == tasks[i].assignee && r.priority == tasks[i].priority
      && r.dueDate == tasks[i].dueDate
      && r.status == (if tasks[i].id == taskId then newStatus else tasks[i].status)
  {
  }

  /** Updating an id that no task carries leaves the list element for element the same. */
  lemma UpdatedAbsent(tasks: seq<TaskData>, taskId: string, patch: TaskPatch)
    requires !HasId(tasks, taskId)
    ensures Updated(tasks, taskId, patch) == tasks
  {
    assert forall i :: 0 <= i < |tasks| ==> tasks[i].id != taskId;
  }

  /** The same for a status change. */
  lemma StatusUpdatedAbsent(tasks: seq<TaskData>, taskId: string, newStatus: string)
    requires !HasId(tasks, taskId)
    ensures StatusUpdated(tasks, taskId, newStatus) == tasks
  {
    assert forall i :: 0 <= i < |tasks| ==> tasks[i].id != taskId;
  }

  /** Removing an id that no task carries leaves the list as it was. */
  lemma RemovedAbsent(tasks: seq<TaskData>, taskId: string)
    requires !HasId(tasks, taskId)
    ensures Removed(tasks, taskId) == tasks
  {
    FilterKeepsAll(tasks, (t: TaskData) => t.id != taskId);
  }

  /** `removeTask(id)` twice is `removeTask(id)` once. */
  lemma RemovedIdempotent(tasks: seq<TaskData>, taskId: string)
    ensures Removed(Removed(tasks, taskId), taskId) == Removed(tasks, taskId)
  {
    FilterIdempotent(tasks, (t: TaskData) => t.id != taskId);
  }

  /** Appending a task whose id is new keeps the ids unique. */
  lemma AddedFreshKeepsUniqueIds(tasks: seq<TaskData>, task: TaskData)
    requires UniqueIds(tasks) && !HasId(tasks, task.id)
    ensures UniqueIds(tasks + [task])
  {
    var r := tasks + [task];
    forall i, j | 0 <= i < j < |r| ensures r[i].id != r[j].id {
      if j == |tasks| {
        assert r[i] == tasks[i];
      }
    }
  }

  /** A patch that carries no id, or the task's own id, leaves every id in place,
      so a list with unique ids keeps them. */
  lemma UpdatedKeepsIds(tasks: seq<TaskData>, taskId: string, patch: TaskPatch)
    requires patch.id.None? || patch.id == Some(taskId)
    ensures var r := Updated(tasks, taskId, patch);
      (forall i :: 0 <= i < |tasks| ==> r[i].id == tasks[i].id) && (UniqueIds(tasks) ==> UniqueIds(r))
  {
    var r := Updated(tasks, taskId, patch);
    assert forall i :: 0 <= i < |tasks| ==> r[i].id == tasks[i].id;
  }

  /** The edit path: `updateTask(data.id, taskData)` with `taskData.id == data.id`
      replaces every task carrying that id by `taskData` and keeps all ids. */
  lemma EditReplacesTask(tasks: seq<TaskData>, edited: TaskData)
    ensures var r := Updated(tasks, edited.id, PatchOf(edited));
      && (forall i :: 0 <= i < |tasks| && tasks[i].id == edited.id ==> r[i] == edited)
      && (forall i :: 0 <= i < |tasks| && tasks[i].id != edited.id ==> r[i] == tasks[i])
      && (UniqueIds(tasks) ==> UniqueIds(r))
  {
    var r := Updated(tasks, edited.id, PatchOf(edited));
    forall i | 0 <= i < |tasks| && tasks[i].id == edited.id ensures r[i] == edited {
      MergeFullPatch(tasks[i], edited);
    }
    UpdatedKeepsIds(tasks, edited.id, PatchOf(edited));
  }

  /** `updateTask` does not protect ids: a patch carrying another task's id
      leaves two tasks with the same id. */
  lemma UpdateCanDuplicateIds()
    ensures var a := TaskData("1", "a", None, "u", "p", "2024-01-01", "todo");
      var b := a.(id := "2");
      UniqueIds([a, b]) && !UniqueIds(Updated([a, b], "1", EmptyPatch.(id := Some("2"))))
  {
    var a := TaskData("1", "a", None, "u", "p", "2024-01-01", "todo");
    var b := a.(id := "2");
    var r := Updated([a, b], "1", EmptyPatch.(id := Some("2")));
    assert r[0].id == "2" && r[1].id == "2";
  }

  /** An order-preserving subsequence of a list with unique ids has unique ids. */
  lemma {:induction false} SubsequenceKeepsUniqueIds(a: seq<TaskData>, b: seq<TaskData>)
    requires IsSubsequence(a, b) && UniqueIds(b)
    ensures UniqueIds(a)
    decreases |b|
  {
    if a != [] {
      assert UniqueIds(b[1..]) by {
        forall i, j | 0 <= i < j < |b[1..]| ensures b[1..][i].id != b[1..][j].id {
          assert b[1..][i] == b[i + 1] && b[1..][j] == b[j + 1];
        }
      }
      if a[0] == b[0] && IsSubsequence(a[1..], b[1..]) {
        SubsequenceKeepsUniqueIds(a[1..], b[1..]);
        SubsequenceMembers(a[1..], b[1..]);
        forall j | 0 < j < |a| ensures a[0].id != a[j].id {
          assert a[j] == a[1..][j - 1];
          assert a[j] in a[1..];
          assert a[j] in b[1..];
          var k :| 0 <= k < |b[1..]| && b[1..][k] == a[j];
          assert b[k + 1] == a[j];
        }
        forall i, j | 0 <= i < j < |a| ensures a[i].id != a[j].id {
          if i > 0 {
            assert a[i] == a[1..][i - 1] && a[j] == a[1..][j - 1];
          }
        }
      } else {
        SubsequenceKeepsUniqueIds(a, b[1..]);
      }
    }
  }

  /** Removing keeps the ids unique. */
  lemma RemovedKeepsUniqueIds(tasks: seq<TaskData>, taskId: string)
    requires UniqueIds(tasks)
    ensures UniqueIds(Removed(tasks, taskId))
  {
    SubsequenceKeepsUniqueIds(Removed(tasks, taskId), tasks);
  }

  /** With unique ids, every task but the `i`-th carries an id other than its id. */
  lemma OthersHaveOtherIds(tasks: seq<TaskData>, i: int)
    requires UniqueIds(tasks) && 0 <= i < |tasks|
    ensures forall t :: t in tasks[..i] + tasks[i + 1..] ==> t.id != tasks[i].id
  {
    var rest := tasks[..i] + tasks[i + 1..];
    forall k | 0 <= k < |rest| ensures rest[k].id != tasks[i].id {
      if k < i { assert rest[k] == tasks[k]; } else { assert rest[k] == tasks[k + 1]; }
    }
  }

  /** When no other task shares the `i`-th task's id, removing that id leaves the
      other tasks, each as often as before. */
  lemma RemovedIsRest(tasks: seq<TaskData>, i: int)
    requires 0 <= i < |tasks|
    requires forall t :: t in tasks[..i] + tasks[i + 1..] ==> t.id != tasks[i].id
    ensures multiset(Removed(tasks, tasks[i].id)) == multiset(tasks[..i] + tasks[i + 1..])
  {
    var id, r, rest := tasks[i].id, Removed(tasks, tasks[i].id), tasks[..i] + tasks[i + 1..];
    MultisetWithout(tasks, i);
    forall t: TaskData ensures multiset(r)[t] == multiset(rest)[t] {
      if t.id == id {
        assert t !in rest;
      } else {
        assert t != tasks[i];
      }
    }
  }

  /** With unique ids, removing a present id takes out exactly that one task. */
  lemma RemovedPresentShrinksByOne(tasks: seq<TaskData>, i: int)
    requires UniqueIds(tasks) && 0 <= i < |tasks|
    ensures |Removed(tasks, tasks[i].id)| == |tasks| - 1
  {
    OthersHaveOtherIds(tasks, i);
    RemovedIsRest(tasks, i);
    SameMultisetSameLength(Removed(tasks, tasks[i].id), tasks[..i] + tasks[i + 1..]);
  }

  /** The severity of a toast. */
  datatype Severity = Success | Info | Warning | Error

  datatype Notification = Notification(severity: Severity, message: string)

  const AddedNotice := Notification(Success, "Task added successfully!")
  const UpdatedNotice := Notification(Success, "Task updated successfully!")
  const StatusNotice := Notification(Info, "Status updated")
  const RemovedNotice := Notification(Error, "Task removed successfully!")
  const ClearedNotice := Notification(Warning, "All tasks cleared!")

  /** The store. `notifications` is the log of toasts it has emitted, oldest first. */
  class TaskStore {
    var tasks: seq<TaskData>
    var notifications: seq<Notification>

    /** The store starts with no tasks. */
    constructor ()
      ensures tasks == [] && notifications == []
    {
      tasks := [];
      notifications := [];
    }

    /** `addTask`: append, with no check for a duplicate id; one success toast. */
    method AddTask(task: TaskData)
      modifies this
      ensures tasks == old(tasks) + [task]
      ensures notifications == old(notifications) + [AddedNotice]
    {
      tasks := tasks + [task];
      notifications := notifications + [AddedNotice];
    }

    /** `updateTask`: merge the patch into every task with that id; one success toast,
        whether or not a task matched. */
    method UpdateTask(taskId: string, updatedTask: TaskPatch)
      modifies this
      ensures tasks == Updated(old(tasks), taskId, updatedTask)
      ensures notifications == old(notifications) + [UpdatedNotice]
    {
      tasks := Updated(tasks, taskId, updatedTask);
      notifications := notifications + [UpdatedNotice];
    }

    /** `updateStatus`: set the status of every task with that id; one info toast. */
    method UpdateStatus(taskId: string, newStatus: string)
      modifies this
      ensures tasks == StatusUpdated(old(tasks), taskId, newStatus)
      ensures notifications == old(notifications) + [StatusNotice]
    {
      tasks := StatusUpdated(tasks, taskId, newStatus);
      notifications := notifications + [StatusNotice];
    }

    /** `removeTask`: keep the tasks with another id; one error toast. */
    method RemoveTask(taskId: string)
      modifies this
      ensures tasks == Removed(old(tasks), taskId)
      ensures notifications == old(notifications) + [RemovedNotice]
    {
      tasks := Removed(tasks, taskId);
      notifications := notifications + [RemovedNotice];
    }

    /** `clearTasks`: empty the list; one warning toast. */
    method ClearTasks()
      modifies this
      ensures tasks == []
      ensures notifications == old(notifications) + [ClearedNotice]
    {
      tasks := [];
      notifications := notifications + [ClearedNotice];
    }
  }
}
