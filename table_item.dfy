/** One row of the table, `components/tableItem.tsx`: the catalog lookups that
    turn ids into labels, and the handlers that forward the row's task id to
    the store or to the table. */
module TableItem {
  import opened JsArray
  import opened Tasks
  import opened Table

  datatype User = User(id: string, name: string)
  /** `label` is a reserved word in Dafny, hence `labelText`. */
  datatype Priority = Priority(id: string, labelText: string)
  datatype StatusOption = StatusOption(id: string, labelText: string)

  /** The three catalogs of `data/dummyData.json`, whose contents are a parameter here. */
  datatype Catalog = Catalog(users: seq<User>, priorities: seq<Priority>, statuses: seq<StatusOption>)

  /** `getUserNameById`: the name of the first user with that id, else the id itself. */
  function GetUserNameById(data: Catalog, id: string): (name: string)
    ensures (forall i :: 0 <= i < |data.users| ==> data.users[i].id != id) ==> name == id
    ensures forall i :: (0 <= i < |data.users| && data.users[i].id == id
                         && forall j :: 0 <= j < i ==> data.users[j].id != id) ==> name == data.users[i].name
  {
    match Find(data.users, (u: User) => u.id == id)
    case Some(user) => user.name
    case None => id
  }

  /** `getPriorityById`: the label of the first priority with that id, else the id itself. */
  function GetPriorityById(data: Catalog, id: string): (labelText: string)
    ensures (forall i :: 0 <= i < |data.priorities| ==> data.priorities[i].id != id) ==> labelText == id
    ensures forall i :: (0 <= i < |data.priorities| && data.priorities[i].id == id
                         && forall j :: 0 <= j < i ==> data.priorities[j].id != id) ==> labelText == data.priorities[i].labelText
  {
    match Find(data.priorities, (p: Priority) => p.id == id)
    case Some(priority) => priority.labelText
    case None => id
  }

  /** `getStatusById`: on a hit it returns the found entry's id, which is the id it
      was given, so it is the identity whatever the catalog holds. */
  function GetStatusById(data: Catalog, id: string): (r: string)
    ensures r == id
  {
    match Find(data.statuses, (s: StatusOption) => s.id == id)
    case Some(status) => status.id
    case None => id
  }

  /** With unique user ids, a user's own id shows that user's name. */
  lemma UserNameOfListedUser(data: Catalog, k: int)
    requires 0 <= k < |data.users|
    requires forall i, j :: 0 <= i < j < |data.users| ==> data.users[i].id != data.users[j].id
    ensures GetUserNameById(data, data.users[k].id) == data.users[k].name
  {
    assert forall j :: 0 <= j < k ==> data.users[j].id != data.users[k].id;
  }

  /** `handleStatusChange`: `updateStatus(data.id, value)`. Only the tasks carrying the
      row's id get the new status; the rest of the list is as it was. */
  method HandleStatusChange(store: TaskStore, data: TaskData, value: string)
    modifies store
    ensures store.tasks == StatusUpdated(old(store.tasks), data.id, value)
    ensures store.notifications == old(store.notifications) + [StatusNotice]
    ensures |store.tasks| == |old(store.tasks)|
    ensures forall i :: 0 <= i < |store.tasks| && old(store.tasks)[i].id != data.id ==> store.tasks[i] == old(store.tasks)[i]
  {
    store.UpdateStatus(data.id, value);
  }

  /** `handleRemove`: `removeTask(data.id)`. Every other task stays, in order. */
  method HandleRemove(store: TaskStore, data: TaskData)
    modifies store
    ensures store.tasks == Removed(old(store.tasks), data.id)
    ensures store.notifications == old(store.notifications) + [RemovedNotice]
    ensures forall t :: t in old(store.tasks) && t.id != data.id ==> t in store.tasks
  {
    store.RemoveTask(data.id);
  }

  /** The edit button: `onEdit(data)`, which is the table's `editTask`. */
  method HandleEdit(view: TableView, data: TaskData)
    modifies view
    ensures view.currentTask == Some(data) && view.editMode
    ensures view.taskList == old(view.taskList) && view.currentPage == old(view.currentPage)
    ensures view.searchTitle == old(view.searchTitle) && view.statusFilter == old(view.statusFilter)
  {
    view.EditTask(data);
  }
}
