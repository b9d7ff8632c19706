/** The view projection of `components/table.tsx`: the title/status filter,
    the page slice, the page count, the row numbers, and the table's own
    state (current page, search text, status filter) with the effects that
    reset the page. */
module Table {
  import opened JsArray
  import opened JsString
  import opened Tasks

  /** `tasksPerPage`, fixed at 5 by the component. */
  const TasksPerPage: int := 5

  /** The filter callback. An empty status filter or search text is falsy and lets
      every task through; otherwise the status must be equal and the search text
      must occur in the title, ignoring ASCII case. */
  function Keep(task: TaskData, searchTitle: string, statusFilter: string): (kept: bool)
    ensures kept <==> (statusFilter == "" || task.status == statusFilter)
                      && IsSubstring(ToLowerCase(task.title), ToLowerCase(searchTitle))
  {
    assert searchTitle == "" ==> MatchAt(ToLowerCase(task.title), ToLowerCase(searchTitle), 0);
    (statusFilter == "" || task.status == statusFilter)
    && (searchTitle == "" || Includes(ToLowerCase(task.title), ToLowerCase(searchTitle)))
  }

  /** `filteredTasks`. */
  function FilteredTasks(taskList: seq<TaskData>, searchTitle: string, statusFilter: string): (r: seq<TaskData>)
    ensures IsSubsequence(r, taskList)
    ensures forall i :: 0 <= i < |r| ==> Keep(r[i], searchTitle, statusFilter)
    ensures forall t :: t in taskList && Keep(t, searchTitle, statusFilter) ==> t in r
    ensures forall t :: multiset(r)[t] == if Keep(t, searchTitle, statusFilter) then multiset(taskList)[t] else 0
  {
    Filter(taskList, (t: TaskData) => Keep(t, searchTitle, statusFilter))
  }

  lemma MulMonotone(a: int, b: int, k: int)
    requires a <= b && k > 0
    ensures a * k <= b * k
  {
    assert b * k - a * k == (b - a) * k;
  }

  /** `indexOfLastTask`: the position just past the page's last task. It reaches at
      least one full page exactly when the page number is 1 or more. */
  function IndexOfLastTask(page: int, perPage: int): (r: int)
    ensures perPage > 0 ==> (r >= perPage <==> page >= 1)
  {
    assert perPage > 0 ==> (page * perPage >= perPage <==> page >= 1) by {
      if perPage > 0 {
        if page >= 1 { MulMonotone(1, page, perPage); } else { MulMonotone(page, 0, perPage); }
      }
    }
    page * perPage
  }

  /** `indexOfFirstTask`: the position of the page's first task, `(page - 1) * perPage`;
      it is a valid, non-negative position exactly when the page number is 1 or more. */
  function IndexOfFirstTask(page: int, perPage: int): (r: int)
    ensures r == (page - 1) * perPage
    ensures perPage > 0 ==> (r >= 0 <==> page >= 1)
  {
    IndexOfLastTask(page, perPage) - perPage
  }

  /** Consecutive pages meet: each page starts where the one before it ends. */
  lemma PagesAreAdjacent(page: int, perPage: int)
    ensures IndexOfFirstTask(page + 1, perPage) == IndexOfLastTask(page, perPage)
  {
  }

  /** `currentTasks`: at most one page, and for a page number from 1 on exactly the
      positions `[(page - 1) * perPage, page * perPage)` of the filtered list that exist. */
  function CurrentTasks(filtered: seq<TaskData>, page: int, perPage: int): (r: seq<TaskData>)
    requires perPage > 0
    ensures |r| <= perPage
    ensures page >= 1 ==> r == filtered[Min((page - 1) * perPage, |filtered|)..Min(page * perPage, |filtered|)]
  {
    Slice(filtered, IndexOfFirstTask(page, perPage), IndexOfLastTask(page, perPage))
  }

  /** `totalPages = Math.ceil(count / perPage)`: the fewest pages that hold `count` tasks. */
  function TotalPages(count: nat, perPage: int): (pages: nat)
    requires perPage > 0
    ensures pages * perPage >= count
    ensures count > 0 ==> (pages - 1) * perPage < count
    ensures pages == 0 <==> count == 0
  {
    var q, m := (count + perPage - 1) / perPage, (count + perPage - 1) % perPage;
    assert count + perPage - 1 == q * perPage + m;
    assert (q - 1) * perPage == q * perPage - perPage;
    assert q == 0 ==> count == 0;
    q
  }

  /** The row number `indexOfFirstTask + i + 1` shown beside each task of the page. */
  function Rows(filtered: seq<TaskData>, page: int, perPage: int): (rows: seq<(int, TaskData)>)
    requires perPage > 0
    ensures |rows| == |CurrentTasks(filtered, page, perPage)|
    ensures page >= 1 ==> forall i :: 0 <= i < |rows| ==>
      && rows[i].0 == (page - 1) * perPage + i + 1
      && 1 <= rows[i].0 <= |filtered|
      && filtered[rows[i].0 - 1] == rows[i].1
  {
    var shown := CurrentTasks(filtered, page, perPage);
    seq(|shown|, i requires 0 <= i < |shown| => (IndexOfFirstTask(page, perPage) + i + 1, shown[i]))
  }

  /** Pages 1 to `count`, one after the other. */
  function ConcatPages(filtered: seq<TaskData>, perPage: int, count: nat): seq<TaskData>
    requires perPage > 0
  {
    if count == 0 then [] else ConcatPages(filtered, perPage, count - 1) + CurrentTasks(filtered, count, perPage)
  }

  /** Pages 1 to `count` are the first `count * perPage` filtered tasks (or all of them). */
  lemma {:induction false} ConcatPagesIsPrefix(filtered: seq<TaskData>, perPage: int, count: nat)
    requires perPage > 0
    ensures ConcatPages(filtered, perPage, count) == filtered[..Min(count * perPage, |filtered|)]
  {
    if count > 0 {
      ConcatPagesIsPrefix(filtered, perPage, count - 1);
      MulMonotone(0, count - 1, perPage);
      assert (count - 1) * perPage == count * perPage - perPage;
      var a, b := Min((count - 1) * perPage, |filtered|), Min(count * perPage, |filtered|);
      assert filtered[..a] + filtered[a..b] == filtered[..b];
    }
  }

  /** Pages 1 to `totalPages` reproduce the filtered list exactly. */
  lemma AllPagesReassemble(filtered: seq<TaskData>, perPage: int)
    requires perPage > 0
    ensures ConcatPages(filtered, perPage, TotalPages(|filtered|, perPage)) == filtered
  {
    ConcatPagesIsPrefix(filtered, perPage, TotalPages(|filtered|, perPage));
  }

  /** The slice does no clamping: a page after the last one is empty. */
  lemma PageBeyondLastIsEmpty(filtered: seq<TaskData>, page: int, perPage: int)
    requires perPage > 0 && page > TotalPages(|filtered|, perPage)
    ensures CurrentTasks(filtered, page, perPage) == []
  {
    MulMonotone(TotalPages(|filtered|, perPage), page - 1, perPage);
  }

  /** Every page from 1 to `totalPages` has tasks, and every page before the last is full. */
  lemma PagesInRangeAreFilled(filtered: seq<TaskData>, page: int, perPage: int)
    requires perPage > 0 && 1 <= page <= TotalPages(|filtered|, perPage)
    ensures |CurrentTasks(filtered, page, perPage)| > 0
    ensures page < TotalPages(|filtered|, perPage) ==> |CurrentTasks(filtered, page, perPage)| == perPage
  {
    var n, pages := |filtered|, TotalPages(|filtered|, perPage);
    var lo, hi := (page - 1) * perPage, page * perPage;
    assert hi == lo + perPage;
    MulMonotone(0, page - 1, perPage);
    MulMonotone(page - 1, pages - 1, perPage);
    assert lo < n;
    assert CurrentTasks(filtered, page, perPage) == filtered[lo..Min(hi, n)];
    if page < pages {
      MulMonotone(page, pages - 1, perPage);
      assert hi < n;
    }
  }

  /** A page from 1 on has tasks exactly when it is one of pages 1 to `totalPages`. */
  lemma PageShownIffInRange(filtered: seq<TaskData>, page: int, perPage: int)
    requires perPage > 0 && page >= 1
    ensures CurrentTasks(filtered, page, perPage) != [] <==> page <= TotalPages(|filtered|, perPage)
  {
    if page <= TotalPages(|filtered|, perPage) {
      PagesInRangeAreFilled(filtered, page, perPage);
    } else {
      PageBeyondLastIsEmpty(filtered, page, perPage);
    }
  }

  /** The row numbers of page `page` run consecutively from `(page - 1) * perPage + 1`
      to `(page - 1) * perPage + |currentTasks|`. */
  lemma RowNumbersAreConsecutive(filtered: seq<TaskData>, page: int, perPage: int)
    requires perPage > 0 && page >= 1
    ensures var rows := Rows(filtered, page, perPage);
      && (rows != [] ==> rows[0].0 == (page - 1) * perPage + 1)
      && (rows != [] ==> rows[|rows| - 1].0 == (page - 1) * perPage + |CurrentTasks(filtered, page, perPage)|)
      && (forall i :: 0 <= i < |rows| - 1 ==> rows[i + 1].0 == rows[i].0 + 1)
  {
  }

  /** With both filters empty, the filtered list is the whole list. */
  lemma NoFilterKeepsAll(taskList: seq<TaskData>)
    ensures FilteredTasks(taskList, "", "") == taskList
  {
    FilterKeepsAll(taskList, (t: TaskData) => Keep(t, "", ""));
  }

  /** Twelve tasks, five per page: three pages; the first holds tasks 1 to 5 and the
      third holds tasks 11 and 12, numbered 11 and 12. */
  lemma TwelveTasksExample(taskList: seq<TaskData>)
    requires |taskList| == 12
    ensures TotalPages(12, TasksPerPage) == 3
    ensures CurrentTasks(taskList, 1, TasksPerPage) == taskList[..5]
    ensures CurrentTasks(taskList, 3, TasksPerPage) == [taskList[10], taskList[11]]
    ensures Rows(taskList, 3, TasksPerPage) == [(11, taskList[10]), (12, taskList[11])]
  {
    var rows := Rows(taskList, 3, TasksPerPage);
    assert CurrentTasks(taskList, 3, TasksPerPage) == taskList[10..12];
    assert |rows| == 2;
  }

  /** The search ignores ASCII case: "Write Report" is found by "report". */
  lemma SearchIgnoresCase(task: TaskData)
    requires task.title == "Write Report"
    ensures Keep(task, "report", "")
  {
    var hay, needle := ToLowerCase(task.title), ToLowerCase("report");
    assert hay[6..12] == needle;
    assert MatchAt(hay, needle, 6);
  }

  /** The effect on `[tasks]`: back to page 1 whenever the store holds at most one page
      of tasks; otherwise the page is left alone. */
  function PageAfterTasksChange(page: int, taskCount: nat): (r: int)
    ensures r == 1 || r == page
    ensures taskCount <= TasksPerPage ==> r == 1
    ensures page >= 1 ==> r >= 1
  {
    if taskCount <= TasksPerPage then 1 else page
  }

  /** After the reset, a store that holds at most one page of tasks shows all of its
      filtered tasks, whatever page was current and whatever the filters are. */
  lemma SmallListShowsEverything(tasks: seq<TaskData>, page: int, searchTitle: string, statusFilter: string)
    requires |tasks| <= TasksPerPage
    ensures var filtered := FilteredTasks(tasks, searchTitle, statusFilter);
      CurrentTasks(filtered, PageAfterTasksChange(page, |tasks|), TasksPerPage) == filtered
  {
    SubsequenceNoLonger(FilteredTasks(tasks, searchTitle, statusFilter), tasks);
  }

  /** The reset effects are the only guard on the page number, and they can leave it
      past the last page: eleven tasks on page 3, then the eleventh is removed. Page 3
      is kept (ten tasks are more than one page) and is empty, so the table, and with it
      the page buttons, is not rendered. */
  lemma RemovalCanStrandPage(tasks: seq<TaskData>)
    requires UniqueIds(tasks) && |tasks| == 2 * TasksPerPage + 1
    ensures CurrentTasks(FilteredTasks(tasks, "", ""), 3, TasksPerPage) == [tasks[|tasks| - 1]]
    ensures var after := Removed(tasks, tasks[|tasks| - 1].id);
      var page := PageAfterTasksChange(3, |after|);
      && page == 3
      && FilteredTasks(after, "", "") != []
      && page > TotalPages(|FilteredTasks(after, "", "")|, TasksPerPage)
      && CurrentTasks(FilteredTasks(after, "", ""), page, TasksPerPage) == []
  {
    NoFilterKeepsAll(tasks);
    var after := Removed(tasks, tasks[|tasks| - 1].id);
    RemovedPresentShrinksByOne(tasks, |tasks| - 1);
    NoFilterKeepsAll(after);
    PageBeyondLastIsEmpty(after, 3, TasksPerPage);
  }

  /** The table's state. `taskList` is the copy of the store's `tasks` that the first
      effect keeps; `currentTask` and `editMode` are what the edit button sets. */
  class TableView {
    var taskList: seq<TaskData>
    var currentPage: int
    var searchTitle: string
    var statusFilter: string
    var editMode: bool
    var currentTask: Option<TaskData>

    /** The initial state of every `useState`. */
    constructor ()
      ensures taskList == [] && currentPage == 1 && searchTitle == "" && statusFilter == ""
      ensures !editMode && currentTask == None
    {
      taskList := [];
      currentPage := 1;
      searchTitle := "";
      statusFilter := "";
      editMode := false;
      currentTask := None;
    }

    function Filtered(): seq<TaskData>
      reads this
    {
      FilteredTasks(taskList, searchTitle, statusFilter)
    }

    function Shown(): seq<TaskData>
      reads this
    {
      CurrentTasks(Filtered(), currentPage, TasksPerPage)
    }

    /** The table, the search box, the status filter and the page buttons are
        rendered only while the current page has tasks; otherwise "No tasks found".
        For the page numbers the buttons set, that is exactly while the current page
        is one of pages 1 to `totalPages`; page 0 never shows anything. */
    function ShowsTable(): (shown: bool)
      reads this
      ensures currentPage >= 1 ==> (shown <==> currentPage <= TotalPages(|Filtered()|, TasksPerPage))
      ensures currentPage == 0 ==> !shown
    {
      assert currentPage >= 1 ==> (Shown() != [] <==> currentPage <= TotalPages(|Filtered()|, TasksPerPage)) by {
        if currentPage >= 1 { PageShownIffInRange(Filtered(), currentPage, TasksPerPage); }
      }
      Shown() != []
    }

    /** The page buttons need, besides, more than one page of unfiltered tasks. With
        no filter active they therefore appear only when there are two pages or more. */
    function ShowsPageButtons(): (shown: bool)
      reads this
      ensures shown ==> ShowsTable() && |taskList| > TasksPerPage
      ensures currentPage >= 1 ==>
        (shown <==> currentPage <= TotalPages(|Filtered()|, TasksPerPage) && |taskList| > TasksPerPage)
      ensures shown && searchTitle == "" && statusFilter == "" ==> TotalPages(|Filtered()|, TasksPerPage) >= 2
    {
      NoFilterKeepsAll(taskList);
      ShowsTable() && |taskList| > TasksPerPage
    }

    /** `paginate(pageNumber)`: the page is whatever the button passes. */
    method Paginate(pageNumber: int)
      modifies this
      ensures currentPage == pageNumber
      ensures taskList == old(taskList) && searchTitle == old(searchTitle) && statusFilter == old(statusFilter)
      ensures editMode == old(editMode) && currentTask == old(currentTask)
    {
      currentPage := pageNumber;
    }

    /** Typing in the search box, followed by the effect on `[searchTitle, statusFilter]`,
        which runs only when the value changed and then goes back to page 1. */
    method SetSearchTitle(value: string)
      modifies this
      ensures searchTitle == value
      ensures currentPage == if value != old(searchTitle) then 1 else old(currentPage)
      ensures taskList == old(taskList) && statusFilter == old(statusFilter)
      ensures editMode == old(editMode) && currentTask == old(currentTask)
      ensures value != old(searchTitle) && Filtered() != [] ==> ShowsTable()
    {
      if value != searchTitle {
        searchTitle := value;
        currentPage := 1;
        if Filtered() != [] {
          PagesInRangeAreFilled(Filtered(), 1, TasksPerPage);
        }
      }
    }

    /** Choosing a status, followed by the same effect. */
    method SetStatusFilter(value: string)
      modifies this
      ensures statusFilter == value
      ensures currentPage == if value != old(statusFilter) then 1 else old(currentPage)
      ensures taskList == old(taskList) && searchTitle == old(searchTitle)
      ensures editMode == old(editMode) && currentTask == old(currentTask)
      ensures value != old(statusFilter) && Filtered() != [] ==> ShowsTable()
    {
      if value != statusFilter {
        statusFilter := value;
        currentPage := 1;
        if Filtered() != [] {
          PagesInRangeAreFilled(Filtered(), 1, TasksPerPage);
        }
      }
    }

    /** The two effects on `[tasks]`, run after every store mutation (each one stores a
        new array): copy the list, and go back to page 1 when it fits on one page. */
    method TasksChanged(tasks: seq<TaskData>)
      modifies this
      ensures taskList == tasks
      ensures currentPage == PageAfterTasksChange(old(currentPage), |tasks|)
      ensures searchTitle == old(searchTitle) && statusFilter == old(statusFilter)
      ensures editMode == old(editMode) && currentTask == old(currentTask)
      ensures |tasks| <= TasksPerPage && Filtered() != [] ==> ShowsTable()
    {
      taskList := tasks;
      if |tasks| <= TasksPerPage {
        currentPage := 1;
        if Filtered() != [] {
          PagesInRangeAreFilled(Filtered(), 1, TasksPerPage);
        }
      }
    }

    /** `editTask`: remember the task and switch the form to edit mode. */
    method EditTask(task: TaskData)
      modifies this
      ensures currentTask == Some(task) && editMode
      ensures taskList == old(taskList) && currentPage == old(currentPage)
      ensures searchTitle == old(searchTitle) && statusFilter == old(statusFilter)
    {
      currentTask := Some(task);
      editMode := true;
    }
  }
}
