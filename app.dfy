/** The list screen: its state slots and the handlers that update them. Each
    network call is an input (`outcome`) and the confirm dialog a boolean. */
module App {
  import opened Api
  import opened Text
  import opened Search
  import opened Sorting

  const NotFoundMessage := "No result found for this ID."
  const LookupFailedMessage := "Error fetching task. Please try again."

  /** A task id never shows again after its delete succeeds, whatever the
      query and the sort order. */
  lemma DeletedIdNeverShown(tasks: seq<Task>, id: int, query: string, order: string, instant: string -> int)
    ensures forall t :: t in SortByUpdated(Filter(RemoveId(tasks, id), query), order, instant) ==> t.id != id
  {
    var shown := SortByUpdated(Filter(RemoveId(tasks, id), query), order, instant);
    forall t | t in shown ensures t.id != id {
      assert t in multiset(shown);
      FilterMembership(RemoveId(tasks, id), query, t);
    }
  }

  /** What the screen lists is exactly the tasks the query keeps, each as
      often as in `tasks`, sorted by update instant. */
  lemma ShownTasks(tasks: seq<Task>, query: string, order: string, instant: string -> int, t: Task)
    ensures Sorted(SortByUpdated(Filter(tasks, query), order, instant), order, instant)
    ensures t in SortByUpdated(Filter(tasks, query), order, instant) <==> t in tasks && Matches(t, Terms(query))
    ensures multiset(SortByUpdated(Filter(tasks, query), order, instant))[t] ==
      if Matches(t, Terms(query)) then multiset(tasks)[t] else 0
  {
    var shown := SortByUpdated(Filter(tasks, query), order, instant);
    assert t in shown <==> t in multiset(shown);
    FilterMembership(tasks, query, t);
  }

  class ListScreen {
    /** `new Date(updated_at)`, as a point in time. */
    const instant: string -> int
    var tasks: seq<Task>
    var loading: bool
    var searchQuery: string
    var searchId: string
    var noResult: string
    var taskById: Option<Task>
    var sortOrder: string

    constructor(instant: string -> int)
      ensures this.instant == instant
      ensures tasks == [] && !loading && searchQuery == "" && searchId == ""
      ensures noResult == "" && taskById == None && sortOrder == "asc"
    {
      this.instant := instant;
      tasks := [];
      loading := false;
      searchQuery := "";
      searchId := "";
      noResult := "";
      taskById := None;
      sortOrder := "asc";
    }

    /** `sortedTasks`: the list the screen renders. */
    function SortedTasks(): (r: seq<Task>)
      reads this
      ensures multiset(r) == multiset(Filter(tasks, searchQuery))
      ensures Sorted(r, sortOrder, instant)
    {
      SortByUpdated(Filter(tasks, searchQuery), sortOrder, instant)
    }

    /** The mount effect: load the list. A failed load keeps the old list. */
    method FetchTasks(outcome: Response<seq<Task>>)
      modifies this`tasks, this`loading
      ensures tasks == (if outcome.Ok? then outcome.data else old(tasks))
      ensures !loading
    {
      loading := true;
      match outcome {
        case Ok(data) =>
          tasks := data;
          loading := false;
        case _ =>
          loading := false;
      }
    }

    /** Delete after confirmation; on success drop every task with that id.
        Returns whether a DELETE request was sent. */
    method DeleteTask(id: int, confirmed: bool, outcome: Response<()>) returns (requested: bool)
      modifies this`tasks, this`loading
      ensures requested == confirmed
      ensures !confirmed ==> tasks == old(tasks) && loading == old(loading)
      ensures confirmed ==> !loading
      ensures confirmed ==> tasks == if outcome.Ok? then RemoveId(old(tasks), id) else old(tasks)
    {
      requested := false;
      if confirmed {
        loading := true;
        requested := true;
        if outcome.Ok? {
          tasks := RemoveId(tasks, id);
          loading := false;
        } else {
          loading := false;
        }
      }
    }

    /** Look up the task whose id is in the search box. Returns whether a GET
        request was sent. */
    method FetchTaskById(outcome: Response<Task>) returns (requested: bool)
      modifies this`taskById, this`noResult, this`loading
      ensures requested == (searchId != "")
      ensures searchId == "" ==> taskById == None && noResult == old(noResult) && loading == old(loading)
      ensures searchId != "" ==> !loading
      ensures searchId != "" && outcome.Ok? ==> taskById == Some(outcome.data) && noResult == ""
      ensures searchId != "" && outcome.HttpError? && outcome.status == 404 ==>
        taskById == None && noResult == NotFoundMessage
      ensures searchId != "" && !outcome.Ok? && !(outcome.HttpError? && outcome.status == 404) ==>
        taskById == None && noResult == LookupFailedMessage
    {
      if searchId == "" {
        taskById := None;
        return false;
      }
      requested := true;
      loading := true;
      if outcome.Ok? {
        taskById := Some(outcome.data);
        noResult := "";
      } else {
        if outcome.HttpError? && outcome.status == 404 {
          noResult := NotFoundMessage;
        } else {
          noResult := LookupFailedMessage;
        }
        taskById := None;
      }
      loading := false;
    }

    /** Typing in the id box clears the "no result" line. */
    method EditSearchId(value: string)
      modifies this`searchId, this`noResult
      ensures searchId == value && noResult == ""
    {
      searchId := value;
      noResult := "";
    }

    method EditSearchQuery(value: string)
      modifies this`searchQuery
      ensures searchQuery == value
    {
      searchQuery := value;
    }

    /** The close button of the looked-up task. */
    method CloseTaskById()
      modifies this`taskById
      ensures taskById == None
    {
      taskById := None;
    }

    method ToggleSortOrder()
      modifies this`sortOrder
      ensures sortOrder == Toggle(old(sortOrder))
    {
      sortOrder := Toggle(sortOrder);
    }
  }

  /** A confirmed, successful delete removes the id from what is rendered,
      but leaves the looked-up task in place. */
  method DeleteThenRender(screen: ListScreen, id: int)
    modifies screen
    ensures screen.taskById == old(screen.taskById)
    ensures forall t :: t in screen.SortedTasks() ==> t.id != id
  {
    var sent := screen.DeleteTask(id, true, Ok(()));
    DeletedIdNeverShown(old(screen.tasks), id, screen.searchQuery, screen.sortOrder, screen.instant);
  }

  /** An empty id box sends nothing and clears the looked-up task. */
  method EmptyLookup(screen: ListScreen, outcome: Response<Task>)
    modifies screen
    requires screen.searchId == ""
    ensures screen.taskById == None && screen.noResult == old(screen.noResult)
    ensures screen.tasks == old(screen.tasks)
  {
    var sent := screen.FetchTaskById(outcome);
    assert !sent;
  }
}
