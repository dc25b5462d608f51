/** The coordinator component: the list criteria, the query they produce,
    the list, error, statistics and categories it holds, and its handlers,
    each taking the outcome of its HTTP request as a parameter. */
module App {
  import opened Wrappers
  import opened Text
  import opened Models
  import Crud
  import Api
  import opened Payload
  import TodoItem
  import TodoForm
  import StatsPanel

  /** What the user has chosen to see. `filter` is "all", "active" or
      "completed"; an empty `searchTerm` means no search. */
  datatype Criteria = Criteria(
    filter: string,
    searchTerm: string,
    sortBy: string,
    sortOrder: string,
    category: Option<string>,
    priority: Option<string>)

  const InitialCriteria: Criteria := Criteria("all", "", "created_at", "desc", None, None)

  /** The coordinator's state besides the criteria. */
  datatype View = View(
    todos: seq<Todo>,
    loading: bool,
    error: Option<string>,
    categories: seq<string>,
    stats: Option<StatsPanel.StatsView>)

  /** The state before the first responses arrive. */
  const InitialView: View := View([], true, None, [], None)

  // ---------------------------------------------------------------------------
  // Fetching the list

  /** The query string of the list request: `completed` unless the filter is
      "all" (true exactly for "completed"), the search term, category and
      priority only when truthy, and always the sort column and order. */
  function QueryParams(c: Criteria): (p: Api.ListParams)
    ensures p.completed.None? <==> c.filter == "all"
    ensures p.completed.Some? ==> (p.completed.value <==> c.filter == "completed")
    ensures p.search.Some? <==> c.searchTerm != ""
    ensures p.search.Some? ==> p.search.value == c.searchTerm
    ensures p.category.Some? <==> Truthy(c.category)
    ensures p.category.Some? ==> p.category == c.category
    ensures p.priority.Some? <==> Truthy(c.priority)
    ensures p.priority.Some? ==> p.priority == c.priority
    ensures p.sortBy == Some(c.sortBy) && p.order == Some(c.sortOrder)
  {
    Api.ListParams(
      if c.filter != "all" then Some(c.filter == "completed") else None,
      if c.searchTerm != "" then Some(c.searchTerm) else None,
      if Truthy(c.category) then c.category else None,
      if Truthy(c.priority) then c.priority else None,
      Some(c.sortBy),
      Some(c.sortOrder))
  }

  /** Whether a todo belongs in the list for the criteria, stated on the
      criteria themselves: "completed" shows completed todos, any other
      filter but "all" shows open ones, and the search, category and
      priority apply when set. */
  predicate Matches(c: Criteria, t: Todo) {
    && (c.filter == "completed" ==> t.completed)
    && (c.filter != "all" && c.filter != "completed" ==> !t.completed)
    && (c.searchTerm != "" ==> Crud.SearchHit(c.searchTerm, t))
    && (Truthy(c.category) ==> t.category == c.category)
    && (Truthy(c.priority) ==> t.priority == c.priority.value)
  }

  /** The list the server returns for the criteria holds exactly the stored
      todos that match them, ordered as the criteria ask. */
  lemma FetchRespectsCriteria(rows: Crud.Table, c: Criteria)
    ensures var todos := Api.ReadTodos(rows, QueryParams(c)).body.todos;
      && (forall t :: t in todos <==> t in rows && Matches(c, t))
      && Crud.SortedBy(todos, Crud.OrderOf(c.sortBy, c.sortOrder))
  {
    var p := QueryParams(c);
    var f := Crud.ListFilter(p.completed, p.search, p.category, p.priority);
    forall t | t in rows
      ensures Crud.Selects(f, t) <==> Matches(c, t)
    {
    }
  }

  /** On first load the list holds every stored todo, newest first. */
  lemma InitialListIsEverythingNewestFirst(rows: Crud.Table)
    ensures var todos := Api.ReadTodos(rows, QueryParams(InitialCriteria)).body.todos;
      && multiset(todos) == multiset(rows)
      && forall i, j :: 0 <= i < j < |todos| ==> todos[j].createdAt <= todos[i].createdAt
  {
    var p := QueryParams(InitialCriteria);
    var none := Api.ListParams(None, None, None, None, None, None);
    assert Crud.ListFilter(p.completed, p.search, p.category, p.priority) == Crud.NoFilter;
    assert Api.ReadTodos(rows, p) == Api.ReadTodos(rows, none);
    Api.DefaultListIsNewestFirst(rows, none);
  }

  /** A failed request: the `detail` of the error response, if any, and the
      error's own message. */
  datatype HttpError = HttpError(detail: Option<string>, message: string)

  const FetchFallback: string :=
    "Failed to fetch todos. Make sure the backend is running on http://localhost:8000"
  const CreateFallback: string :=
    "Failed to create todo. Make sure the backend is running on http://localhost:8000"

  /** `detail || message || fallback`: the first truthy of the three. */
  function ErrorText(e: HttpError, fallback: string): (m: string)
    ensures Truthy(e.detail) ==> m == e.detail.value
    ensures !Truthy(e.detail) && e.message != "" ==> m == e.message
    ensures !Truthy(e.detail) && e.message == "" ==> m == fallback
    ensures fallback != "" ==> m != ""
  {
    if Truthy(e.detail) then e.detail.value
    else if e.message != "" then e.message
    else fallback
  }

  /** `fetchTodos` once its request has settled: the list on success, the
      old list and an error message otherwise; loading is over either way
      and nothing else changes. */
  function FetchTodos(v: View, response: Result<seq<Todo>, HttpError>): (w: View)
    ensures !w.loading
    ensures w.categories == v.categories && w.stats == v.stats
    ensures response.Success? ==> w.todos == response.value && w.error.None?
    ensures response.Failure? ==>
      && w.todos == v.todos
      && w.error == Some(ErrorText(response.error, FetchFallback))
      && w.error.value != ""
  {
    match response
    case Success(list) => v.(todos := list, error := None, loading := false)
    case Failure(e) => v.(error := Some(ErrorText(e, FetchFallback)), loading := false)
  }

  /** `fetchStatistics`: the new figures on success; a failure is only logged. */
  function FetchStatistics(v: View, response: Result<StatsPanel.StatsView, HttpError>): (w: View)
    ensures response.Success? ==> w == v.(stats := Some(response.value))
    ensures response.Failure? ==> w == v
  {
    match response
    case Success(s) => v.(stats := Some(s))
    case Failure(_) => v
  }

  /** `fetchCategories`: the `categories` field of the response, or the empty
      list when that field is missing; a failure is only logged. */
  function FetchCategories(v: View, response: Result<Option<seq<string>>, HttpError>): (w: View)
    ensures response.Success? && response.value.Some? ==> w == v.(categories := response.value.value)
    ensures response.Success? && response.value.None? ==> w == v.(categories := [])
    ensures response.Failure? ==> w == v
  {
    match response
    case Success(body) => v.(categories := body.GetOr([]))
    case Failure(_) => v
  }

  /** A server that answers the statistics request hands the panel figures
      whose percentage is between 0 and 100 and whose overdue count is at
      most the active count. */
  lemma StatisticsReachPanel(v: View, rows: Crud.Table, now: Instant)
    ensures var w := FetchStatistics(v, Success(StatsPanel.FromServer(Api.StatisticsEndpoint(rows, now).body.stats)));
      var p := StatsPanel.Render(w.stats).value;
      && 0 <= p.rate <= 100
      && p.overdue <= p.active
      && p.total == |rows|
  {
    StatsPanel.ServerStatsRenderSanely(rows, now);
  }

  // ---------------------------------------------------------------------------
  // Creating

  /** The part of `handleAddTodo` the form sees: on success the error is
      cleared and the promise fulfils with `true`; on failure the error is
      shown and the promise rejects with that same message. The refetches
      after a success catch their own errors. */
  function AddTodo(v: View, post: Result<Todo, HttpError>): (r: (View, TodoForm.Settled))
    ensures post.Success? ==> r.0 == v.(error := None) && r.1 == TodoForm.Fulfilled
    ensures post.Failure? ==>
      && r.0 == v.(error := Some(ErrorText(post.error, CreateFallback)))
      && r.1 == TodoForm.Rejected(r.0.error.value)
      && r.0.error.value != ""
  {
    match post
    case Success(_) => (v.(error := None), TodoForm.Fulfilled)
    case Failure(e) =>
      var m := ErrorText(e, CreateFallback);
      (v.(error := Some(m)), TodoForm.Rejected(m))
  }

  /** A submission from the form: a rejected request keeps what the user
      typed and shows the error; a successful one clears the form. */
  lemma AddCycle(f: TodoForm.Form, codec: DateCodec, v: View, post: Result<Todo, HttpError>)
    requires TodoForm.Submit(f, codec).request.Some?
    ensures var s := TodoForm.Submit(f, codec);
      var (w, outcome) := AddTodo(v, post);
      var g := TodoForm.Settle(s.form, outcome);
      && !g.submitting
      && (post.Success? ==> g == TodoForm.Initial && w.error.None?)
      && (post.Failure? ==> g.draft == f.draft && w.error.Some?)
  {
  }

  /** What the form submits, read by the server as a `TodoCreate`, is stored
      as a new todo with a trimmed, non-empty title, normalised description
      and category, the chosen priority, not completed, created now. */
  lemma FormCreateStoresNormalisedTodo(f: TodoForm.Form, codec: DateCodec, rows: Crud.Table, now: Instant)
    requires TodoForm.Submit(f, codec).request.Some?
    ensures var p := TodoForm.Submit(f, codec).request.value;
      var w := Api.CreateEndpoint(rows, AsCreate(p), now, None);
      var t := w.result.body.todo;
      && w.result.status == 201
      && t.title == Trim(f.draft.title) && t.title != "" && Trim(t.title) == t.title
      && NormalText(t.description) && NormalText(t.category)
      && t.priority == f.draft.priority
      && !t.completed
      && t.createdAt == now
      && Crud.GetTodo(w.rows, t.id) == Some(t)
      && !Crud.HasId(rows, t.id)
  {
    var p := TodoForm.Submit(f, codec).request.value;
    PayloadIsNormal(f.draft, codec);
    var c := Crud.CreateTodo(rows, AsCreate(p), now, None);
    assert Api.CreateEndpoint(rows, AsCreate(p), now, None).result.body.todo == c.result.value;
  }

  // ---------------------------------------------------------------------------
  // Updating the list in place

  /** `todos.map(todo => todo.id === id ? updated : todo)` */
  function ReplaceById(todos: seq<Todo>, id: int, updated: Todo): (r: seq<Todo>)
    ensures |r| == |todos|
    ensures forall i :: 0 <= i < |todos| && todos[i].id == id ==> r[i] == updated
    ensures forall i :: 0 <= i < |todos| && todos[i].id != id ==> r[i] == todos[i]
  {
    seq(|todos|, i requires 0 <= i < |todos| => if todos[i].id == id then updated else todos[i])
  }

  /** Replacing an id the list does not hold changes nothing. */
  lemma ReplaceAbsent(todos: seq<Todo>, id: int, updated: Todo)
    requires forall t :: t in todos ==> t.id != id
    ensures ReplaceById(todos, id, updated) == todos
  {
    var r := ReplaceById(todos, id, updated);
    forall i | 0 <= i < |todos|
      ensures r[i] == todos[i]
    {
      assert todos[i] in todos;
    }
  }

  /** A replacement that keeps its id keeps the list's ids in place. */
  lemma ReplaceKeepsIds(todos: seq<Todo>, id: int, updated: Todo)
    requires updated.id == id
    ensures var r := ReplaceById(todos, id, updated);
      forall i :: 0 <= i < |todos| ==> r[i].id == todos[i].id
  {
  }

  /** Every todo the coordinator holds is the stored row with its id. */
  ghost predicate InSync(todos: seq<Todo>, rows: Crud.Table) {
    forall t :: t in todos ==> Crud.GetTodo(rows, t.id) == Some(t)
  }

  /** A fetched list is in sync with the table it came from. */
  lemma FetchedListInSync(rows: Crud.Table, p: Api.ListParams)
    requires Crud.UniqueIds(rows)
    ensures InSync(Api.ReadTodos(rows, p).body.todos, rows)
  {
    var todos := Api.ReadTodos(rows, p).body.todos;
    forall t | t in todos
      ensures Crud.GetTodo(rows, t.id) == Some(t)
    {
      StoredRowIsFound(rows, t);
    }
  }

  lemma StoredRowIsFound(rows: Crud.Table, t: Todo)
    requires Crud.UniqueIds(rows) && t in rows
    ensures Crud.GetTodo(rows, t.id) == Some(t)
  {
    var g := Crud.GetTodo(rows, t.id).value;
    var i :| 0 <= i < |rows| && rows[i] == t;
    var j :| 0 <= j < |rows| && rows[j] == g;
    assert rows[i].id == rows[j].id;
    assert i == j;
  }

  /** After a successful update the patched list is still in sync with the
      table: the replaced entry is the row the server returned, the others
      are untouched rows. */
  lemma UpdateKeepsInSync(todos: seq<Todo>, rows: Crud.Table, id: int, u: TodoUpdate)
    requires InSync(todos, rows)
    requires Api.UpdateEndpoint(rows, id, u).result.status == 200
    ensures var w := Api.UpdateEndpoint(rows, id, u);
      InSync(ReplaceById(todos, id, w.result.body.todo), w.rows)
  {
    var w := Api.UpdateEndpoint(rows, id, u);
    var updated := w.result.body.todo;
    var r := ReplaceById(todos, id, updated);
    forall t | t in r
      ensures Crud.GetTodo(w.rows, t.id) == Some(t)
    {
      var i :| 0 <= i < |r| && r[i] == t;
      if todos[i].id != id {
        assert todos[i] in todos;
      }
    }
  }

  // ---------------------------------------------------------------------------
  // Toggling, editing, deleting

  /** The body `{completed: !completed}` as the server reads it. */
  function ToggleRequest(completed: bool): (u: TodoUpdate)
    ensures u.completed == Set(!completed)
    ensures u.(completed := Unset) == NoChange
  {
    NoChange.(completed := Set(!completed))
  }

  /** Ticking a row's checkbox flips that todo's `completed` in the table
      and changes nothing else in it. */
  lemma ToggleFlipsOnlyCompleted(rows: Crud.Table, t: Todo, codec: DateCodec)
    requires Crud.GetTodo(rows, t.id) == Some(t)
    ensures var cb := TodoItem.Handle(TodoItem.Mount(t, codec), t, codec, TodoItem.CheckboxChanged).callback.value;
      var w := Api.UpdateEndpoint(rows, cb.id, ToggleRequest(cb.completed));
      && w.result == Api.Response(200, Api.TodoBody(t.(completed := !t.completed)))
      && Crud.GetTodo(w.rows, t.id) == Some(t.(completed := !t.completed))
      && forall k :: k != t.id ==> Crud.GetTodo(w.rows, k) == Crud.GetTodo(rows, k)
  {
    assert Crud.HasId(rows, t.id);
  }

  /** `handleToggleComplete`: on success the returned todo replaces the one
      with its id; a failure is only logged. */
  function HandleToggle(v: View, id: int, response: Result<Todo, HttpError>): (w: View)
    ensures response.Failure? ==> w == v
    ensures response.Success? ==> w == v.(todos := ReplaceById(v.todos, id, response.value))
  {
    match response
    case Success(t) => v.(todos := ReplaceById(v.todos, id, t))
    case Failure(_) => v
  }

  /** `handleUpdateTodo`: on success the returned todo replaces the one with
      its id; on failure the list is unchanged and the error is thrown on. */
  function HandleUpdate(v: View, id: int, response: Result<Todo, HttpError>): (r: (View, Option<HttpError>))
    ensures response.Failure? ==> r == (v, Some(response.error))
    ensures response.Success? ==> r == (v.(todos := ReplaceById(v.todos, id, response.value)), None)
  {
    match response
    case Success(t) => (v.(todos := ReplaceById(v.todos, id, t)), None)
    case Failure(e) => (v, Some(e))
  }

  /** Saving a row stores the edited fields, keeps `completed`, and leaves
      every other todo alone. */
  lemma RowSaveStoresEdit(row: TodoItem.Row, t: Todo, codec: DateCodec, rows: Crud.Table)
    requires row.editing && !Blank(row.draft.title)
    requires Crud.GetTodo(rows, t.id) == Some(t)
    ensures var cb := TodoItem.Handle(row, t, codec, TodoItem.SaveClicked).callback.value;
      var w := Api.UpdateEndpoint(rows, cb.id, AsUpdate(cb.payload));
      && w.result.status == 200
      && Crud.GetTodo(w.rows, t.id).Some?
      && PayloadOf(Crud.GetTodo(w.rows, t.id).value) == ToPayload(row.draft, codec)
      && Crud.GetTodo(w.rows, t.id).value.completed == t.completed
      && forall k :: k != t.id ==> Crud.GetTodo(w.rows, k) == Crud.GetTodo(rows, k)
  {
    assert Crud.HasId(rows, t.id);
  }

  /** The row leaves edit mode without waiting for the request, and its
      draft is not taken again from the todo when Edit is next clicked: after
      a failed save the list still shows the old todo while reopening the
      editor shows the rejected edit. */
  lemma FailedSaveKeepsDraft(v: View, row: TodoItem.Row, t: Todo, codec: DateCodec, e: HttpError)
    requires row.editing && !Blank(row.draft.title)
    ensures var s := TodoItem.Handle(row, t, codec, TodoItem.SaveClicked);
      && !s.row.editing
      && HandleUpdate(v, t.id, Failure(e)).0.todos == v.todos
      && TodoItem.Handle(s.row, t, codec, TodoItem.EditClicked).row == TodoItem.Row(true, row.draft)
  {
  }

  /** Deleting a todo and fetching the list again shows the todos that were
      shown before, less those with the deleted id. */
  lemma DeleteThenRefetch(rows: Crud.Table, id: int, c: Criteria)
    ensures var after := Api.ReadTodos(Api.DeleteEndpoint(rows, id).rows, QueryParams(c)).body.todos;
      var before := Api.ReadTodos(rows, QueryParams(c)).body.todos;
      forall t :: t in after <==> t in before && t.id != id
  {
    FetchRespectsCriteria(rows, c);
    FetchRespectsCriteria(Api.DeleteEndpoint(rows, id).rows, c);
  }

  /** The row's overdue badge and the server's overdue count use the same
      condition. */
  lemma OverdueAgrees(t: Todo, now: Instant)
    ensures Crud.Holds(Crud.PendingOverdue(now), t) <==> TodoItem.IsOverdue(t, now)
  {
  }

  // ---------------------------------------------------------------------------
  // Changing the criteria

  /** The controls that change the criteria. An empty selection in the
      category or priority menu arrives as `None`. */
  datatype CriteriaEvent =
    | FilterChanged(filter: string)
    | SearchChanged(term: string)
    | SearchCleared
    | SortChanged(sortBy: string)
    | OrderChanged(order: string)
    | CategoryChanged(category: Option<string>)
    | PriorityChanged(priority: Option<string>)

  /** Each handler sets its own criterion and no other. */
  function Handle(c: Criteria, e: CriteriaEvent): (d: Criteria)
    ensures d.filter != c.filter ==> e.FilterChanged?
    ensures d.searchTerm != c.searchTerm ==> e.SearchChanged? || e == SearchCleared
    ensures d.sortBy != c.sortBy ==> e.SortChanged?
    ensures d.sortOrder != c.sortOrder ==> e.OrderChanged?
    ensures d.category != c.category ==> e.CategoryChanged?
    ensures d.priority != c.priority ==> e.PriorityChanged?
    ensures e.FilterChanged? ==> d.filter == e.filter
    ensures e.SearchChanged? ==> d.searchTerm == e.term
    ensures e == SearchCleared ==> d.searchTerm == ""
    ensures e.SortChanged? ==> d.sortBy == e.sortBy
    ensures e.OrderChanged? ==> d.sortOrder == e.order
    ensures e.CategoryChanged? ==> d.category == e.category
    ensures e.PriorityChanged? ==> d.priority == e.priority
  {
    match e
    case FilterChanged(f) => c.(filter := f)
    case SearchChanged(s) => c.(searchTerm := s)
    case SearchCleared => c.(searchTerm := "")
    case SortChanged(s) => c.(sortBy := s)
    case OrderChanged(o) => c.(sortOrder := o)
    case CategoryChanged(cat) => c.(category := cat)
    case PriorityChanged(p) => c.(priority := p)
  }

  /** Clearing the search removes the search from the next query and
      leaves the rest of the query as it was. */
  lemma ClearSearchDropsSearch(c: Criteria)
    ensures QueryParams(Handle(c, SearchCleared)) == QueryParams(c).(search := None)
  {
  }

  /** Clicking a statistics tile asks the server for the todos it counts:
      every todo for Total, the open ones for Active, the completed ones for
      Completed. */
  lemma TileSelectsItsTodos(c: Criteria, tile: StatsPanel.Tile, rows: Crud.Table, t: Todo)
    requires tile != StatsPanel.OverdueTile
    requires c.searchTerm == "" && c.category.None? && c.priority.None?
    ensures var d := Handle(c, FilterChanged(StatsPanel.TileFilter(tile).value));
      var todos := Api.ReadTodos(rows, QueryParams(d)).body.todos;
      && (tile == StatsPanel.TotalTile ==> (t in todos <==> t in rows))
      && (tile == StatsPanel.ActiveTile ==> (t in todos <==> t in rows && Crud.Holds(Crud.Pending, t)))
      && (tile == StatsPanel.CompletedTile ==> (t in todos <==> t in rows && Crud.Holds(Crud.Done, t)))
  {
    var d := Handle(c, FilterChanged(StatsPanel.TileFilter(tile).value));
    FetchRespectsCriteria(rows, d);
  }
}
