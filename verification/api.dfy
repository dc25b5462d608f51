/** The HTTP layer: each endpoint as a function from the table and the
    request to the table after the request and the response sent. */
module Api {
  import opened Wrappers
  import opened Text
  import opened Models
  import Crud

  /** What a response carries. */
  datatype Body =
    | TodoList(todos: seq<Todo>)
    | TodoBody(todo: Todo)
    | StatsBody(stats: Crud.Stats)
    | CategoriesBody(categories: seq<string>)
    | Detail(detail: string)
    | NoContent

  datatype Response = Response(status: int, body: Body)

  /** The query string of `GET /api/todos`; an absent parameter is `None`. */
  datatype ListParams = ListParams(
    completed: Option<bool>,
    search: Option<string>,
    category: Option<string>,
    priority: Option<string>,
    sortBy: Option<string>,
    order: Option<string>)

  const NotFound: string := "Todo not found"
  const ServerErrorPrefix: string := "Internal server error: "

  const DefaultSortBy: string := "created_at"
  const DefaultOrder: string := "desc"

  /** `GET /api/todos`: 200 with `get_todos` of the parameters, forwarded
      unchanged, with `sort_by` defaulting to "created_at" and `order` to
      "desc". */
  function ReadTodos(rows: Crud.Table, p: ListParams): (r: Response)
    ensures r.status == 200 && r.body.TodoList?
    ensures r.body.todos == Crud.GetTodos(
      rows, Crud.ListFilter(p.completed, p.search, p.category, p.priority),
      p.sortBy.GetOr("created_at"), p.order.GetOr("desc"))
  {
    var f := Crud.ListFilter(p.completed, p.search, p.category, p.priority);
    Response(200, TodoList(Crud.GetTodos(rows, f, p.sortBy.GetOr(DefaultSortBy), p.order.GetOr(DefaultOrder))))
  }

  /** With no parameters the list holds every row, newest first. */
  lemma DefaultListIsNewestFirst(rows: Crud.Table, p: ListParams)
    requires p == ListParams(None, None, None, None, None, None)
    ensures var todos := ReadTodos(rows, p).body.todos;
      && multiset(todos) == multiset(rows)
      && forall i, j :: 0 <= i < j < |todos| ==> todos[j].createdAt <= todos[i].createdAt
  {
    var todos := ReadTodos(rows, p).body.todos;
    Crud.WhereAll(rows, Crud.Listed(Crud.NoFilter));
    forall i, j | 0 <= i < j < |todos|
      ensures todos[j].createdAt <= todos[i].createdAt
    {
      assert Crud.Precedes(Crud.OrderOf(DefaultSortBy, DefaultOrder), todos[i], todos[j]);
    }
  }

  /** `GET /api/todos/search?q=`: 200 with the rows matching the term. */
  function SearchEndpoint(rows: Crud.Table, q: string): (r: Response)
    ensures r.status == 200 && r.body.TodoList?
    ensures forall t :: t in r.body.todos <==> t in rows && Crud.SearchHit(q, t)
    ensures Crud.UniqueIds(rows) ==> Crud.UniqueIds(r.body.todos)
  {
    Response(200, TodoList(Crud.SearchTodos(rows, q)))
  }

  /** `GET /api/todos/statistics`: 200 with `get_statistics` as it is. */
  function StatisticsEndpoint(rows: Crud.Table, now: Instant): (r: Response)
    ensures r.status == 200 && r.body.StatsBody?
    ensures r.body.stats == Crud.Statistics(rows, now)
    ensures r.body.stats.total == |rows|
    ensures r.body.stats.completed + r.body.stats.active == r.body.stats.total
  {
    Response(200, StatsBody(Crud.Statistics(rows, now)))
  }

  /** `GET /api/categories`: the category list wrapped as `{"categories": list}`. */
  function CategoriesEndpoint(rows: Crud.Table): (r: Response)
    ensures r.status == 200 && r.body.CategoriesBody?
    ensures forall c :: c in r.body.categories <==> c != "" && exists t :: t in rows && t.category == Some(c)
    ensures forall i, j :: 0 <= i < j < |r.body.categories| ==> r.body.categories[i] != r.body.categories[j]
  {
    Response(200, CategoriesBody(Crud.Categories(rows)))
  }

  /** `POST /api/todos`: 201 with the new row; when the database raises,
      500 with "Internal server error: " and the message, and no change. */
  function CreateEndpoint(rows: Crud.Table, data: TodoCreate, now: Instant, fault: Option<string>)
    : (w: Crud.Write<Response>)
    ensures fault.None? ==> w.result.status == 201 && w.result.body.TodoBody?
    ensures fault.None? ==> |w.rows| == |rows| + 1 && w.rows[|rows|] == w.result.body.todo
    ensures fault.None? ==> w.result.body.todo.title == data.title
    ensures fault.None? ==>
      var t := w.result.body.todo;
      && w.rows == rows + [t]
      && !Crud.HasId(rows, t.id)
      && t == NewTodo(t.id, data, now)
    ensures fault.Some? ==> w.rows == rows
    ensures fault.Some? ==> w.result == Response(500, Detail(ServerErrorPrefix + fault.value))
  {
    var c := Crud.CreateTodo(rows, data, now, fault);
    match c.result
    case Success(t) => Crud.Write(c.rows, Response(201, TodoBody(t)))
    case Failure(e) => Crud.Write(c.rows, Response(500, Detail(ServerErrorPrefix + e)))
  }

  /** `PUT /api/todos/{id}`: 404 "Todo not found" when there is no such row,
      otherwise 200 with the updated row. */
  function UpdateEndpoint(rows: Crud.Table, id: int, u: TodoUpdate): (w: Crud.Write<Response>)
    ensures w.result.status == 404 <==> !Crud.HasId(rows, id)
    ensures w.result.status == 404 ==> w.result.body == Detail(NotFound) && w.rows == rows
    ensures w.result.status != 404 ==>
      && w.result.status == 200
      && w.result.body == TodoBody(ApplyUpdate(Crud.GetTodo(rows, id).value, u))
      && Crud.GetTodo(w.rows, id) == Some(w.result.body.todo)
    ensures forall k :: k != id ==> Crud.GetTodo(w.rows, k) == Crud.GetTodo(rows, k)
    ensures |w.rows| == |rows|
    ensures Crud.UniqueIds(rows) ==> Crud.UniqueIds(w.rows)
  {
    var c := Crud.UpdateTodo(rows, id, u);
    match c.result
    case None => Crud.Write(c.rows, Response(404, Detail(NotFound)))
    case Some(t) => Crud.Write(c.rows, Response(200, TodoBody(t)))
  }

  /** `DELETE /api/todos/{id}`: 404 "Todo not found" when there is no such
      row, otherwise 204 with no body and the row gone. */
  function DeleteEndpoint(rows: Crud.Table, id: int): (w: Crud.Write<Response>)
    ensures w.result.status == 404 <==> !Crud.HasId(rows, id)
    ensures w.result.status == 404 ==> w.result.body == Detail(NotFound) && w.rows == rows
    ensures w.result.status != 404 ==> w.result == Response(204, NoContent)
    ensures forall t :: t in w.rows <==> t in rows && t.id != id
    ensures Crud.UniqueIds(rows) ==> Crud.UniqueIds(w.rows)
    ensures Crud.UniqueIds(rows) && w.result.status == 204 ==> |w.rows| == |rows| - 1
  {
    var c := Crud.DeleteTodo(rows, id);
    if c.result then Crud.Write(c.rows, Response(204, NoContent))
    else Crud.Write(c.rows, Response(404, Detail(NotFound)))
  }

  // ---------------------------------------------------------------------------
  // CORS

  const DefaultCorsOrigins: string := "http://localhost:5173,http://localhost:3000"

  /** The allowed origins: the comma-separated `CORS_ORIGINS` (two local
      development origins when unset), or just "*" when that list contains
      "*" or `ENVIRONMENT` is "development". */
  function CorsOrigins(corsOrigins: Option<string>, environment: Option<string>): (r: seq<string>)
    ensures var raw := corsOrigins.GetOr(DefaultCorsOrigins);
      && (("*" in Split(raw, ',') || environment == Some("development")) ==> r == ["*"])
      && (!("*" in Split(raw, ',') || environment == Some("development")) ==>
            "*" !in r && |r| >= 1 && Join(r, ',') == raw)
    ensures forall o :: o in r ==> ',' !in o
  {
    var raw := corsOrigins.GetOr(DefaultCorsOrigins);
    var origins := Split(raw, ',');
    JoinSplit(raw, ',');
    if "*" in origins || environment == Some("development") then ["*"] else origins
  }

  /** With neither variable set, the two local development origins. */
  lemma DefaultCors()
    ensures CorsOrigins(None, None) == ["http://localhost:5173", "http://localhost:3000"]
  {
    var parts := ["http://localhost:5173", "http://localhost:3000"];
    assert Join(parts, ',') == DefaultCorsOrigins;
    SplitJoin(parts, ',');
  }
}
