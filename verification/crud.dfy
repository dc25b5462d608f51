/** The data-access layer: queries and writes over the `todos` table. The
    table is a sequence of rows in storage order whose ids are unique (the
    primary key); `GetTodo` is its view as a map from id to row. */
module Crud {
  import opened Wrappers
  import opened Text
  import opened Models
  import opened Ordering

  type Table = seq<Todo>

  /** The primary-key constraint. */
  ghost predicate UniqueIds(rows: Table) {
    forall i, j :: 0 <= i < j < |rows| ==> rows[i].id != rows[j].id
  }

  ghost predicate HasId(rows: Table, id: int) {
    exists t :: t in rows && t.id == id
  }

  lemma UniqueCons(x: Todo, s: Table)
    ensures UniqueIds(s) && (forall y :: y in s ==> y.id != x.id) ==> UniqueIds([x] + s)
  {
    if UniqueIds(s) && (forall y :: y in s ==> y.id != x.id) {
      forall i, j | 0 <= i < j < |[x] + s|
        ensures ([x] + s)[i].id != ([x] + s)[j].id
      {
        if i == 0 {
          assert ([x] + s)[j] == s[j - 1] && s[j - 1] in s;
        } else {
          assert ([x] + s)[i] == s[i - 1] && ([x] + s)[j] == s[j - 1];
        }
      }
    }
  }

  lemma UniqueTail(rows: Table)
    requires rows != []
    ensures UniqueIds(rows) ==> UniqueIds(rows[1..])
    ensures UniqueIds(rows) ==> forall y :: y in rows[1..] ==> y.id != rows[0].id
  {
    if UniqueIds(rows) {
      forall y | y in rows[1..]
        ensures y.id != rows[0].id
      {
        var k :| 0 <= k < |rows[1..]| && rows[1..][k] == y;
        assert rows[k + 1] == y;
      }
    }
  }

  // ---------------------------------------------------------------------------
  // Row predicates

  /** The filters `get_todos` applies; `None` or (for strings) "" applies none. */
  datatype ListFilter = ListFilter(
    completed: Option<bool>,
    search: Option<string>,
    category: Option<string>,
    priority: Option<string>)

  const NoFilter: ListFilter := ListFilter(None, None, None, None)

  /** `title ilike %term% OR description ilike %term% OR category ilike %term%`:
      a NULL column never matches. */
  predicate SearchHit(term: string, t: Todo) {
    || ContainsIgnoreCase(t.title, term)
    || (t.description.Some? && ContainsIgnoreCase(t.description.value, term))
    || (t.category.Some? && ContainsIgnoreCase(t.category.value, term))
  }

  /** A row passes every filter that was supplied. */
  predicate Selects(f: ListFilter, t: Todo) {
    && (f.completed.Some? ==> t.completed == f.completed.value)
    && (Truthy(f.search) ==> SearchHit(f.search.value, t))
    && (Truthy(f.category) ==> t.category == f.category)
    && (Truthy(f.priority) ==> t.priority == f.priority.value)
  }

  /** The row conditions the queries count or select by. */
  datatype Cond =
    | Done
    | Pending
    | PendingWithPriority(level: string)
    | PendingOverdue(now: Instant)
    | Listed(f: ListFilter)
    | Searched(term: string)

  predicate Holds(c: Cond, t: Todo) {
    match c
    case Done => t.completed
    case Pending => !t.completed
    case PendingWithPriority(level) => t.priority == level && !t.completed
    case PendingOverdue(now) => t.dueDate.Some? && t.dueDate.value < now && !t.completed
    case Listed(f) => Selects(f, t)
    case Searched(term) => SearchHit(term, t)
  }

  /** The rows satisfying `c`, in storage order. */
  function Where(rows: Table, c: Cond): (r: Table)
    ensures |r| <= |rows|
    ensures forall t :: t in r <==> t in rows && Holds(c, t)
    ensures UniqueIds(rows) ==> UniqueIds(r)
    decreases |rows|
  {
    if rows == [] then []
    else
      var rest := Where(rows[1..], c);
      assert rows == [rows[0]] + rows[1..];
      UniqueTail(rows);
      if Holds(c, rows[0]) then
        UniqueCons(rows[0], rest);
        [rows[0]] + rest
      else rest
  }

  function Count(rows: Table, c: Cond): nat {
    |Where(rows, c)|
  }

  /** Conditions that agree on every row select the same rows. */
  lemma {:induction false} WhereCongruent(rows: Table, c: Cond, d: Cond)
    requires forall t :: t in rows ==> (Holds(c, t) <==> Holds(d, t))
    ensures Where(rows, c) == Where(rows, d)
    decreases |rows|
  {
    if rows != [] {
      assert forall t :: t in rows[1..] ==> t in rows;
      WhereCongruent(rows[1..], c, d);
    }
  }

  /** A condition every row satisfies selects the whole table. */
  lemma {:induction false} WhereAll(rows: Table, c: Cond)
    requires forall t :: t in rows ==> Holds(c, t)
    ensures Where(rows, c) == rows
    decreases |rows|
  {
    if rows != [] {
      assert forall t :: t in rows[1..] ==> t in rows;
      WhereAll(rows[1..], c);
      assert rows == [rows[0]] + rows[1..];
    }
  }

  lemma CountCons(rows: Table, c: Cond)
    requires rows != []
    ensures Count(rows, c) == (if Holds(c, rows[0]) then 1 else 0) + Count(rows[1..], c)
  {
  }

  /** Every row satisfies exactly one of two complementary conditions. */
  lemma {:induction false} CountComplement(rows: Table, c: Cond, d: Cond)
    requires forall t :: t in rows ==> (Holds(c, t) <==> !Holds(d, t))
    ensures Count(rows, c) + Count(rows, d) == |rows|
    decreases |rows|
  {
    if rows != [] {
      assert rows[0] in rows;
      assert forall t :: t in rows[1..] ==> t in rows;
      CountComplement(rows[1..], c, d);
      CountCons(rows, c);
      CountCons(rows, d);
    }
  }

  /** A stronger condition selects no more rows. */
  lemma {:induction false} CountMonotone(rows: Table, c: Cond, d: Cond)
    requires forall t :: t in rows && Holds(c, t) ==> Holds(d, t)
    ensures Count(rows, c) <= Count(rows, d)
    decreases |rows|
  {
    if rows != [] {
      assert rows[0] in rows;
      assert forall t :: t in rows[1..] ==> t in rows;
      CountMonotone(rows[1..], c, d);
      CountCons(rows, c);
      CountCons(rows, d);
    }
  }

  /** Three mutually exclusive conditions that each imply `d` together select
      no more rows than `d`. */
  lemma {:induction false} CountDisjoint(rows: Table, a: Cond, b: Cond, c: Cond, d: Cond)
    requires forall t :: t in rows && Holds(a, t) ==> Holds(d, t) && !Holds(b, t) && !Holds(c, t)
    requires forall t :: t in rows && Holds(b, t) ==> Holds(d, t) && !Holds(c, t)
    requires forall t :: t in rows && Holds(c, t) ==> Holds(d, t)
    ensures Count(rows, a) + Count(rows, b) + Count(rows, c) <= Count(rows, d)
    decreases |rows|
  {
    if rows != [] {
      var t := rows[0];
      assert t in rows;
      assert forall x :: x in rows[1..] ==> x in rows;
      CountDisjoint(rows[1..], a, b, c, d);
      CountCons(rows, a);
      CountCons(rows, b);
      CountCons(rows, c);
      CountCons(rows, d);
    }
  }

  // ---------------------------------------------------------------------------
  // Ordering

  /** `ORDER BY col ASC` or `ORDER BY col DESC`. */
  datatype Order = Order(col: Column, ascending: bool)

  /** `order == "asc"` sorts ascending; every other value descending. */
  function OrderOf(sortBy: string, order: string): (o: Order)
    ensures o.ascending <==> order == "asc"
    ensures o.col == ColumnNamed(sortBy)
  {
    Order(ColumnNamed(sortBy), order == "asc")
  }

  /** The value a row has in a column. Booleans sort as 0 and 1; `priority`
      sorts by its text. */
  function KeyOf(col: Column, t: Todo): SortKey {
    match col
    case Id => Num(t.id)
    case Title => Str(t.title)
    case Description => if t.description.Some? then Str(t.description.value) else Missing
    case Completed => Num(if t.completed then 1 else 0)
    case Priority => Str(t.priority)
    case Category => if t.category.Some? then Str(t.category.value) else Missing
    case DueDate => if t.dueDate.Some? then Num(t.dueDate.value) else Missing
    case CreatedAt => Num(t.createdAt)
  }

  /** `a` may come before `b` in the result. */
  predicate Precedes(o: Order, a: Todo, b: Todo) {
    if o.ascending then KeyLe(KeyOf(o.col, a), KeyOf(o.col, b))
    else KeyLe(KeyOf(o.col, b), KeyOf(o.col, a))
  }

  ghost predicate SortedBy(s: Table, o: Order) {
    forall i, j :: 0 <= i < j < |s| ==> Precedes(o, s[i], s[j])
  }

  lemma PrecedesTotal(o: Order, a: Todo, b: Todo)
    ensures Precedes(o, a, b) || Precedes(o, b, a)
  {
    KeyLeTotal(KeyOf(o.col, a), KeyOf(o.col, b));
  }

  lemma PrecedesTransitive(o: Order, a: Todo, b: Todo, c: Todo)
    requires Precedes(o, a, b) && Precedes(o, b, c)
    ensures Precedes(o, a, c)
  {
    if o.ascending {
      KeyLeTransitive(KeyOf(o.col, a), KeyOf(o.col, b), KeyOf(o.col, c));
    } else {
      KeyLeTransitive(KeyOf(o.col, c), KeyOf(o.col, b), KeyOf(o.col, a));
    }
  }

  lemma InsertFront(x: Todo, s: Table, o: Order)
    requires SortedBy(s, o) && s != [] && Precedes(o, x, s[0])
    ensures SortedBy([x] + s, o)
  {
    forall i, j | 0 <= i < j < |[x] + s|
      ensures Precedes(o, ([x] + s)[i], ([x] + s)[j])
    {
      if i == 0 && j > 1 {
        PrecedesTransitive(o, x, s[0], s[j - 1]);
      }
    }
  }

  lemma InsertBehind(x: Todo, s: Table, rest: Table, o: Order)
    requires SortedBy(s, o) && s != [] && Precedes(o, s[0], x)
    requires SortedBy(rest, o)
    requires forall y :: y in rest ==> y == x || y in s[1..]
    ensures SortedBy([s[0]] + rest, o)
  {
    forall i, j | 0 <= i < j < |[s[0]] + rest|
      ensures Precedes(o, ([s[0]] + rest)[i], ([s[0]] + rest)[j])
    {
      if i == 0 {
        var y := rest[j - 1];
        assert y in rest;
        if y != x {
          var k :| 0 <= k < |s[1..]| && s[1..][k] == y;
          assert s[k + 1] == y;
        }
      } else {
        assert ([s[0]] + rest)[i] == rest[i - 1];
      }
    }
  }

  /** Inserts `x` into a sorted sequence, keeping it sorted. */
  function Insert(x: Todo, s: Table, o: Order): (r: Table)
    requires SortedBy(s, o)
    ensures multiset(r) == multiset(s) + multiset{x}
    ensures forall y :: y in r <==> y == x || y in s
    ensures SortedBy(r, o)
    ensures UniqueIds(s) && (forall y :: y in s ==> y.id != x.id) ==> UniqueIds(r)
    decreases |s|
  {
    if s == [] then [x]
    else if Precedes(o, x, s[0]) then
      InsertFront(x, s, o);
      UniqueCons(x, s);
      [x] + s
    else
      PrecedesTotal(o, x, s[0]);
      assert s == [s[0]] + s[1..];
      var rest := Insert(x, s[1..], o);
      InsertBehind(x, s, rest, o);
      UniqueTail(s);
      UniqueCons(s[0], rest);
      [s[0]] + rest
  }

  /** Insertion sort: a permutation of `s` in the order `o`. Rows that tie
      keep no particular order. */
  function Sort(s: Table, o: Order): (r: Table)
    ensures multiset(r) == multiset(s)
    ensures forall y :: y in r <==> y in s
    ensures SortedBy(r, o)
    ensures UniqueIds(s) ==> UniqueIds(r)
    decreases |s|
  {
    if s == [] then []
    else
      assert s == [s[0]] + s[1..];
      Insert(s[0], Sort(s[1..], o), o)
  }

  // ---------------------------------------------------------------------------
  // Queries

  /** `get_todos`: exactly the stored rows that pass every supplied filter,
      each once, ordered by the requested column. */
  function GetTodos(rows: Table, f: ListFilter, sortBy: string, order: string): (r: Table)
    ensures multiset(r) == multiset(Where(rows, Listed(f)))
    ensures forall t :: t in r <==> t in rows && Selects(f, t)
    ensures SortedBy(r, OrderOf(sortBy, order))
    ensures UniqueIds(rows) ==> UniqueIds(r)
  {
    Sort(Where(rows, Listed(f)), OrderOf(sortBy, order))
  }

  /** `search_todos`: the rows whose title, description or category contains
      the term, ignoring case, in storage order. */
  function SearchTodos(rows: Table, term: string): (r: Table)
    ensures forall t :: t in r <==> t in rows && SearchHit(term, t)
    ensures UniqueIds(rows) ==> UniqueIds(r)
  {
    Where(rows, Searched(term))
  }

  /** `search_todos(term)` returns the same rows as `get_todos` with only
      `search=term` set, including for the empty term, which every non-null
      title contains. */
  lemma SearchAgreesWithList(rows: Table, term: string, sortBy: string, order: string)
    ensures multiset(SearchTodos(rows, term))
         == multiset(GetTodos(rows, NoFilter.(search := Some(term)), sortBy, order))
  {
    var f := NoFilter.(search := Some(term));
    forall t | t in rows
      ensures Holds(Searched(term), t) <==> Holds(Listed(f), t)
    {
      if term == "" {
        EmptyTermMatches(t.title);
      }
    }
    WhereCongruent(rows, Searched(term), Listed(f));
  }

  /** `get_todo`: the row with this id, if any (the first, were ids not
      unique). */
  function GetTodo(rows: Table, id: int): (r: Option<Todo>)
    ensures r.Some? <==> HasId(rows, id)
    ensures r.Some? ==> r.value in rows && r.value.id == id
    decreases |rows|
  {
    if rows == [] then None
    else if rows[0].id == id then Some(rows[0])
    else
      assert forall t :: t in rows[1..] ==> t in rows;
      assert forall t :: t in rows && t.id == id ==> t in rows[1..] by {
        assert rows == [rows[0]] + rows[1..];
      }
      GetTodo(rows[1..], id)
  }

  /** The counts `get_todos_statistics` returns. */
  datatype Stats = Stats(
    total: int,
    completed: int,
    active: int,
    highPriority: int,
    mediumPriority: int,
    lowPriority: int,
    overdue: int)

  /** `get_todos_statistics`, with the current time passed in: completed and
      active rows partition the table, and the per-priority and overdue
      counts are of active rows only. */
  function Statistics(rows: Table, now: Instant): (s: Stats)
    ensures s.total == |rows|
    ensures s.completed + s.active == s.total
    ensures 0 <= s.completed && 0 <= s.active
    ensures s.completed == Count(rows, Done) && s.active == Count(rows, Pending)
    ensures s.highPriority == Count(rows, PendingWithPriority("high"))
    ensures s.mediumPriority == Count(rows, PendingWithPriority("medium"))
    ensures s.lowPriority == Count(rows, PendingWithPriority("low"))
    ensures s.overdue == Count(rows, PendingOverdue(now)) && s.overdue <= s.active
    ensures 0 <= s.highPriority <= s.active
    ensures 0 <= s.mediumPriority <= s.active
    ensures 0 <= s.lowPriority <= s.active
    ensures s.highPriority + s.mediumPriority + s.lowPriority <= s.active
  {
    var total := |rows|;
    var completed := Count(rows, Done);
    CountComplement(rows, Done, Pending);
    CountMonotone(rows, PendingOverdue(now), Pending);
    CountMonotone(rows, PendingWithPriority("high"), Pending);
    CountMonotone(rows, PendingWithPriority("medium"), Pending);
    CountMonotone(rows, PendingWithPriority("low"), Pending);
    CountDisjoint(rows, PendingWithPriority("high"), PendingWithPriority("medium"),
                  PendingWithPriority("low"), Pending);
    Stats(total, completed, total - completed,
          Count(rows, PendingWithPriority("high")),
          Count(rows, PendingWithPriority("medium")),
          Count(rows, PendingWithPriority("low")),
          Count(rows, PendingOverdue(now)))
  }

  /** `get_categories`: the distinct non-empty categories in use. */
  function Categories(rows: Table): (r: seq<string>)
    ensures forall c :: c in r <==> c != "" && exists t :: t in rows && t.category == Some(c)
    ensures forall i, j :: 0 <= i < j < |r| ==> r[i] != r[j]
    decreases |rows|
  {
    if rows == [] then []
    else
      var rest := Categories(rows[1..]);
      assert rows == [rows[0]] + rows[1..];
      match rows[0].category
      case Some(c) => if c != "" && c !in rest then [c] + rest else rest
      case None => rest
  }

  // ---------------------------------------------------------------------------
  // Writes

  /** The table after a write, and what the write returned. */
  datatype Write<T> = Write(rows: Table, result: T)

  /** An id above every id in use. */
  function NextId(rows: Table): (id: int)
    ensures forall t :: t in rows ==> t.id < id
    ensures id >= 1
    decreases |rows|
  {
    if rows == [] then 1
    else
      var rest := NextId(rows[1..]);
      assert rows == [rows[0]] + rows[1..];
      if rows[0].id + 1 > rest then rows[0].id + 1 else rest
  }

  /** `create_todo`: inserts the new row under a fresh id and returns it; when
      the database raises (`fault`), rolls back and re-raises. */
  function CreateTodo(rows: Table, data: TodoCreate, now: Instant, fault: Option<string>)
    : (w: Write<Result<Todo, string>>)
    ensures fault.Some? ==> w.rows == rows && w.result == Failure(fault.value)
    ensures fault.None? ==> w.result.Success?
    ensures w.result.Success? ==>
      var t := w.result.value;
      && w.rows == rows + [t]
      && !HasId(rows, t.id)
      && t == NewTodo(t.id, data, now)
      && GetTodo(w.rows, t.id) == Some(t)
    ensures UniqueIds(rows) ==> UniqueIds(w.rows)
  {
    if fault.Some? then Write(rows, Failure(fault.value))
    else
      var t := NewTodo(NextId(rows), data, now);
      var rows' := rows + [t];
      assert forall s :: s in rows' ==> s in rows || s == t;
      GetTodoAppend(rows, t);
      Write(rows', Success(t))
  }

  lemma {:induction false} GetTodoAppend(rows: Table, t: Todo)
    requires !HasId(rows, t.id)
    ensures GetTodo(rows + [t], t.id) == Some(t)
    decreases |rows|
  {
    if rows != [] {
      assert (rows + [t])[1..] == rows[1..] + [t];
      assert forall s :: s in rows[1..] ==> s in rows;
      GetTodoAppend(rows[1..], t);
    }
  }

  /** The table with the update applied to the row with this id. */
  function UpdateRows(rows: Table, id: int, u: TodoUpdate): (r: Table)
    ensures |r| == |rows|
    ensures forall i :: 0 <= i < |rows| ==> r[i].id == rows[i].id
    ensures forall i :: 0 <= i < |rows| && rows[i].id != id ==> r[i] == rows[i]
    ensures forall k :: k != id ==> GetTodo(r, k) == GetTodo(rows, k)
    ensures GetTodo(rows, id).None? ==> GetTodo(r, id).None?
    ensures GetTodo(rows, id).Some? ==> GetTodo(r, id) == Some(ApplyUpdate(GetTodo(rows, id).value, u))
    decreases |rows|
  {
    if rows == [] then []
    else
      var head := if rows[0].id == id then ApplyUpdate(rows[0], u) else rows[0];
      [head] + UpdateRows(rows[1..], id, u)
  }

  /** `update_todo`: `None` and no change when the id is absent; otherwise
      the fields set in the update overwrite that row's, and the updated row
      is returned. */
  function UpdateTodo(rows: Table, id: int, u: TodoUpdate): (w: Write<Option<Todo>>)
    ensures w.result.None? <==> !HasId(rows, id)
    ensures w.result.None? ==> w.rows == rows
    ensures w.result.Some? ==>
      && w.result.value == ApplyUpdate(GetTodo(rows, id).value, u)
      && GetTodo(w.rows, id) == w.result
    ensures forall k :: k != id ==> GetTodo(w.rows, k) == GetTodo(rows, k)
    ensures |w.rows| == |rows|
    ensures UniqueIds(rows) ==> UniqueIds(w.rows)
  {
    match GetTodo(rows, id)
    case None => Write(rows, None)
    case Some(t) =>
      var rows' := UpdateRows(rows, id, u);
      Write(rows', GetTodo(rows', id))
  }

  /** The table without the row with this id. */
  function RemoveRows(rows: Table, id: int): (r: Table)
    ensures forall t :: t in r <==> t in rows && t.id != id
    ensures !HasId(rows, id) ==> r == rows
    ensures UniqueIds(rows) ==> UniqueIds(r)
    ensures UniqueIds(rows) && HasId(rows, id) ==> |r| == |rows| - 1
    decreases |rows|
  {
    if rows == [] then []
    else
      assert rows == [rows[0]] + rows[1..];
      var rest := RemoveRows(rows[1..], id);
      if rows[0].id == id then rest else [rows[0]] + rest
  }

  /** `delete_todo`: false and no change when the id is absent; otherwise
      true, and exactly that row is gone. */
  function DeleteTodo(rows: Table, id: int): (w: Write<bool>)
    ensures w.result <==> HasId(rows, id)
    ensures !w.result ==> w.rows == rows
    ensures GetTodo(w.rows, id).None?
    ensures forall t :: t in w.rows <==> t in rows && t.id != id
    ensures UniqueIds(rows) ==> UniqueIds(w.rows)
    ensures UniqueIds(rows) && w.result ==> |w.rows| == |rows| - 1
  {
    match GetTodo(rows, id)
    case None => Write(rows, false)
    case Some(_) => Write(RemoveRows(rows, id), true)
  }
}
