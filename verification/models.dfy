/** The `todos` table's record and the two request shapes that write to it. */
module Models {
  import opened Wrappers

  /** A point in time. Dates are compared, never formatted, by the code
      modelled here, so an integer stands for a timestamp. */
  type Instant = int

  /** One row of the `todos` table. `title` is NOT NULL; `description`,
      `category` and `dueDate` are nullable; `completed` and `priority` are
      taken as never null; `priority` is free text ("low", "medium" and
      "high" are a convention of the clients only). */
  datatype Todo = Todo(
    id: int,
    title: string,
    description: Option<string>,
    completed: bool,
    priority: string,
    category: Option<string>,
    dueDate: Option<Instant>,
    createdAt: Instant)

  const DefaultPriority: string := "medium"

  /** The creation payload. A field that is `None` was not supplied and takes
      the column default. */
  datatype TodoCreate = TodoCreate(
    title: string,
    description: Option<string>,
    completed: Option<bool>,
    priority: Option<string>,
    category: Option<string>,
    dueDate: Option<Instant>)

  /** A field of a partial update: left out of the request, or set (possibly
      to null, for a nullable column). */
  datatype Patch<T> = Unset | Set(value: T) {
    function Over(current: T): T {
      if Set? then value else current
    }
  }

  /** The update payload as `model_dump(exclude_unset=True)` sees it. */
  datatype TodoUpdate = TodoUpdate(
    title: Patch<string>,
    description: Patch<Option<string>>,
    completed: Patch<bool>,
    priority: Patch<string>,
    category: Patch<Option<string>>,
    dueDate: Patch<Option<Instant>>)

  const NoChange: TodoUpdate := TodoUpdate(Unset, Unset, Unset, Unset, Unset, Unset)

  /** The row `Todo(**data)` inserts: supplied fields are stored as given,
      `completed` defaults to false, `priority` to "medium", and `createdAt`
      to the moment of insertion. */
  function NewTodo(id: int, data: TodoCreate, now: Instant): (t: Todo)
    ensures t.id == id && t.createdAt == now
    ensures t.title == data.title
    ensures t.description == data.description && t.category == data.category
    ensures t.dueDate == data.dueDate
    ensures data.completed.None? ==> !t.completed
    ensures data.completed.Some? ==> t.completed == data.completed.value
    ensures data.priority.None? ==> t.priority == DefaultPriority
    ensures data.priority.Some? ==> t.priority == data.priority.value
  {
    Todo(id, data.title, data.description, data.completed.GetOr(false),
         data.priority.GetOr(DefaultPriority), data.category, data.dueDate, now)
  }

  /** `setattr` of every field present in the update, and of nothing else. */
  function ApplyUpdate(t: Todo, u: TodoUpdate): (r: Todo)
    ensures r.id == t.id && r.createdAt == t.createdAt
    ensures u.title.Set? ==> r.title == u.title.value
    ensures u.title.Unset? ==> r.title == t.title
    ensures u.description.Set? ==> r.description == u.description.value
    ensures u.description.Unset? ==> r.description == t.description
    ensures u.completed.Set? ==> r.completed == u.completed.value
    ensures u.completed.Unset? ==> r.completed == t.completed
    ensures u.priority.Set? ==> r.priority == u.priority.value
    ensures u.priority.Unset? ==> r.priority == t.priority
    ensures u.category.Set? ==> r.category == u.category.value
    ensures u.category.Unset? ==> r.category == t.category
    ensures u.dueDate.Set? ==> r.dueDate == u.dueDate.value
    ensures u.dueDate.Unset? ==> r.dueDate == t.dueDate
  {
    t.(title := u.title.Over(t.title),
       description := u.description.Over(t.description),
       completed := u.completed.Over(t.completed),
       priority := u.priority.Over(t.priority),
       category := u.category.Over(t.category),
       dueDate := u.dueDate.Over(t.dueDate))
  }

  /** An empty update changes nothing, and applying an update twice is
      applying it once. */
  lemma ApplyUpdateLaws(t: Todo, u: TodoUpdate)
    ensures ApplyUpdate(t, NoChange) == t
    ensures ApplyUpdate(ApplyUpdate(t, u), u) == ApplyUpdate(t, u)
  {
  }

  /** The columns of the table, which `getattr(Todo, sort_by)` can name. */
  datatype Column = Id | Title | Description | Completed | Priority | Category | DueDate | CreatedAt

  /** `getattr(Todo, name, Todo.created_at)` restricted to column names: an
      unknown name falls back to `created_at`. */
  function ColumnNamed(name: string): (c: Column)
    ensures name == "created_at" ==> c == CreatedAt
    ensures name == "due_date" ==> c == DueDate
    ensures name == "priority" ==> c == Priority
    ensures name == "title" ==> c == Title
    ensures name == "id" ==> c == Id
    ensures name == "description" ==> c == Description
    ensures name == "completed" ==> c == Completed
    ensures name == "category" ==> c == Category
    ensures name !in {"id", "title", "description", "completed", "priority", "category", "due_date"} ==> c == CreatedAt
  {
    match name
    case "id" => Id
    case "title" => Title
    case "description" => Description
    case "completed" => Completed
    case "priority" => Priority
    case "category" => Category
    case "due_date" => DueDate
    case _ => CreatedAt
  }
}
