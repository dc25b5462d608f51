/** What the two editors of a todo (the creation form and a row in edit
    mode) share: the draft of text inputs, its normalisation into the JSON
    body sent to the server, and how the server reads that body. */
module Payload {
  import opened Wrappers
  import opened Text
  import opened Models

  /** The browser's date conversions: `render` gives the value of a date
      input for an instant (`toISOString().split('T')[0]`) and `parse` reads
      such a value back (`new Date(value).toISOString()`). */
  datatype DateCodec = DateCodec(render: Instant -> string, parse: string -> Instant)

  /** The inputs of an editor, as the text they hold; an empty date input
      holds "". */
  datatype Draft = Draft(
    title: string,
    description: string,
    priority: string,
    category: string,
    dueDate: string)

  /** A change to one input. */
  datatype Input =
    | TitleInput(text: string)
    | DescriptionInput(text: string)
    | PriorityInput(text: string)
    | CategoryInput(text: string)
    | DueDateInput(text: string)

  /** The draft after typing into, or choosing in, one input. */
  function Enter(d: Draft, i: Input): (e: Draft)
    ensures i.TitleInput? ==> e == d.(title := i.text)
    ensures i.DescriptionInput? ==> e == d.(description := i.text)
    ensures i.PriorityInput? ==> e == d.(priority := i.text)
    ensures i.CategoryInput? ==> e == d.(category := i.text)
    ensures i.DueDateInput? ==> e == d.(dueDate := i.text)
  {
    match i
    case TitleInput(v) => d.(title := v)
    case DescriptionInput(v) => d.(description := v)
    case PriorityInput(v) => d.(priority := v)
    case CategoryInput(v) => d.(category := v)
    case DueDateInput(v) => d.(dueDate := v)
  }

  /** The JSON body of a create or edit request. */
  datatype TodoPayload = TodoPayload(
    title: string,
    description: Option<string>,
    priority: string,
    category: Option<string>,
    dueDate: Option<Instant>)

  /** `s.trim() || null`: the trimmed text, or null when nothing is left. */
  function TrimOrNull(s: string): (r: Option<string>)
    ensures r.None? <==> Blank(s)
    ensures r.Some? ==> r.value == Trim(s) && r.value != ""
  {
    var t := Trim(s);
    if t == "" then None else Some(t)
  }

  /** An optional text that is absent or trimmed and non-empty. */
  predicate NormalText(o: Option<string>) {
    o.Some? ==> o.value != "" && Trim(o.value) == o.value
  }

  /** The body both editors build: title trimmed, description and category
      trimmed or null, priority as chosen, and a due date exactly when the
      date input is not empty. */
  function ToPayload(d: Draft, codec: DateCodec): (p: TodoPayload)
    ensures p.title == Trim(d.title)
    ensures p.description == TrimOrNull(d.description)
    ensures p.category == TrimOrNull(d.category)
    ensures p.priority == d.priority
    ensures p.dueDate.None? <==> d.dueDate == ""
    ensures p.dueDate.Some? ==> p.dueDate.value == codec.parse(d.dueDate)
  {
    TodoPayload(
      Trim(d.title),
      TrimOrNull(d.description),
      d.priority,
      TrimOrNull(d.category),
      if d.dueDate != "" then Some(codec.parse(d.dueDate)) else None)
  }

  lemma TrimOrNullIsNormal(s: string)
    ensures NormalText(TrimOrNull(s))
  {
    var r := TrimOrNull(s);
    if r.Some? {
      TrimIdempotent(s);
    }
  }

  /** Every text a payload carries is already normalised, so normalising it
      again changes nothing. */
  lemma PayloadIsNormal(d: Draft, codec: DateCodec)
    ensures var p := ToPayload(d, codec);
      && Trim(p.title) == p.title
      && NormalText(p.description)
      && NormalText(p.category)
  {
    TrimIdempotent(d.title);
    TrimOrNullIsNormal(d.description);
    TrimOrNullIsNormal(d.category);
  }

  /** The draft an editor starts from for a stored todo: a null description,
      category or due date shows as "", and an empty priority as "medium". */
  function DraftOf(t: Todo, codec: DateCodec): (d: Draft)
    ensures d.title == t.title
    ensures d.description == t.description.GetOr("") && d.category == t.category.GetOr("")
    ensures t.description.None? || t.description == Some("") <==> d.description == ""
    ensures t.category.None? || t.category == Some("") <==> d.category == ""
    ensures d.priority != ""
    ensures t.priority != "" ==> d.priority == t.priority
    ensures t.priority == "" ==> d.priority == DefaultPriority
    ensures t.dueDate.None? ==> d.dueDate == ""
    ensures t.dueDate.Some? ==> d.dueDate == codec.render(t.dueDate.value)
  {
    Draft(
      t.title,
      t.description.GetOr(""),
      if t.priority != "" then t.priority else DefaultPriority,
      t.category.GetOr(""),
      if t.dueDate.Some? then codec.render(t.dueDate.value) else "")
  }

  /** The payload that restates a todo's editable fields. */
  function PayloadOf(t: Todo): TodoPayload {
    TodoPayload(t.title, t.description, t.priority, t.category, t.dueDate)
  }

  /** A todo whose fields survive a trip through an editor: its texts are
      normalised, its priority is set, and its due date reads back as itself. */
  predicate Normalised(t: Todo, codec: DateCodec) {
    && Trim(t.title) == t.title
    && NormalText(t.description)
    && NormalText(t.category)
    && t.priority != ""
    && (t.dueDate.Some? ==>
          codec.render(t.dueDate.value) != "" && codec.parse(codec.render(t.dueDate.value)) == t.dueDate.value)
  }

  /** Opening an editor on a normalised todo and saving without changes
      sends the todo's own fields back. */
  lemma UneditedRoundTrip(t: Todo, codec: DateCodec)
    requires Normalised(t, codec)
    ensures ToPayload(DraftOf(t, codec), codec) == PayloadOf(t)
  {
    var d := DraftOf(t, codec);
    assert Blank("");
    assert TrimOrNull(d.description) == t.description;
    assert TrimOrNull(d.category) == t.category;
  }

  /** Changing only the category sends the other fields unchanged together
      with the new category, trimmed or null. */
  lemma CategoryOnlyEdit(t: Todo, codec: DateCodec, category: string)
    requires Normalised(t, codec)
    ensures ToPayload(Enter(DraftOf(t, codec), CategoryInput(category)), codec)
         == PayloadOf(t).(category := TrimOrNull(category))
  {
  }

  /** The `TodoCreate` the server reads from a create body: `completed` is
      not sent and so takes its default. */
  function AsCreate(p: TodoPayload): (c: TodoCreate)
    ensures c.completed.None? && c.priority == Some(p.priority)
    ensures c.title == p.title && c.description == p.description
    ensures c.category == p.category && c.dueDate == p.dueDate
  {
    TodoCreate(p.title, p.description, None, Some(p.priority), p.category, p.dueDate)
  }

  /** The `TodoUpdate` the server reads from an edit body: every editable
      field is set, `completed` is not. */
  function AsUpdate(p: TodoPayload): (u: TodoUpdate)
    ensures u.completed.Unset?
    ensures forall t: Todo :: PayloadOf(ApplyUpdate(t, u)) == p
  {
    TodoUpdate(Set(p.title), Set(p.description), Unset, Set(p.priority), Set(p.category), Set(p.dueDate))
  }
}
