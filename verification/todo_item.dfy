/** One row of the list: a display mode and an edit mode holding a draft,
    and the callbacks the row makes to the coordinator. */
module TodoItem {
  import opened Wrappers
  import opened Text
  import opened Models
  import opened Payload

  /** The row's local state. */
  datatype Row = Row(editing: bool, draft: Draft)

  /** What the user does to a row. The checkbox and the Edit and Delete
      buttons exist in display mode only; the inputs and the Save and Cancel
      buttons in edit mode only. */
  datatype Event =
    | CheckboxChanged
    | EditClicked
    | DeleteClicked
    | Typed(input: Input)
    | SaveClicked
    | CancelClicked

  /** A call from the row to the coordinator. */
  datatype Callback =
    | ToggleComplete(id: int, completed: bool)
    | Update(id: int, payload: TodoPayload)
    | Delete(id: int)

  datatype Step = Step(row: Row, callback: Option<Callback>)

  /** The state a row is mounted with: display mode, draft taken from the todo. */
  function Mount(t: Todo, codec: DateCodec): (r: Row)
    ensures !r.editing && r.draft == DraftOf(t, codec)
  {
    Row(false, DraftOf(t, codec))
  }

  /** `handleSave`: with a blank title nothing happens and the row stays in
      edit mode; otherwise the normalised draft goes to `onUpdate` and the
      row returns to display mode. */
  function Save(row: Row, t: Todo, codec: DateCodec): (s: Step)
    ensures Blank(row.draft.title) <==> s.callback.None?
    ensures Blank(row.draft.title) ==> s.row == row
    ensures !Blank(row.draft.title) ==>
      && s.row == Row(false, row.draft)
      && s.callback == Some(Update(t.id, ToPayload(row.draft, codec)))
      && s.callback.value.payload.title != ""
  {
    if Trim(row.draft.title) == "" then Step(row, None)
    else Step(Row(false, row.draft), Some(Update(t.id, ToPayload(row.draft, codec))))
  }

  /** `handleCancel`: the draft is restored from the todo and the row returns
      to display mode, with no callback. */
  function Cancel(row: Row, t: Todo, codec: DateCodec): (s: Step)
    ensures s.callback.None?
    ensures s.row == Mount(t, codec)
  {
    Step(Row(false, DraftOf(t, codec)), None)
  }

  /** The row's reaction to an event. An event whose control is not shown in
      the current mode cannot occur; here it changes nothing and makes no
      call. */
  function Handle(row: Row, t: Todo, codec: DateCodec, e: Event): (s: Step)
    ensures !row.editing && e == EditClicked ==> s == Step(row.(editing := true), None)
    ensures !row.editing && e == CheckboxChanged ==> s == Step(row, Some(ToggleComplete(t.id, t.completed)))
    ensures !row.editing && e == DeleteClicked ==> s == Step(row, Some(Delete(t.id)))
    ensures row.editing && e.Typed? ==> s == Step(row.(draft := Enter(row.draft, e.input)), None)
    ensures row.editing && e == SaveClicked ==> s == Save(row, t, codec)
    ensures row.editing && e == CancelClicked ==> s == Cancel(row, t, codec)
    ensures s.callback.Some? ==> s.callback.value.id == t.id
    ensures s.callback.Some? ==>
      if row.editing then e == SaveClicked else e == CheckboxChanged || e == DeleteClicked
    ensures row.editing && (e == CheckboxChanged || e == EditClicked || e == DeleteClicked) ==> s == Step(row, None)
    ensures !row.editing && (e.Typed? || e == SaveClicked || e == CancelClicked) ==> s == Step(row, None)
    ensures s.row.editing != row.editing ==> e in {EditClicked, SaveClicked, CancelClicked}
    ensures s.row.draft != row.draft ==> row.editing && (e.Typed? || e == CancelClicked)
  {
    if row.editing then
      match e
      case Typed(i) => Step(row.(draft := Enter(row.draft, i)), None)
      case SaveClicked => Save(row, t, codec)
      case CancelClicked => Cancel(row, t, codec)
      case _ => Step(row, None)
    else
      match e
      case EditClicked => Step(row.(editing := true), None)
      case CheckboxChanged => Step(row, Some(ToggleComplete(t.id, t.completed)))
      case DeleteClicked => Step(row, Some(Delete(t.id)))
      case _ => Step(row, None)
  }

  /** Opening the editor and cancelling at once leaves a freshly mounted row
      as it was. */
  lemma EditThenCancelRestores(t: Todo, codec: DateCodec)
    ensures var editor := Handle(Mount(t, codec), t, codec, EditClicked).row;
      Handle(editor, t, codec, CancelClicked) == Step(Mount(t, codec), None)
  {
  }

  /** Opening the editor on a normalised todo and saving at once sends the
      todo's own fields. */
  lemma EditThenSaveSendsTodo(t: Todo, codec: DateCodec)
    requires Normalised(t, codec) && t.title != ""
    ensures var editor := Handle(Mount(t, codec), t, codec, EditClicked).row;
      Handle(editor, t, codec, SaveClicked) == Step(Mount(t, codec), Some(Update(t.id, PayloadOf(t))))
  {
    var mounted := Mount(t, codec);
    var editor := mounted.(editing := true);
    assert Handle(mounted, t, codec, EditClicked).row == editor;
    assert editor.draft.title == t.title == Trim(t.title);
    assert !Blank(editor.draft.title);
    UneditedRoundTrip(t, codec);
    assert Handle(editor, t, codec, SaveClicked) == Save(editor, t, codec);
  }

  /** `isOverdue`: the todo has a due date, is not completed, and the due
      date is strictly before `now`. */
  predicate IsOverdue(t: Todo, now: Instant) {
    t.dueDate.Some? && !t.completed && t.dueDate.value < now
  }

  /** The three cases of the overdue badge. */
  lemma OverdueCases(t: Todo, now: Instant)
    ensures t.dueDate.None? ==> !IsOverdue(t, now)
    ensures t.completed ==> !IsOverdue(t, now)
    ensures t.dueDate.Some? && t.dueDate.value < now ==> (IsOverdue(t, now) <==> !t.completed)
    ensures t.dueDate.Some? && now <= t.dueDate.value ==> !IsOverdue(t, now)
  {
  }

  const HighClass: string := "bg-red-100 text-red-800 border-red-300"
  const MediumClass: string := "bg-yellow-100 text-yellow-800 border-yellow-300"
  const LowClass: string := "bg-green-100 text-green-800 border-green-300"
  const OtherClass: string := "bg-gray-100 text-gray-800 border-gray-300"

  /** `getPriorityColor`: a distinct style for each of the three known
      priorities, and the grey style for any other value. */
  function PriorityColor(priority: string): (c: string)
    ensures c in {HighClass, MediumClass, LowClass, OtherClass}
    ensures c == OtherClass <==> priority !in {"high", "medium", "low"}
    ensures c == HighClass <==> priority == "high"
    ensures c == MediumClass <==> priority == "medium"
    ensures c == LowClass <==> priority == "low"
  {
    match priority
    case "high" => HighClass
    case "medium" => MediumClass
    case "low" => LowClass
    case _ => OtherClass
  }
}
