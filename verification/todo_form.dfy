/** The creation form: a draft, a submitting flag, the title guard, and the
    rule that the draft is cleared only when the submission succeeded. */
module TodoForm {
  import opened Wrappers
  import opened Text
  import opened Models
  import opened Payload

  datatype Form = Form(draft: Draft, submitting: bool)

  const EmptyDraft: Draft := Draft("", "", DefaultPriority, "", "")

  /** The form as first shown: every text input empty, priority "medium",
      not submitting. */
  const Initial: Form := Form(EmptyDraft, false)

  /** How the promise returned by `onSubmit` settled: fulfilled with any
      value other than the boolean `false`, fulfilled with `false`, or
      rejected. */
  datatype Settled = Fulfilled | FulfilledFalse | Rejected(message: string)

  /** The synchronous part of `handleSubmit`: the form while awaiting, and
      the body passed to `onSubmit`, if any. */
  datatype Submission = Submission(form: Form, request: Option<TodoPayload>)

  /** `handleSubmit` up to the `await`: a blank title returns at once with
      no change and no request; otherwise the form is marked submitting and
      the normalised draft is submitted. */
  function Submit(f: Form, codec: DateCodec): (s: Submission)
    ensures Blank(f.draft.title) <==> s.request.None?
    ensures Blank(f.draft.title) ==> s.form == f
    ensures !Blank(f.draft.title) ==>
      && s.form == Form(f.draft, true)
      && s.request == Some(ToPayload(f.draft, codec))
      && s.request.value.title != ""
  {
    if Trim(f.draft.title) == "" then Submission(f, None)
    else Submission(f.(submitting := true), Some(ToPayload(f.draft, codec)))
  }

  /** `handleSubmit` after the `await`: the draft is reset when the promise
      fulfilled with anything but `false`, kept otherwise; the form is no
      longer submitting in every case. */
  function Settle(f: Form, outcome: Settled): (g: Form)
    ensures !g.submitting
    ensures outcome == Fulfilled ==> g.draft == EmptyDraft
    ensures outcome != Fulfilled ==> g.draft == f.draft
  {
    if outcome == Fulfilled then Initial else f.(submitting := false)
  }

  /** Typing into an input of the form. */
  function Type(f: Form, i: Input): (g: Form)
    ensures g.submitting == f.submitting && g.draft == Enter(f.draft, i)
  {
    f.(draft := Enter(f.draft, i))
  }

  /** The submit button is disabled while submitting or while the trimmed
      title is empty. */
  predicate SubmitDisabled(f: Form) {
    f.submitting || Trim(f.draft.title) == ""
  }

  /** The disabled button and the guard in `handleSubmit` agree: an enabled
      button submits a request, and a disabled one is either blank (no
      request) or already waiting. */
  lemma DisabledMatchesGuard(f: Form, codec: DateCodec)
    ensures !SubmitDisabled(f) ==> Submit(f, codec).request.Some?
    ensures SubmitDisabled(f) && !f.submitting ==> Submit(f, codec).request.None?
  {
  }

  /** A full submission: blank titles change nothing; a success clears the
      form; a rejection or a `false` keeps the draft so the user can retry. */
  lemma SubmitCycle(f: Form, codec: DateCodec, outcome: Settled)
    ensures var s := Submit(f, codec);
      && (s.request.None? ==> s.form == f)
      && (s.request.Some? && outcome == Fulfilled ==> Settle(s.form, outcome) == Initial)
      && (s.request.Some? && outcome != Fulfilled ==> Settle(s.form, outcome) == f.(submitting := false))
  {
  }

  /** Submitting "Buy milk" with every optional input empty sends that title,
      null description, category and due date, and priority "medium". */
  lemma BuyMilk(codec: DateCodec)
    ensures Submit(Type(Initial, TitleInput("Buy milk")), codec).request
         == Some(TodoPayload("Buy milk", None, "medium", None, None))
  {
    var title := "Buy milk";
    assert TrimStart(title) == title;
    assert TrimEnd(title) == title;
    assert !Blank(title) by {
      assert !IsSpace(title[0]);
    }
    assert Blank("");
  }
}
