/**
 * The task service: the normalisation `create` performs before a row reaches
 * the store, and `update`, which hands its data to the store as it came.
 */
module TasksService {
  import opened Wrappers
  import opened JsString
  import opened TaskTypes

  /** The only error the service raises itself. */
  datatype ServiceError = TitleRequired {
    function Message(): string {
      "title is required"
    }
  }

  /** The `data` given to the store's create call: exactly a title and a completion flag. */
  datatype NewTask = NewTask(title: string, completed: bool)

  /** The store's update call: which row, and the data to write. */
  datatype UpdateCall = UpdateCall(id: int, data: TaskPatch)

  /**
   * `create(data)`: trims the title, refuses a missing or blank one before any
   * store call, and defaults `completed` to false. `body` is `None` when no body
   * was sent at all.
   */
  function Create(body: Option<CreateInput>): (r: Result<NewTask, ServiceError>)
    ensures r.Failure? <==> body.None? || body.value.title.None? || AllWhitespace(body.value.title.value)
    ensures r.Failure? ==> r.error.Message() == "title is required"
    ensures r.Success? ==> r.value.title == Trim(body.value.title.value)
    ensures r.Success? ==> r.value.title != [] && IsTrimmed(r.value.title)
    ensures r.Success? && body.value.completed.None? ==> !r.value.completed
    ensures r.Success? && body.value.completed.Some? ==> r.value.completed == body.value.completed.value
  {
    var title := if body.Some? && body.value.title.Some? then Some(Trim(body.value.title.value)) else None;
    if title.None? || title.value == [] then
      Failure(TitleRequired)
    else
      Success(NewTask(title.value, body.value.completed.GetOr(false)))
  }

  /** `update(id, data)`: the data reaches the store untouched, with no trim and no check. */
  function Update(id: int, data: TaskPatch): (r: UpdateCall)
    ensures r.id == id && r.data == data
  {
    UpdateCall(id, data)
  }

  /** How the store writes a patch onto a row: supplied fields replace, the others stay. */
  function ApplyPatch(t: Task, p: TaskPatch): (r: Task)
    ensures r.id == t.id
    ensures r.title == (if p.title.Some? then p.title.value else t.title)
    ensures r.completed == (if p.completed.Some? then p.completed.value else t.completed)
  {
    Task(t.id, p.title.GetOr(t.title), p.completed.GetOr(t.completed))
  }

  /** A title that is already trimmed and non-empty is stored exactly as sent. */
  lemma CreateKeepsTrimmedTitle(title: string, completed: Option<bool>)
    requires title != [] && IsTrimmed(title)
    ensures Create(Some(CreateInput(Some(title), completed))).Success?
    ensures Create(Some(CreateInput(Some(title), completed))).value.title == title
  {
    TrimOfTrimmed(title);
  }

  /** Sending an already-normalised title again stores the same title: create is idempotent on titles. */
  lemma CreateTitleIdempotent(body: CreateInput)
    requires Create(Some(body)).Success?
    ensures Create(Some(CreateInput(Some(Create(Some(body)).value.title), body.completed)))
            == Create(Some(body))
  {
    TrimIdempotent(body.title.value);
  }

  /**
   * The asymmetry between the two writes: a blank title is refused by create
   * but written by update.
   */
  lemma UpdateAllowsWhatCreateRefuses(t: Task, blank: string)
    requires AllWhitespace(blank)
    ensures Create(Some(CreateInput(Some(blank), None))).Failure?
    ensures ApplyPatch(t, Update(t.id, TaskPatch(Some(blank), None)).data).title == blank
  {
  }
}
