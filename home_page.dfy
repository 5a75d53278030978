/**
 * The page's request handlers: the guards they apply before talking to the
 * service, and how each one changes the page's state. The network is not
 * modelled; each handler is handed the outcome of its requests.
 */
module HomePage {
  import opened Wrappers
  import opened JsString
  import opened TaskTypes
  import opened TaskView
  import TasksService

  /** A request the page sends to the service. */
  datatype Request = Post(body: CreateInput) | Put(id: int, patch: TaskPatch) | Delete(id: int)

  /** The feedback line above the form; the kinds of message, not their wording. */
  datatype Message = NoMessage | LoadFailed | Saved | SaveFailed(status: int) | SaveNetworkError

  /** How a request ended: an HTTP response with its status, or a transport failure. */
  datatype HttpOutcome = Responded(status: int) | NetworkError

  /** The decoded body of `GET /tasks`: a JSON array of tasks or any other JSON value. */
  datatype Json = JsonArray(items: seq<Task>) | JsonOther

  /** How loading the list ended: a decoded body, or a transport or parse failure. */
  datatype FetchOutcome = Fetched(data: Json) | FetchFailed

  /** `res.ok`: a status in the 2xx range. */
  predicate IsOk(status: int) {
    200 <= status <= 299
  }

  /** `Array.isArray(data) ? data : []` */
  function PayloadTasks(data: Json): (r: seq<Task>)
    ensures data.JsonOther? ==> r == []
    ensures data.JsonArray? ==> r == data.items
  {
    match data
    case JsonArray(items) => items
    case JsonOther => []
  }

  /**
   * What `addTask` sends for the current input: nothing when it is blank after
   * trimming, otherwise the input as typed (the service does the trimming).
   */
  function AddRequest(title: string): (r: Option<Request>)
    ensures r.None? <==> AllWhitespace(title)
    ensures r.Some? ==> r.value == Post(CreateInput(Some(title), None))
  {
    if Trim(title) == [] then None else Some(Post(CreateInput(Some(title), None)))
  }

  /** What `toggleTask` sends: the negation of the task's completion flag and nothing else. */
  function ToggleRequest(t: Task): (r: Request)
    ensures r.Put? && r.id == t.id
    ensures r.patch.title.None?
    ensures r.patch.completed == Some(!t.completed)
  {
    Put(t.id, TaskPatch(None, Some(!t.completed)))
  }

  /**
   * The page's guard and the service's agree: the page sends exactly the
   * titles the service accepts, and the service stores them trimmed and not done.
   */
  lemma AddRequestAccepted(title: string)
    ensures AddRequest(title).Some? <==> TasksService.Create(Some(CreateInput(Some(title), None))).Success?
    ensures AddRequest(title).Some? ==>
      TasksService.Create(Some(AddRequest(title).value.body)) == Success(TasksService.NewTask(Trim(title), false))
  {
  }

  /** Toggling flips only the flag, and toggling the result again restores the task. */
  lemma ToggleTwiceRestores(t: Task)
    ensures var once := TasksService.ApplyPatch(t, TasksService.Update(t.id, ToggleRequest(t).patch).data);
      once == t.(completed := !t.completed)
      && TasksService.ApplyPatch(once, TasksService.Update(once.id, ToggleRequest(once).patch).data) == t
  {
  }

  /** The single page: its task list, the input box, the feedback line and the selected filter. */
  class Page {
    var tasks: seq<Task>
    var title: string
    var message: Message
    var filter: Filter

    constructor ()
      ensures tasks == [] && title == [] && message == NoMessage && filter == All
    {
      tasks, title, message, filter := [], [], NoMessage, All;
    }

    /** The tasks rendered under the selected filter. */
    function Visible(): (r: seq<Task>)
      reads this
      ensures forall t :: t in r <==> t in tasks && Shows(filter, t)
    {
      FilterTasks(tasks, filter)
    }

    /** `fetchTasks`: replace the list by what came back, or report the failure and keep it. */
    method FetchTasks(outcome: FetchOutcome)
      modifies this
      ensures title == old(title) && filter == old(filter)
      ensures outcome.Fetched? ==> tasks == PayloadTasks(outcome.data) && message == old(message)
      ensures outcome.FetchFailed? ==> tasks == old(tasks) && message == LoadFailed
    {
      match outcome
      case Fetched(data) =>
        tasks := PayloadTasks(data);
      case FetchFailed =>
        message := LoadFailed;
    }

    /**
     * `addTask`: a blank input sends nothing and changes nothing; otherwise the
     * input is posted as typed and the answer is handled by `Submit`.
     */
    method AddTask(post: HttpOutcome, refetch: FetchOutcome) returns (sent: Option<Request>)
      modifies this
      ensures sent == AddRequest(old(title))
      ensures sent.None? ==> tasks == old(tasks) && title == old(title) && message == old(message) && filter == old(filter)
      ensures sent.Some? ==> Submitted(old(tasks), old(title), old(filter), post, refetch)
    {
      sent := AddRequest(title);
      if sent.Some? {
        Submit(post, refetch);
      }
    }

    /**
     * The page after `addTask` has posted its input: a transport failure or a
     * non-2xx status only sets the matching message, keeping list and input; a
     * 2xx status clears the input, sets the saved message and reloads the list
     * (`refetch`).
     */
    ghost predicate Submitted(tasks0: seq<Task>, title0: string, filter0: Filter, post: HttpOutcome, refetch: FetchOutcome)
      reads this
    {
      filter == filter0 &&
      match post
      case NetworkError => tasks == tasks0 && title == title0 && message == SaveNetworkError
      case Responded(status) =>
        if !IsOk(status) then tasks == tasks0 && title == title0 && message == SaveFailed(status)
        else (
          title == [] &&
          match refetch
          case Fetched(data) => tasks == PayloadTasks(data) && message == Saved
          case FetchFailed => tasks == tasks0 && message == LoadFailed)
    }

    /** The `try` block of `addTask`, run once the input has passed the guard. */
    method Submit(post: HttpOutcome, refetch: FetchOutcome)
      modifies this
      ensures Submitted(old(tasks), old(title), old(filter), post, refetch)
    {
      match post
      case NetworkError =>
        message := SaveNetworkError;
      case Responded(status) =>
        if !IsOk(status) {
          message := SaveFailed(status);
          return;
        }
        message := Saved;
        title := [];
        FetchTasks(refetch);
    }

    /**
     * `toggleTask`: sends the negated flag, then loads the list again. There is
     * no handler around the request, so a transport failure ends the call with
     * the page untouched.
     */
    method ToggleTask(task: Task, put: HttpOutcome, refetch: FetchOutcome) returns (sent: Request)
      modifies this
      ensures sent == ToggleRequest(task)
      ensures title == old(title) && filter == old(filter)
      ensures put.NetworkError? ==> tasks == old(tasks) && message == old(message)
      ensures put.Responded? && refetch.Fetched? ==> tasks == PayloadTasks(refetch.data) && message == old(message)
      ensures put.Responded? && refetch.FetchFailed? ==> tasks == old(tasks) && message == LoadFailed
    {
      sent := ToggleRequest(task);
      if put.Responded? {
        FetchTasks(refetch);
      }
    }

    /** `deleteTask`: asks for the row to go, then loads the list again; like toggle it has no failure handler. */
    method DeleteTask(id: int, delete: HttpOutcome, refetch: FetchOutcome) returns (sent: Request)
      modifies this
      ensures sent == Delete(id)
      ensures title == old(title) && filter == old(filter)
      ensures delete.NetworkError? ==> tasks == old(tasks) && message == old(message)
      ensures delete.Responded? && refetch.Fetched? ==> tasks == PayloadTasks(refetch.data) && message == old(message)
      ensures delete.Responded? && refetch.FetchFailed? ==> tasks == old(tasks) && message == LoadFailed
    {
      sent := Delete(id);
      if delete.Responded? {
        FetchTasks(refetch);
      }
    }

    /** The input box's `onChange`. */
    method EditTitle(text: string)
      modifies this
      ensures title == text
      ensures tasks == old(tasks) && message == old(message) && filter == old(filter)
    {
      title := text;
    }

    /** A filter button's `onClick`. */
    method SelectFilter(f: Filter)
      modifies this
      ensures filter == f
      ensures tasks == old(tasks) && title == old(title) && message == old(message)
    {
      filter := f;
    }
  }
}
