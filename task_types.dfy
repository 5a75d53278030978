/** The task record and the request bodies exchanged between client and service. */
module TaskTypes {
  import opened Wrappers

  /** A task as the client holds it and the service returns it. */
  datatype Task = Task(id: int, title: string, completed: bool)

  /** Body of a create request: `{ title, completed? }`; a missing field is `None`. */
  datatype CreateInput = CreateInput(title: Option<string>, completed: Option<bool>)

  /** Body of an update request: `{ title?, completed? }`, only the supplied fields. */
  datatype TaskPatch = TaskPatch(title: Option<string>, completed: Option<bool>)
}
