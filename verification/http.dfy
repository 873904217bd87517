/** The HTTP surface the controllers produce: a status and a JSON body. */
module Http {
  import opened Models

  const StatusOK: nat := 200
  const StatusBadRequest: nat := 400
  const StatusUnauthorized: nat := 401
  const StatusNotFound: nat := 404
  const StatusConflict: nat := 409
  const StatusInternalServerError: nat := 500

  /** `{"error": ...}`, a task, a list of tasks, or `{"token": {...}}`. */
  datatype Body =
    | ErrorJson(error: string)
    | TodoJson(todo: Todo)
    | TodoListJson(todos: seq<Todo>)
    | TokenJson(token: Tokens)

  /** What a handler does with a request: answer it, or panic inside the handler. */
  datatype Response = Response(status: nat, body: Body) | Panic(reason: string)

  /** The outcome of decoding a request body into a record. */
  datatype BodyParse<+T> = Parsed(value: T) | Unparsable(message: string)
}
