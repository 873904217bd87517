/** The five task handlers.  The owner always comes from the verified token's `id`
    claim, never from the request; path ids are unsigned 64-bit decimals. */
module TodoController {
  import opened Outcomes
  import opened Models
  import opened Http
  import opened Decimal
  import Jwt
  import TodoService

  type TodoStore = TodoService.TodoStore

  datatype Exchange = Exchange(response: Response, store: TodoStore)

  const BadIdText: string := "bad id"
  const NotFoundText: string := "not found"

  /** Find, Update and Delete: NotFound answers 404 "not found", any other error
      500 with the error's own text. */
  function ScopedError(e: Error): (r: Response)
    ensures e == NotFound ==> r == Response(StatusNotFound, ErrorJson("not found"))
    ensures e != NotFound ==> r == Response(StatusInternalServerError, ErrorJson(Describe(e)))
  {
    if e == NotFound then Response(StatusNotFound, ErrorJson(NotFoundText))
    else Response(StatusInternalServerError, ErrorJson(Describe(e)))
  }

  /** POST /tasks: a body that does not parse answers 400; otherwise the owner is
      overwritten with the token's id and any service error answers 500. */
  function CreateHandler(s: TodoStore, body: BodyParse<Todo>, principal: Jwt.Claims,
                         fault: Option<string>): (r: Exchange)
    ensures body.Unparsable? ==> r == Exchange(Response(StatusBadRequest, ErrorJson(body.message)), s)
    ensures body.Parsed? ==>
      var step := TodoService.Create(s, body.value.(owner := principal.id), fault);
      && r.store == step.store
      && (step.result.Ok? ==> r.response == Response(StatusOK, TodoJson(step.result.value)))
      && (step.result.Err? ==>
            r.response == Response(StatusInternalServerError, ErrorJson(Describe(step.result.error))))
    ensures r.response.Response? && r.response.status in {StatusOK, StatusBadRequest, StatusInternalServerError}
    ensures r.response.status == StatusOK ==>
      && body.Parsed?
      && r.response.body.TodoJson?
      && r.response.body == TodoJson(body.value.(owner := principal.id, id := r.response.body.todo.id))
      && TodoService.OwnedBy(r.store, principal.id, r.response.body.todo.id)
  {
    match body
    case Unparsable(m) => Exchange(Response(StatusBadRequest, ErrorJson(m)), s)
    case Parsed(t) =>
      var step := TodoService.Create(s, t.(owner := principal.id), fault);
      match step.result
      case Err(e) => Exchange(Response(StatusInternalServerError, ErrorJson(Describe(e))), step.store)
      case Ok(created) => Exchange(Response(StatusOK, TodoJson(created)), step.store)
  }

  /** Whatever owner the body names, Create behaves the same. */
  lemma CreateIgnoresBodyOwner(s: TodoStore, t: Todo, claimed: nat, principal: Jwt.Claims,
                               fault: Option<string>)
    ensures CreateHandler(s, Parsed(t), principal, fault) ==
      CreateHandler(s, Parsed(t.(owner := claimed)), principal, fault)
  {
    assert t.(owner := principal.id) == t.(owner := claimed).(owner := principal.id);
  }

  /** GET /tasks: the token owner's records, or 500 on a storage error. */
  method ListHandler(s: TodoStore, principal: Jwt.Claims, fault: Option<string>)
    returns (r: Response, ghost keys: seq<nat>)
    ensures fault.Some? ==> r == Response(StatusInternalServerError, ErrorJson(fault.value))
    ensures fault.None? ==> r.Response? && r.status == StatusOK && r.body.TodoListJson?
    ensures r.Response? && r.status == StatusOK ==>
      && r.body.TodoListJson?
      && |r.body.todos| == |keys|
      && (forall i :: 0 <= i < |keys| ==>
            TodoService.OwnedBy(s, principal.id, keys[i]) && r.body.todos[i] == s.todos[keys[i]])
      && (forall id :: TodoService.OwnedBy(s, principal.id, id) ==> id in keys)
    ensures forall i, j :: 0 <= i < j < |keys| ==> keys[i] != keys[j]
  {
    var result;
    result, keys := TodoService.List(s, principal.id, fault);
    match result
    case Err(e) => r := Response(StatusInternalServerError, ErrorJson(Describe(e)));
    case Ok(todos) => r := Response(StatusOK, TodoListJson(todos));
  }

  /** GET /tasks/:id: a malformed id answers 400 "bad id" before any lookup; then
      the record if the token's user owns it, 404 if it is missing or foreign. */
  method FindHandler(s: TodoStore, rawId: string, principal: Jwt.Claims, fault: Option<string>)
    returns (r: Response)
    ensures !IsUint64(rawId) ==> r == Response(StatusBadRequest, ErrorJson(BadIdText))
    ensures IsUint64(rawId) && fault.None? ==>
      if TodoService.OwnedBy(s, principal.id, Value(rawId))
      then r == Response(StatusOK, TodoJson(s.todos[Value(rawId)]))
      else r == Response(StatusNotFound, ErrorJson(NotFoundText))
    ensures IsUint64(rawId) && fault.Some? ==>
      r == Response(StatusInternalServerError, ErrorJson(fault.value))
  {
    var parsed := ParseUint(rawId);
    if parsed.None? {
      return Response(StatusBadRequest, ErrorJson(BadIdText));
    }
    var found := TodoService.Find(s, principal.id, parsed.value, fault);
    match found
    case Err(e) => r := ScopedError(e);
    case Ok(t) => r := Response(StatusOK, TodoJson(t));
  }

  /** PATCH /tasks: the owner is overwritten with the token's id, then the record
      is replaced if that user owns it. */
  function UpdateHandler(s: TodoStore, body: BodyParse<Todo>, principal: Jwt.Claims, f: Faults): (r: Exchange)
    ensures body.Unparsable? ==> r == Exchange(Response(StatusBadRequest, ErrorJson(body.message)), s)
    ensures body.Parsed? ==>
      var step := TodoService.Update(s, body.value.(owner := principal.id), f);
      && r.store == step.store
      && (step.result.Ok? ==> r.response == Response(StatusOK, TodoJson(step.result.value)))
      && (step.result.Err? ==> r.response == ScopedError(step.result.error))
    ensures body.Parsed? && f == NoFaults ==>
      if TodoService.OwnedBy(s, principal.id, body.value.id)
      then r.response == Response(StatusOK, TodoJson(body.value.(owner := principal.id)))
      else r.response == Response(StatusNotFound, ErrorJson(NotFoundText))
    ensures r.response.Response? && r.response.status in
      {StatusOK, StatusBadRequest, StatusNotFound, StatusInternalServerError}
  {
    match body
    case Unparsable(m) => Exchange(Response(StatusBadRequest, ErrorJson(m)), s)
    case Parsed(t) =>
      var step := TodoService.Update(s, t.(owner := principal.id), f);
      match step.result
      case Err(e) => Exchange(ScopedError(e), step.store)
      case Ok(updated) => Exchange(Response(StatusOK, TodoJson(updated)), step.store)
  }

  /** A record another user owns cannot be reached through Update, whatever owner
      the body names: the answer is 404 and the store is unchanged. */
  lemma UpdateCannotReachForeignRecord(s: TodoStore, t: Todo, principal: Jwt.Claims)
    requires t.id in s.todos && s.todos[t.id].owner != principal.id
    ensures UpdateHandler(s, Parsed(t), principal, NoFaults) ==
      Exchange(Response(StatusNotFound, ErrorJson("not found")), s)
  {
  }

  /** DELETE /tasks/:id: a malformed id answers 400 "bad id" and touches nothing;
      otherwise the token's user's record is removed and returned as it was. */
  method DeleteHandler(s: TodoStore, rawId: string, principal: Jwt.Claims, f: Faults)
    returns (r: Exchange)
    ensures !IsUint64(rawId) ==> r == Exchange(Response(StatusBadRequest, ErrorJson(BadIdText)), s)
    ensures IsUint64(rawId) ==>
      var step := TodoService.Delete(s, principal.id, Value(rawId), f);
      && r.store == step.store
      && (step.result.Ok? ==> r.response == Response(StatusOK, TodoJson(step.result.value)))
      && (step.result.Err? ==> r.response == ScopedError(step.result.error))
    ensures IsUint64(rawId) && f == NoFaults ==>
      if TodoService.OwnedBy(s, principal.id, Value(rawId))
      then r.response == Response(StatusOK, TodoJson(s.todos[Value(rawId)]))
      else r == Exchange(Response(StatusNotFound, ErrorJson(NotFoundText)), s)
    ensures r.response.Response? && r.response.status in
      {StatusOK, StatusBadRequest, StatusNotFound, StatusInternalServerError}
  {
    var parsed := ParseUint(rawId);
    if parsed.None? {
      return Exchange(Response(StatusBadRequest, ErrorJson(BadIdText)), s);
    }
    var step := TodoService.Delete(s, principal.id, parsed.value, f);
    match step.result
    case Err(e) => r := Exchange(ScopedError(e), step.store);
    case Ok(removed) => r := Exchange(Response(StatusOK, TodoJson(removed)), step.store);
  }
}
