/** The owner-scoped task store.  Every read, update and delete is filtered on both
    the owner and the id, so a task that is missing and a task that belongs to
    someone else are the same to the caller. */
module TodoService {
  import opened Outcomes
  import opened Models

  /** The `todos` table keyed by primary key, and the serial that supplies ids
      for inserts that leave the id zero. */
  datatype TodoStore = TodoStore(todos: map<nat, Todo>, serial: nat)

  datatype TodoStep = TodoStep(result: Result<Todo>, store: TodoStore)

  const EmptyStore := TodoStore(map[], 1)

  /** Keys are the records' own ids, and id zero is never stored (the serial starts at one). */
  ghost predicate Wf(s: TodoStore) {
    && s.serial > 0
    && 0 !in s.todos
    && forall id :: id in s.todos ==> s.todos[id].id == id
  }

  /** The record at `id` exists and belongs to `user`: the `user_id = ? AND id = ?` filter. */
  predicate OwnedBy(s: TodoStore, user: nat, id: nat) {
    id in s.todos && s.todos[id].owner == user
  }

  /** Two stores look the same to `user` when they hold the same records owned by `user`. */
  ghost predicate SameView(s1: TodoStore, s2: TodoStore, user: nat) {
    forall id :: (OwnedBy(s1, user, id) || OwnedBy(s2, user, id)) ==>
      OwnedBy(s1, user, id) && OwnedBy(s2, user, id) && s1.todos[id] == s2.todos[id]
  }

  /** Insert `t` as given, owner included.  An id of zero takes the next serial value;
      a nonzero id is inserted as is.  An id that is taken makes the insert fail
      (the serial value is still spent), so an insert never overwrites. */
  function Create(s: TodoStore, t: Todo, fault: Option<string>): (r: TodoStep)
    ensures fault.Some? ==> r == TodoStep(Err(Storage(fault.value)), s)
    ensures r.result.Ok? ==>
      && r.result.value == t.(id := r.result.value.id)
      && r.result.value.id !in s.todos
      && (t.id != 0 ==> r.result.value.id == t.id)
      && r.store.todos == s.todos[r.result.value.id := r.result.value]
    ensures r.result.Err? ==> r.store.todos == s.todos
    ensures fault.None? && t.id != 0 ==> (r.result.Ok? <==> t.id !in s.todos)
    ensures fault.None? && t.id == 0 ==> (r.result.Ok? <==> s.serial !in s.todos)
    ensures fault.None? && t.id == 0 && r.result.Ok? ==> r.result.value.id == s.serial
    ensures fault.None? && r.result.Err? ==> r.result == Err(DuplicateKey)
    ensures r.store.serial == if fault.None? && t.id == 0 then s.serial + 1 else s.serial
    ensures Wf(s) ==> Wf(r.store)
  {
    if fault.Some? then TodoStep(Err(Storage(fault.value)), s)
    else
      var id := if t.id == 0 then s.serial else t.id;
      var serial := if t.id == 0 then s.serial + 1 else s.serial;
      if id in s.todos then TodoStep(Err(DuplicateKey), s.(serial := serial))
      else TodoStep(Ok(t.(id := id)), TodoStore(s.todos[id := t.(id := id)], serial))
  }

  /** The records owned by `user`, in whatever order the database returns them;
      the ghost `keys` names the row each element came from. */
  method List(s: TodoStore, user: nat, fault: Option<string>)
    returns (r: Result<seq<Todo>>, ghost keys: seq<nat>)
    ensures r.Err? <==> fault.Some?
    ensures fault.Some? ==> r == Err(Storage(fault.value))
    ensures r.Ok? ==> |r.value| == |keys|
    ensures r.Ok? ==> forall i :: 0 <= i < |keys| ==> OwnedBy(s, user, keys[i]) && r.value[i] == s.todos[keys[i]]
    ensures r.Ok? ==> forall id :: OwnedBy(s, user, id) ==> id in keys
    ensures forall i, j :: 0 <= i < j < |keys| ==> keys[i] != keys[j]
  {
    keys := [];
    if fault.Some? {
      return Err(Storage(fault.value)), keys;
    }
    var pending := s.todos.Keys;
    var found: seq<Todo> := [];
    while pending != {}
      invariant pending <= s.todos.Keys
      invariant |found| == |keys|
      invariant forall i :: 0 <= i < |keys| ==>
        OwnedBy(s, user, keys[i]) && keys[i] !in pending && found[i] == s.todos[keys[i]]
      invariant forall id :: OwnedBy(s, user, id) && id !in pending ==> id in keys
      invariant forall i, j :: 0 <= i < j < |keys| ==> keys[i] != keys[j]
      decreases pending
    {
      var id :| id in pending;
      if s.todos[id].owner == user {
        found := found + [s.todos[id]];
        keys := keys + [id];
      }
      pending := pending - {id};
    }
    return Ok(found), keys;
  }

  /** The record with `id` if `user` owns it, NotFound otherwise. */
  function Find(s: TodoStore, user: nat, id: nat, fault: Option<string>): (r: Result<Todo>)
    ensures fault.Some? ==> r == Err(Storage(fault.value))
    ensures fault.None? ==> (r.Ok? <==> OwnedBy(s, user, id))
    ensures r.Ok? ==> r.value == s.todos[id]
    ensures r.Err? && fault.None? ==> r == Err(NotFound)
  {
    if fault.Some? then Err(Storage(fault.value))
    else if OwnedBy(s, user, id) then Ok(s.todos[id])
    else Err(NotFound)
  }

  /** Replace the record with id `t.id` by `t` in full, provided it is owned by
      `t.owner`; otherwise NotFound and nothing changes. */
  function Update(s: TodoStore, t: Todo, f: Faults): (r: TodoStep)
    ensures f.read.Some? ==> r == TodoStep(Err(Storage(f.read.value)), s)
    ensures f.read.None? && !OwnedBy(s, t.owner, t.id) ==> r == TodoStep(Err(NotFound), s)
    ensures f.read.None? && OwnedBy(s, t.owner, t.id) && f.write.Some? ==>
      r == TodoStep(Err(Storage(f.write.value)), s)
    ensures r.result.Ok? <==> f == NoFaults && OwnedBy(s, t.owner, t.id)
    ensures r.result.Ok? ==> r.result.value == t && r.store.todos == s.todos[t.id := t]
    ensures r.store.serial == s.serial
    ensures r.result.Err? ==> r.store == s
    ensures r.store.todos.Keys == s.todos.Keys
    ensures forall id :: id in s.todos && id != t.id ==> r.store.todos[id] == s.todos[id]
    ensures Wf(s) ==> Wf(r.store)
  {
    if f.read.Some? then TodoStep(Err(Storage(f.read.value)), s)
    else if !OwnedBy(s, t.owner, t.id) then TodoStep(Err(NotFound), s)
    else if f.write.Some? then TodoStep(Err(Storage(f.write.value)), s)
    else TodoStep(Ok(t), s.(todos := s.todos[t.id := t]))
  }

  /** Remove the record with `id` if `user` owns it and return it as it was;
      otherwise NotFound and nothing changes. */
  function Delete(s: TodoStore, user: nat, id: nat, f: Faults): (r: TodoStep)
    ensures f.read.Some? ==> r == TodoStep(Err(Storage(f.read.value)), s)
    ensures f.read.None? && !OwnedBy(s, user, id) ==> r == TodoStep(Err(NotFound), s)
    ensures f.read.None? && OwnedBy(s, user, id) && f.write.Some? ==>
      r == TodoStep(Err(Storage(f.write.value)), s)
    ensures r.result.Ok? <==> f == NoFaults && OwnedBy(s, user, id)
    ensures r.result.Ok? ==> r.result.value == s.todos[id] && r.store.todos == s.todos - {id}
    ensures r.store.serial == s.serial
    ensures r.result.Err? ==> r.store == s
    ensures forall k :: k in s.todos && k != id ==> k in r.store.todos && r.store.todos[k] == s.todos[k]
    ensures Wf(s) ==> Wf(r.store)
  {
    if f.read.Some? then TodoStep(Err(Storage(f.read.value)), s)
    else if !OwnedBy(s, user, id) then TodoStep(Err(NotFound), s)
    else if f.write.Some? then TodoStep(Err(Storage(f.write.value)), s)
    else TodoStep(Ok(s.todos[id]), s.(todos := s.todos - {id}))
  }

  /** Owner isolation: what Find, Update and Delete report to `user` depends only on
      the records `user` owns. */
  lemma ResultsDependOnlyOnOwnRecords(s1: TodoStore, s2: TodoStore, user: nat, id: nat, t: Todo, f: Faults)
    requires SameView(s1, s2, user)
    requires t.owner == user
    ensures Find(s1, user, id, f.read) == Find(s2, user, id, f.read)
    ensures Update(s1, t, f).result == Update(s2, t, f).result
    ensures Delete(s1, user, id, f).result == Delete(s2, user, id, f).result
  {
    assert OwnedBy(s1, user, id) <==> OwnedBy(s2, user, id);
    assert OwnedBy(s1, user, t.id) <==> OwnedBy(s2, user, t.id);
  }

  /** Someone else's record is indistinguishable from a missing one: Find, Update
      and Delete answer exactly as they would if it were not stored at all. */
  lemma ForeignRecordLooksMissing(s: TodoStore, user: nat, id: nat, t: Todo, f: Faults)
    requires id in s.todos && s.todos[id].owner != user
    requires t.owner == user && t.id == id
    ensures var gone := s.(todos := s.todos - {id});
      && Find(s, user, id, f.read) == Find(gone, user, id, f.read)
      && Update(s, t, f).result == Update(gone, t, f).result
      && Delete(s, user, id, f).result == Delete(gone, user, id, f).result
  {
    var gone := s.(todos := s.todos - {id});
    assert !OwnedBy(s, user, id) && !OwnedBy(gone, user, id);
  }

  /** A created record is found again by its owner under the id it received. */
  lemma CreateThenFind(s: TodoStore, t: Todo)
    requires Create(s, t, None).result.Ok?
    ensures var r := Create(s, t, None);
      Find(r.store, t.owner, r.result.value.id, None) == Ok(t.(id := r.result.value.id))
  {
  }

  /** Deleting a record just created restores the table it was created in. */
  lemma DeleteUndoesCreate(s: TodoStore, t: Todo)
    requires Create(s, t, None).result.Ok?
    ensures var r := Create(s, t, None);
      var d := Delete(r.store, t.owner, r.result.value.id, NoFaults);
      d.result == Ok(r.result.value) && d.store.todos == s.todos
  {
    var r := Create(s, t, None);
    var id := r.result.value.id;
    assert r.store.todos - {id} == s.todos;
  }

  /** From an empty table: one user creates a task, finds it, another user cannot
      see it, and after its deletion the owner cannot find it either. */
  lemma OwnerScenario(alice: nat, bob: nat, t: Todo)
    requires alice != bob && t.owner == alice && t.id == 0
    ensures Wf(EmptyStore)
    ensures var created := Create(EmptyStore, t, None);
      var id := created.result.value.id;
      && created.result == Ok(t.(id := 1))
      && Find(created.store, alice, id, None) == Ok(t.(id := 1))
      && Find(created.store, bob, id, None) == Err(NotFound)
      && var removed := Delete(created.store, alice, id, NoFaults);
         && removed.result == Ok(t.(id := 1))
         && Find(removed.store, alice, id, None) == Err(NotFound)
  {
  }
}
