/**
 * The two controllers: each handler reads or changes the stores through the
 * repositories and answers with a success status and body, or with the
 * `AppError` it throws. A reply carries the stores as the handler leaves
 * them, so "nothing changed" is a statement about the reply.
 */
module Controllers {
  import opened Wrappers
  import opened Text
  import opened Errors
  import Categories
  import Todos
  import Tables

  type Id = Categories.Id

  datatype Stores = Stores(categories: Categories.CategoryStore, todos: Todos.TodoStore)

  ghost predicate Valid(st: Stores) {
    Categories.Valid(st.categories) && Todos.Valid(st.todos)
  }

  /** The HTTP status with the data or the thrown error, and the stores afterwards. */
  datatype Reply<T> = Reply(status: int, body: Result<T, AppError>, after: Stores)

  /** A thrown error is answered with its own status, which agrees with its code. */
  predicate Consistent<T>(r: Reply<T>) {
    r.body.Err? ==> r.status == r.body.error.statusCode == StatusFor(r.body.error.code)
  }

  function Fail<T>(e: AppError, st: Stores): (r: Reply<T>)
    ensures r.body == Err(e) && r.after == st && r.status == e.statusCode
  {
    Reply(e.statusCode, Err(e), st)
  }

  /** Every todo points at a stored category. */
  ghost predicate Referenced(st: Stores) {
    forall id | id in st.todos.rows :: st.todos.rows[id].categoryId in st.categories.rows
  }

  /** No two stored categories have the same name, ignoring case. */
  ghost predicate UniqueNames(cats: Categories.CategoryStore) {
    forall a, b | a in cats.rows && b in cats.rows && a != b ::
      !Categories.SameName(cats.rows[a].name, cats.rows[b].name)
  }

  // ---------------------------------------------------------------------------
  // Category controller
  // ---------------------------------------------------------------------------

  /** `GET /categories`: 200 with every stored category once; nothing changes. */
  function ListCategories(st: Stores): (r: Reply<seq<Categories.Category>>)
    requires Valid(st)
    ensures r.status == 200 && r.body.Ok? && r.after == st
    ensures forall c :: multiset(r.body.value)[c] == if c in st.categories.rows.Values then 1 else 0
  {
    Reply(200, Ok(Categories.FindAll(st.categories)), st)
  }

  /** `GET /categories/:id`: 200 with the category, or 404 naming the id; nothing changes. */
  function GetCategory(st: Stores, id: Id): (r: Reply<Categories.Category>)
    ensures Consistent(r) && r.after == st
    ensures r.body.Ok? <==> id in st.categories.rows
    ensures r.body.Ok? ==> r.status == 200 && r.body.value == st.categories.rows[id]
    ensures r.body.Err? ==> r.body.error == NotFoundError("Category", id)
  {
    match Categories.FindById(st.categories, id)
    case None => Fail(NotFoundError("Category", id), st)
    case Some(c) => Reply(200, Ok(c), st)
  }

  function AlreadyExists(name: string): string {
    "Category '" + name + "' already exists"
  }

  /**
   * `POST /categories` with `newId` and `now` from the id supply and clock:
   * 409 and no change when a category of that name exists in any letter
   * case; otherwise 201 with the new category, which the store now holds,
   * and the todos untouched.
   */
  function CreateCategory(st: Stores, req: Categories.CategoryRequest, newId: Id, now: string)
    : (r: Reply<Categories.Category>)
    requires Valid(st)
    ensures Consistent(r) && Valid(r.after)
    ensures r.body.Ok? <==> Categories.NameFree(st.categories, req.name)
    ensures r.body.Err? ==> r.body.error == ConflictError(AlreadyExists(req.name)) && r.after == st
    ensures r.body.Ok? ==> r.status == 201 && r.body.value.name == req.name && r.body.value.id == newId
    ensures r.body.Ok? ==> r.after.categories.rows == st.categories.rows[newId := r.body.value]
                           && r.after.todos == st.todos
  {
    if Categories.FindByName(st.categories, req.name).Some? then
      Taken(st, req.name)
    else
      var (cats, c) := Categories.Create(st.categories, req, newId, now);
      Reply(201, Ok(c), Stores(cats, st.todos))
  }

  /**
   * `PUT /categories/:id`: 409 and no change when another category has that
   * name; then 404 and no change for an unknown id; otherwise 200 with the
   * renamed category. The name check comes first, so an unknown id with a
   * taken name is a conflict.
   */
  function UpdateCategory(st: Stores, id: Id, req: Categories.CategoryRequest, now: string)
    : (r: Reply<Categories.Category>)
    requires Valid(st)
    ensures Consistent(r) && Valid(r.after)
    ensures r.body.Err? ==> r.after == st
    ensures r.body.Ok? ==> r.status == 200 && id in st.categories.rows
    ensures r.body.Ok? ==> r.body.value == st.categories.rows[id].(name := req.name, updatedAt := now)
    ensures r.body.Ok? ==> r.after.categories.rows == st.categories.rows[id := r.body.value]
                           && r.after.todos == st.todos
    ensures UniqueNames(st.categories) ==>
              (r.body.Ok? <==> id in st.categories.rows && NameFreeExcept(st.categories, id, req.name))
    ensures UniqueNames(st.categories) && !NameFreeExcept(st.categories, id, req.name) ==>
              r.body == Err(ConflictError(AlreadyExists(req.name)))
    ensures UniqueNames(st.categories) && NameFreeExcept(st.categories, id, req.name) && id !in st.categories.rows ==>
              r.body == Err(NotFoundError("Category", id))
  {
    var existing := Categories.FindByName(st.categories, req.name);
    assert UniqueNames(st.categories) ==>
             ((existing.Some? && existing.value.id != id) <==> !NameFreeExcept(st.categories, id, req.name)) by {
      if UniqueNames(st.categories) {
        NameCheck(st.categories, id, req.name);
      }
    }
    if existing.Some? && existing.value.id != id then
      Taken(st, req.name)
    else
      match Categories.Update(st.categories, id, req, now)
      case (_, None) => Fail(NotFoundError("Category", id), st)
      case (cats, Some(c)) => Reply(200, Ok(c), Stores(cats, st.todos))
  }

  /** No category other than `id` has the name, ignoring case. */
  ghost predicate NameFreeExcept(cats: Categories.CategoryStore, id: Id, name: string) {
    forall k | k in cats.rows && k != id :: !Categories.SameName(cats.rows[k].name, name)
  }

  /** With unique names, `findByName` finds another category exactly when another category has the name. */
  lemma {:induction false} NameCheck(cats: Categories.CategoryStore, id: Id, name: string)
    requires Categories.Valid(cats) && UniqueNames(cats)
    ensures var found := Categories.FindByName(cats, name);
            (found.Some? && found.value.id != id) <==> !NameFreeExcept(cats, id, name)
  {
    var found := Categories.FindByName(cats, name);
    if found.Some? {
      var k :| k in cats.rows && cats.rows[k] == found.value;
      assert found.value.id == k;
      if k == id {
        forall k2 | k2 in cats.rows && k2 != id ensures !Categories.SameName(cats.rows[k2].name, name) {
          assert !Categories.SameName(cats.rows[k].name, cats.rows[k2].name);
        }
      }
    } else {
      forall k | k in cats.rows && k != id ensures !Categories.SameName(cats.rows[k].name, name) {
        assert cats.rows[k] in cats.rows.Values;
      }
    }
  }

  /** The 409 for a name some category already has: nothing changes. */
  function Taken<T>(st: Stores, name: string): (r: Reply<T>)
    ensures Consistent(r) && r.after == st
    ensures r.body == Err(ConflictError(AlreadyExists(name)))
  {
    Fail(ConflictError(AlreadyExists(name)), st)
  }

  function InUse(count: nat): string {
    "Cannot delete category with " + NatToString(count) + " associated todo(s). Use cascade=true to delete them."
  }

  /**
   * `DELETE /categories/:id?cascade=…`: cascading only for the exact query
   * value `true`. A category that still has todos is not deleted without
   * cascade (409 with their count, nothing changes); with cascade its todos
   * go first. Then 404 when the category is unknown (the todos that named
   * it are gone all the same), else 204.
   */
  function DeleteCategory(st: Stores, id: Id, cascadeParam: Option<string>): (r: Reply<()>)
    requires Valid(st)
    ensures Consistent(r) && Valid(r.after)
    ensures var n := |Todos.FindByCategoryId(st.todos, id)|;
            var cascade := cascadeParam == Some("true");
            && (n > 0 && !cascade ==> r.body == Err(ConflictError(InUse(n))) && r.after == st)
            && (n == 0 || cascade ==> (r.body.Ok? <==> id in st.categories.rows))
            && (n == 0 || cascade ==> (r.body.Err? ==> r.body.error == NotFoundError("Category", id)))
            && (n == 0 || cascade ==> r.after.todos.rows == Survivors(st.todos, id))
    ensures r.body.Ok? ==> r.status == 204 && r.after.categories.rows == st.categories.rows - {id}
    ensures r.after.categories == st.categories || r.body.Ok?
  {
    var cascade := cascadeParam == Some("true");
    var todos := Todos.FindByCategoryId(st.todos, id);
    if |todos| > 0 && !cascade then
      Refuse(st, |todos|)
    else
      DeleteWithTodos(st, id)
  }

  /** The 409 for a category that still has `n` todos: nothing changes. */
  function Refuse(st: Stores, n: nat): (r: Reply<()>)
    ensures Consistent(r) && r.after == st
    ensures r.body == Err(ConflictError(InUse(n)))
  {
    Fail(ConflictError(InUse(n)), st)
  }

  /** The delete once it may go ahead: the category's todos go first, then the category (404 or 204). */
  function DeleteWithTodos(st: Stores, id: Id): (r: Reply<()>)
    requires Valid(st)
    ensures Consistent(r) && Valid(r.after)
    ensures r.after.todos.rows == Survivors(st.todos, id)
    ensures r.body.Ok? <==> id in st.categories.rows
    ensures r.body.Err? ==> r.body.error == NotFoundError("Category", id) && r.after.categories == st.categories
    ensures r.body.Ok? ==> r.status == 204 && r.after.categories.rows == st.categories.rows - {id}
  {
    RemoveCategory(st.categories, WithoutCategory(st.todos, id), id)
  }

  /** The last step of a category delete, once its todos are dealt with: 404 or 204. */
  function RemoveCategory(categories: Categories.CategoryStore, todos: Todos.TodoStore, id: Id): (r: Reply<()>)
    requires Categories.Valid(categories) && Todos.Valid(todos)
    ensures Consistent(r) && Valid(r.after) && r.after.todos == todos
    ensures r.body.Ok? <==> id in categories.rows
    ensures r.body.Err? ==> r.body.error == NotFoundError("Category", id) && r.after.categories == categories
    ensures r.body.Ok? ==> r.status == 204 && r.after.categories.rows == categories.rows - {id}
  {
    var (cats, deleted) := Categories.Delete(categories, id);
    if !deleted then Fail(NotFoundError("Category", id), Stores(categories, todos))
    else Reply(204, Ok(()), Stores(cats, todos))
  }

  /** The stored todos of every other category, under their ids. */
  ghost function Survivors(s: Todos.TodoStore, id: Id): map<Id, Todos.Todo> {
    map k | k in s.rows && s.rows[k].categoryId != id :: s.rows[k]
  }

  /** The todo store once the category's todos are gone: cascade deletion runs only when there are some. */
  function WithoutCategory(s: Todos.TodoStore, id: Id): (r: Todos.TodoStore)
    requires Todos.Valid(s)
    ensures Todos.Valid(r)
    ensures r.rows == Survivors(s, id)
  {
    var todos := Todos.FindByCategoryId(s, id);
    if |todos| > 0 then Todos.DeleteByCategoryId(s, id).0
    else
      NoneLeft(s, id, todos);
      s
  }

  /** When `findByCategoryId` lists nothing, deleting by category keeps every todo. */
  lemma NoneLeft(s: Todos.TodoStore, id: Id, todos: seq<Todos.Todo>)
    requires Todos.Valid(s) && todos == Todos.FindByCategoryId(s, id) && |todos| == 0
    ensures s.rows == map k | k in s.rows && s.rows[k].categoryId != id :: s.rows[k]
  {
    forall k | k in s.rows ensures s.rows[k].categoryId != id {
      assert s.rows[k] in s.rows.Values;
      assert s.rows[k] !in todos;
    }
  }

  // ---------------------------------------------------------------------------
  // Todo controller
  // ---------------------------------------------------------------------------

  /** `GET /todos?…`: 200 with the todos the query selects, each once; nothing changes. */
  function ListTodos(st: Stores, q: Todos.TodoQuery, clock: Todos.Clock): (r: Reply<seq<Todos.Todo>>)
    requires Valid(st)
    ensures r.status == 200 && r.body.Ok? && r.after == st
    ensures forall t :: t in r.body.value <==> t in st.todos.rows.Values && Todos.Matches(q, clock, t)
    ensures forall t :: multiset(r.body.value)[t] == if t in st.todos.rows.Values && Todos.Matches(q, clock, t) then 1 else 0
    ensures Todos.OrderOf(q) == Todos.Asc ==>
              forall i, j | 0 <= i < j < |r.body.value| ::
                LexLe(Todos.SortKey(Todos.FieldOf(q), r.body.value[i]), Todos.SortKey(Todos.FieldOf(q), r.body.value[j]))
    ensures Todos.OrderOf(q) == Todos.Desc ==>
              forall i, j | 0 <= i < j < |r.body.value| ::
                LexLe(Todos.SortKey(Todos.FieldOf(q), r.body.value[j]), Todos.SortKey(Todos.FieldOf(q), r.body.value[i]))
  {
    Reply(200, Ok(Todos.FindAll(st.todos, q, clock)), st)
  }

  /** `GET /todos/:id`: 200 with the todo, or 404 naming the id; nothing changes. */
  function GetTodo(st: Stores, id: Id): (r: Reply<Todos.Todo>)
    ensures Consistent(r) && r.after == st
    ensures r.body.Ok? <==> id in st.todos.rows
    ensures r.body.Ok? ==> r.status == 200 && r.body.value == st.todos.rows[id]
    ensures r.body.Err? ==> r.body.error == NotFoundError("Todo", id)
  {
    match Todos.FindById(st.todos, id)
    case None => Fail(NotFoundError("Todo", id), st)
    case Some(t) => Reply(200, Ok(t), st)
  }

  /**
   * `POST /todos`: 404 naming the category and no change when it is
   * unknown; otherwise 201 with the new todo, which the store now holds.
   */
  function CreateTodo(st: Stores, req: Todos.CreateTodoRequest, newId: Id, now: string): (r: Reply<Todos.Todo>)
    requires Valid(st)
    ensures Consistent(r) && Valid(r.after)
    ensures r.body.Ok? <==> req.categoryId in st.categories.rows
    ensures r.body.Err? ==> r.body.error == NotFoundError("Category", req.categoryId) && r.after == st
    ensures r.body.Ok? ==> r.status == 201 && r.body.value.id == newId && r.body.value.categoryId == req.categoryId
    ensures r.body.Ok? ==> r.after.todos.rows == st.todos.rows[newId := r.body.value]
                           && r.after.categories == st.categories
  {
    if Categories.FindById(st.categories, req.categoryId).None? then
      Fail(NotFoundError("Category", req.categoryId), st)
    else
      var (todos, t) := Todos.Create(st.todos, req, newId, now);
      Reply(201, Ok(t), Stores(st.categories, todos))
  }

  /**
   * `PATCH /todos/:id`: a non-empty `categoryId` must name a stored
   * category (404 naming it otherwise); then 404 naming the todo for an
   * unknown id; otherwise 200 with the merged todo. Errors change nothing.
   */
  function UpdateTodo(st: Stores, id: Id, patch: Todos.UpdateTodoRequest, now: string): (r: Reply<Todos.Todo>)
    requires Valid(st)
    ensures Consistent(r) && Valid(r.after)
    ensures r.body.Err? ==> r.after == st
    ensures r.body.Ok? <==> id in st.todos.rows
                            && (Todos.Truthy(patch.categoryId) ==> patch.categoryId.value in st.categories.rows)
    ensures Todos.Truthy(patch.categoryId) && patch.categoryId.value !in st.categories.rows ==>
              r.body.Err? && r.body.error == NotFoundError("Category", patch.categoryId.value)
    ensures id !in st.todos.rows && !(Todos.Truthy(patch.categoryId) && patch.categoryId.value !in st.categories.rows) ==>
              r.body == Err(NotFoundError("Todo", id))
    ensures r.body.Ok? ==> r.status == 200 && r.body.value == Todos.Merge(st.todos.rows[id], patch, now)
    ensures r.body.Ok? ==> r.after.todos.rows == st.todos.rows[id := r.body.value]
                           && r.after.categories == st.categories
  {
    if Todos.Truthy(patch.categoryId) && Categories.FindById(st.categories, patch.categoryId.value).None? then
      Fail(NotFoundError("Category", patch.categoryId.value), st)
    else
      match Todos.Update(st.todos, id, patch, now)
      case (_, None) => Fail(NotFoundError("Todo", id), st)
      case (todos, Some(t)) => Reply(200, Ok(t), Stores(st.categories, todos))
  }

  /** `DELETE /todos/:id`: 204 and the todo is gone, or 404 naming the id and no change. */
  function DeleteTodo(st: Stores, id: Id): (r: Reply<()>)
    requires Valid(st)
    ensures Consistent(r) && Valid(r.after)
    ensures r.body.Ok? <==> id in st.todos.rows
    ensures r.body.Err? ==> r.body.error == NotFoundError("Todo", id) && r.after == st
    ensures r.body.Ok? ==> r.status == 204 && r.after.todos.rows == st.todos.rows - {id}
                           && r.after.categories == st.categories
  {
    var (todos, deleted) := Todos.Delete(st.todos, id);
    if !deleted then Fail(NotFoundError("Todo", id), st)
    else Reply(204, Ok(()), Stores(st.categories, todos))
  }

  // ---------------------------------------------------------------------------
  // Invariants the handlers keep
  // ---------------------------------------------------------------------------

  /** Deleting a todo twice: the second request is a 404. */
  lemma {:induction false} DeleteTodoTwice(st: Stores, id: Id)
    requires Valid(st)
    ensures DeleteTodo(DeleteTodo(st, id).after, id).body.Err?
  {
    var first := DeleteTodo(st, id);
    assert id !in first.after.todos.rows;
  }

  /** Creating a category whose name differs from every stored one keeps the names unique. */
  lemma {:induction false} CreateCategoryKeepsNamesUnique(st: Stores, req: Categories.CategoryRequest, newId: Id, now: string)
    requires Valid(st) && UniqueNames(st.categories) && newId !in st.categories.rows
    ensures UniqueNames(CreateCategory(st, req, newId, now).after.categories)
  {
    var r := CreateCategory(st, req, newId, now);
    if r.body.Ok? {
      var stored := st.categories.rows;
      var rows := r.after.categories.rows;
      assert rows == stored[newId := r.body.value] && r.body.value.name == req.name;
      assert Categories.NameFree(st.categories, req.name);
      forall a, b | a in rows && b in rows && a != b
        ensures !Categories.SameName(rows[a].name, rows[b].name)
      {
        if a == newId {
          assert stored[b] in stored.Values;
        } else if b == newId {
          assert stored[a] in stored.Values;
        } else {
          assert rows[a] == stored[a] && rows[b] == stored[b];
        }
      }
    }
  }

  /** Renaming a category keeps the names unique. */
  lemma {:induction false} UpdateCategoryKeepsNamesUnique(st: Stores, id: Id, req: Categories.CategoryRequest, now: string)
    requires Valid(st) && UniqueNames(st.categories)
    ensures UniqueNames(UpdateCategory(st, id, req, now).after.categories)
  {
    var r := UpdateCategory(st, id, req, now);
    if r.body.Ok? {
      var stored := st.categories.rows;
      var rows := r.after.categories.rows;
      assert rows == stored[id := r.body.value] && r.body.value.name == req.name;
      assert NameFreeExcept(st.categories, id, req.name);
      forall a, b | a in rows && b in rows && a != b
        ensures !Categories.SameName(rows[a].name, rows[b].name)
      {
        if a != id && b != id {
          assert rows[a] == stored[a] && rows[b] == stored[b];
        }
      }
    }
  }

  /**
   * Every handler that writes keeps each todo pointing at a stored
   * category, given a request that passed validation (where `categoryId`
   * is a UUID and so never the empty string).
   */
  lemma {:induction false} CreateTodoKeepsReferences(st: Stores, req: Todos.CreateTodoRequest, newId: Id, now: string)
    requires Valid(st) && Referenced(st)
    ensures Referenced(CreateTodo(st, req, newId, now).after)
  {
    var r := CreateTodo(st, req, newId, now);
    if r.body.Ok? {
      forall k | k in r.after.todos.rows ensures r.after.todos.rows[k].categoryId in r.after.categories.rows {
        if k != newId {
          assert r.after.todos.rows[k] == st.todos.rows[k];
        }
      }
    }
  }

  lemma {:induction false} UpdateTodoKeepsReferences(st: Stores, id: Id, patch: Todos.UpdateTodoRequest, now: string)
    requires Valid(st) && Referenced(st) && patch.categoryId != Some("")
    ensures Referenced(UpdateTodo(st, id, patch, now).after)
  {
    var r := UpdateTodo(st, id, patch, now);
    if r.body.Ok? {
      forall k | k in r.after.todos.rows ensures r.after.todos.rows[k].categoryId in r.after.categories.rows {
        if k != id {
          assert r.after.todos.rows[k] == st.todos.rows[k];
        } else {
          assert r.after.todos.rows[k].categoryId == patch.categoryId.GetOr(st.todos.rows[id].categoryId);
        }
      }
    }
  }

  lemma {:induction false} DeleteCategoryKeepsReferences(st: Stores, id: Id, cascadeParam: Option<string>)
    requires Valid(st) && Referenced(st)
    ensures Referenced(DeleteCategory(st, id, cascadeParam).after)
  {
    var r := DeleteCategory(st, id, cascadeParam);
    if r.body.Ok? {
      forall k | k in r.after.todos.rows ensures r.after.todos.rows[k].categoryId in r.after.categories.rows {
        assert k in st.todos.rows && st.todos.rows[k].categoryId != id;
      }
    }
  }

  /** After a successful category delete, listing the todos of that category finds none. */
  lemma {:induction false} DeletedCategoryHasNoTodos(st: Stores, id: Id, cascadeParam: Option<string>, clock: Todos.Clock)
    requires Valid(st) && id != ""
    requires DeleteCategory(st, id, cascadeParam).body.Ok?
    ensures Todos.FindAll(DeleteCategory(st, id, cascadeParam).after.todos,
                          Todos.TodoQuery(None, None, None, Some(id)), clock) == []
  {
    var after := DeleteCategory(st, id, cascadeParam).after.todos;
    assert forall k | k in after.rows :: after.rows[k].categoryId != id;
    NoTodoOfCategory(after, id, clock);
  }

  /** A store without todos of a category lists none for it. */
  lemma {:induction false} NoTodoOfCategory(s: Todos.TodoStore, id: Id, clock: Todos.Clock)
    requires Todos.Valid(s) && id != ""
    requires forall k | k in s.rows :: s.rows[k].categoryId != id
    ensures Todos.FindAll(s, Todos.TodoQuery(None, None, None, Some(id)), clock) == []
  {
    var r := Todos.FindAll(s, Todos.TodoQuery(None, None, None, Some(id)), clock);
    forall t ensures t !in r {
      if t in s.rows.Values {
        var k :| k in s.rows && s.rows[k] == t;
      }
    }
    assert r == [];
  }

  /**
   * Any stored category whose name matches the requested one in lower case
   * (`Work` against `work`) makes the create a 409 naming the requested
   * name, and nothing changes.
   */
  lemma {:induction false} CaseInsensitiveConflict(st: Stores, req: Categories.CategoryRequest, newId: Id, now: string, k: Id)
    requires Valid(st) && k in st.categories.rows
    requires Lower(st.categories.rows[k].name) == Lower(req.name)
    ensures var r := CreateCategory(st, req, newId, now);
            r.status == 409 && r.body == Err(ConflictError(AlreadyExists(req.name))) && r.after == st
  {
    assert st.categories.rows[k] in st.categories.rows.Values;
  }
}
