/**
 * The todo repository: an in-memory map from id to Todo with a filtered,
 * sorted listing, a three-state patch merge, and deletion one by one or by
 * category.
 */
module Todos {
  import opened Wrappers
  import opened Text
  import Lists
  import Tables
  import Sorting

  type Id = Tables.Id

  /** A stored todo. Timestamps are ISO-8601 strings; `None` is an absent optional field. */
  datatype Todo = Todo(
    id: Id,
    title: string,
    description: Option<string>,
    dueDate: Option<string>,
    createdAt: string,
    updatedAt: string,
    completed: bool,
    categoryId: Id)

  datatype Status = All | Active | Completed
  datatype SortField = DueDate | CreatedAt
  datatype SortOrder = Asc | Desc

  /** The listing query; every field may be missing. */
  datatype TodoQuery = TodoQuery(
    status: Option<Status>,
    sort: Option<SortField>,
    order: Option<SortOrder>,
    categoryId: Option<string>)

  datatype CreateTodoRequest = CreateTodoRequest(
    title: string,
    description: Option<string>,
    dueDate: Option<string>,
    categoryId: Id)

  /** An update field that is left out, sent as `null`, or sent with a value. */
  datatype Patch<T> = Absent | Clear | Set(value: T)

  datatype UpdateTodoRequest = UpdateTodoRequest(
    title: Option<string>,
    description: Patch<string>,
    dueDate: Patch<string>,
    completed: Option<bool>,
    categoryId: Option<Id>)

  /** The wall clock as an instant, and `new Date(s)` for a stored ISO string `s`. */
  datatype Clock = Clock(now: int, instantOf: string -> int)

  type TodoStore = Tables.Table<Todo>

  /** The store's invariant: a well-formed table in which every todo sits under its own id. */
  ghost predicate Valid(s: TodoStore) {
    Tables.Valid(s) && Tables.KeyedBy(s, IdOf)
  }

  function IdOf(t: Todo): Id {
    t.id
  }

  /** JavaScript truthiness of an optional string: present and not empty. */
  predicate Truthy(o: Option<string>) {
    o.Some? && o.value != ""
  }

  /** `t.dueDate && new Date(t.dueDate) < now`. */
  predicate PastDue(t: Todo, clock: Clock) {
    Truthy(t.dueDate) && clock.instantOf(t.dueDate.value) < clock.now
  }

  // ---------------------------------------------------------------------------
  // Listing
  // ---------------------------------------------------------------------------

  /** The category clause of the query: only a non-empty `categoryId` filters. */
  predicate InCategory(q: TodoQuery, t: Todo) {
    Truthy(q.categoryId) ==> t.categoryId == q.categoryId.value
  }

  /**
   * The status clause of the query: `active` keeps the open todos that are
   * not overdue, `completed` the done ones, `all` or nothing keeps everything.
   */
  predicate HasStatus(q: TodoQuery, clock: Clock, t: Todo) {
    match q.status
    case Some(Active) => !t.completed && !PastDue(t, clock)
    case Some(Completed) => t.completed
    case _ => true
  }

  /**
   * Both clauses of the query. A query with no category and no status (or
   * `all`) keeps every todo; a status filter never lets the other kind through.
   */
  function Matches(q: TodoQuery, clock: Clock, t: Todo): (b: bool)
    ensures !Truthy(q.categoryId) && q.status in {None, Some(All)} ==> b
    ensures b && Truthy(q.categoryId) ==> t.categoryId == q.categoryId.value
    ensures b && q.status == Some(Active) ==> !t.completed && !PastDue(t, clock)
    ensures b && q.status == Some(Completed) ==> t.completed
  {
    InCategory(q, t) && HasStatus(q, clock, t)
  }

  /** The sort field in force: the query's, or `createdAt`. */
  function FieldOf(q: TodoQuery): SortField {
    q.sort.GetOr(CreatedAt)
  }

  /** The sort order in force: the query's, or `desc`. */
  function OrderOf(q: TodoQuery): SortOrder {
    q.order.GetOr(Desc)
  }

  /** `t[field] || ''`: a missing field sorts as the empty string. */
  function SortKey(field: SortField, t: Todo): string {
    match field
    case CreatedAt => t.createdAt
    case DueDate => t.dueDate.GetOr("")
  }

  /** Every stored todo occurs exactly once among the store's values. */
  lemma {:induction false} ValuesCount(s: TodoStore)
    requires Valid(s)
    ensures forall t :: multiset(Tables.Values(s))[t] == if t in s.rows.Values then 1 else 0
  {
    Tables.ValuesOnce(s, IdOf);
  }

  /** First stage of `findAll`: the category filter, applied only for a non-empty `categoryId`. */
  function ByCategory(s: TodoStore, q: TodoQuery): seq<Todo>
    requires Valid(s)
  {
    var wanted := q.categoryId.GetOr("");
    if Truthy(q.categoryId) then Lists.Filter(Tables.Values(s), (t: Todo) => t.categoryId == wanted)
    else Tables.Values(s)
  }

  /** Both stages of `findAll`: the category filter, then the status filter. */
  function Selected(s: TodoStore, q: TodoQuery, clock: Clock): seq<Todo>
    requires Valid(s)
  {
    var byCategory := ByCategory(s, q);
    match q.status
    case Some(Active) => Lists.Filter(byCategory, (t: Todo) => !t.completed && !PastDue(t, clock))
    case Some(Completed) => Lists.Filter(byCategory, (t: Todo) => t.completed)
    case _ => byCategory
  }

  lemma {:induction false} ByCategoryCount(s: TodoStore, q: TodoQuery)
    requires Valid(s)
    ensures forall t :: multiset(ByCategory(s, q))[t]
                        == if t in s.rows.Values && InCategory(q, t) then 1 else 0
  {
    var wanted := q.categoryId.GetOr("");
    ValuesCount(s);
    Lists.FilterCounts(Tables.Values(s), (t: Todo) => t.categoryId == wanted);
  }

  lemma {:induction false} SelectedCount(s: TodoStore, q: TodoQuery, clock: Clock)
    requires Valid(s)
    ensures forall t :: multiset(Selected(s, q, clock))[t]
                        == if t in s.rows.Values && Matches(q, clock, t) then 1 else 0
  {
    var byCategory := ByCategory(s, q);
    ByCategoryCount(s, q);
    match q.status {
      case Some(Active) =>
        Lists.FilterCounts(byCategory, (t: Todo) => !t.completed && !PastDue(t, clock));
      case Some(Completed) =>
        Lists.FilterCounts(byCategory, (t: Todo) => t.completed);
      case _ =>
    }
  }

  /** The comparator's key function for a sort field. */
  function KeyFn(field: SortField): Todo -> string {
    t => SortKey(field, t)
  }

  lemma {:induction false} SortedByKey(field: SortField, desc: bool, r: seq<Todo>)
    requires Sorting.Sorted(KeyFn(field), desc, r)
    ensures !desc ==> forall i, j | 0 <= i < j < |r| :: LexLe(SortKey(field, r[i]), SortKey(field, r[j]))
    ensures desc ==> forall i, j | 0 <= i < j < |r| :: LexLe(SortKey(field, r[j]), SortKey(field, r[i]))
  {
    forall i, j | 0 <= i < j < |r|
      ensures Sorting.InOrder(KeyFn(field), desc, r[i], r[j])
    {
    }
  }

  /**
   * `findAll(params)`: filter by category, then by status, then sort. The
   * result holds each stored todo that matches the query exactly once and
   * nothing else, ordered by the sort key: non-decreasing for `asc`,
   * non-increasing for `desc`.
   */
  function FindAll(s: TodoStore, q: TodoQuery, clock: Clock): (r: seq<Todo>)
    requires Valid(s)
    ensures forall t :: multiset(r)[t] == if t in s.rows.Values && Matches(q, clock, t) then 1 else 0
    ensures forall t :: t in r <==> t in s.rows.Values && Matches(q, clock, t)
    ensures OrderOf(q) == Asc ==>
              forall i, j | 0 <= i < j < |r| :: LexLe(SortKey(FieldOf(q), r[i]), SortKey(FieldOf(q), r[j]))
    ensures OrderOf(q) == Desc ==>
              forall i, j | 0 <= i < j < |r| :: LexLe(SortKey(FieldOf(q), r[j]), SortKey(FieldOf(q), r[i]))
  {
    var field := q.sort.GetOr(CreatedAt);
    var order := q.order.GetOr(Desc);
    var selected := Selected(s, q, clock);
    var r := Sorting.SortBy(KeyFn(field), order == Desc, selected);
    SelectedCount(s, q, clock);
    SortedByKey(field, order == Desc, r);
    r
  }

  /** `findById(id)`: the stored todo, or None. */
  function FindById(s: TodoStore, id: Id): (r: Option<Todo>)
    ensures r.Some? <==> id in s.rows
    ensures r.Some? ==> r.value == s.rows[id]
  {
    Tables.Get(s, id)
  }

  /** `findByCategoryId(categoryId)`: the stored todos of that category (each once: `FindByCategoryIdOnce`). */
  function FindByCategoryId(s: TodoStore, categoryId: Id): (r: seq<Todo>)
    requires Valid(s)
    ensures forall t :: t in r <==> t in s.rows.Values && t.categoryId == categoryId
  {
    Tables.ValuesAreRows(s);
    Lists.Filter(Tables.Values(s), InCategoryId(categoryId))
  }

  function InCategoryId(categoryId: Id): Todo -> bool {
    (t: Todo) => t.categoryId == categoryId
  }

  /** No todo of the category is listed twice, and none is missing. */
  lemma {:induction false} FindByCategoryIdOnce(s: TodoStore, categoryId: Id)
    requires Valid(s)
    ensures forall t :: multiset(FindByCategoryId(s, categoryId))[t]
                        == if t in s.rows.Values && t.categoryId == categoryId then 1 else 0
  {
    ValuesCount(s);
    Lists.FilterCounts(Tables.Values(s), InCategoryId(categoryId));
  }

  // ---------------------------------------------------------------------------
  // Create and update
  // ---------------------------------------------------------------------------

  /**
   * `create(data)` with `id` drawn from the id supply and `now` the current
   * ISO time: a fresh, open todo carrying the request's fields unchanged is
   * stored under its id, and a fresh id adds exactly one key.
   */
  function Create(s: TodoStore, req: CreateTodoRequest, id: Id, now: string): (r: (TodoStore, Todo))
    requires Valid(s)
    ensures Valid(r.0)
    ensures r.1.id == id && !r.1.completed
    ensures r.1.createdAt == now && r.1.updatedAt == now
    ensures r.1.title == req.title && r.1.description == req.description
    ensures r.1.dueDate == req.dueDate && r.1.categoryId == req.categoryId
    ensures r.0.rows == s.rows[id := r.1]
    ensures id !in s.rows ==> r.0.rows.Keys == s.rows.Keys + {id} && |r.0.rows| == |s.rows| + 1
  {
    var todo := Todo(id, req.title, req.description, req.dueDate, now, now, false, req.categoryId);
    (Tables.Put(s, id, todo), todo)
  }

  /** Reading back what was just created yields it. */
  lemma {:induction false} CreateThenFind(s: TodoStore, req: CreateTodoRequest, id: Id, now: string)
    requires Valid(s)
    ensures FindById(Create(s, req, id, now).0, id) == Some(Create(s, req, id, now).1)
  {
  }

  /** The three-state rule: left out keeps, `null` clears, a value overwrites. */
  function Resolve(p: Patch<string>, existing: Option<string>): (r: Option<string>)
    ensures p.Absent? ==> r == existing
    ensures p.Clear? ==> r.None?
    ensures p.Set? ==> r == Some(p.value)
  {
    match p
    case Clear => None
    case Set(v) => Some(v)
    case Absent => existing
  }

  /**
   * `{...existing, ...data, description, dueDate, updatedAt}`: the patch's
   * present fields overwrite, `description` and `dueDate` follow the
   * three-state rule, `id` and `createdAt` stay, and `updatedAt` is refreshed.
   */
  function Merge(existing: Todo, patch: UpdateTodoRequest, now: string): (u: Todo)
    ensures u.id == existing.id && u.createdAt == existing.createdAt && u.updatedAt == now
    ensures u.title == patch.title.GetOr(existing.title)
    ensures u.completed == patch.completed.GetOr(existing.completed)
    ensures u.categoryId == patch.categoryId.GetOr(existing.categoryId)
    ensures u.description == Resolve(patch.description, existing.description)
    ensures u.dueDate == Resolve(patch.dueDate, existing.dueDate)
  {
    var spread := existing.(
      title := if patch.title.Some? then patch.title.value else existing.title,
      completed := if patch.completed.Some? then patch.completed.value else existing.completed,
      categoryId := if patch.categoryId.Some? then patch.categoryId.value else existing.categoryId);
    spread.(
      description := if patch.description.Clear? then None
                     else if patch.description.Set? then Some(patch.description.value)
                     else existing.description,
      dueDate := if patch.dueDate.Clear? then None
                 else if patch.dueDate.Set? then Some(patch.dueDate.value)
                 else existing.dueDate,
      updatedAt := now)
  }

  /** Applying the same patch twice is applying it once (up to the refresh time). */
  lemma {:induction false} MergeIdempotent(t: Todo, patch: UpdateTodoRequest, now1: string, now2: string)
    ensures Merge(Merge(t, patch, now1), patch, now2) == Merge(t, patch, now2)
  {
  }

  /** The empty patch `{}` changes nothing but `updatedAt`. */
  lemma {:induction false} EmptyPatchKeepsFields(t: Todo, now: string)
    ensures Merge(t, UpdateTodoRequest(None, Absent, Absent, None, None), now) == t.(updatedAt := now)
  {
  }

  /**
   * `update(id, data)`: None and an untouched store for an unknown id;
   * otherwise the merged todo replaces the stored one in place.
   */
  function Update(s: TodoStore, id: Id, patch: UpdateTodoRequest, now: string): (r: (TodoStore, Option<Todo>))
    requires Valid(s)
    ensures Valid(r.0)
    ensures id !in s.rows ==> r.1.None? && r.0 == s
    ensures id in s.rows ==> r.1 == Some(Merge(s.rows[id], patch, now))
    ensures id in s.rows ==> r.0.rows == s.rows[id := r.1.value] && r.0.order == s.order
  {
    match Tables.Get(s, id)
    case None => (s, None)
    case Some(existing) =>
      var updated := Merge(existing, patch, now);
      (Tables.Put(s, id, updated), Some(updated))
  }

  // ---------------------------------------------------------------------------
  // Delete
  // ---------------------------------------------------------------------------

  /** `delete(id)`: true exactly when the id was stored; afterwards it is not. */
  function Delete(s: TodoStore, id: Id): (r: (TodoStore, bool))
    requires Valid(s)
    ensures Valid(r.0)
    ensures r.1 <==> id in s.rows
    ensures r.0.rows == s.rows - {id}
    ensures FindById(r.0, id).None?
  {
    Tables.Remove(s, id)
  }

  /** A second delete of the same id reports that nothing was removed. */
  lemma {:induction false} DeleteTwice(s: TodoStore, id: Id)
    requires Valid(s)
    ensures !Delete(Delete(s, id).0, id).1
    ensures Delete(Delete(s, id).0, id).0.rows == Delete(s, id).0.rows
  {
    var once := Delete(s, id).0;
    assert id !in once.rows;
    assert once.rows - {id} == once.rows;
  }

  /** The ids of the stored todos in category `categoryId`. */
  ghost function CategoryKeys(s: TodoStore, categoryId: Id): set<Id> {
    set id | id in s.rows && s.rows[id].categoryId == categoryId
  }

  /**
   * `deleteByCategoryId(categoryId)`: every todo of the category is removed,
   * every other todo stays as it was, and the count returned is the number of
   * todos `findByCategoryId` listed beforehand.
   */
  function DeleteByCategoryId(s: TodoStore, categoryId: Id): (r: (TodoStore, nat))
    requires Valid(s)
    ensures Valid(r.0)
    ensures r.0.rows == map id | id in s.rows && s.rows[id].categoryId != categoryId :: s.rows[id]
    ensures r.1 == |FindByCategoryId(s, categoryId)|
  {
    var victims := FindByCategoryId(s, categoryId);
    var ids := IdsOf(victims);
    VictimIds(s, categoryId, victims, ids);
    (Tables.RemoveAll(s, ids), |victims|)
  }

  /** `todos.map(t => t.id)`. */
  function IdsOf(todos: seq<Todo>): (ids: seq<Id>)
    ensures |ids| == |todos| && forall i | 0 <= i < |ids| :: ids[i] == todos[i].id
  {
    if |todos| == 0 then [] else [todos[0].id] + IdsOf(todos[1..])
  }

  /** `victims` holds exactly the stored todos of the category. */
  ghost predicate ListsCategory(s: TodoStore, categoryId: Id, victims: seq<Todo>) {
    forall t :: t in victims <==> t in s.rows.Values && t.categoryId == categoryId
  }

  lemma {:induction false} VictimIds(s: TodoStore, categoryId: Id, victims: seq<Todo>, ids: seq<Id>)
    requires Tables.KeyedBy(s, IdOf) && ListsCategory(s, categoryId, victims)
    requires |ids| == |victims| && forall i | 0 <= i < |ids| :: ids[i] == victims[i].id
    ensures s.rows - (set x | x in ids)
            == map id | id in s.rows && s.rows[id].categoryId != categoryId :: s.rows[id]
  {
    VictimIdSet(s, categoryId, victims, ids);
    assert (set x | x in ids) == CategoryKeys(s, categoryId);
    RemoveCategoryKeys(s, categoryId);
  }

  lemma {:induction false} VictimIdSet(s: TodoStore, categoryId: Id, victims: seq<Todo>, ids: seq<Id>)
    requires Tables.KeyedBy(s, IdOf) && ListsCategory(s, categoryId, victims)
    requires |ids| == |victims| && forall i | 0 <= i < |ids| :: ids[i] == victims[i].id
    ensures forall x :: x in ids <==> x in CategoryKeys(s, categoryId)
  {
    forall x | x in ids ensures x in CategoryKeys(s, categoryId) {
      var i :| 0 <= i < |ids| && ids[i] == x;
      VictimIsStored(s, categoryId, victims, i);
    }
    forall k | k in CategoryKeys(s, categoryId) ensures k in ids {
      var i := StoredIsVictim(s, categoryId, victims, k);
      assert ids[i] == k;
    }
  }

  lemma {:induction false} VictimIsStored(s: TodoStore, categoryId: Id, victims: seq<Todo>, i: nat)
    requires Tables.KeyedBy(s, IdOf) && ListsCategory(s, categoryId, victims)
    requires i < |victims|
    ensures victims[i].id in CategoryKeys(s, categoryId)
  {
    var t := victims[i];
    assert t in victims;
    var k :| k in s.rows && s.rows[k] == t;
    assert s.rows[k].id == k;
  }

  lemma {:induction false} StoredIsVictim(s: TodoStore, categoryId: Id, victims: seq<Todo>, k: Id) returns (i: nat)
    requires Tables.KeyedBy(s, IdOf) && ListsCategory(s, categoryId, victims)
    requires k in CategoryKeys(s, categoryId)
    ensures i < |victims| && victims[i].id == k
  {
    var t := s.rows[k];
    assert t in s.rows.Values;
    assert t in victims;
    i :| 0 <= i < |victims| && victims[i] == t;
  }

  lemma {:induction false} RemoveCategoryKeys(s: TodoStore, categoryId: Id)
    ensures s.rows - CategoryKeys(s, categoryId)
            == map id | id in s.rows && s.rows[id].categoryId != categoryId :: s.rows[id]
  {
  }
}
