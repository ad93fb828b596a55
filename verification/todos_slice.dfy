/**
 * The web client's todo state: the list shown, the loading flag, the last
 * error and the list filters, with one reducer per action and the selector
 * that groups the list by category. Each reducer is a function from the
 * old state to the new one.
 */
module TodosSlice {
  import opened Wrappers
  import Lists
  import Errors
  import Todos

  type Todo = Todos.Todo

  datatype State = State(items: seq<Todo>, loading: bool, error: Option<Errors.ApiError>, filters: Todos.TodoQuery)

  /** Nothing loaded, no error, and the filters `all` / `createdAt` / `desc`. */
  const Initial := State([], false, None, Todos.TodoQuery(Some(Todos.All), Some(Todos.CreatedAt), Some(Todos.Desc), None))

  /** The filters the initial state asks the server for are the server's own defaults. */
  lemma InitialFiltersAreDefaults(clock: Todos.Clock, t: Todo)
    ensures Initial.items == [] && !Initial.loading && Initial.error.None?
    ensures var none := Todos.TodoQuery(None, None, None, None);
            && Todos.FieldOf(Initial.filters) == Todos.FieldOf(none)
            && Todos.OrderOf(Initial.filters) == Todos.OrderOf(none)
            && (Todos.Matches(Initial.filters, clock, t) <==> Todos.Matches(none, clock, t))
  {
  }

  // ---------------------------------------------------------------------------
  // Filter setters and clearError: each changes its own field only
  // ---------------------------------------------------------------------------

  function SetStatusFilter(st: State, status: Todos.Status): (r: State)
    ensures r.filters.status == Some(status)
    ensures r.filters.(status := st.filters.status) == st.filters
    ensures r.(filters := st.filters) == st
  {
    st.(filters := st.filters.(status := Some(status)))
  }

  function SetSortField(st: State, sort: Todos.SortField): (r: State)
    ensures r.filters.sort == Some(sort)
    ensures r.filters.(sort := st.filters.sort) == st.filters
    ensures r.(filters := st.filters) == st
  {
    st.(filters := st.filters.(sort := Some(sort)))
  }

  function SetSortOrder(st: State, order: Todos.SortOrder): (r: State)
    ensures r.filters.order == Some(order)
    ensures r.filters.(order := st.filters.order) == st.filters
    ensures r.(filters := st.filters) == st
  {
    st.(filters := st.filters.(order := Some(order)))
  }

  /** `undefined` clears the category filter. */
  function SetCategoryFilter(st: State, categoryId: Option<string>): (r: State)
    ensures r.filters.categoryId == categoryId
    ensures r.filters.(categoryId := st.filters.categoryId) == st.filters
    ensures r.(filters := st.filters) == st
  {
    st.(filters := st.filters.(categoryId := categoryId))
  }

  function ClearError(st: State): (r: State)
    ensures r.error.None?
    ensures r.(error := st.error) == st
  {
    st.(error := None)
  }

  // ---------------------------------------------------------------------------
  // The optimistic toggle
  // ---------------------------------------------------------------------------

  function HasId(id: Todos.Id): Todo -> bool {
    (t: Todo) => t.id == id
  }

  function WithCompleted(completed: bool, now: string): Todo -> Todo {
    (t: Todo) => t.(completed := completed, updatedAt := now)
  }

  /**
   * `optimisticToggle`: the first todo with the id gets the new `completed`
   * and `updatedAt = now`; no match, no change; nothing else moves.
   */
  function OptimisticToggle(st: State, id: Todos.Id, completed: bool, now: string): (r: State)
    ensures r.(items := st.items) == st
    ensures |r.items| == |st.items|
    ensures Lists.FirstIndex(st.items, HasId(id)).None? ==> r == st
    ensures Lists.FirstIndex(st.items, HasId(id)).Some? ==>
              var i := Lists.FirstIndex(st.items, HasId(id)).value;
              r.items == st.items[i := st.items[i].(completed := completed, updatedAt := now)]
  {
    st.(items := Lists.UpdateFirst(st.items, HasId(id), WithCompleted(completed, now)))
  }

  /** How the background update of a toggle ended. */
  datatype Sync = Synced | Failed(error: Errors.ApiError)

  /**
   * `toggleTodoCompleted`: the optimistic write at `now`; if the server
   * update then fails, a second write of `!completed` at `later`, and the
   * rejection stores the error. Success needs no reducer.
   */
  function ToggleTodoCompleted(st: State, id: Todos.Id, completed: bool, now: string, later: string, sync: Sync)
    : (r: State)
    ensures sync.Synced? ==> r == OptimisticToggle(st, id, completed, now)
  {
    var optimistic := OptimisticToggle(st, id, completed, now);
    match sync
    case Synced => optimistic
    case Failed(e) => Rejected(OptimisticToggle(optimistic, id, !completed, later), e)
  }

  /**
   * After a failed toggle the todo holds the negation of the value asked
   * for, every other todo is as before, and the error is kept. When the
   * request asked to flip the todo's current value, that is the value it
   * started with.
   */
  lemma {:induction false} ToggleRollback(st: State, id: Todos.Id, completed: bool, now: string, later: string, e: Errors.ApiError)
    requires Lists.FirstIndex(st.items, HasId(id)).Some?
    ensures var r := ToggleTodoCompleted(st, id, completed, now, later, Failed(e));
            var i := Lists.FirstIndex(st.items, HasId(id)).value;
            && r.error == Some(e)
            && r.items == st.items[i := st.items[i].(completed := !completed, updatedAt := later)]
            && (st.items[i].completed == !completed ==> r.items[i].completed == st.items[i].completed)
  {
    var optimistic := OptimisticToggle(st, id, completed, now);
    Lists.UpdateFirstKeepsIndex(st.items, HasId(id), WithCompleted(completed, now));
  }

  // ---------------------------------------------------------------------------
  // Thunk results
  // ---------------------------------------------------------------------------

  /** `fetchTodos.pending`. */
  function FetchPending(st: State): (r: State)
    ensures r.loading && r.error.None?
    ensures r.(loading := st.loading, error := st.error) == st
  {
    st.(loading := true, error := None)
  }

  /** `fetchTodos.fulfilled`: the server's list replaces the shown one. */
  function FetchFulfilled(st: State, items: seq<Todo>): (r: State)
    ensures !r.loading && r.items == items
    ensures r.(loading := st.loading, items := st.items) == st
  {
    st.(loading := false, items := items)
  }

  /** `fetchTodos.rejected`. */
  function FetchRejected(st: State, e: Errors.ApiError): (r: State)
    ensures !r.loading && r.error == Some(e)
    ensures r.(loading := st.loading, error := st.error) == st
  {
    st.(loading := false, error := Some(e))
  }

  /** The `rejected` case of create, update, toggle and delete: only the error changes. */
  function Rejected(st: State, e: Errors.ApiError): (r: State)
    ensures r.error == Some(e)
    ensures r.(error := st.error) == st
  {
    st.(error := Some(e))
  }

  /** `createTodo.fulfilled`: the new todo goes at the end. */
  function CreateFulfilled(st: State, todo: Todo): (r: State)
    ensures |r.items| == |st.items| + 1 && r.items[..|st.items|] == st.items && r.items[|st.items|] == todo
    ensures r.(items := st.items) == st
  {
    st.(items := st.items + [todo])
  }

  function Replace(todo: Todo): Todo -> Todo {
    _ => todo
  }

  /** `updateTodo.fulfilled`: the first todo with the same id is replaced; no match, no change. */
  function UpdateFulfilled(st: State, todo: Todo): (r: State)
    ensures r.(items := st.items) == st
    ensures |r.items| == |st.items|
    ensures Lists.FirstIndex(st.items, HasId(todo.id)).None? ==> r == st
    ensures Lists.FirstIndex(st.items, HasId(todo.id)).Some? ==>
              r.items == st.items[Lists.FirstIndex(st.items, HasId(todo.id)).value := todo]
  {
    st.(items := Lists.UpdateFirst(st.items, HasId(todo.id), Replace(todo)))
  }

  function NotId(id: Todos.Id): Todo -> bool {
    (t: Todo) => t.id != id
  }

  /** `deleteTodo.fulfilled`: every todo with the id goes, the rest keep their order. */
  function DeleteFulfilled(st: State, id: Todos.Id): (r: State)
    ensures r.(items := st.items) == st
    ensures forall t :: t in r.items <==> t in st.items && t.id != id
    ensures forall t :: multiset(r.items)[t] == if t.id != id then multiset(st.items)[t] else 0
    ensures Lists.SubsequenceOf(r.items, st.items)
  {
    Lists.FilterCounts(st.items, NotId(id));
    Lists.FilterSubsequence(st.items, NotId(id));
    st.(items := Lists.Filter(st.items, NotId(id)))
  }

  /** Deleting keeps exactly the other todos, in order: removing the rest again changes nothing. */
  lemma {:induction false} DeleteFulfilledIdempotent(st: State, id: Todos.Id)
    ensures DeleteFulfilled(DeleteFulfilled(st, id), id) == DeleteFulfilled(st, id)
  {
    var once := DeleteFulfilled(st, id);
    Lists.FilterAll(once.items, NotId(id));
  }

  // ---------------------------------------------------------------------------
  // selectTodosGroupedByCategory
  // ---------------------------------------------------------------------------

  function CategoryOf(t: Todo): string {
    t.categoryId
  }

  function Itself(t: Todo): Todo {
    t
  }

  function InCategory(categoryId: string): Todo -> bool {
    (t: Todo) => t.categoryId == categoryId
  }

  /**
   * The `reduce` into a record of arrays: one group per category that
   * occurs, holding that category's todos in list order.
   */
  function GroupedByCategory(items: seq<Todo>): (g: map<string, seq<Todo>>)
    ensures g.Keys == set i | 0 <= i < |items| :: items[i].categoryId
    ensures forall k | k in g :: g[k] == Lists.Filter(items, InCategory(k))
  {
    var g := Lists.GroupBy(items, CategoryOf, Itself);
    Lists.GroupByMeaning(items, CategoryOf, Itself);
    assert Lists.KeysOf(items, CategoryOf) == set i | 0 <= i < |items| :: items[i].categoryId;
    forall k | k in g ensures g[k] == Lists.Filter(items, InCategory(k)) {
      Lists.SelectIsFilter(items, CategoryOf, Itself, k, InCategory(k));
    }
    g
  }

  /** Every todo is in its own category's group, and the groups hold no more todos than the list. */
  lemma {:induction false} GroupedByCategoryCount(items: seq<Todo>, categories: seq<string>)
    requires Lists.Distinct(categories)
    requires forall i | 0 <= i < |items| :: items[i].categoryId in categories
    ensures forall i | 0 <= i < |items| :: items[i] in GroupedByCategory(items)[items[i].categoryId]
    ensures Lists.SumSizes(GroupedByCategory(items), categories) == |items|
  {
    var g := GroupedByCategory(items);
    forall i | 0 <= i < |items| ensures items[i] in g[items[i].categoryId] {
      var k := items[i].categoryId;
      assert k in g.Keys;
      assert items[i] in items && InCategory(k)(items[i]);
    }
    assert g == Lists.GroupBy(items, CategoryOf, Itself);
    assert g.Keys <= set k | k in categories by {
      forall k | k in g ensures k in categories {
        var i :| 0 <= i < |items| && items[i].categoryId == k;
      }
    }
    Lists.GroupByCount(items, CategoryOf, Itself, categories);
  }
}
