/**
 * The web client's category state: the list shown, the loading flag and
 * the last error, with one reducer per action.
 */
module CategoriesSlice {
  import opened Wrappers
  import Lists
  import Errors
  import Categories

  type Category = Categories.Category

  datatype State = State(items: seq<Category>, loading: bool, error: Option<Errors.ApiError>)

  const Initial := State([], false, None)

  /** `clearError`: the error goes, nothing else changes. */
  function ClearError(st: State): (r: State)
    ensures r.error.None?
    ensures r.(error := st.error) == st
  {
    st.(error := None)
  }

  /** `fetchCategories.pending`. */
  function FetchPending(st: State): (r: State)
    ensures r.loading && r.error.None? && r.items == st.items
  {
    st.(loading := true, error := None)
  }

  /** `fetchCategories.fulfilled`: the server's list replaces the shown one. */
  function FetchFulfilled(st: State, items: seq<Category>): (r: State)
    ensures !r.loading && r.items == items && r.error == st.error
  {
    st.(loading := false, items := items)
  }

  /** `fetchCategories.rejected`. */
  function FetchRejected(st: State, e: Errors.ApiError): (r: State)
    ensures !r.loading && r.error == Some(e) && r.items == st.items
  {
    st.(loading := false, error := Some(e))
  }

  /** A fetch that succeeds leaves the list loaded with the server's categories and no error. */
  lemma {:induction false} FetchSucceeds(st: State, items: seq<Category>)
    ensures var r := FetchFulfilled(FetchPending(st), items);
            !r.loading && r.error.None? && r.items == items
  {
  }

  /** The `rejected` case of create, update and delete: only the error changes. */
  function Rejected(st: State, e: Errors.ApiError): (r: State)
    ensures r.error == Some(e)
    ensures r.(error := st.error) == st
  {
    st.(error := Some(e))
  }

  /** `createCategory.fulfilled`: the new category goes at the end. */
  function CreateFulfilled(st: State, c: Category): (r: State)
    ensures |r.items| == |st.items| + 1 && r.items[..|st.items|] == st.items && r.items[|st.items|] == c
    ensures r.(items := st.items) == st
  {
    st.(items := st.items + [c])
  }

  function HasId(id: Categories.Id): Category -> bool {
    (c: Category) => c.id == id
  }

  function Replace(c: Category): Category -> Category {
    _ => c
  }

  /** `updateCategory.fulfilled`: the first category with the same id is replaced; no match, no change. */
  function UpdateFulfilled(st: State, c: Category): (r: State)
    ensures r.(items := st.items) == st
    ensures |r.items| == |st.items|
    ensures Lists.FirstIndex(st.items, HasId(c.id)).None? ==> r == st
    ensures Lists.FirstIndex(st.items, HasId(c.id)).Some? ==>
              r.items == st.items[Lists.FirstIndex(st.items, HasId(c.id)).value := c]
  {
    st.(items := Lists.UpdateFirst(st.items, HasId(c.id), Replace(c)))
  }

  function NotId(id: Categories.Id): Category -> bool {
    (c: Category) => c.id != id
  }

  /** `deleteCategory.fulfilled`: every category with the id goes, the others stay in order, each as often as before. */
  function DeleteFulfilled(st: State, id: Categories.Id): (r: State)
    ensures r.(items := st.items) == st
    ensures forall c :: c in r.items <==> c in st.items && c.id != id
    ensures forall c :: multiset(r.items)[c] == if c.id != id then multiset(st.items)[c] else 0
    ensures Lists.SubsequenceOf(r.items, st.items)
  {
    Lists.FilterCounts(st.items, NotId(id));
    Lists.FilterSubsequence(st.items, NotId(id));
    st.(items := Lists.Filter(st.items, NotId(id)))
  }

  /** Creating and then deleting a category whose id was not listed gives back the list. */
  lemma {:induction false} CreateThenDelete(st: State, c: Category)
    requires forall i | 0 <= i < |st.items| :: st.items[i].id != c.id
    ensures DeleteFulfilled(CreateFulfilled(st, c), c.id) == st
  {
    Lists.FilterAppend(st.items, [c], NotId(c.id));
    Lists.FilterAll(st.items, NotId(c.id));
    assert [c][1..] == [];
  }
}
