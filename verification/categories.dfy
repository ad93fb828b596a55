/**
 * The category repository: an in-memory map from id to Category with a
 * case-insensitive lookup by name.
 */
module Categories {
  import opened Wrappers
  import opened Text
  import Lists
  import Tables

  type Id = Tables.Id

  datatype Category = Category(id: Id, name: string, createdAt: string, updatedAt: string)

  /** The body of both the create and the update request. */
  datatype CategoryRequest = CategoryRequest(name: string)

  type CategoryStore = Tables.Table<Category>

  /** The store's invariant: a well-formed table in which every category sits under its own id. */
  ghost predicate Valid(s: CategoryStore) {
    Tables.Valid(s) && Tables.KeyedBy(s, IdOf)
  }

  function IdOf(c: Category): Id {
    c.id
  }

  /** `a.toLowerCase() === b.toLowerCase()`. */
  predicate SameName(a: string, b: string) {
    Lower(a) == Lower(b)
  }

  /** No stored category has this name, ignoring case. */
  ghost predicate NameFree(s: CategoryStore, name: string) {
    forall c | c in s.rows.Values :: !SameName(c.name, name)
  }

  /** `c` is stored at some position of the insertion order before which no name matches. */
  ghost predicate FirstWithName(s: CategoryStore, name: string, c: Category) {
    exists i | 0 <= i < |s.order| ::
      s.order[i] in s.rows && c == s.rows[s.order[i]]
      && forall j | 0 <= j < i :: s.order[j] in s.rows && !SameName(s.rows[s.order[j]].name, name)
  }

  /** `findAll()`: every stored category exactly once, in insertion order. */
  function FindAll(s: CategoryStore): (r: seq<Category>)
    requires Valid(s)
    ensures |r| == |s.rows| == |s.order|
    ensures forall c :: multiset(r)[c] == if c in s.rows.Values then 1 else 0
    ensures forall i | 0 <= i < |r| :: r[i] == s.rows[s.order[i]]
  {
    Tables.ValuesAreRows(s);
    Tables.ValuesOnce(s, IdOf);
    Tables.Values(s)
  }

  /** `findById(id)`: the stored category, or None. */
  function FindById(s: CategoryStore, id: Id): (r: Option<Category>)
    ensures r.Some? <==> id in s.rows
    ensures r.Some? ==> r.value == s.rows[id]
  {
    Tables.Get(s, id)
  }

  /**
   * `findByName(name)`: the first category, in insertion order, whose name
   * equals `name` ignoring case; None exactly when there is no such category.
   */
  function FindByName(s: CategoryStore, name: string): (r: Option<Category>)
    requires Valid(s)
    ensures r.None? <==> NameFree(s, name)
    ensures r.Some? ==> r.value in s.rows.Values && SameName(r.value.name, name)
    ensures r.Some? ==> FirstWithName(s, name, r.value)
  {
    var all := Tables.Values(s);
    match Lists.FirstIndex(all, Named(name))
    case None =>
      NoneNamed(s, name);
      None
    case Some(i) =>
      FirstNamed(s, name, i);
      Some(all[i])
  }

  lemma {:induction false} NoneNamed(s: CategoryStore, name: string)
    requires Valid(s)
    requires forall j | 0 <= j < |Tables.Values(s)| :: !Named(name)(Tables.Values(s)[j])
    ensures NameFree(s, name)
  {
    var all := Tables.Values(s);
    forall c | c in s.rows.Values ensures !SameName(c.name, name) {
      var k :| k in s.rows && s.rows[k] == c;
      var j :| 0 <= j < |s.order| && s.order[j] == k;
      assert all[j] == c;
    }
  }

  lemma {:induction false} FirstNamed(s: CategoryStore, name: string, i: nat)
    requires Valid(s)
    requires i < |Tables.Values(s)| && Named(name)(Tables.Values(s)[i])
    requires forall j | 0 <= j < i :: !Named(name)(Tables.Values(s)[j])
    ensures Tables.Values(s)[i] in s.rows.Values && SameName(Tables.Values(s)[i].name, name)
    ensures FirstWithName(s, name, Tables.Values(s)[i])
  {
    var all := Tables.Values(s);
    assert s.order[i] in s.rows && all[i] == s.rows[s.order[i]];
    assert forall j | 0 <= j < i :: s.order[j] in s.rows && all[j] == s.rows[s.order[j]] && !Named(name)(all[j]);
  }

  function Named(name: string): Category -> bool {
    (c: Category) => SameName(c.name, name)
  }

  /**
   * `create(data)` with `id` drawn from the id supply and `now` the current
   * ISO time: the category is stored under its id with the given name and
   * equal timestamps, and a fresh id adds exactly one key.
   */
  function Create(s: CategoryStore, req: CategoryRequest, id: Id, now: string): (r: (CategoryStore, Category))
    requires Valid(s)
    ensures Valid(r.0)
    ensures r.1.id == id && r.1.name == req.name
    ensures r.1.createdAt == now && r.1.updatedAt == now
    ensures r.0.rows == s.rows[id := r.1]
    ensures id !in s.rows ==> r.0.rows.Keys == s.rows.Keys + {id} && |r.0.rows| == |s.rows| + 1
  {
    var category := Category(id, req.name, now, now);
    (Tables.Put(s, id, category), category)
  }

  /** A category created under a fresh id with a name no other category has is what `findByName` then finds. */
  lemma {:induction false} CreateThenFindByName(s: CategoryStore, req: CategoryRequest, id: Id, now: string)
    requires Valid(s) && id !in s.rows
    requires NameFree(s, req.name)
    ensures FindByName(Create(s, req, id, now).0, req.name) == Some(Create(s, req, id, now).1)
  {
    var (after, created) := Create(s, req, id, now);
    assert created in after.rows.Values by {
      assert after.rows[id] == created;
    }
    assert SameName(created.name, req.name);
    forall k | k in after.rows && k != id ensures !SameName(after.rows[k].name, req.name) {
      assert after.rows[k] == s.rows[k] && s.rows[k] in s.rows.Values;
    }
    var found := FindByName(after, req.name);
    var k :| k in after.rows && after.rows[k] == found.value;
  }

  /**
   * `update(id, data)`: None and an untouched store for an unknown id;
   * otherwise only `name` and `updatedAt` change, in place.
   */
  function Update(s: CategoryStore, id: Id, req: CategoryRequest, now: string): (r: (CategoryStore, Option<Category>))
    requires Valid(s)
    ensures Valid(r.0)
    ensures id !in s.rows ==> r.1.None? && r.0 == s
    ensures id in s.rows ==> r.1 == Some(s.rows[id].(name := req.name, updatedAt := now))
    ensures id in s.rows ==> r.0.rows == s.rows[id := r.1.value] && r.0.order == s.order
  {
    match Tables.Get(s, id)
    case None => (s, None)
    case Some(existing) =>
      var updated := Category(existing.id, req.name, existing.createdAt, now);
      (Tables.Put(s, id, updated), Some(updated))
  }

  /** `delete(id)`: true exactly when the id was stored; afterwards `findById` finds nothing. */
  function Delete(s: CategoryStore, id: Id): (r: (CategoryStore, bool))
    requires Valid(s)
    ensures Valid(r.0)
    ensures r.1 <==> id in s.rows
    ensures r.0.rows == s.rows - {id}
    ensures FindById(r.0, id).None?
  {
    Tables.Remove(s, id)
  }
}
