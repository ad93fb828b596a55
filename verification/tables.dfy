/**
 * The in-memory store behind both repositories: a JavaScript
 * `Map<string, V>`, which is keyed by id and iterates its values in
 * insertion order (an overwrite keeps the entry's place, a delete drops it).
 */
module Tables {
  import opened Wrappers
  import Lists

  type Id = string

  /** `order` lists the keys of `rows` in insertion order. */
  datatype Table<V> = Table(order: seq<Id>, rows: map<Id, V>)

  ghost predicate Valid<V>(t: Table<V>) {
    && Lists.Distinct(t.order)
    && forall id :: id in t.rows <==> id in t.order
  }

  /** `new Map()`. */
  function Empty<V>(): (t: Table<V>)
    ensures Valid(t) && t.rows == map[]
  {
    Table([], map[])
  }

  /** `map.get(id)`, with None for `undefined`. */
  function Get<V>(t: Table<V>, id: Id): (r: Option<V>)
    ensures r.Some? <==> id in t.rows
    ensures r.Some? ==> r.value == t.rows[id]
  {
    if id in t.rows then Some(t.rows[id]) else None
  }

  function Collect<V>(ids: seq<Id>, rows: map<Id, V>): (r: seq<V>)
    requires forall i | 0 <= i < |ids| :: ids[i] in rows
    ensures |r| == |ids|
    ensures forall i | 0 <= i < |ids| :: r[i] == rows[ids[i]]
  {
    if |ids| == 0 then [] else [rows[ids[0]]] + Collect(ids[1..], rows)
  }

  /** `Array.from(map.values())`: one value per key, in insertion order. */
  function Values<V>(t: Table<V>): (r: seq<V>)
    requires Valid(t)
    ensures |r| == |t.order|
    ensures forall i | 0 <= i < |r| :: r[i] == t.rows[t.order[i]]
  {
    Collect(t.order, t.rows)
  }

  lemma {:induction false} CardOfDistinct(s: seq<Id>)
    requires Lists.Distinct(s)
    ensures |set x | x in s| == |s|
  {
    if |s| > 0 {
      var tail := s[1..];
      assert Lists.Distinct(tail);
      CardOfDistinct(tail);
      assert (set x | x in s) == {s[0]} + (set x | x in tail);
      assert s[0] !in tail;
    }
  }

  /** The values are exactly the stored records, one per key. */
  lemma ValuesAreRows<V>(t: Table<V>)
    requires Valid(t)
    ensures |Values(t)| == |t.rows|
    ensures forall v :: v in Values(t) <==> v in t.rows.Values
  {
    CardOfDistinct(t.order);
    assert t.rows.Keys == set x | x in t.order;
    var vs := Values(t);
    forall v | v in t.rows.Values ensures v in vs {
      var id :| id in t.rows && t.rows[id] == v;
      var i :| 0 <= i < |t.order| && t.order[i] == id;
      assert vs[i] == v;
    }
  }

  /** `map.set(id, v)`. */
  function Put<V>(t: Table<V>, id: Id, v: V): (r: Table<V>)
    requires Valid(t)
    ensures Valid(r)
    ensures r.rows == t.rows[id := v]
    ensures id in t.rows ==> r.order == t.order
    ensures id !in t.rows ==> r.order == t.order + [id]
  {
    if id in t.rows then Table(t.order, t.rows[id := v])
    else Table(t.order + [id], t.rows[id := v])
  }

  /** A new key goes to the end of the iteration order. */
  lemma ValuesAfterInsert<V>(t: Table<V>, id: Id, v: V)
    requires Valid(t) && id !in t.rows
    ensures Values(Put(t, id, v)) == Values(t) + [v]
  {
    var r := Put(t, id, v);
    var after, before := Values(r), Values(t) + [v];
    forall i | 0 <= i < |after| ensures after[i] == before[i] {
      if i < |t.order| {
        assert r.order[i] == t.order[i] && t.order[i] in t.rows && t.order[i] != id;
      }
    }
    assert after == before;
  }

  /** `map.delete(id)`, returning whether the key was there. */
  function Remove<V>(t: Table<V>, id: Id): (r: (Table<V>, bool))
    requires Valid(t)
    ensures Valid(r.0)
    ensures r.1 <==> id in t.rows
    ensures r.0.rows == t.rows - {id}
    ensures Lists.SubsequenceOf(r.0.order, t.order)
  {
    var order := Lists.Filter(t.order, x => x != id);
    Lists.FilterDistinct(t.order, x => x != id);
    Lists.FilterSubsequence(t.order, x => x != id);
    (Table(order, t.rows - {id}), id in t.rows)
  }

  /** `for (const id of ids) map.delete(id)`. */
  function RemoveAll<V>(t: Table<V>, ids: seq<Id>): (r: Table<V>)
    requires Valid(t)
    ensures Valid(r)
    ensures r.rows == t.rows - (set x | x in ids)
    decreases |ids|
  {
    if |ids| == 0 then t
    else
      var t1 := Remove(t, ids[0]).0;
      var r := RemoveAll(t1, ids[1..]);
      SubtractTwice(t.rows, {ids[0]}, set x | x in ids[1..]);
      assert (set x | x in ids) == {ids[0]} + (set x | x in ids[1..]);
      r
  }

  /** Deleting a list of keys keeps the remaining keys in their insertion order. */
  lemma {:induction false} RemoveAllKeepsOrder<V>(t: Table<V>, ids: seq<Id>)
    requires Valid(t)
    ensures Lists.SubsequenceOf(RemoveAll(t, ids).order, t.order)
    decreases |ids|
  {
    if |ids| == 0 {
      Lists.SubsequenceRefl(t.order);
    } else {
      var t1 := Remove(t, ids[0]).0;
      RemoveAllKeepsOrder(t1, ids[1..]);
      Lists.SubsequenceTrans(RemoveAll(t1, ids[1..]).order, t1.order, t.order);
    }
  }

  lemma SubtractTwice<V>(m: map<Id, V>, a: set<Id>, b: set<Id>)
    ensures (m - a) - b == m - (a + b)
  {
  }

  /** Every record is stored under its own id. */
  ghost predicate KeyedBy<V>(t: Table<V>, idOf: V -> Id) {
    forall id | id in t.rows :: idOf(t.rows[id]) == id
  }

  /** In a table whose records carry their own key, each stored record occurs once among the values. */
  lemma {:induction false} ValuesOnce<V>(t: Table<V>, idOf: V -> Id)
    requires Valid(t) && KeyedBy(t, idOf)
    ensures forall v :: multiset(Values(t))[v] == if v in t.rows.Values then 1 else 0
  {
    var vs := Values(t);
    ValuesAreRows(t);
    assert Lists.Distinct(vs) by {
      forall i, j | 0 <= i < j < |vs| ensures vs[i] != vs[j] {
        assert t.order[i] in t.rows && t.order[j] in t.rows;
        assert idOf(vs[i]) == t.order[i] && idOf(vs[j]) == t.order[j];
      }
    }
    forall v ensures multiset(vs)[v] == if v in t.rows.Values then 1 else 0 {
      Lists.DistinctCount(vs, v);
    }
  }
}
