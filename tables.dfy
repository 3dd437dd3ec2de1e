/**
 * A JavaScript `Map`: a finite map whose keys also remember the order in which
 * they were first inserted, since `Map.prototype.values()` and
 * `Map.prototype.entries()` iterate in that order.  Setting an existing key
 * keeps its place; deleting a key removes it from the order.
 */
module Tables {
  import opened Wrappers

  datatype Table<K(==,!new), V> = Table(order: seq<K>, rows: map<K, V>) {

    /** The order lists every key exactly once. */
    ghost predicate Valid()
    {
      && (forall i, j :: 0 <= i < j < |order| ==> order[i] != order[j])
      && (forall k :: k in rows <==> k in order)
    }

    /** `Map.prototype.get`. */
    function Get(k: K): (r: Option<V>)
      ensures r.Some? <==> k in rows
      ensures r.Some? ==> r.value == rows[k]
    {
      if k in rows then Some(rows[k]) else None
    }

    /** `Array.from(map.values())`. */
    function Values(): (vs: seq<V>)
      requires Valid()
      ensures |vs| == |order|
      ensures forall i :: 0 <= i < |order| ==> vs[i] == rows[order[i]]
    {
      seq(|order|, i requires 0 <= i < |order| => rows[order[i]])
    }

    /** `Map.prototype.set`: a new key goes last, an existing key keeps its place. */
    function Put(k: K, v: V): (t: Table<K, V>)
      requires Valid()
      ensures t.Valid()
      ensures t.rows == rows[k := v]
      ensures k in rows ==> t.order == order
      ensures k !in rows ==> t.order == order + [k]
    {
      if k in rows then Table(order, rows[k := v]) else Table(order + [k], rows[k := v])
    }

    /** `Map.prototype.delete`, without its boolean result. */
    function Delete(k: K): (t: Table<K, V>)
      requires Valid()
      ensures t.Valid()
      ensures t.rows == rows - {k}
      ensures forall j :: j in t.order <==> j in order && j != k
    {
      Table(Without(order, k), rows - {k})
    }
  }

  function Empty<K(==,!new), V>(): (t: Table<K, V>)
    ensures t.Valid() && t.rows == map[] && t.order == []
  {
    Table([], map[])
  }

  /** `s` with every occurrence of `k` removed, the rest in order. */
  function Without<K(==,!new)>(s: seq<K>, k: K): (r: seq<K>)
    ensures forall j :: j in r <==> j in s && j != k
    ensures (forall a, b :: 0 <= a < b < |s| ==> s[a] != s[b])
        ==> (forall a, b :: 0 <= a < b < |r| ==> r[a] != r[b])
  {
    if s == [] then []
    else
      var init, last := s[..|s| - 1], s[|s| - 1];
      assert s == init + [last];
      var r0 := Without(init, k);
      var r := r0 + (if last == k then [] else [last]);
      assert (forall a, b :: 0 <= a < b < |s| ==> s[a] != s[b])
        ==> (forall a, b :: 0 <= a < b < |r| ==> r[a] != r[b]) by {
        if (forall a, b :: 0 <= a < b < |s| ==> s[a] != s[b]) {
          assert forall a, b :: 0 <= a < b < |init| ==> init[a] != init[b];
          assert last !in init;
        }
      }
      r
  }

  /** Putting a new key appends its value to `values()`. */
  lemma PutNewValues<K(!new), V>(t: Table<K, V>, k: K, v: V)
    requires t.Valid() && k !in t.rows
    ensures t.Put(k, v).Values() == t.Values() + [v]
  {
    var u := t.Put(k, v);
    forall i | 0 <= i < |t.order|
      ensures u.Values()[i] == t.Values()[i]
    {
      assert t.order[i] in t.rows;
    }
  }

  /** Putting an existing key changes its value in place in `values()`. */
  lemma PutExistingValues<K(!new), V>(t: Table<K, V>, k: K, v: V)
    requires t.Valid() && k in t.rows
    ensures |t.Put(k, v).Values()| == |t.Values()|
    ensures forall i :: 0 <= i < |t.order| ==>
      t.Put(k, v).Values()[i] == if t.order[i] == k then v else t.Values()[i]
  {
  }

  /** `values()` lists exactly the stored values. */
  lemma ValuesMembers<K(!new), V>(t: Table<K, V>)
    requires t.Valid()
    ensures forall v :: v in t.Values() <==> v in t.rows.Values
  {
    var vs := t.Values();
    forall v | v in t.rows.Values
      ensures v in vs
    {
      var k :| k in t.rows && t.rows[k] == v;
      var i :| 0 <= i < |t.order| && t.order[i] == k;
      assert vs[i] == v;
    }
    forall v | v in vs
      ensures v in t.rows.Values
    {
      var i :| 0 <= i < |vs| && vs[i] == v;
      assert t.order[i] in t.rows;
    }
  }
}
