/**
 * A JavaScript `Map<string, V>` as the store uses it: the entries, and the
 * order in which their keys were first set, which is the order `values()`
 * iterates in.
 */
module Tables {
  import opened Wrappers
  import opened Listing

  /** Record ids: `randomUUID()` strings. */
  type Id = string

  datatype Table<V> = Table(entries: map<Id, V>, order: seq<Id>)

  /** `order` lists every key exactly once. */
  ghost predicate Valid<V>(t: Table<V>)
  {
    && (forall i, j :: 0 <= i < j < |t.order| ==> t.order[i] != t.order[j])
    && (forall k :: k in t.entries <==> k in t.order)
  }

  /** `new Map()`. */
  function Empty<V>(): (t: Table<V>)
    ensures Valid(t) && t.entries == map[] && t.order == []
  {
    Table(map[], [])
  }

  /**
   * `m.set(k, v)`: a key already present keeps its place in the iteration
   * order; a new key goes last.
   */
  function Set<V>(t: Table<V>, k: Id, v: V): (r: Table<V>)
    requires Valid(t)
    ensures Valid(r)
    ensures r.entries == t.entries[k := v]
    ensures k in t.entries ==> r.order == t.order
    ensures k !in t.entries ==> r.order == t.order + [k]
  {
    Table(t.entries[k := v], if k in t.entries then t.order else t.order + [k])
  }

  /** `Array.from(m.values())`. */
  function Values<V(==,!new)>(t: Table<V>): (vs: seq<V>)
    requires Valid(t)
    ensures |vs| == |t.order|
    ensures forall i :: 0 <= i < |vs| ==> vs[i] == t.entries[t.order[i]]
    ensures forall v :: v in vs <==> v in t.entries.Values
  {
    var vs := seq(|t.order|, i requires 0 <= i < |t.order| => t.entries[t.order[i]]);
    assert forall v :: v in t.entries.Values ==> v in vs by {
      forall v | v in t.entries.Values
        ensures v in vs
      {
        var k :| k in t.entries && t.entries[k] == v;
        var i :| 0 <= i < |t.order| && t.order[i] == k;
        assert vs[i] == v;
      }
    }
    vs
  }

  /** The `i`-th value in iteration order is the first one satisfying `p`. */
  predicate FirstMatchAt<V(!new)>(t: Table<V>, p: V -> bool, i: int)
    requires Valid(t)
  {
    && 0 <= i < |t.order|
    && p(t.entries[t.order[i]])
    && forall j :: 0 <= j < i ==> !p(t.entries[t.order[j]])
  }

  /**
   * `Array.from(m.values()).find(p)`: the value satisfying `p` whose key was
   * set first.
   */
  function FirstWhere<V(==,!new)>(t: Table<V>, p: V -> bool): (r: Option<V>)
    requires Valid(t)
    ensures r.None? <==> forall k :: k in t.entries ==> !p(t.entries[k])
    ensures r.Some? ==> exists i :: FirstMatchAt(t, p, i) && r.value == t.entries[t.order[i]]
    ensures forall i :: FirstMatchAt(t, p, i) ==> r == Some(t.entries[t.order[i]])
  {
    var vs := Values(t);
    var r := Find(vs, p);
    assert r.Some? ==> exists i :: FirstMatchAt(t, p, i) && r.value == t.entries[t.order[i]] by {
      if r.Some? {
        var i :| 0 <= i < |vs| && vs[i] == r.value && p(vs[i]) && forall j :: 0 <= j < i ==> !p(vs[j]);
        assert FirstMatchAt(t, p, i);
      }
    }
    assert r.None? ==> forall k :: k in t.entries ==> !p(t.entries[k]) by {
      if r.None? {
        forall k | k in t.entries
          ensures !p(t.entries[k])
        {
          var i :| 0 <= i < |t.order| && t.order[i] == k;
          assert vs[i] == t.entries[k];
        }
      }
    }
    forall i | FirstMatchAt(t, p, i)
      ensures r == Some(t.entries[t.order[i]])
    {
      assert vs[i] == t.entries[t.order[i]] && p(vs[i]);
      var i0 :| 0 <= i0 < |vs| && vs[i0] == r.value && p(vs[i0]) && forall j :: 0 <= j < i0 ==> !p(vs[j]);
      assert vs[i0] == t.entries[t.order[i0]];
      assert i0 == i;
    }
    r
  }

  /** `Array.from(m.values()).filter(p)`, in iteration order. */
  function ValuesWhere<V(==,!new)>(t: Table<V>, p: V -> bool): (r: seq<V>)
    requires Valid(t)
    ensures forall v :: v in r <==> v in t.entries.Values && p(v)
    ensures forall v {:trigger multiset(r)[v]} :: multiset(r)[v] == if p(v) then multiset(Values(t))[v] else 0
    ensures multiset(r) <= multiset(Values(t))
    ensures |r| <= |t.order|
  {
    Filter(Values(t), p)
  }

  /** A key set for the first time puts its value last in iteration order. */
  lemma ValuesOfNewKey<V(!new)>(t: Table<V>, k: Id, v: V)
    requires Valid(t) && k !in t.entries
    ensures Values(Set(t, k, v)) == Values(t) + [v]
  {
    var before, after := Values(t), Values(Set(t, k, v));
    assert |after| == |before| + 1;
    forall i | 0 <= i < |after|
      ensures after[i] == (before + [v])[i]
    {
      if i < |before| {
        assert Set(t, k, v).order[i] == t.order[i] != k;
      }
    }
  }

  /**
   * So `filter` over the values lists the values of older keys first: a new
   * key's value, when it matches, comes last.
   */
  lemma ValuesWhereOfNewKey<V(!new)>(t: Table<V>, k: Id, v: V, p: V -> bool)
    requires Valid(t) && k !in t.entries
    ensures ValuesWhere(Set(t, k, v), p) == ValuesWhere(t, p) + (if p(v) then [v] else [])
  {
    ValuesOfNewKey(t, k, v);
    FilterOfConcat(Values(t), [v], p);
    FilterOfOne(v, p);
  }

  /** When every value carries its own key under `f`, no two values agree on `f`. */
  lemma ValuesDistinct<V(!new)>(t: Table<V>, f: V -> Id)
    requires Valid(t)
    requires forall k :: k in t.entries ==> f(t.entries[k]) == k
    ensures DistinctBy(Values(t), f)
  {
  }

  /**
   * `randomUUID()`: an id that is not yet a key of `t` (longer than every
   * key in use).
   */
  method FreshKey<V>(t: Table<V>) returns (id: Id)
    ensures id !in t.entries && id != ""
  {
    var longest: nat := 0;
    var rest := t.entries.Keys;
    while rest != {}
      invariant rest <= t.entries.Keys
      invariant forall k :: k in t.entries && k !in rest ==> |k| <= longest
      decreases rest
    {
      var k :| k in rest;
      if |k| > longest {
        longest := |k|;
      }
      rest := rest - {k};
    }
    id := seq(longest + 1, _ => 'u');
  }
}
