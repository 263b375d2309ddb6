/** Python's insertion-ordered dictionaries, as the caches and tables of the mesh use them. */
module OrderedDicts {
  import opened Lists

  /** `keys` without any occurrence of `k`, the rest in order. */
  function Without<K(==)>(keys: seq<K>, k: K): seq<K> {
    if keys == [] then []
    else if keys[0] == k then Without(keys[1..], k)
    else [keys[0]] + Without(keys[1..], k)
  }

  /** `rest` has the elements of `keys` other than `k`. */
  ghost predicate LacksOnly<K>(rest: seq<K>, keys: seq<K>, k: K) {
    && (forall x :: x in rest ==> x in keys && x != k)
    && (forall x :: x in keys && x != k ==> x in rest)
  }

  lemma {:induction false} WithoutMembers<K>(keys: seq<K>, k: K)
    ensures LacksOnly(Without(keys, k), keys, k)
  {
    if keys != [] {
      WithoutMembers(keys[1..], k);
      assert forall x :: x in keys ==> x == keys[0] || x in keys[1..];
    }
  }

  lemma {:induction false} WithoutDistinct<K>(keys: seq<K>, k: K)
    requires Distinct(keys)
    ensures Distinct(Without(keys, k))
    ensures |Without(keys, k)| == if k in keys then |keys| - 1 else |keys|
  {
    if keys != [] {
      var rest := Without(keys[1..], k);
      WithoutDistinct(keys[1..], k);
      WithoutMembers(keys[1..], k);
      assert ([keys[0]] + rest)[1..] == rest;
    }
  }

  lemma {:induction false} WithoutAbsent<K>(keys: seq<K>, k: K)
    requires k !in keys
    ensures Without(keys, k) == keys
  {
    if keys != [] {
      WithoutAbsent(keys[1..], k);
    }
  }

  /** The keys that come later than the first `x`. */
  ghost function After<K>(keys: seq<K>, x: K): set<K> {
    if keys == [] then {}
    else if keys[0] == x then ToSet(keys[1..])
    else After(keys[1..], x)
  }

  lemma {:induction false} AfterWithout<K>(keys: seq<K>, k: K, x: K)
    requires x != k
    ensures After(Without(keys, k), x) <= After(keys, x)
  {
    if keys != [] {
      AfterWithout(keys[1..], k, x);
      WithoutMembers(keys[1..], k);
      var rest := Without(keys[1..], k);
      assert ([keys[0]] + rest)[1..] == rest;
    }
  }

  lemma {:induction false} AfterAppend<K>(keys: seq<K>, k: K, x: K)
    ensures x in keys ==> After(keys + [k], x) == After(keys, x) + {k}
    ensures x !in keys ==> After(keys + [k], x) == {}
  {
    if keys == [] {
      assert [k][1..] == [];
    } else {
      assert (keys + [k])[1..] == keys[1..] + [k];
      AfterAppend(keys[1..], k, x);
    }
  }

  /** A dictionary that remembers the order in which its keys were (re)inserted. */
  datatype OrderedDict<K(==), V> = OrderedDict(keys: seq<K>, vals: map<K, V>)
  {
    ghost predicate Valid() {
      && Distinct(keys)
      && (forall k :: k in keys ==> k in vals)
      && (forall k :: k in vals ==> k in keys)
    }

    /** `d[k] = v`: a key already present keeps its place. */
    function Put(k: K, v: V): OrderedDict<K, V> {
      OrderedDict(if k in vals then keys else keys + [k], vals[k := v])
    }

    /** `del d[k]`, or `d.pop(k, None)` */
    function Delete(k: K): OrderedDict<K, V> {
      OrderedDict(Without(keys, k), vals - {k})
    }

    /** `d.move_to_end(k)` */
    function MoveToEnd(k: K): OrderedDict<K, V> {
      OrderedDict(Without(keys, k) + [k], vals)
    }

    /** `d.popitem(last=False)` */
    function PopFirst(): OrderedDict<K, V>
      requires keys != []
    {
      OrderedDict(keys[1..], vals - {keys[0]})
    }

    /** The deletions of a loop over `ks`. */
    function DeleteAll(ks: seq<K>): OrderedDict<K, V>
      decreases ks
    {
      if ks == [] then this else Delete(ks[0]).DeleteAll(ks[1..])
    }

    /** Deleting a list of keys removes these and leaves the rest as it was. */
    lemma {:induction false} DeleteAllExactly(ks: seq<K>)
      requires Valid()
      ensures DeleteAll(ks).Valid() && |DeleteAll(ks).keys| <= |keys|
      ensures OnlyMissing(DeleteAll(ks), ks)
      decreases ks
    {
      if ks != [] {
        DeleteValid(ks[0]);
        Delete(ks[0]).DeleteAllExactly(ks[1..]);
        assert forall k :: k in ks ==> k == ks[0] || k in ks[1..];
      }
    }

    ghost predicate OnlyMissing(rest: OrderedDict<K, V>, ks: seq<K>) {
      && (forall k :: k in rest.vals ==> k in vals && k !in ks && rest.vals[k] == vals[k])
      && (forall k :: k in vals && k !in ks ==> k in rest.vals)
    }

    lemma PutValid(k: K, v: V)
      requires Valid()
      ensures Put(k, v).Valid()
      ensures |Put(k, v).keys| == if k in vals then |keys| else |keys| + 1
    {
      if k !in vals {
        DistinctAppend(keys, k);
      }
    }

    lemma DeleteValid(k: K)
      requires Valid()
      ensures Delete(k).Valid()
      ensures |Delete(k).keys| == if k in vals then |keys| - 1 else |keys|
    {
      WithoutMembers(keys, k);
      WithoutDistinct(keys, k);
    }

    lemma MoveToEndValid(k: K)
      requires Valid() && k in vals
      ensures MoveToEnd(k).Valid() && |MoveToEnd(k).keys| == |keys|
    {
      WithoutMembers(keys, k);
      WithoutDistinct(keys, k);
      DistinctAppend(Without(keys, k), k);
    }

    lemma PopFirstValid()
      requires Valid() && keys != []
      ensures PopFirst().Valid()
    {
      assert forall k :: k in keys <==> k == keys[0] || k in keys[1..];
    }

    /** Deleting the first key is the same as popping it. */
    lemma DeleteFirst()
      requires Valid() && keys != []
      ensures Delete(keys[0]) == PopFirst()
    {
      WithoutAbsent(keys[1..], keys[0]);
    }

    /** What evicting the first key costs another one: nothing. */
    lemma AfterPopFirst(x: K)
      requires Valid() && keys != [] && x in keys && x != keys[0]
      ensures x in PopFirst().keys && After(PopFirst().keys, x) == After(keys, x)
    {}

    /** Everything else in the dictionary was inserted after the key it would evict. */
    lemma AfterFirst()
      requires Valid() && keys != []
      ensures |After(keys, keys[0])| == |keys| - 1
    {
      DistinctSize(keys[1..]);
    }
  }
}
