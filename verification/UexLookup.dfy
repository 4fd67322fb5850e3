/** The reachability index over terminals and commodities, and the route search that fans out through it. */
module UexLookup {
  import opened Options

  type Terminal = int
  type Commodity = int

  // ----- Indexes -----

  function At<K, V>(index: map<K, set<V>>, key: K): set<V> {
    if key in index then index[key] else {}
  }

  /** The inverse relates each value to the keys that list it, and has no empty entry. */
  ghost predicate IsInverse<K(!new), V(!new)>(index: map<K, set<V>>, inverse: map<V, set<K>>) {
    && (forall k, v :: k in At(inverse, v) <==> v in At(index, k))
    && forall v :: v in inverse ==> inverse[v] != {}
  }

  /** Inverting twice loses only the empty entries. */
  lemma InverseOfInverse<K(!new), V(!new)>(index: map<K, set<V>>, inverse: map<V, set<K>>, back: map<K, set<V>>)
    requires IsInverse(index, inverse) && IsInverse(inverse, back)
    ensures back == map k | k in index && index[k] != {} :: index[k]
  {
    forall k ensures At(back, k) == At(index, k) {
      forall v ensures v in At(back, k) <==> v in At(index, k) {
        assert v in At(back, k) <==> k in At(inverse, v);
      }
    }
    forall k ensures k in back <==> k in index && index[k] != {} {
      assert At(back, k) == At(index, k);
    }
    forall k | k in back ensures back[k] == index[k] {
      assert At(back, k) == At(index, k);
    }
  }

  method Invert<K(==,!new), V(==,!new)>(index: map<K, set<V>>) returns (inverse: map<V, set<K>>)
    ensures IsInverse(index, inverse)
  {
    inverse := map[];
    var keys := index.Keys;
    while keys != {}
      invariant keys <= index.Keys
      invariant forall k, v :: k in At(inverse, v) <==> k !in keys && v in At(index, k)
      invariant forall v :: v in inverse ==> inverse[v] != {}
      decreases keys
    {
      var key :| key in keys;
      var values := index[key];
      while values != {}
        invariant values <= index[key]
        invariant forall k, v :: k in At(inverse, v) <==>
          (k !in keys && v in At(index, k)) || (k == key && v in index[key] && v !in values)
        invariant forall v :: v in inverse ==> inverse[v] != {}
        decreases values
      {
        var value :| value in values;
        inverse := inverse[value := At(inverse, value) + {key}];
        values := values - {value};
      }
      keys := keys - {key};
    }
  }

  ghost predicate Lists<K, V>(index: map<K, set<V>>, keys: set<K>, v: V) {
    exists k :: k in keys && v in At(index, k)
  }

  /** Everything any of the keys lists. */
  method Union<K(==), V(==,!new)>(index: map<K, set<V>>, keys: set<K>) returns (result: set<V>)
    ensures forall v :: v in result <==> Lists(index, keys, v)
  {
    result := {};
    var left := keys;
    while left != {}
      invariant left <= keys
      invariant forall v :: v in result <==> Lists(index, keys - left, v)
      decreases left
    {
      var key :| key in left;
      ghost var before := keys - left;
      left := left - {key};
      assert keys - left == before + {key};
      result := result + At(index, key);
    }
    assert keys - left == keys;
  }

  /** The key lists at least one of the values. */
  ghost predicate ListsSome<K, V(!new)>(index: map<K, set<V>>, key: K, values: set<V>) {
    exists v :: v in values && v in At(index, key)
  }

  class Index {
    var loaded: bool
    var offers: map<Terminal, set<Commodity>>
    var accepts: map<Terminal, set<Commodity>>
    var sellersOf: map<Commodity, set<Terminal>>
    var buyersOf: map<Commodity, set<Terminal>>

    ghost predicate Valid()
      reads this
    {
      IsInverse(offers, sellersOf) && IsInverse(accepts, buyersOf)
    }

    constructor ()
      ensures Valid() && !loaded
    {
      loaded, offers, accepts, sellersOf, buyersOf := false, map[], map[], map[], map[];
    }

    /** Installs a fetched map and derives the direction from commodities to terminals. */
    method SetReachability(offered: map<Terminal, seq<Commodity>>, accepted: map<Terminal, seq<Commodity>>)
      modifies this
      ensures Valid() && loaded
      ensures offers == (map t | t in offered :: set c | c in offered[t])
      ensures accepts == (map t | t in accepted :: set c | c in accepted[t])
    {
      offers := map t | t in offered :: set c | c in offered[t];
      accepts := map t | t in accepted :: set c | c in accepted[t];
      sellersOf := Invert(offers);
      buyersOf := Invert(accepts);
      loaded := true;
    }

    method CommoditiesOfferedAt(terminals: set<Terminal>) returns (found: Option<set<Commodity>>)
      requires Valid()
      ensures found.Some? <==> loaded
      ensures loaded ==> forall c :: c in found.value <==> Lists(offers, terminals, c)
    {
      if !loaded {
        return None;
      }
      var all := Union(offers, terminals);
      found := Some(all);
    }

    method CommoditiesAcceptedAt(terminals: set<Terminal>) returns (found: Option<set<Commodity>>)
      requires Valid()
      ensures found.Some? <==> loaded
      ensures loaded ==> forall c :: c in found.value <==> Lists(accepts, terminals, c)
    {
      if !loaded {
        return None;
      }
      var all := Union(accepts, terminals);
      found := Some(all);
    }

    /** Answered from the derived index, and exactly as the fetched map would answer it. */
    method TerminalsSelling(commodities: set<Commodity>) returns (found: Option<set<Terminal>>)
      requires Valid()
      ensures found.Some? <==> loaded
      ensures loaded ==> forall t :: t in found.value <==> ListsSome(offers, t, commodities)
    {
      if !loaded {
        return None;
      }
      var all := Union(sellersOf, commodities);
      SellsSome(offers, sellersOf, commodities);
      found := Some(all);
    }

    method TerminalsBuying(commodities: set<Commodity>) returns (found: Option<set<Terminal>>)
      requires Valid()
      ensures found.Some? <==> loaded
      ensures loaded ==> forall t :: t in found.value <==> ListsSome(accepts, t, commodities)
    {
      if !loaded {
        return None;
      }
      var all := Union(buyersOf, commodities);
      SellsSome(accepts, buyersOf, commodities);
      found := Some(all);
    }
  }

  lemma SellsSome<K(!new), V(!new)>(index: map<K, set<V>>, inverse: map<V, set<K>>, values: set<V>)
    requires IsInverse(index, inverse)
    ensures forall k :: Lists(inverse, values, k) <==> ListsSome(index, k, values)
  {
    forall k, v ensures v in values && k in At(inverse, v) <==> v in values && v in At(index, k) {
    }
  }
}
