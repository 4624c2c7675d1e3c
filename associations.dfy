// Kotlin's `associate` into a LinkedHashMap, and `filterValues { it != null }`
// followed by `mapValues { it.value!! }`. A map is a sequence of (key, value)
// entries in iteration order. `associate` puts each pair in turn: a new key
// is appended, and an existing key keeps its position but takes the new
// value, so the last value wins at the position of the first occurrence.
module Associations {
  import opened Outcomes

  function Keys<K, V>(m: seq<(K, V)>): (r: seq<K>)
    ensures |r| == |m| && forall i :: 0 <= i < |m| ==> r[i] == m[i].0
  {
    if m == [] then [] else [m[0].0] + Keys(m[1..])
  }

  predicate DistinctKeys<K(==), V>(m: seq<(K, V)>)
  {
    forall i, j :: 0 <= i < j < |m| ==> m[i].0 != m[j].0
  }

  /** `get(k)`: the value of the first entry with key k. */
  function Lookup<K(==), V>(m: seq<(K, V)>, k: K): (r: Option<V>)
    ensures r.Some? <==> k in Keys(m)
    ensures r.Some? ==> (k, r.value) in m
  {
    if m == [] then None
    else if m[0].0 == k then Some(m[0].1)
    else
      assert Keys(m) == [m[0].0] + Keys(m[1..]);
      Lookup(m[1..], k)
  }

  /** On a map with distinct keys every entry is what its key looks up. */
  lemma {:induction false} LookupEntry<K, V>(m: seq<(K, V)>, i: int)
    requires DistinctKeys(m) && 0 <= i < |m|
    ensures Lookup(m, m[i].0) == Some(m[i].1)
  {
    if i > 0 {
      LookupEntry(m[1..], i - 1);
    }
  }

  /** `put(k, v)` on a LinkedHashMap. */
  function Put<K(==), V>(m: seq<(K, V)>, k: K, v: V): (r: seq<(K, V)>)
  {
    if m == [] then [(k, v)]
    else if m[0].0 == k then [(k, v)] + m[1..]
    else [m[0]] + Put(m[1..], k, v)
  }

  lemma {:induction false} PutSpec<K, V>(m: seq<(K, V)>, k: K, v: V)
    requires DistinctKeys(m)
    ensures DistinctKeys(Put(m, k, v))
    ensures Keys(Put(m, k, v)) == if k in Keys(m) then Keys(m) else Keys(m) + [k]
    ensures forall e :: e in Put(m, k, v) ==> e in m || e == (k, v)
    ensures forall k' :: Lookup(Put(m, k, v), k') == if k' == k then Some(v) else Lookup(m, k')
  {
    if m != [] && m[0].0 != k {
      PutSpec(m[1..], k, v);
      var r := Put(m, k, v);
      assert Keys(m) == [m[0].0] + Keys(m[1..]);
      assert Keys(r) == [m[0].0] + Keys(Put(m[1..], k, v));
      assert m[0].0 !in Keys(m[1..]);
      forall i, j | 0 <= i < j < |r| ensures r[i].0 != r[j].0 {
        if i == 0 {
          assert r[j].0 in Keys(Put(m[1..], k, v));
        }
      }
    } else if m != [] {
      var r := Put(m, k, v);
      assert Keys(m) == [m[0].0] + Keys(m[1..]);
      assert Keys(r) == [k] + Keys(m[1..]);
      assert m[0].0 !in Keys(m[1..]);
    }
  }

  /** `associate`: the pairs put one after another into an empty map. */
  function Associate<K(==), V>(ps: seq<(K, V)>): seq<(K, V)>
  {
    if ps == [] then []
    else Put(Associate(ps[..|ps| - 1]), ps[|ps| - 1].0, ps[|ps| - 1].1)
  }

  /** The keys in order of first occurrence, each once. */
  function Dedup<K(==)>(ks: seq<K>): seq<K>
  {
    if ks == [] then []
    else
      var d := Dedup(ks[..|ks| - 1]);
      if ks[|ks| - 1] in d then d else d + [ks[|ks| - 1]]
  }

  /** The value of the last pair with key k. */
  function Last<K(==), V>(ps: seq<(K, V)>, k: K): Option<V>
  {
    if ps == [] then None
    else if ps[|ps| - 1].0 == k then Some(ps[|ps| - 1].1)
    else Last(ps[..|ps| - 1], k)
  }

  /** `associate` builds a map with one entry per distinct key, in order of
      first occurrence. */
  lemma {:induction false} AssociateKeys<K, V>(ps: seq<(K, V)>)
    ensures DistinctKeys(Associate(ps))
    ensures Keys(Associate(ps)) == Dedup(Keys(ps))
  {
    if ps != [] {
      var init := ps[..|ps| - 1];
      var p := ps[|ps| - 1];
      AssociateKeys(init);
      PutSpec(Associate(init), p.0, p.1);
      assert Keys(ps)[..|ps| - 1] == Keys(init);
    }
  }

  /** Each key holds the value of its last pair: a later pair overwrites an
      earlier one. */
  lemma {:induction false} AssociateLookup<K, V>(ps: seq<(K, V)>, k: K)
    ensures Lookup(Associate(ps), k) == Last(ps, k)
  {
    if ps != [] {
      var init := ps[..|ps| - 1];
      var p := ps[|ps| - 1];
      AssociateKeys(init);
      AssociateLookup(init, k);
      PutSpec(Associate(init), p.0, p.1);
    }
  }

  /** Every entry of the map is one of the input pairs. */
  lemma {:induction false} AssociateEntries<K, V>(ps: seq<(K, V)>)
    ensures forall e :: e in Associate(ps) ==> e in ps
  {
    if ps != [] {
      var init := ps[..|ps| - 1];
      var p := ps[|ps| - 1];
      AssociateKeys(init);
      AssociateEntries(init);
      PutSpec(Associate(init), p.0, p.1);
      forall e | e in Associate(ps) ensures e in ps {
        if e != p {
          assert e in init;
        }
      }
    }
  }

  /** Input whose keys are already distinct is kept as it is. */
  lemma {:induction false} AssociateDistinct<K, V>(ps: seq<(K, V)>)
    requires DistinctKeys(ps)
    ensures Associate(ps) == ps
  {
    if ps != [] {
      var init := ps[..|ps| - 1];
      var p := ps[|ps| - 1];
      AssociateDistinct(init);
      AssociateKeys(init);
      PutAppends(init, p.0, p.1);
      assert init + [p] == ps;
    }
  }

  lemma {:induction false} PutAppends<K, V>(m: seq<(K, V)>, k: K, v: V)
    requires k !in Keys(m)
    ensures Put(m, k, v) == m + [(k, v)]
  {
    if m != [] {
      assert Keys(m) == [m[0].0] + Keys(m[1..]);
      PutAppends(m[1..], k, v);
      assert m == [m[0]] + m[1..];
    }
  }

  /** `filterValues { it != null }.mapValues { it.value!! }` */
  function FilterSome<K, V>(m: seq<(K, Option<V>)>): (r: seq<(K, V)>)
    ensures |r| <= |m|
  {
    if m == [] then []
    else (if m[0].1.Some? then [(m[0].0, m[0].1.value)] else []) + FilterSome(m[1..])
  }

  /** The filtered map holds exactly the non-null entries. */
  lemma {:induction false} FilterSomeMember<K, V>(m: seq<(K, Option<V>)>, e: (K, V))
    ensures e in FilterSome(m) <==> (e.0, Some(e.1)) in m
  {
    if m != [] {
      FilterSomeMember(m[1..], e);
      assert m == [m[0]] + m[1..];
    }
  }

  /** It keeps only keys of the input, and keeps them distinct. */
  lemma {:induction false} FilterSomeKeys<K, V>(m: seq<(K, Option<V>)>)
    ensures forall k :: k in Keys(FilterSome(m)) ==> k in Keys(m)
    ensures DistinctKeys(m) ==> DistinctKeys(FilterSome(m))
  {
    FilterSomeKeysIn(m);
    if DistinctKeys(m) {
      FilterSomeDistinct(m);
    }
  }

  lemma {:induction false} FilterSomeKeysIn<K, V>(m: seq<(K, Option<V>)>)
    ensures forall k :: k in Keys(FilterSome(m)) ==> k in Keys(m)
  {
    if m != [] {
      FilterSomeKeysIn(m[1..]);
      var head: seq<(K, V)> := if m[0].1.Some? then [(m[0].0, m[0].1.value)] else [];
      assert FilterSome(m) == head + FilterSome(m[1..]);
      assert Keys(m) == [m[0].0] + Keys(m[1..]);
      assert Keys(FilterSome(m)) == Keys(head) + Keys(FilterSome(m[1..]));
    }
  }

  lemma {:induction false} FilterSomeDistinct<K, V>(m: seq<(K, Option<V>)>)
    requires DistinctKeys(m)
    ensures DistinctKeys(FilterSome(m))
  {
    if m != [] {
      var t := FilterSome(m[1..]);
      assert DistinctKeys(m[1..]) by {
        forall i, j | 0 <= i < j < |m[1..]| ensures m[1..][i].0 != m[1..][j].0 {
          assert m[1..][i] == m[i + 1] && m[1..][j] == m[j + 1];
        }
      }
      FilterSomeDistinct(m[1..]);
      if m[0].1.Some? {
        FilterSomeKeysIn(m[1..]);
        assert Keys(m) == [m[0].0] + Keys(m[1..]);
        assert m[0].0 !in Keys(t);
        var r := FilterSome(m);
        assert r == [(m[0].0, m[0].1.value)] + t;
        forall i, j | 0 <= i < j < |r| ensures r[i].0 != r[j].0 {
          if i == 0 {
            assert r[j] == t[j - 1];
            assert t[j - 1].0 in Keys(t);
          } else {
            assert r[i] == t[i - 1] && r[j] == t[j - 1];
          }
        }
      }
    }
  }

  /** It is empty exactly when every value is null. */
  lemma {:induction false} FilterSomeEmpty<K, V>(m: seq<(K, Option<V>)>)
    ensures FilterSome(m) == [] <==> forall i :: 0 <= i < |m| ==> m[i].1.None?
  {
    if m != [] {
      FilterSomeEmpty(m[1..]);
      if FilterSome(m) == [] {
        forall i | 0 <= i < |m| ensures m[i].1.None? {
          if i > 0 {
            assert m[1..][i - 1] == m[i];
          }
        }
      }
      if forall i :: 0 <= i < |m| ==> m[i].1.None? {
        forall i | 0 <= i < |m[1..]| ensures m[1..][i].1.None? {
          assert m[1..][i] == m[i + 1];
        }
      }
    }
  }

  lemma {:induction false} DedupKeeps<K>(ks: seq<K>, k: K)
    requires k in ks
    ensures k in Dedup(ks)
  {
    if ks[|ks| - 1] != k {
      assert k in ks[..|ks| - 1];
      DedupKeeps(ks[..|ks| - 1], k);
    }
  }

  lemma {:induction false} LookupOfMember<K, V>(m: seq<(K, V)>, k: K, v: V)
    requires (k, v) in m
    ensures Lookup(m, k).Some?
  {
    var i :| 0 <= i < |m| && m[i] == (k, v);
    assert k == Keys(m)[i];
  }

  /** A key that occurs, and only ever with a non-null value, survives
      `associate` followed by the null filter. */
  lemma {:induction false} PresentAfterFilter<K, V>(ps: seq<(K, Option<V>)>, k: K)
    requires exists i :: 0 <= i < |ps| && ps[i].0 == k
    requires forall i :: 0 <= i < |ps| && ps[i].0 == k ==> ps[i].1.Some?
    ensures Lookup(FilterSome(Associate(ps)), k).Some?
  {
    var m := Associate(ps);
    var i :| 0 <= i < |ps| && ps[i].0 == k;
    assert k == Keys(ps)[i];
    AssociateKeys(ps);
    DedupKeeps(Keys(ps), k);
    var j :| 0 <= j < |m| && Keys(m)[j] == k;
    assert m[j].1.Some? by {
      AssociateEntries(ps);
      assert m[j] in ps;
    }
    FilterKeeps(m, j);
    LookupOfMember(FilterSome(m), k, m[j].1.value);
  }

  lemma {:induction false} FilterKeeps<K, V>(m: seq<(K, Option<V>)>, j: int)
    requires 0 <= j < |m| && m[j].1.Some?
    ensures (m[j].0, m[j].1.value) in FilterSome(m)
  {
    if j > 0 {
      FilterKeeps(m[1..], j - 1);
    }
  }

  /** `mapValues { f(it.value) }` */
  function MapValues<K, V, W>(m: seq<(K, V)>, f: V -> W): (r: seq<(K, W)>)
    ensures |r| == |m| && forall i :: 0 <= i < |m| ==> r[i] == (m[i].0, f(m[i].1))
  {
    seq(|m|, i requires 0 <= i < |m| => (m[i].0, f(m[i].1)))
  }

  lemma {:induction false} PutMapValues<K, V, W>(m: seq<(K, V)>, k: K, v: V, f: V -> W)
    ensures Put(MapValues(m, f), k, f(v)) == MapValues(Put(m, k, v), f)
  {
    if m != [] {
      assert MapValues(m, f)[1..] == MapValues(m[1..], f);
      if m[0].0 != k {
        PutMapValues(m[1..], k, v, f);
      }
    }
  }

  /** Mapping the values commutes with `associate`. */
  lemma {:induction false} AssociateMapValues<K, V, W>(ps: seq<(K, V)>, f: V -> W)
    ensures Associate(MapValues(ps, f)) == MapValues(Associate(ps), f)
  {
    if ps != [] {
      var init := ps[..|ps| - 1];
      assert MapValues(ps, f)[..|ps| - 1] == MapValues(init, f);
      AssociateMapValues(init, f);
      PutMapValues(Associate(init), ps[|ps| - 1].0, ps[|ps| - 1].1, f);
    }
  }

  /** Lifting a function to nullable values. */
  function MapOption<V, W>(o: Option<V>, f: V -> W): (r: Option<W>)
    ensures r.Some? <==> o.Some?
    ensures r.Some? ==> r.value == f(o.value)
  {
    if o.Some? then Some(f(o.value)) else None
  }

  /** Mapping the non-null values commutes with the null filter. */
  lemma {:induction false} FilterSomeMapValues<K, V, W>(m: seq<(K, Option<V>)>, f: V -> W, g: Option<V> -> Option<W>)
    requires forall o :: g(o) == MapOption(o, f)
    ensures FilterSome(MapValues(m, g)) == MapValues(FilterSome(m), f)
  {
    if m != [] {
      assert MapValues(m, g)[1..] == MapValues(m[1..], g);
      FilterSomeMapValues(m[1..], f, g);
      assert g(m[0].1) == MapOption(m[0].1, f);
    }
  }

  /** On distinct keys, looking a key up after the null filter finds its
      value when that is not null, and nothing otherwise. */
  lemma {:induction false} LookupFilterSome<K, V>(m: seq<(K, Option<V>)>, k: K)
    requires DistinctKeys(m)
    ensures Lookup(FilterSome(m), k) == if Lookup(m, k).Some? then Lookup(m, k).value else None
  {
    if m != [] {
      var tail := m[1..];
      assert DistinctKeys(tail) by {
        forall i, j | 0 <= i < j < |tail| ensures tail[i].0 != tail[j].0 {
          assert tail[i] == m[i + 1] && tail[j] == m[j + 1];
        }
      }
      LookupFilterSome(tail, k);
      var rest := FilterSome(tail);
      if m[0].1.Some? {
        assert FilterSome(m) == [(m[0].0, m[0].1.value)] + rest;
        LookupCons((m[0].0, m[0].1.value), rest, k);
      } else {
        assert FilterSome(m) == rest;
      }
      if m[0].0 == k {
        assert Keys(m) == [m[0].0] + Keys(tail);
        assert k !in Keys(tail);
      }
    }
  }

  lemma {:induction false} LookupCons<K, V>(x: (K, V), r: seq<(K, V)>, k: K)
    ensures Lookup([x] + r, k) == if x.0 == k then Some(x.1) else Lookup(r, k)
  {
    assert ([x] + r)[1..] == r;
  }

  /** After `associate` and the null filter, keys are distinct and every
      entry is a non-null input pair. */
  lemma {:induction false} FilterAssociateSpec<K, V>(ps: seq<(K, Option<V>)>)
    ensures DistinctKeys(FilterSome(Associate(ps)))
    ensures forall e :: e in FilterSome(Associate(ps)) ==> (e.0, Some(e.1)) in ps
  {
    var m := Associate(ps);
    AssociateKeys(ps);
    FilterSomeKeys(m);
    AssociateEntries(ps);
    forall e | e in FilterSome(m) ensures (e.0, Some(e.1)) in ps {
      FilterSomeMember(m, e);
    }
  }
}
