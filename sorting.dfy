// Sorting: Kotlin's stable `sortedBy`. Two stable sorts in a row, first by a
// secondary key and then by a primary one, order a list by (primary,
// secondary) and keep the original order among equal keys; that is the same
// as one sort by (primary, secondary, original position), which is what
// `SortBy` computes.
module Sorting {

  /** `String.compareTo` and `UUID.compareTo` as a strict order: the first
      differing element decides, and a proper prefix comes first. */
  predicate LexLess(a: seq<int>, b: seq<int>)
    decreases |a|
  {
    if |a| == 0 then |b| > 0
    else |b| > 0 && (a[0] < b[0] || (a[0] == b[0] && LexLess(a[1..], b[1..])))
  }

  datatype SortKey = SortKey(primary: int, secondary: seq<int>)

  predicate KeyLess(a: SortKey, b: SortKey)
  {
    a.primary < b.primary || (a.primary == b.primary && LexLess(a.secondary, b.secondary))
  }

  /** An item with its key and its position in the input. */
  datatype Entry<T> = Entry(key: SortKey, position: nat, item: T)

  predicate EntryLess<T>(x: Entry<T>, y: Entry<T>)
  {
    KeyLess(x.key, y.key) || (x.key == y.key && x.position < y.position)
  }

  predicate Sorted<T>(s: seq<Entry<T>>)
  {
    forall i :: 0 <= i < |s| - 1 ==> EntryLess(s[i], s[i + 1])
  }

  predicate DistinctPositions<T>(s: seq<Entry<T>>)
  {
    forall i, j :: 0 <= i < j < |s| ==> s[i].position != s[j].position
  }

  lemma {:induction false} LexIrreflexive(a: seq<int>)
    ensures !LexLess(a, a)
    decreases |a|
  {
    if |a| > 0 {
      LexIrreflexive(a[1..]);
    }
  }

  lemma {:induction false} LexTransitive(a: seq<int>, b: seq<int>, c: seq<int>)
    requires LexLess(a, b) && LexLess(b, c)
    ensures LexLess(a, c)
    decreases |a|
  {
    if |a| > 0 && a[0] == b[0] == c[0] {
      LexTransitive(a[1..], b[1..], c[1..]);
    }
  }

  lemma {:induction false} LexTotal(a: seq<int>, b: seq<int>)
    ensures a == b || LexLess(a, b) || LexLess(b, a)
    decreases |a|
  {
    if |a| > 0 && |b| > 0 && a[0] == b[0] {
      LexTotal(a[1..], b[1..]);
      if a[1..] == b[1..] {
        assert a == [a[0]] + a[1..] && b == [b[0]] + b[1..];
      }
    }
  }

  /** EntryLess is a strict order, total on entries at different positions. */
  lemma {:induction false} EntryOrder<T>(x: Entry<T>, y: Entry<T>, z: Entry<T>)
    ensures !EntryLess(x, x)
    ensures EntryLess(x, y) && EntryLess(y, z) ==> EntryLess(x, z)
    ensures x.position != y.position ==> EntryLess(x, y) || EntryLess(y, x)
  {
    LexIrreflexive(x.key.secondary);
    if EntryLess(x, y) && EntryLess(y, z) && KeyLess(x.key, y.key) && KeyLess(y.key, z.key)
      && x.key.primary == y.key.primary == z.key.primary {
      LexTransitive(x.key.secondary, y.key.secondary, z.key.secondary);
    }
    LexTotal(x.key.secondary, y.key.secondary);
  }

  /** KeyLess is irreflexive and asymmetric. */
  lemma {:induction false} KeyAsymmetric(a: SortKey, b: SortKey)
    ensures !KeyLess(a, a)
    ensures KeyLess(a, b) ==> !KeyLess(b, a)
  {
    LexIrreflexive(a.secondary);
    if a.primary == b.primary && LexLess(a.secondary, b.secondary) && LexLess(b.secondary, a.secondary) {
      LexTransitive(a.secondary, b.secondary, a.secondary);
    }
  }

  function Insert<T>(x: Entry<T>, s: seq<Entry<T>>): (r: seq<Entry<T>>)
    ensures |r| == |s| + 1
    ensures multiset(r) == multiset(s) + multiset{x}
  {
    if s == [] then [x]
    else if EntryLess(x, s[0]) then [x] + s
    else
      assert s == [s[0]] + s[1..];
      [s[0]] + Insert(x, s[1..])
  }

  /** Insertion keeps a sorted list sorted. */
  lemma {:induction false} InsertSorted<T>(x: Entry<T>, s: seq<Entry<T>>)
    requires Sorted(s)
    requires forall i :: 0 <= i < |s| ==> s[i].position != x.position
    ensures Sorted(Insert(x, s))
    ensures |s| > 0 ==> Insert(x, s)[0] == x || Insert(x, s)[0] == s[0]
  {
    if s != [] && !EntryLess(x, s[0]) {
      EntryOrder(x, s[0], x);
      InsertSorted(x, s[1..]);
      var r := Insert(x, s);
      var tail := Insert(x, s[1..]);
      assert r == [s[0]] + tail;
      if |s| > 1 {
        assert tail[0] == x || tail[0] == s[1];
      }
    }
  }

  /** Insertion sort by (key, position). */
  function SortEntries<T>(s: seq<Entry<T>>): (r: seq<Entry<T>>)
    ensures |r| == |s|
    ensures multiset(r) == multiset(s)
  {
    if s == [] then []
    else
      assert s == [s[0]] + s[1..];
      Insert(s[0], SortEntries(s[1..]))
  }

  lemma {:induction false} SortEntriesSorted<T>(s: seq<Entry<T>>)
    requires DistinctPositions(s)
    ensures Sorted(SortEntries(s))
  {
    if s != [] {
      SortEntriesSorted(s[1..]);
      var sorted := SortEntries(s[1..]);
      forall i | 0 <= i < |sorted| ensures sorted[i].position != s[0].position {
        assert sorted[i] in multiset(s[1..]);
        var j :| 0 <= j < |s[1..]| && s[1..][j] == sorted[i];
        assert s[j + 1] == sorted[i];
      }
      InsertSorted(s[0], sorted);
    }
  }

  /** Adjacent order extends to every pair. */
  lemma {:induction false} SortedPairwise<T>(s: seq<Entry<T>>, i: int, j: int)
    requires Sorted(s) && 0 <= i < j < |s|
    ensures EntryLess(s[i], s[j])
    decreases j - i
  {
    if j > i + 1 {
      SortedPairwise(s, i + 1, j);
      EntryOrder(s[i], s[i + 1], s[j]);
    }
  }

  /** Each item with its key and position. */
  function Tagged<T>(items: seq<T>, keys: seq<SortKey>): (r: seq<Entry<T>>)
    requires |items| == |keys|
    ensures |r| == |items|
    ensures forall i :: 0 <= i < |r| ==> r[i] == Entry(keys[i], i, items[i])
  {
    seq(|items|, i requires 0 <= i < |items| => Entry(keys[i], i, items[i]))
  }

  /** `items.sortedBy { secondary }.sortedBy { primary }`, with `keys[i]` the
      (primary, secondary) pair of `items[i]`. */
  function SortBy<T>(items: seq<T>, keys: seq<SortKey>): seq<Entry<T>>
    requires |items| == |keys|
  {
    SortEntries(Tagged(items, keys))
  }

  function Items<T>(s: seq<Entry<T>>): (r: seq<T>)
    ensures |r| == |s| && forall i :: 0 <= i < |s| ==> r[i] == s[i].item
  {
    seq(|s|, i requires 0 <= i < |s| => s[i].item)
  }

  /** The result is a rearrangement of the input that is ordered by key and,
      among equal keys, keeps the input order. */
  lemma {:induction false} SortByIsStableSort<T>(items: seq<T>, keys: seq<SortKey>)
    requires |items| == |keys|
    ensures var r := SortBy(items, keys);
      |r| == |items|
      && multiset(r) == multiset(Tagged(items, keys))
      && (forall i :: 0 <= i < |r| ==>
            r[i].position < |items| && r[i].item == items[r[i].position] && r[i].key == keys[r[i].position])
      && (forall i, j :: 0 <= i < j < |r| ==> !KeyLess(r[j].key, r[i].key))
      && (forall i, j :: 0 <= i < j < |r| && r[i].key == r[j].key ==> r[i].position < r[j].position)
      && (forall i, j :: 0 <= i < j < |r| ==> r[i].position != r[j].position)
      && (forall p :: 0 <= p < |items| ==> Entry(keys[p], p, items[p]) in r)
  {
    var t := Tagged(items, keys);
    var r := SortBy(items, keys);
    SortEntriesSorted(t);
    forall i | 0 <= i < |r|
      ensures r[i].position < |items| && r[i].item == items[r[i].position] && r[i].key == keys[r[i].position]
    {
      assert r[i] in multiset(t);
    }
    forall i, j | 0 <= i < j < |r| ensures !KeyLess(r[j].key, r[i].key) {
      SortedPairwise(r, i, j);
      KeyAsymmetric(r[i].key, r[j].key);
    }
    forall i, j | 0 <= i < j < |r| && r[i].key == r[j].key ensures r[i].position < r[j].position {
      SortedPairwise(r, i, j);
      LexIrreflexive(r[i].key.secondary);
    }
    forall i, j | 0 <= i < j < |r| ensures r[i].position != r[j].position {
      SortedPairwise(r, i, j);
      EntryOrder(r[i], r[i], r[i]);
      assert r[i] == Entry(keys[r[i].position], r[i].position, items[r[i].position]);
      assert r[j] == Entry(keys[r[j].position], r[j].position, items[r[j].position]);
    }
    forall p | 0 <= p < |items| ensures Entry(keys[p], p, items[p]) in r {
      assert t[p] in multiset(r);
    }
  }
}
