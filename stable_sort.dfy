/** `List.sort` with a `Comparator.comparing(key)`: a stable sort of items
    by a key, here an insertion sort over (key, item) pairs, proved sorted,
    a permutation of its input, and stable. */
module StableSort {
  import opened JavaLang

  /** The keys the task list is sorted by: an `int` (a deadline or a
      difficulty) or a string compared with `compareTo`. */
  datatype SortKey = ByInt(n: int) | ByText(s: string)

  /** The key order; within one sort every key has the same kind. */
  predicate KeyLe(a: SortKey, b: SortKey)
  {
    match (a, b)
    case (ByInt(x), ByInt(y)) => x <= y
    case (ByText(x), ByText(y)) => LexLe(x, y)
    case (ByInt(_), ByText(_)) => true
    case (ByText(_), ByInt(_)) => false
  }

  lemma KeyLeTotal(a: SortKey, b: SortKey)
    ensures KeyLe(a, b) || KeyLe(b, a)
  {
    if a.ByText? && b.ByText? {
      LexLeTotal(a.s, b.s);
    }
  }

  lemma KeyLeAntisymmetric(a: SortKey, b: SortKey)
    requires KeyLe(a, b) && KeyLe(b, a)
    ensures a == b
  {
    if a.ByText? && b.ByText? {
      LexLeAntisymmetric(a.s, b.s);
    }
  }

  lemma KeyLeTransitive(a: SortKey, b: SortKey, c: SortKey)
    requires KeyLe(a, b) && KeyLe(b, c)
    ensures KeyLe(a, c)
  {
    if a.ByText? && b.ByText? && c.ByText? {
      LexLeTransitive(a.s, b.s, c.s);
    }
  }

  /** An item with the key it is sorted by. */
  datatype Keyed<T> = Keyed(key: SortKey, item: T)

  predicate Sorted<T>(s: seq<Keyed<T>>)
  {
    forall i, j :: 0 <= i < j < |s| ==> KeyLe(s[i].key, s[j].key)
  }

  /** The items with key `k`, in their order. */
  function WithKey<T>(s: seq<Keyed<T>>, k: SortKey): seq<Keyed<T>>
  {
    if s == [] then []
    else WithKey(s[..|s| - 1], k) + (if s[|s| - 1].key == k then [s[|s| - 1]] else [])
  }

  /** Places `x` after every element whose key is not greater than its own. */
  function Insert<T>(x: Keyed<T>, s: seq<Keyed<T>>): seq<Keyed<T>>
  {
    if s == [] || KeyLe(s[|s| - 1].key, x.key) then s + [x]
    else Insert(x, s[..|s| - 1]) + [s[|s| - 1]]
  }

  /** Sorts by inserting each element, front to back, into the sorted prefix. */
  function InsertionSort<T>(s: seq<Keyed<T>>): seq<Keyed<T>>
  {
    if s == [] then [] else Insert(s[|s| - 1], InsertionSort(s[..|s| - 1]))
  }

  lemma {:induction false} InsertPermutes<T>(x: Keyed<T>, s: seq<Keyed<T>>)
    ensures multiset(Insert(x, s)) == multiset(s) + multiset{x}
  {
    if !(s == [] || KeyLe(s[|s| - 1].key, x.key)) {
      InsertPermutes(x, s[..|s| - 1]);
      assert s == s[..|s| - 1] + [s[|s| - 1]];
    }
  }

  lemma {:induction false} InsertSorted<T>(x: Keyed<T>, s: seq<Keyed<T>>)
    requires Sorted(s)
    ensures Sorted(Insert(x, s))
  {
    if s == [] || KeyLe(s[|s| - 1].key, x.key) {
      forall i | 0 <= i < |s|
        ensures KeyLe(s[i].key, x.key)
      {
        if i < |s| - 1 {
          KeyLeTransitive(s[i].key, s[|s| - 1].key, x.key);
        }
      }
    } else {
      var init, last := s[..|s| - 1], s[|s| - 1];
      InsertSorted(x, init);
      InsertPermutes(x, init);
      var r := Insert(x, init);
      KeyLeTotal(last.key, x.key);
      forall i | 0 <= i < |r|
        ensures KeyLe(r[i].key, last.key)
      {
        assert r[i] in multiset(init) + multiset{x};
        if r[i] != x {
          assert r[i] in init;
          var j :| 0 <= j < |init| && init[j] == r[i];
          assert s[j] == init[j];
        }
      }
    }
  }

  /** The result is sorted and holds exactly the input elements. */
  lemma {:induction false} InsertionSortCorrect<T>(s: seq<Keyed<T>>)
    ensures Sorted(InsertionSort(s))
    ensures multiset(InsertionSort(s)) == multiset(s)
  {
    if s != [] {
      var init := s[..|s| - 1];
      InsertionSortCorrect(init);
      InsertSorted(s[|s| - 1], InsertionSort(init));
      InsertPermutes(s[|s| - 1], InsertionSort(init));
      assert s == init + [s[|s| - 1]];
    }
  }

  lemma {:induction false} WithKeyAppend<T>(a: seq<Keyed<T>>, b: seq<Keyed<T>>, k: SortKey)
    ensures WithKey(a + b, k) == WithKey(a, k) + WithKey(b, k)
  {
    if b == [] {
      assert a + b == a;
    } else {
      assert (a + b)[..|a + b| - 1] == a + b[..|b| - 1];
      WithKeyAppend(a, b[..|b| - 1], k);
    }
  }

  lemma {:induction false} WithKeyInsert<T>(x: Keyed<T>, s: seq<Keyed<T>>, k: SortKey)
    requires Sorted(s)
    ensures WithKey(Insert(x, s), k) == WithKey(s, k) + (if x.key == k then [x] else [])
  {
    if s == [] || KeyLe(s[|s| - 1].key, x.key) {
      WithKeyAppend(s, [x], k);
      assert WithKey([x], k) == WithKey([], k) + (if x.key == k then [x] else []) by {
        assert [x][..0] == [];
      }
    } else {
      var init, last := s[..|s| - 1], s[|s| - 1];
      assert Sorted(init);
      WithKeyInsert(x, init, k);
      WithKeyAppend(Insert(x, init), [last], k);
      var xs := if x.key == k then [x] else [];
      var ls := if last.key == k then [last] else [];
      assert WithKey([last], k) == ls by {
        assert [last][..0] == [];
      }
      // `last` sorts strictly after `x`, so the two cannot both have key k
      KeyLeTotal(x.key, x.key);
      assert xs == [] || ls == [];
      assert WithKey(s, k) == WithKey(init, k) + ls;
      assert WithKey(Insert(x, s), k) == WithKey(init, k) + xs + ls;
    }
  }

  /** Stability: for every key, the elements with that key come out in the
      order they went in. */
  lemma {:induction false} InsertionSortStable<T>(s: seq<Keyed<T>>, k: SortKey)
    ensures WithKey(InsertionSort(s), k) == WithKey(s, k)
  {
    if s != [] {
      var init := s[..|s| - 1];
      InsertionSortStable(init, k);
      InsertionSortCorrect(init);
      WithKeyInsert(s[|s| - 1], InsertionSort(init), k);
    }
  }

  /** Sorting a list already in order leaves it as it is; in particular
      sorting twice is sorting once. */
  lemma {:induction false} InsertionSortOfSorted<T>(s: seq<Keyed<T>>)
    requires Sorted(s)
    ensures InsertionSort(s) == s
  {
    if s != [] {
      var init, last := s[..|s| - 1], s[|s| - 1];
      assert Sorted(init);
      InsertionSortOfSorted(init);
      assert init == [] || KeyLe(init[|init| - 1].key, last.key);
      assert Insert(last, init) == init + [last];
      assert s == init + [last];
    }
  }

  lemma InsertionSortIdempotent<T>(s: seq<Keyed<T>>)
    ensures InsertionSort(InsertionSort(s)) == InsertionSort(s)
  {
    InsertionSortCorrect(s);
    InsertionSortOfSorted(InsertionSort(s));
  }

  /** The items of a keyed list, in order. */
  function Items<T>(s: seq<Keyed<T>>): (r: seq<T>)
    ensures |r| == |s|
    ensures forall i :: 0 <= i < |s| ==> r[i] == s[i].item
  {
    if s == [] then [] else Items(s[..|s| - 1]) + [s[|s| - 1].item]
  }

  lemma {:induction false} InsertItemsPermute<T>(x: Keyed<T>, s: seq<Keyed<T>>)
    ensures multiset(Items(Insert(x, s))) == multiset(Items(s)) + multiset{x.item}
  {
    if !(s == [] || KeyLe(s[|s| - 1].key, x.key)) {
      InsertItemsPermute(x, s[..|s| - 1]);
    }
  }

  /** Sorting moves items around but neither adds nor drops any. */
  lemma {:induction false} InsertionSortItems<T>(s: seq<Keyed<T>>)
    ensures multiset(Items(InsertionSort(s))) == multiset(Items(s))
  {
    if s != [] {
      InsertionSortItems(s[..|s| - 1]);
      InsertItemsPermute(s[|s| - 1], InsertionSort(s[..|s| - 1]));
    }
  }
}
