/** The frontier re-sort `openSet.sort((a, b) => fscore(a) - fscore(b))`.
    Array.prototype.sort is stable, so the result is the unique sequence that
    is ordered by key and keeps equal-key elements in their prior order; an
    insertion sort computes it. */
module StableSort {

  predicate SortedBy<T>(s: seq<T>, key: T -> int) {
    forall i, j :: 0 <= i < j < |s| ==> key(s[i]) <= key(s[j])
  }

  /** The elements of s whose key is k, in their order in s. */
  function KeyFilter<T>(s: seq<T>, key: T -> int, k: int): seq<T>
    decreases |s|
  {
    if s == [] then []
    else (if key(s[0]) == k then [s[0]] else []) + KeyFilter(s[1..], key, k)
  }

  /** Places x before the first element whose key is not smaller. */
  function Insert<T>(x: T, s: seq<T>, key: T -> int): seq<T>
    decreases |s|
  {
    if s == [] || key(x) <= key(s[0]) then [x] + s
    else [s[0]] + Insert(x, s[1..], key)
  }

  lemma {:induction false} InsertPermutes<T>(x: T, s: seq<T>, key: T -> int)
    ensures multiset(Insert(x, s, key)) == multiset(s) + multiset{x}
    decreases |s|
  {
    if s != [] && key(x) > key(s[0]) {
      InsertPermutes(x, s[1..], key);
      assert s == [s[0]] + s[1..];
    }
  }

  lemma {:induction false} InsertSorted<T>(x: T, s: seq<T>, key: T -> int)
    requires SortedBy(s, key)
    ensures SortedBy(Insert(x, s, key), key)
    decreases |s|
  {
    if s != [] && key(x) > key(s[0]) {
      var r := Insert(x, s[1..], key);
      InsertSorted(x, s[1..], key);
      InsertPermutes(x, s[1..], key);
      forall j | 0 <= j < |r| ensures key(s[0]) <= key(r[j]) {
        assert r[j] in multiset(r);
        assert r[j] in multiset(s[1..]) || r[j] == x;
      }
    }
  }

  function Sort<T>(s: seq<T>, key: T -> int): seq<T>
    decreases |s|
  {
    if s == [] then [] else Insert(s[0], Sort(s[1..], key), key)
  }

  /** The sort rearranges its input into key order. */
  lemma {:induction false} SortPermutesAndOrders<T>(s: seq<T>, key: T -> int)
    ensures multiset(Sort(s, key)) == multiset(s)
    ensures SortedBy(Sort(s, key), key)
    decreases |s|
  {
    if s != [] {
      SortPermutesAndOrders(s[1..], key);
      InsertPermutes(s[0], Sort(s[1..], key), key);
      InsertSorted(s[0], Sort(s[1..], key), key);
      assert s == [s[0]] + s[1..];
    }
  }

  lemma {:induction false} KeyFilterMembers<T>(s: seq<T>, key: T -> int, k: int)
    ensures forall y :: y in KeyFilter(s, key, k) <==> y in s && key(y) == k
    decreases |s|
  {
    if s != [] {
      KeyFilterMembers(s[1..], key, k);
      assert s == [s[0]] + s[1..];
    }
  }

  lemma {:induction false} KeyFilterAppend<T>(a: seq<T>, b: seq<T>, key: T -> int, k: int)
    ensures KeyFilter(a + b, key, k) == KeyFilter(a, key, k) + KeyFilter(b, key, k)
    decreases |a|
  {
    if a != [] {
      assert (a + b)[1..] == a[1..] + b;
      KeyFilterAppend(a[1..], b, key, k);
    } else {
      assert a + b == b;
    }
  }

  /** Inserting into a sorted sequence keeps every key class in order, with x
      at the head of its own class. */
  lemma {:induction false} InsertKeepsKeyOrder<T>(x: T, s: seq<T>, key: T -> int, k: int)
    requires SortedBy(s, key)
    ensures KeyFilter(Insert(x, s, key), key, k) == KeyFilter([x] + s, key, k)
    decreases |s|
  {
    if s != [] && key(x) > key(s[0]) {
      var r := Insert(x, s[1..], key);
      assert SortedBy(s[1..], key);
      InsertKeepsKeyOrder(x, s[1..], key, k);
      var hx, h0 := KeyFilter([x], key, k), KeyFilter([s[0]], key, k);
      KeyFilterSingle(x, key, k);
      KeyFilterSingle(s[0], key, k);
      // x's key exceeds s[0]'s, so at most one of them has key k
      assert hx == [] || h0 == [];
      KeyFilterAppend([s[0]], r, key, k);
      KeyFilterAppend([x], s[1..], key, k);
      KeyFilterAppend([x], s, key, k);
      KeyFilterAppend([s[0]], s[1..], key, k);
      assert s == [s[0]] + s[1..];
      assert KeyFilter(Insert(x, s, key), key, k) == h0 + (hx + KeyFilter(s[1..], key, k));
      assert KeyFilter([x] + s, key, k) == hx + (h0 + KeyFilter(s[1..], key, k));
    }
  }

  /** The sort is stable: each key class keeps its order from the input. */
  lemma SortIsStable<T>(s: seq<T>, key: T -> int)
    ensures forall k :: KeyFilter(Sort(s, key), key, k) == KeyFilter(s, key, k)
  {
    forall k { SortKeepsKeyClass(s, key, k); }
  }

  lemma {:induction false} SortKeepsKeyClass<T>(s: seq<T>, key: T -> int, k: int)
    ensures KeyFilter(Sort(s, key), key, k) == KeyFilter(s, key, k)
    decreases |s|
  {
    if s != [] {
      var t := Sort(s[1..], key);
      SortKeepsKeyClass(s[1..], key, k);
      SortPermutesAndOrders(s[1..], key);
      InsertKeepsKeyOrder(s[0], t, key, k);
      assert ([s[0]] + t)[1..] == t;
    }
  }

  /** Sortedness plus per-key order determine a sequence: any stable sort of
      the same input produces exactly the insertion sort's result. */
  lemma {:induction false} StableOrderIsUnique<T>(a: seq<T>, b: seq<T>, key: T -> int)
    requires SortedBy(a, key) && SortedBy(b, key)
    requires forall k :: KeyFilter(a, key, k) == KeyFilter(b, key, k)
    ensures a == b
    decreases |a| + |b|
  {
    if a == [] || b == [] {
      if a != [] {
        KeyFilterMembers(a, key, key(a[0]));
        KeyFilterMembers(b, key, key(a[0]));
      } else if b != [] {
        KeyFilterMembers(a, key, key(b[0]));
        KeyFilterMembers(b, key, key(b[0]));
      }
    } else {
      SameHead(a, b, key);
      SameTailFilters(a, b, key);
      assert SortedBy(a[1..], key) && SortedBy(b[1..], key);
      StableOrderIsUnique(a[1..], b[1..], key);
      assert a == [a[0]] + a[1..];
      assert b == [b[0]] + b[1..];
    }
  }

  /** A sorted sequence starts with its smallest key. */
  lemma HeadHasLeastKey<T>(a: seq<T>, key: T -> int, y: T)
    requires SortedBy(a, key) && y in a
    ensures key(a[0]) <= key(y)
  {
    var j :| 0 <= j < |a| && a[j] == y;
  }

  /** Two sorted sequences with the same key classes have the same head. */
  lemma SameHead<T>(a: seq<T>, b: seq<T>, key: T -> int)
    requires SortedBy(a, key) && SortedBy(b, key) && a != [] && b != []
    requires forall k :: KeyFilter(a, key, k) == KeyFilter(b, key, k)
    ensures a[0] == b[0]
  {
    var ka, kb := key(a[0]), key(b[0]);
    KeyFilterHead(a, key);
    KeyFilterHead(b, key);
    KeyFilterMembers(b, key, ka);
    assert a[0] in KeyFilter(b, key, ka);
    HeadHasLeastKey(b, key, a[0]);
    KeyFilterMembers(a, key, kb);
    assert b[0] in KeyFilter(a, key, kb);
    HeadHasLeastKey(a, key, b[0]);
    assert ka == kb;
    assert KeyFilter(a, key, ka)[0] == a[0];
  }

  lemma KeyFilterHead<T>(a: seq<T>, key: T -> int)
    requires a != []
    ensures KeyFilter(a, key, key(a[0])) == [a[0]] + KeyFilter(a[1..], key, key(a[0]))
  {
  }

  lemma KeyFilterSingle<T>(x: T, key: T -> int, k: int)
    ensures KeyFilter([x], key, k) == (if key(x) == k then [x] else [])
  {
    assert [x][1..] == [];
    assert KeyFilter([x], key, k) == (if key([x][0]) == k then [[x][0]] else []) + KeyFilter([x][1..], key, k);
  }

  /** Dropping a common head keeps the key classes equal. */
  lemma SameTailFilters<T>(a: seq<T>, b: seq<T>, key: T -> int)
    requires a != [] && b != [] && a[0] == b[0]
    requires forall k :: KeyFilter(a, key, k) == KeyFilter(b, key, k)
    ensures forall k :: KeyFilter(a[1..], key, k) == KeyFilter(b[1..], key, k)
  {
    forall k | true
      ensures KeyFilter(a[1..], key, k) == KeyFilter(b[1..], key, k)
    {
      var head := if key(a[0]) == k then [a[0]] else [];
      assert KeyFilter(a, key, k) == head + KeyFilter(a[1..], key, k);
      assert KeyFilter(b, key, k) == head + KeyFilter(b[1..], key, k);
      assert KeyFilter(a[1..], key, k) == KeyFilter(a, key, k)[|head|..];
      assert KeyFilter(b[1..], key, k) == KeyFilter(b, key, k)[|head|..];
    }
  }
}
