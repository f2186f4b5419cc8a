/** sort.SliceStable by a string key, as an insertion sort: equal keys keep their order. */
module StableSort {
  import opened Text

  function Sort<T>(xs: seq<T>, key: T -> string): (sorted: seq<T>)
    ensures |sorted| == |xs|
  {
    if xs == [] then [] else Insert(xs[0], Sort(xs[1..], key), key)
  }

  function Insert<T>(x: T, sorted: seq<T>, key: T -> string): (r: seq<T>)
    ensures |r| == |sorted| + 1
  {
    if sorted == [] || !Less(key(sorted[0]), key(x)) then [x] + sorted
    else [sorted[0]] + Insert(x, sorted[1..], key)
  }

  ghost predicate Ordered<T>(xs: seq<T>, key: T -> string) {
    forall i, j :: 0 <= i < j < |xs| ==> !Less(key(xs[j]), key(xs[i]))
  }

  ghost predicate StrictlyOrdered<T>(xs: seq<T>, key: T -> string) {
    forall i, j :: 0 <= i < j < |xs| ==> Less(key(xs[i]), key(xs[j]))
  }

  ghost predicate DistinctKeys<T>(xs: seq<T>, key: T -> string) {
    forall i, j :: 0 <= i < j < |xs| ==> key(xs[i]) != key(xs[j])
  }

  lemma {:induction false} InsertPermutes<T>(x: T, sorted: seq<T>, key: T -> string)
    ensures multiset(Insert(x, sorted, key)) == multiset(sorted) + multiset{x}
  {
    if sorted != [] && Less(key(sorted[0]), key(x)) {
      InsertPermutes(x, sorted[1..], key);
      assert sorted == [sorted[0]] + sorted[1..];
    }
  }

  lemma {:induction false} SortPermutes<T>(xs: seq<T>, key: T -> string)
    ensures multiset(Sort(xs, key)) == multiset(xs)
  {
    if xs != [] {
      SortPermutes(xs[1..], key);
      InsertPermutes(xs[0], Sort(xs[1..], key), key);
      assert xs == [xs[0]] + xs[1..];
    }
  }

  lemma AtMost(a: string, b: string, c: string)
    requires !Less(b, a) && !Less(c, b)
    ensures !Less(c, a)
  {
    LessTotal(a, b);
    LessTotal(b, c);
    if Less(c, a) {
      LessTotal(c, a);
      if a != b {
        LessTransitive(c, a, b);
      }
    }
  }

  lemma {:induction false} InsertOrders<T>(x: T, sorted: seq<T>, key: T -> string)
    requires Ordered(sorted, key)
    ensures Ordered(Insert(x, sorted, key), key)
  {
    if sorted != [] {
      LessTotal(key(sorted[0]), key(x));
      if Less(key(sorted[0]), key(x)) {
        var rest := Insert(x, sorted[1..], key);
        InsertOrders(x, sorted[1..], key);
        InsertPermutes(x, sorted[1..], key);
        forall j | 0 <= j < |rest| ensures !Less(key(rest[j]), key(sorted[0])) {
          assert rest[j] in multiset(rest);
        }
      } else {
        forall j | 0 <= j < |sorted| ensures !Less(key(sorted[j]), key(x)) {
          if j > 0 {
            AtMost(key(x), key(sorted[0]), key(sorted[j]));
          }
        }
      }
    }
  }

  /** The result is in key order and a permutation of the input. */
  lemma {:induction false} SortOrders<T>(xs: seq<T>, key: T -> string)
    ensures Ordered(Sort(xs, key), key)
    ensures multiset(Sort(xs, key)) == multiset(xs)
  {
    SortPermutes(xs, key);
    if xs != [] {
      SortOrders(xs[1..], key);
      InsertOrders(xs[0], Sort(xs[1..], key), key);
    }
  }

  /** A symmetric relation between any two elements. */
  ghost predicate Pairwise<T>(xs: seq<T>, r: (T, T) -> bool) {
    forall i, j :: 0 <= i < j < |xs| ==> r(xs[i], xs[j]) && r(xs[j], xs[i])
  }

  lemma {:induction false} InsertPairwise<T>(x: T, sorted: seq<T>, key: T -> string, r: (T, T) -> bool)
    requires Pairwise(sorted, r)
    requires forall y :: y in sorted ==> r(x, y) && r(y, x)
    ensures Pairwise(Insert(x, sorted, key), r)
  {
    if sorted != [] && Less(key(sorted[0]), key(x)) {
      var rest := Insert(x, sorted[1..], key);
      InsertPairwise(x, sorted[1..], key, r);
      InsertPermutes(x, sorted[1..], key);
      forall j | 0 <= j < |rest| ensures r(sorted[0], rest[j]) && r(rest[j], sorted[0]) {
        assert rest[j] in multiset(rest);
        if rest[j] != x {
          assert rest[j] in sorted[1..];
        }
      }
    }
  }

  /** What holds between any two elements holds between any two of the sorted elements. */
  lemma {:induction false} SortPairwise<T>(xs: seq<T>, key: T -> string, r: (T, T) -> bool)
    requires Pairwise(xs, r)
    ensures Pairwise(Sort(xs, key), r)
  {
    if xs != [] {
      var rest := Sort(xs[1..], key);
      SortPairwise(xs[1..], key, r);
      SortPermutes(xs[1..], key);
      forall y | y in rest ensures r(xs[0], y) && r(y, xs[0]) {
        assert y in multiset(rest);
        var k :| 0 <= k < |xs[1..]| && xs[1..][k] == y;
        assert xs[k + 1] == y;
      }
      InsertPairwise(xs[0], rest, key, r);
    }
  }

  /** The elements with one key. */
  function Keep<T>(xs: seq<T>, key: T -> string, k: string): seq<T> {
    if xs == [] then []
    else if key(xs[0]) == k then [xs[0]] + Keep(xs[1..], key, k)
    else Keep(xs[1..], key, k)
  }

  lemma KeepFirst<T>(x: T, xs: seq<T>, key: T -> string, k: string)
    ensures Keep([x] + xs, key, k) == if key(x) == k then [x] + Keep(xs, key, k) else Keep(xs, key, k)
  {
    assert ([x] + xs)[1..] == xs;
  }

  lemma {:induction false} KeepInsert<T>(x: T, sorted: seq<T>, key: T -> string, k: string)
    ensures Keep(Insert(x, sorted, key), key, k) == Keep([x] + sorted, key, k)
  {
    if sorted != [] && Less(key(sorted[0]), key(x)) {
      var rest := sorted[1..];
      assert key(x) != key(sorted[0]) by {
        LessTotal(key(sorted[0]), key(x));
      }
      KeepInsert(x, rest, key, k);
      KeepFirst(sorted[0], Insert(x, rest, key), key, k);
      KeepFirst(x, rest, key, k);
      KeepFirst(x, sorted, key, k);
    }
  }

  /** Elements with one key keep their order. */
  lemma {:induction false} SortKeeps<T>(xs: seq<T>, key: T -> string, k: string)
    ensures Keep(Sort(xs, key), key, k) == Keep(xs, key, k)
  {
    if xs != [] {
      SortKeeps(xs[1..], key, k);
      KeepInsert(xs[0], Sort(xs[1..], key), key, k);
      KeepFirst(xs[0], Sort(xs[1..], key), key, k);
    }
  }

  /** Distinct keys come out strictly increasing. */
  lemma SortStrictlyOrders<T>(xs: seq<T>, key: T -> string)
    requires DistinctKeys(xs, key)
    ensures StrictlyOrdered(Sort(xs, key), key)
  {
    var sorted := Sort(xs, key);
    SortOrders(xs, key);
    SortPairwise(xs, key, (a, b) => key(a) != key(b));
    forall i, j | 0 <= i < j < |sorted| ensures Less(key(sorted[i]), key(sorted[j])) {
      LessTotal(key(sorted[i]), key(sorted[j]));
    }
  }
}
