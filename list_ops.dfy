// The two list built-ins the game relies on: finding the first position of a value
// (list.index) and the stable sort by a key in descending order (list.sort with
// key= and reverse=True).

module ListOps {

  /** The position of the first element equal to x. */
  function IndexOf<T(==)>(s: seq<T>, x: T): (i: nat)
    requires x in s
    ensures i < |s| && s[i] == x
    ensures forall j :: 0 <= j < i ==> s[j] != x
  {
    if s[0] == x then 0 else 1 + IndexOf(s[1..], x)
  }

  /** x placed after every element of xs whose key is at least x's. */
  function InsertByKeyDesc<T>(xs: seq<T>, x: T, key: T -> int): (r: seq<T>)
    ensures |r| == |xs| + 1
  {
    if xs == [] then [x]
    else if key(xs[0]) >= key(x) then [xs[0]] + InsertByKeyDesc(xs[1..], x, key)
    else [x] + xs
  }

  /** Insertion sort, largest key first; an element goes after every element whose key is at
      least its own. */
  function SortByKeyDesc<T>(xs: seq<T>, key: T -> int): (r: seq<T>)
    ensures |r| == |xs|
  {
    if xs == [] then []
    else InsertByKeyDesc(SortByKeyDesc(xs[..|xs| - 1], key), xs[|xs| - 1], key)
  }

  ghost predicate SortedDesc<T>(xs: seq<T>, key: T -> int) {
    forall i, j :: 0 <= i < j < |xs| ==> key(xs[i]) >= key(xs[j])
  }

  lemma {:induction false} InsertPermutes<T>(xs: seq<T>, x: T, key: T -> int)
    ensures multiset(InsertByKeyDesc(xs, x, key)) == multiset(xs) + multiset{x}
  {
    if xs != [] && key(xs[0]) >= key(x) {
      InsertPermutes(xs[1..], x, key);
      assert xs == [xs[0]] + xs[1..];
    }
  }

  lemma {:induction false} InsertKeepsSorted<T>(xs: seq<T>, x: T, key: T -> int)
    requires SortedDesc(xs, key)
    ensures SortedDesc(InsertByKeyDesc(xs, x, key), key)
  {
    if xs != [] && key(xs[0]) >= key(x) {
      var tail := xs[1..];
      InsertKeepsSorted(tail, x, key);
      InsertPermutes(tail, x, key);
      var r := InsertByKeyDesc(xs, x, key);
      var rt := InsertByKeyDesc(tail, x, key);
      assert r == [xs[0]] + rt;
      forall j | 0 < j < |r|
        ensures key(r[0]) >= key(r[j])
      {
        assert r[j] in multiset(rt);
        assert r[j] in multiset(tail) || r[j] == x;
        if r[j] != x {
          var k :| 0 <= k < |tail| && tail[k] == r[j];
          assert xs[k + 1] == r[j];
        }
      }
    }
  }

  /** Sorting yields a permutation of its input. */
  lemma {:induction false} SortPermutes<T>(xs: seq<T>, key: T -> int)
    ensures multiset(SortByKeyDesc(xs, key)) == multiset(xs)
  {
    if xs != [] {
      var init := xs[..|xs| - 1];
      SortPermutes(init, key);
      InsertPermutes(SortByKeyDesc(init, key), xs[|xs| - 1], key);
      assert xs == init + [xs[|xs| - 1]];
    }
  }

  /** Sorting yields keys in descending order. */
  lemma {:induction false} SortIsSorted<T>(xs: seq<T>, key: T -> int)
    ensures SortedDesc(SortByKeyDesc(xs, key), key)
  {
    if xs != [] {
      var init := xs[..|xs| - 1];
      SortIsSorted(init, key);
      InsertKeepsSorted(SortByKeyDesc(init, key), xs[|xs| - 1], key);
    }
  }

  lemma {:induction false} InsertAtEnd<T>(xs: seq<T>, x: T, key: T -> int)
    requires forall i :: 0 <= i < |xs| ==> key(xs[i]) >= key(x)
    ensures InsertByKeyDesc(xs, x, key) == xs + [x]
  {
    if xs != [] {
      InsertAtEnd(xs[1..], x, key);
      assert xs == [xs[0]] + xs[1..];
    }
  }

  /** A list already in descending key order, in particular one whose elements all share a key,
      comes back unchanged (what stability gives the tie steps). */
  lemma {:induction false} SortKeepsSortedInput<T>(xs: seq<T>, key: T -> int)
    requires SortedDesc(xs, key)
    ensures SortByKeyDesc(xs, key) == xs
  {
    if xs != [] {
      var init := xs[..|xs| - 1];
      assert SortedDesc(init, key);
      SortKeepsSortedInput(init, key);
      InsertAtEnd(init, xs[|xs| - 1], key);
      assert xs == init + [xs[|xs| - 1]];
    }
  }
}
