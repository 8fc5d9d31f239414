/** Sequence facts and the stable sort that several models need. */
module Sequences {

  lemma TwiceInMultiset<T>(s: seq<T>, j: nat, k: nat)
    requires j < k < |s| && s[j] == s[k]
    ensures multiset(s)[s[j]] >= 2
  {
    assert s == s[..k] + ([s[k]] + s[k + 1..]);
    assert s[..k][j] in multiset(s[..k]);
  }

  /** The order of a sort key: any two elements compare, consistently. */
  ghost predicate IsOrder<T(!new)>(notAfter: (T, T) -> bool) {
    && (forall x, y :: notAfter(x, y) || notAfter(y, x))
    && (forall x, y, z :: notAfter(x, y) && notAfter(y, z) ==> notAfter(x, z))
  }

  ghost predicate Ordered<T>(s: seq<T>, notAfter: (T, T) -> bool) {
    forall i, j :: 0 <= i <= j < |s| ==> notAfter(s[i], s[j])
  }

  /** Puts an element in front of the first one it does not come after. */
  function Insert<T>(x: T, s: seq<T>, notAfter: (T, T) -> bool): seq<T> {
    if s == [] || notAfter(x, s[0]) then [x] + s else [s[0]] + Insert(x, s[1..], notAfter)
  }

  /** Python's `sorted` by a key, which keeps elements of one key in their order. */
  function Sort<T>(s: seq<T>, notAfter: (T, T) -> bool): seq<T> {
    if s == [] then [] else Insert(s[0], Sort(s[1..], notAfter), notAfter)
  }

  lemma {:induction false} InsertKeeps<T>(x: T, s: seq<T>, notAfter: (T, T) -> bool)
    ensures multiset(Insert(x, s, notAfter)) == multiset(s) + multiset{x}
  {
    if s != [] && !notAfter(x, s[0]) {
      InsertKeeps(x, s[1..], notAfter);
      assert s == [s[0]] + s[1..];
    }
  }

  lemma OrderedFront<T(!new)>(x: T, s: seq<T>, notAfter: (T, T) -> bool)
    requires IsOrder(notAfter) && Ordered(s, notAfter) && (s != [] ==> notAfter(x, s[0]))
    ensures Ordered([x] + s, notAfter)
  {
    assert notAfter(x, x);
    forall j | 0 <= j < |s| ensures notAfter(x, s[j]) {
      assert notAfter(s[0], s[j]);
    }
  }

  lemma {:induction false} InsertOrders<T(!new)>(x: T, s: seq<T>, notAfter: (T, T) -> bool)
    requires IsOrder(notAfter) && Ordered(s, notAfter)
    ensures Ordered(Insert(x, s, notAfter), notAfter)
  {
    if s == [] || notAfter(x, s[0]) {
      OrderedFront(x, s, notAfter);
    } else {
      InsertOrders(x, s[1..], notAfter);
      assert notAfter(s[0], x);
      assert 1 < |s| ==> notAfter(s[0], s[1]);
      OrderedFront(s[0], Insert(x, s[1..], notAfter), notAfter);
    }
  }

  /** Sorting orders the same elements, each as often as before. */
  lemma {:induction false} SortSorts<T(!new)>(s: seq<T>, notAfter: (T, T) -> bool)
    requires IsOrder(notAfter)
    ensures Ordered(Sort(s, notAfter), notAfter) && multiset(Sort(s, notAfter)) == multiset(s)
  {
    if s != [] {
      SortSorts(s[1..], notAfter);
      InsertOrders(s[0], Sort(s[1..], notAfter), notAfter);
      InsertKeeps(s[0], Sort(s[1..], notAfter), notAfter);
      assert s == [s[0]] + s[1..];
    }
  }
}
