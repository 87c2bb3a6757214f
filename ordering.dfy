/** The sibling order of the menu generator (`compare_pages`) and the sort
    applied to every subpage list (`sort_pages`). */
module Ordering {
  import opened MenuTypes

  /** Ruby's `String#<=>`: lexicographic by character, a proper prefix first. */
  function CompareStrings(a: string, b: string): (r: int)
    ensures -1 <= r <= 1
    ensures r == 0 <==> a == b
  {
    if a == [] && b == [] then 0
    else if a == [] then -1
    else if b == [] then 1
    else if a[0] < b[0] then -1
    else if a[0] > b[0] then 1
    else
      var r := CompareStrings(a[1..], b[1..]);
      assert a == [a[0]] + a[1..] && b == [b[0]] + b[1..];
      r
  }

  /** Ruby's `Integer#<=>`. */
  function CompareInts(x: int, y: int): int {
    if x < y then -1 else if x > y then 1 else 0
  }

  /** The sort key `compare_pages` orders by in effect: pages with a position
      first, then by position, then by name. */
  datatype SortKey = SortKey(unpositioned: bool, position: int, name: string)

  function KeyOf(a: Item): SortKey {
    SortKey(a.position.None?, if a.position.Some? then a.position.value else 0, a.name)
  }

  /** Lexicographic comparison of sort keys: the reference the comparator is proved against. */
  function CompareSortKeys(x: SortKey, y: SortKey): int {
    if x.unpositioned != y.unpositioned then (if x.unpositioned then 1 else -1)
    else if x.position != y.position then CompareInts(x.position, y.position)
    else CompareStrings(x.name, y.name)
  }

  /** `compare_pages`: negative when `a` goes before `b`. The name compared is
      the one fixed at attach time (`menu_name(hash)`). */
  function ComparePages(a: Item, b: Item): (r: int)
    ensures r == CompareSortKeys(KeyOf(a), KeyOf(b))
    ensures a.position.Some? && b.position.None? ==> r < 0
    ensures a.position.None? && b.position.Some? ==> r > 0
    ensures a.position.Some? && b.position.Some? && a.position.value < b.position.value ==> r < 0
    ensures r == 0 <==> a.position == b.position && a.name == b.name
  {
    if (a.position.None? && b.position.None?) || a.position == b.position then
      CompareStrings(a.name, b.name)
    else if a.position.None? then
      1
    else if b.position.None? then
      -1
    else
      CompareInts(a.position.value, b.position.value)
  }

  lemma {:induction false} CompareStringsAntisymmetric(a: string, b: string)
    ensures CompareStrings(a, b) == -CompareStrings(b, a)
  {
    if a != [] && b != [] && a[0] == b[0] {
      CompareStringsAntisymmetric(a[1..], b[1..]);
    }
  }

  lemma {:induction false} CompareStringsTransitive(a: string, b: string, c: string)
    requires CompareStrings(a, b) <= 0 && CompareStrings(b, c) <= 0
    ensures CompareStrings(a, c) <= 0
  {
    if a != [] && b != [] && c != [] && a[0] == b[0] && b[0] == c[0] {
      CompareStringsTransitive(a[1..], b[1..], c[1..]);
    }
  }

  /** Swapping the arguments of `compare_pages` flips the sign. */
  lemma ComparePagesAntisymmetric(a: Item, b: Item)
    ensures ComparePages(a, b) == -ComparePages(b, a)
  {
    CompareStringsAntisymmetric(a.name, b.name);
  }

  /** `compare_pages` is transitive, so it is a total preorder. */
  lemma ComparePagesTransitive(a: Item, b: Item, c: Item)
    requires ComparePages(a, b) <= 0 && ComparePages(b, c) <= 0
    ensures ComparePages(a, c) <= 0
  {
    if KeyOf(a).unpositioned == KeyOf(b).unpositioned == KeyOf(c).unpositioned
       && KeyOf(a).position == KeyOf(b).position == KeyOf(c).position
    {
      CompareStringsTransitive(a.name, b.name, c.name);
    }
  }

  /** Every key of `ks` has a record in `items`. */
  predicate AllIn(items: map<Key, Item>, ks: seq<Key>) {
    forall k :: k in ks ==> k in items
  }

  /** `ks` is ordered by `compare_pages` applied to the records of its keys. */
  predicate SortedBy(items: map<Key, Item>, ks: seq<Key>)
    requires AllIn(items, ks)
  {
    forall i, j :: 0 <= i < j < |ks| ==> ComparePages(items[ks[i]], items[ks[j]]) <= 0
  }

  /** Placing `k` after the keys that do not go after it, and before the one
      that does, keeps a sorted list sorted. */
  lemma InsertionKeepsOrder(items: map<Key, Item>, ks: seq<Key>, k: Key, j: nat)
    requires AllIn(items, ks) && k in items && SortedBy(items, ks) && j <= |ks|
    requires forall i :: 0 <= i < j ==> ComparePages(items[ks[i]], items[k]) <= 0
    requires j < |ks| ==> ComparePages(items[ks[j]], items[k]) > 0
    ensures AllIn(items, ks[..j] + [k] + ks[j..])
    ensures SortedBy(items, ks[..j] + [k] + ks[j..])
  {
    var r := ks[..j] + [k] + ks[j..];
    assert forall i :: 0 <= i < j ==> r[i] == ks[i];
    assert forall i :: j < i < |r| ==> r[i] == ks[i - 1];
    forall a, b | 0 <= a < b < |r|
      ensures ComparePages(items[r[a]], items[r[b]]) <= 0
    {
      if b < j {
        assert r[a] == ks[a] && r[b] == ks[b];
      } else if a < j && b == j {
        assert r[a] == ks[a] && r[b] == k;
      } else if a < j {
        assert r[a] == ks[a] && r[b] == ks[b - 1];
      } else if a > j {
        assert r[a] == ks[a - 1] && r[b] == ks[b - 1];
      } else {
        // `k` goes before the key that stopped the scan, hence before every later one
        ComparePagesAntisymmetric(items[ks[j]], items[k]);
        if b > j + 1 {
          ComparePagesTransitive(items[k], items[ks[j]], items[ks[b - 1]]);
        }
      }
    }
  }

  /** Inserts `k` into the sorted list `ks` after every key that does not go after it. */
  method InsertSorted(items: map<Key, Item>, ks: seq<Key>, k: Key) returns (r: seq<Key>)
    requires AllIn(items, ks) && k in items && SortedBy(items, ks)
    ensures multiset(r) == multiset(ks) + multiset{k}
    ensures AllIn(items, r) && SortedBy(items, r)
  {
    var j := 0;
    while j < |ks| && ComparePages(items[ks[j]], items[k]) <= 0
      invariant 0 <= j <= |ks|
      invariant forall i :: 0 <= i < j ==> ComparePages(items[ks[i]], items[k]) <= 0
    {
      j := j + 1;
    }
    InsertionKeepsOrder(items, ks, k, j);
    r := ks[..j] + [k] + ks[j..];
    assert ks == ks[..j] + ks[j..];
  }

  /** `val.sort!` with `compare_pages`: a sorted permutation of the list. Ruby's
      sort is not stable, so nothing is promised about the order of siblings
      that compare equal. */
  method SortSiblings(items: map<Key, Item>, ks: seq<Key>) returns (r: seq<Key>)
    requires AllIn(items, ks)
    ensures multiset(r) == multiset(ks)
    ensures AllIn(items, r) && SortedBy(items, r)
  {
    r := [];
    for i := 0 to |ks|
      invariant multiset(r) == multiset(ks[..i])
      invariant AllIn(items, r) && SortedBy(items, r)
    {
      r := InsertSorted(items, r, ks[i]);
      assert ks[..i + 1] == ks[..i] + [ks[i]];
    }
    assert ks[..|ks|] == ks;
  }
}
