/** The records `build_tree` links together, seen as trees.

    The Ruby pages share their `subpages` arrays with `@lookup`, so following
    `menu['subpages']` from a root list walks the same structure as following
    keys through `lookup`. `Tree` and `Forest` read that structure off the
    arena as `MenuNode` values; `SuburlsOf` is `suburls(page_hash, add_self)`
    computed on the arena itself. */
module Arena {
  import opened MenuTypes
  import opened Ordering
  import opened MenuTree

  /** Every container has a rank, bounded by the attach count. */
  predicate RanksOk(lookup: map<Key, seq<Key>>, rank: map<Key, nat>, clock: nat) {
    forall k :: k in lookup ==> k in rank && rank[k] <= clock
  }

  /** Every subpage is an attached page whose parent is the container, attached after it. */
  predicate LinksOk(items: map<Key, Item>, lookup: map<Key, seq<Key>>, rank: map<Key, nat>) {
    forall c, k :: c in lookup && k in lookup[c] ==>
      k in items && c in rank && k in rank && items[k].parent == Some(c) && rank[c] < rank[k]
  }

  /** The part of the generator's invariant that makes the subpage links a forest. */
  predicate Linked(items: map<Key, Item>, lookup: map<Key, seq<Key>>, rank: map<Key, nat>, clock: nat) {
    && RanksOk(lookup, rank, clock)
    && LinksOk(items, lookup, rank)
    && items.Keys <= lookup.Keys
  }

  /** Keys that may stand below a container of rank `lo`. */
  predicate Below(items: map<Key, Item>, rank: map<Key, nat>, ks: seq<Key>, lo: nat) {
    forall j :: j in ks ==> j in items && j in rank && lo < rank[j]
  }

  /** The page at `k` with its subtree, as `site.menu` exposes it; `stored`
      holds the `menu.suburls` values set so far (none: empty). */
  function Tree(items: map<Key, Item>, lookup: map<Key, seq<Key>>, ghost rank: map<Key, nat>, ghost clock: nat,
                stored: map<Key, seq<Url>>, k: Key): (n: MenuNode)
    requires Linked(items, lookup, rank, clock) && k in items
    ensures n.item == items[k] && |n.subpages| == |lookup[k]|
    ensures forall i :: 0 <= i < |lookup[k]| ==> n.subpages[i].item == items[lookup[k][i]]
    decreases clock - rank[k], 1
  {
    MenuNode(items[k], if k in stored then stored[k] else [],
             Forest(items, lookup, rank, clock, stored, lookup[k], rank[k]))
  }

  /** The trees of the keys `ks`, in order. */
  function Forest(items: map<Key, Item>, lookup: map<Key, seq<Key>>, ghost rank: map<Key, nat>, ghost clock: nat,
                  stored: map<Key, seq<Url>>, ks: seq<Key>, ghost lo: nat): (ns: seq<MenuNode>)
    requires Linked(items, lookup, rank, clock) && lo <= clock && Below(items, rank, ks, lo)
    ensures |ns| == |ks|
    ensures forall i :: 0 <= i < |ks| ==> ns[i] == Tree(items, lookup, rank, clock, stored, ks[i])
    decreases clock - lo, 0, |ks|
  {
    if ks == [] then []
    else [Tree(items, lookup, rank, clock, stored, ks[0])] + Forest(items, lookup, rank, clock, stored, ks[1..], lo)
  }

  /** `suburls(page_hash, add_self)`: the urls of the subtree below `k` in
      post-order, followed by the page's own url when `addSelf` holds. */
  function SuburlsOf(items: map<Key, Item>, lookup: map<Key, seq<Key>>, ghost rank: map<Key, nat>, ghost clock: nat,
                     k: Key, addSelf: bool): (r: seq<Url>)
    requires Linked(items, lookup, rank, clock) && k in items
    decreases clock - rank[k], 1
  {
    var subsub := ForestSuburlsOf(items, lookup, rank, clock, lookup[k], rank[k]);
    if addSelf then subsub + [items[k].url] else subsub
  }

  /** The flattened `suburls(subpage, true)` of the keys `ks`. */
  function ForestSuburlsOf(items: map<Key, Item>, lookup: map<Key, seq<Key>>, ghost rank: map<Key, nat>, ghost clock: nat,
                           ks: seq<Key>, ghost lo: nat): (r: seq<Url>)
    requires Linked(items, lookup, rank, clock) && lo <= clock && Below(items, rank, ks, lo)
    decreases clock - lo, 0, |ks|
  {
    if ks == [] then []
    else SuburlsOf(items, lookup, rank, clock, ks[0], true) + ForestSuburlsOf(items, lookup, rank, clock, ks[1..], lo)
  }

  /** The arena computation agrees with the closed form on the tree: the
      urls of all proper descendants, and does not depend on what is stored. */
  lemma {:induction false} SuburlsOfTree(items: map<Key, Item>, lookup: map<Key, seq<Key>>, rank: map<Key, nat>, clock: nat,
                                         stored: map<Key, seq<Url>>, k: Key)
    requires Linked(items, lookup, rank, clock) && k in items
    ensures Suburls(Tree(items, lookup, rank, clock, stored, k)) == SuburlsOf(items, lookup, rank, clock, k, false)
    decreases clock - rank[k], 1
  {
    ForestSuburlsOfForest(items, lookup, rank, clock, stored, lookup[k], rank[k]);
  }

  lemma {:induction false} ForestSuburlsOfForest(items: map<Key, Item>, lookup: map<Key, seq<Key>>, rank: map<Key, nat>, clock: nat,
                                                 stored: map<Key, seq<Url>>, ks: seq<Key>, lo: nat)
    requires Linked(items, lookup, rank, clock) && lo <= clock && Below(items, rank, ks, lo)
    ensures ForestUrls(Forest(items, lookup, rank, clock, stored, ks, lo)) == ForestSuburlsOf(items, lookup, rank, clock, ks, lo)
    decreases clock - lo, 0, |ks|
  {
    if ks != [] {
      var ns := Forest(items, lookup, rank, clock, stored, ks, lo);
      SuburlsOfTree(items, lookup, rank, clock, stored, ks[0]);
      ForestSuburlsOfForest(items, lookup, rank, clock, stored, ks[1..], lo);
      assert ns[1..] == Forest(items, lookup, rank, clock, stored, ks[1..], lo);
    }
  }

  /** Every key below and including `k` stores the `suburls(page)` value of its page. */
  ghost predicate Stored(items: map<Key, Item>, lookup: map<Key, seq<Key>>, rank: map<Key, nat>, clock: nat,
                         stored: map<Key, seq<Url>>, k: Key)
    requires Linked(items, lookup, rank, clock) && k in items
    decreases clock - rank[k]
  {
    && k in stored && stored[k] == SuburlsOf(items, lookup, rank, clock, k, false)
    && forall j :: j in lookup[k] ==> Stored(items, lookup, rank, clock, stored, j)
  }

  /** Stored values make the trees read off the arena well formed: each
      node holds the urls of its proper descendants. */
  lemma {:induction false} StoredWellFormed(items: map<Key, Item>, lookup: map<Key, seq<Key>>, rank: map<Key, nat>, clock: nat,
                                            stored: map<Key, seq<Url>>, ks: seq<Key>, lo: nat)
    requires Linked(items, lookup, rank, clock) && lo <= clock && Below(items, rank, ks, lo)
    requires forall j :: j in ks ==> Stored(items, lookup, rank, clock, stored, j)
    ensures ForestWellFormed(Forest(items, lookup, rank, clock, stored, ks, lo))
    decreases clock - lo
  {
    var ns := Forest(items, lookup, rank, clock, stored, ks, lo);
    forall n | n in ns ensures WellFormed(n) {
      var i :| 0 <= i < |ns| && ns[i] == n;
      var k := ks[i];
      assert k in ks;
      SuburlsOfTree(items, lookup, rank, clock, stored, k);
      StoredWellFormed(items, lookup, rank, clock, stored, lookup[k], rank[k]);
    }
  }

  /** Every subpage list is sorted by `compare_pages`. */
  predicate AllSorted(items: map<Key, Item>, lookup: map<Key, seq<Key>>) {
    forall c :: c in lookup ==> AllIn(items, lookup[c]) && SortedBy(items, lookup[c])
  }

  /** Sorted lists make every level of the trees read off the arena ordered. */
  lemma {:induction false} SortedOrdered(items: map<Key, Item>, lookup: map<Key, seq<Key>>, rank: map<Key, nat>, clock: nat,
                                         stored: map<Key, seq<Url>>, ks: seq<Key>, lo: nat)
    requires Linked(items, lookup, rank, clock) && lo <= clock && Below(items, rank, ks, lo)
    requires AllSorted(items, lookup) && AllIn(items, ks) && SortedBy(items, ks)
    ensures Ordered(Forest(items, lookup, rank, clock, stored, ks, lo))
    decreases clock - lo
  {
    var ns := Forest(items, lookup, rank, clock, stored, ks, lo);
    forall n | n in ns ensures Ordered(n.subpages) {
      var i :| 0 <= i < |ns| && ns[i] == n;
      var k := ks[i];
      assert k in ks;
      SortedOrdered(items, lookup, rank, clock, stored, lookup[k], rank[k]);
    }
  }

  /** Only keys that end up with their correct `suburls` value change. */
  ghost predicate Refines(items: map<Key, Item>, lookup: map<Key, seq<Key>>, rank: map<Key, nat>, clock: nat,
                          before: map<Key, seq<Url>>, after: map<Key, seq<Url>>)
    requires Linked(items, lookup, rank, clock)
  {
    forall j :: ((j in before <==> j in after) && (j in before ==> before[j] == after[j]))
      || (j in items && j in after && after[j] == SuburlsOf(items, lookup, rank, clock, j, false))
  }

  /** Refining keeps stored values stored. */
  lemma {:induction false} RefinesKeepsStored(items: map<Key, Item>, lookup: map<Key, seq<Key>>, rank: map<Key, nat>, clock: nat,
                                              before: map<Key, seq<Url>>, after: map<Key, seq<Url>>, k: Key)
    requires Linked(items, lookup, rank, clock) && k in items
    requires Refines(items, lookup, rank, clock, before, after)
    requires Stored(items, lookup, rank, clock, before, k)
    ensures Stored(items, lookup, rank, clock, after, k)
    decreases clock - rank[k]
  {
    forall j | j in lookup[k] ensures Stored(items, lookup, rank, clock, after, j) {
      RefinesKeepsStored(items, lookup, rank, clock, before, after, j);
    }
  }

  lemma RefinesTrans(items: map<Key, Item>, lookup: map<Key, seq<Key>>, rank: map<Key, nat>, clock: nat,
                     a: map<Key, seq<Url>>, b: map<Key, seq<Url>>, c: map<Key, seq<Url>>)
    requires Linked(items, lookup, rank, clock)
    requires Refines(items, lookup, rank, clock, a, b) && Refines(items, lookup, rank, clock, b, c)
    ensures Refines(items, lookup, rank, clock, a, c)
  {
  }

  /** Every key of `ks` is an attached page whose subtree is stored. */
  ghost predicate ListStored(items: map<Key, Item>, lookup: map<Key, seq<Key>>, rank: map<Key, nat>, clock: nat,
                             stored: map<Key, seq<Url>>, ks: seq<Key>)
    requires Linked(items, lookup, rank, clock)
  {
    forall j :: j in ks ==> j in items && Stored(items, lookup, rank, clock, stored, j)
  }

  lemma ListStoredNext(items: map<Key, Item>, lookup: map<Key, seq<Key>>, rank: map<Key, nat>, clock: nat,
                        stored: map<Key, seq<Url>>, ks: seq<Key>, i: nat)
    requires Linked(items, lookup, rank, clock) && i < |ks| && ks[i] in items
    requires ListStored(items, lookup, rank, clock, stored, ks[..i]) && Stored(items, lookup, rank, clock, stored, ks[i])
    ensures ListStored(items, lookup, rank, clock, stored, ks[..i + 1])
  {
    assert ks[..i + 1] == ks[..i] + [ks[i]];
  }

  lemma RefinesKeepsListStored(items: map<Key, Item>, lookup: map<Key, seq<Key>>, rank: map<Key, nat>, clock: nat,
                               before: map<Key, seq<Url>>, after: map<Key, seq<Url>>, ks: seq<Key>)
    requires Linked(items, lookup, rank, clock)
    requires Refines(items, lookup, rank, clock, before, after)
    requires ListStored(items, lookup, rank, clock, before, ks)
    ensures ListStored(items, lookup, rank, clock, after, ks)
  {
    forall j | j in ks ensures Stored(items, lookup, rank, clock, after, j) {
      RefinesKeepsStored(items, lookup, rank, clock, before, after, j);
    }
  }
}
