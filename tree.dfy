/** The published menu trees: an attached page's record, the descendant urls
    stored on it (`menu.suburls`) and its subpages. */
module MenuTree {
  import opened MenuTypes
  import opened Ordering

  datatype MenuNode = MenuNode(item: Item, suburls: seq<Url>, subpages: seq<MenuNode>)

  /** The number of nodes in the tree rooted at `n`. */
  function Size(n: MenuNode): nat {
    1 + ForestSize(n.subpages)
  }

  function ForestSize(ns: seq<MenuNode>): nat {
    if ns == [] then 0 else Size(ns[0]) + ForestSize(ns[1..])
  }

  /** `suburls(page_hash)`: for each subpage in order, its own descendant urls
      followed by its url. A leaf gives the empty list. */
  function Suburls(n: MenuNode): (r: seq<Url>)
    ensures |r| == Size(n) - 1
  {
    ForestUrls(n.subpages)
  }

  /** `suburls(subpage, true)` over a subpage list, flattened. */
  function ForestUrls(ns: seq<MenuNode>): (r: seq<Url>)
    ensures |r| == ForestSize(ns)
  {
    if ns == [] then [] else Suburls(ns[0]) + [ns[0].item.url] + ForestUrls(ns[1..])
  }

  /** `d` sits strictly below `n`. */
  predicate IsDescendant(d: MenuNode, n: MenuNode)
    decreases n
  {
    InForest(d, n.subpages)
  }

  /** `d` is one of the trees `ns` or sits below one of them. */
  predicate InForest(d: MenuNode, ns: seq<MenuNode>)
    decreases ns
  {
    exists i :: 0 <= i < |ns| && (d == ns[i] || IsDescendant(d, ns[i]))
  }

  /** A url is in the flattened list of a forest iff it is the url of one of its nodes. */
  lemma {:induction false} ForestUrlsAreNodeUrls(ns: seq<MenuNode>, u: Url)
    ensures u in ForestUrls(ns) <==> exists d :: InForest(d, ns) && d.item.url == u
    decreases ForestSize(ns)
  {
    if ns != [] {
      var c, rest := ns[0], ns[1..];
      assert ForestUrls(ns) == ForestUrls(c.subpages) + [c.item.url] + ForestUrls(rest);
      ForestUrlsAreNodeUrls(c.subpages, u);
      ForestUrlsAreNodeUrls(rest, u);
      if u in ForestUrls(ns) {
        if u in ForestUrls(c.subpages) {
          var d :| InForest(d, c.subpages) && d.item.url == u;
          assert IsDescendant(d, c);
          assert InForest(d, ns);
        } else if u == c.item.url {
          assert InForest(c, ns);
        } else {
          var d :| InForest(d, rest) && d.item.url == u;
          var i :| 0 <= i < |rest| && (d == rest[i] || IsDescendant(d, rest[i]));
          assert rest[i] == ns[i + 1];
          assert InForest(d, ns);
        }
      } else {
        forall d | InForest(d, ns)
          ensures d.item.url != u
        {
          var i :| 0 <= i < |ns| && (d == ns[i] || IsDescendant(d, ns[i]));
          if i > 0 {
            assert ns[i] == rest[i - 1];
            assert InForest(d, rest);
          } else if d != c {
            assert InForest(d, c.subpages);
          }
        }
      }
    }
  }

  /** A url occurs in `suburls(n)` iff it is the url of a proper descendant of `n`. */
  lemma SuburlsAreDescendantUrls(n: MenuNode, u: Url)
    ensures u in Suburls(n) <==> exists d :: IsDescendant(d, n) && d.item.url == u
  {
    ForestUrlsAreNodeUrls(n.subpages, u);
  }

  /** Every node stores the descendant urls `set_suburls` computes for it. */
  predicate WellFormed(n: MenuNode) {
    n.suburls == Suburls(n) && forall c :: c in n.subpages ==> WellFormed(c)
  }

  predicate ForestWellFormed(ns: seq<MenuNode>) {
    forall n :: n in ns ==> WellFormed(n)
  }

  /** Every subpage list in the forest is ordered by `compare_pages`. */
  predicate Ordered(ns: seq<MenuNode>) {
    && (forall i, j :: 0 <= i < j < |ns| ==> ComparePages(ns[i].item, ns[j].item) <= 0)
    && (forall n :: n in ns ==> Ordered(n.subpages))
  }

  /** The number of levels of the forest: 0 when empty. */
  function Height(ns: seq<MenuNode>): nat {
    if ns == [] then 0
    else
      var h, t := 1 + Height(ns[0].subpages), Height(ns[1..]);
      if h < t then t else h
  }

  /** The forest cut below `k` more levels: the nodes of the first `k + 1`
      levels, those of level `k` with their subpages dropped. */
  function Prune(ns: seq<MenuNode>, k: nat): (r: seq<MenuNode>)
    ensures |r| == |ns|
    ensures forall i :: 0 <= i < |ns| ==> r[i].item == ns[i].item && r[i].suburls == ns[i].suburls
    ensures forall i :: 0 <= i < |ns| && k == 0 ==> r[i].subpages == []
  {
    if ns == [] then []
    else
      var n := ns[0];
      [n.(subpages := if k == 0 then [] else Prune(n.subpages, k - 1))] + Prune(ns[1..], k)
  }

  /** A pruned forest has at most `k + 1` levels. */
  lemma {:induction false} PruneHeight(ns: seq<MenuNode>, k: nat)
    ensures Height(Prune(ns, k)) <= k + 1
  {
    if ns != [] {
      PruneHeight(ns[1..], k);
      if k > 0 {
        PruneHeight(ns[0].subpages, k - 1);
      }
    }
  }

  /** Pruning a forest that already has at most `k + 1` levels changes nothing. */
  lemma {:induction false} PruneShallow(ns: seq<MenuNode>, k: nat)
    requires Height(ns) <= k + 1
    ensures Prune(ns, k) == ns
  {
    if ns != [] {
      PruneShallow(ns[1..], k);
      if k > 0 {
        PruneShallow(ns[0].subpages, k - 1);
      } else {
        assert Height(ns[0].subpages) == 0;
      }
    }
  }
}
