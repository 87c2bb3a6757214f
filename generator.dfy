/** `Jekyll::MenuGenerator`: resolves the pages into subpage trees, sorts
    every subpage list, stores descendant urls and publishes the menus.

    The Ruby code shares each page's `subpages` array between `@lookup` and
    the page's record. Here the records live in an arena: `items` holds the
    record of every attached page by key and `lookup` maps every container
    key to the keys of its subpages, so appending to `lookup[c]` is appending
    to the shared array. */
module Generator {
  import opened MenuTypes
  import opened Ordering
  import opened MenuTree
  import opened Arena

  /** The identity keys of a page list. */
  function Keys(ps: seq<Page>): set<Key> {
    set p | p in ps :: p.key
  }

  predicate UniqueKeys(ps: seq<Page>) {
    forall i, j :: 0 <= i < j < |ps| ==> ps[i].key != ps[j].key
  }

  predicate Distinct(names: seq<string>) {
    forall i, j :: 0 <= i < j < |names| ==> names[i] != names[j]
  }

  /** A parent key `getParentInLookup` resolves: a container already in the
      lookup table, or a key it accepts as a menu root. No parent never resolves. */
  predicate Resolves(cfg: Config, lookup: map<Key, seq<Key>>, parent: Option<Key>) {
    parent.Some? && (parent.value in lookup || IsRootKey(cfg, parent.value))
  }

  /** The pending pages: unique keys, none a root key, none attached. */
  predicate PendingOk(cfg: Config, pages: seq<Page>, items: map<Key, Item>) {
    && UniqueKeys(pages)
    && (forall p :: p in pages ==> !IsRootKey(cfg, p.key) && p.key !in items)
  }

  /** Every attached page is a container and is not a root. */
  predicate ItemsOk(cfg: Config, items: map<Key, Item>, lookup: map<Key, seq<Key>>) {
    forall k {:trigger items[k]} :: k in items ==> items[k].key == k && !IsRootKey(cfg, k) && k in lookup
  }

  /** The containers that are not attached pages are exactly the recorded
      roots, each recorded once. */
  predicate RootsOk(cfg: Config, items: map<Key, Item>, lookup: map<Key, seq<Key>>, menues: seq<string>) {
    && (forall k {:trigger k in lookup} :: k in lookup && k !in items ==>
          IsRootKey(cfg, k) && RootName(cfg, k) in menues)
    && MenusKnown(cfg, lookup, menues)
    && Distinct(menues)
  }

  /** Every attached page occurs exactly once in its parent's list (and, by
      LinksOk, in no other list). */
  predicate OnceOk(items: map<Key, Item>, lookup: map<Key, seq<Key>>) {
    forall k {:trigger items[k]} :: k in items ==>
      items[k].parent.Some? && items[k].parent.value in lookup
      && multiset(lookup[items[k].parent.value])[k] == 1
  }

  /** The generator's invariant, on the values of its fields. */
  predicate ValidState(cfg: Config, pages: seq<Page>, lookup: map<Key, seq<Key>>, menues: seq<string>,
                       items: map<Key, Item>, rank: map<Key, nat>, clock: nat)
  {
    && PendingOk(cfg, pages, items)
    && ItemsOk(cfg, items, lookup)
    && RootsOk(cfg, items, lookup, menues)
    && RanksOk(lookup, rank, clock)
    && LinksOk(items, lookup, rank)
    && OnceOk(items, lookup)
  }

  /** Allocating an absent root key keeps the invariant. */
  lemma AllocRootKeepsValid(cfg: Config, pages: seq<Page>, lookup: map<Key, seq<Key>>, menues: seq<string>,
                            items: map<Key, Item>, rank: map<Key, nat>, clock: nat, k: Key,
                            lookup': map<Key, seq<Key>>, menues': seq<string>, rank': map<Key, nat>)
    requires ValidState(cfg, pages, lookup, menues, items, rank, clock)
    requires k !in lookup && IsRootKey(cfg, k)
    requires lookup' == lookup[k := []] && menues' == menues + [RootName(cfg, k)] && rank' == rank[k := 0]
    ensures ValidState(cfg, pages, lookup', menues', items, rank', clock)
  {
    AllocRootKeepsRoots(cfg, items, lookup, menues, k);
    assert items.Keys <= lookup.Keys;
    AllocRootKeepsLinks(items, lookup, rank, k);
  }

  lemma AllocRootKeepsRoots(cfg: Config, items: map<Key, Item>, lookup: map<Key, seq<Key>>, menues: seq<string>, k: Key)
    requires ItemsOk(cfg, items, lookup) && RootsOk(cfg, items, lookup, menues)
    requires k !in lookup && IsRootKey(cfg, k)
    ensures ItemsOk(cfg, items, lookup[k := []])
    ensures RootsOk(cfg, items, lookup[k := []], menues + [RootName(cfg, k)])
  {
    var name := RootName(cfg, k);
    assert RootKey(cfg, name) == k;
    assert name !in menues;
  }

  lemma AllocRootKeepsLinks(items: map<Key, Item>, lookup: map<Key, seq<Key>>, rank: map<Key, nat>, k: Key)
    requires LinksOk(items, lookup, rank) && OnceOk(items, lookup)
    requires items.Keys <= lookup.Keys && k !in lookup
    ensures LinksOk(items, lookup[k := []], rank[k := 0])
    ensures OnceOk(items, lookup[k := []])
  {
    var lookup', rank' := lookup[k := []], rank[k := 0];
    forall c, j | c in lookup' && j in lookup'[c]
      ensures j in items && j in rank' && items[j].parent == Some(c) && rank'[c] < rank'[j]
    {
      assert c in lookup && lookup'[c] == lookup[c];
      assert j in items && items[j].parent == Some(c) && rank[c] < rank[j];
      assert j != k;
    }
    forall j | j in items
      ensures items[j].parent.Some? && items[j].parent.value in lookup'
              && multiset(lookup'[items[j].parent.value])[j] == 1
    {
      assert items[j].parent.value != k;
    }
  }

  /** Attaching the pending page at `i` under its resolved parent keeps the invariant. */
  lemma AttachKeepsValid(cfg: Config, pages: seq<Page>, lookup: map<Key, seq<Key>>, menues: seq<string>,
                         items: map<Key, Item>, rank: map<Key, nat>, clock: nat, i: nat,
                         pages': seq<Page>, lookup': map<Key, seq<Key>>, items': map<Key, Item>,
                         rank': map<Key, nat>, clock': nat)
    requires ValidState(cfg, pages, lookup, menues, items, rank, clock)
    requires i < |pages| && pages[i].parent.Some? && pages[i].parent.value in lookup
    requires pages' == pages[..i] + pages[i + 1..]
    requires lookup' == lookup[pages[i].key := []][pages[i].parent.value := lookup[pages[i].parent.value] + [pages[i].key]]
    requires items' == items[pages[i].key := ToItem(pages[i])]
    requires rank' == rank[pages[i].key := clock + 1] && clock' == clock + 1
    ensures pages[i].key !in lookup && pages[i].key != pages[i].parent.value
    ensures ValidState(cfg, pages', lookup', menues, items', rank', clock')
  {
    var p := pages[i];
    assert p in pages;
    assert p.key !in lookup;
    AttachKeepsPending(cfg, pages, items, i);
    AttachKeepsRoots(cfg, items, lookup, menues, p);
    AttachKeepsLinks(items, lookup, rank, clock, p);
  }

  lemma AttachKeepsPending(cfg: Config, pages: seq<Page>, items: map<Key, Item>, i: nat)
    requires PendingOk(cfg, pages, items) && i < |pages|
    ensures PendingOk(cfg, pages[..i] + pages[i + 1..], items[pages[i].key := ToItem(pages[i])])
  {
    var p := pages[i];
    var pages' := pages[..i] + pages[i + 1..];
    forall q | q in pages' ensures q in pages && q.key != p.key {
      var j :| 0 <= j < |pages'| && pages'[j] == q;
      if j < i { assert q == pages[j]; } else { assert q == pages[j + 1]; }
    }
    assert UniqueKeys(pages') by {
      forall a, b | 0 <= a < b < |pages'| ensures pages'[a].key != pages'[b].key {
        var a', b' := if a < i then a else a + 1, if b < i then b else b + 1;
        assert pages'[a] == pages[a'] && pages'[b] == pages[b'];
      }
    }
  }

  lemma AttachKeepsRoots(cfg: Config, items: map<Key, Item>, lookup: map<Key, seq<Key>>, menues: seq<string>, p: Page)
    requires ItemsOk(cfg, items, lookup) && RootsOk(cfg, items, lookup, menues)
    requires p.parent.Some? && p.parent.value in lookup && !IsRootKey(cfg, p.key)
    ensures var lookup' := lookup[p.key := []][p.parent.value := lookup[p.parent.value] + [p.key]];
            && ItemsOk(cfg, items[p.key := ToItem(p)], lookup')
            && RootsOk(cfg, items[p.key := ToItem(p)], lookup', menues)
  {
  }

  lemma AttachKeepsLinks(items: map<Key, Item>, lookup: map<Key, seq<Key>>, rank: map<Key, nat>, clock: nat, p: Page)
    requires RanksOk(lookup, rank, clock) && LinksOk(items, lookup, rank) && OnceOk(items, lookup)
    requires p.parent.Some? && p.parent.value in lookup && p.key !in lookup && p.key !in items
    ensures var lookup' := lookup[p.key := []][p.parent.value := lookup[p.parent.value] + [p.key]];
            var items', rank' := items[p.key := ToItem(p)], rank[p.key := clock + 1];
            && RanksOk(lookup', rank', clock + 1)
            && LinksOk(items', lookup', rank')
            && OnceOk(items', lookup')
  {
    var c := p.parent.value;
    var items' := items[p.key := ToItem(p)];
    var lookup' := lookup[p.key := []][c := lookup[c] + [p.key]];
    var rank' := rank[p.key := clock + 1];
    assert RanksOk(lookup', rank', clock + 1);
    assert p.key !in lookup[c];
    forall d, k | d in lookup' && k in lookup'[d]
      ensures k in items' && k in rank' && items'[k].parent == Some(d) && rank'[d] < rank'[k]
    {
      if d == c && k == p.key {
      } else if d == c {
        assert k in lookup[c];
      } else {
        assert d != p.key && k in lookup[d];
      }
    }
    forall k | k in items'
      ensures items'[k].parent.Some? && items'[k].parent.value in lookup'
              && multiset(lookup'[items'[k].parent.value])[k] == 1
    {
      if k != p.key {
        var e := items[k].parent.value;
        assert e != p.key;
        if e == c {
          assert multiset(lookup'[c]) == multiset(lookup[c]) + multiset{p.key};
        }
      } else {
        assert multiset(lookup'[c]) == multiset(lookup[c]) + multiset{p.key};
        assert p.key !in multiset(lookup[c]);
      }
    }
  }

  /** Nothing is lost or invented between `before` and now: every page is
      still pending or attached with its record, every earlier record is
      kept, and the attached keys are the earlier ones plus the keys that
      left the pending list. */
  predicate Conserved(before: seq<Page>, beforeItems: map<Key, Item>, pages: seq<Page>, items: map<Key, Item>) {
    && (forall p :: p in pages ==> p in before)
    && (forall p :: p in before && p !in pages ==> p.key in items && items[p.key] == ToItem(p))
    && (forall k :: k in beforeItems ==> k in items && items[k] == beforeItems[k])
    && items.Keys == beforeItems.Keys + (Keys(before) - Keys(pages))
  }

  lemma ConservedRefl(pages: seq<Page>, items: map<Key, Item>)
    ensures Conserved(pages, items, pages, items)
  {
  }

  /** Removing the page at `i` from a list with unique keys removes exactly its key. */
  lemma RemoveKeys(pages: seq<Page>, i: nat)
    requires i < |pages| && UniqueKeys(pages)
    ensures Keys(pages[..i] + pages[i + 1..]) == Keys(pages) - {pages[i].key}
  {
    var p := pages[i];
    var pages' := pages[..i] + pages[i + 1..];
    RemoveLeaves(pages, i);
    forall k | k in Keys(pages') ensures k in Keys(pages) && k != p.key {
      var q :| q in pages' && q.key == k;
    }
    forall k | k in Keys(pages) && k != p.key ensures k in Keys(pages') {
      var q :| q in pages && q.key == k;
      var j :| 0 <= j < |pages| && pages[j] == q;
      if j < i { assert pages'[j] == q; } else { assert j != i && pages'[j - 1] == q; }
    }
  }

  /** The pages left after removing the one at `i` are other pages of the
      list, none with its key. */
  lemma RemoveLeaves(pages: seq<Page>, i: nat)
    requires i < |pages| && UniqueKeys(pages)
    ensures forall q :: q in pages[..i] + pages[i + 1..] ==> q in pages && q.key != pages[i].key
  {
    var pages' := pages[..i] + pages[i + 1..];
    forall q | q in pages' ensures q in pages && q.key != pages[i].key {
      var j :| 0 <= j < |pages'| && pages'[j] == q;
      if j < i { assert q == pages[j]; } else { assert q == pages[j + 1]; }
    }
  }


  /** Attaching a pending page conserves the pages. */
  lemma AttachConserves(before: seq<Page>, beforeItems: map<Key, Item>, pages: seq<Page>, items: map<Key, Item>, i: nat)
    requires Conserved(before, beforeItems, pages, items)
    requires i < |pages| && UniqueKeys(pages) && pages[i].key !in items
    ensures Conserved(before, beforeItems, pages[..i] + pages[i + 1..], items[pages[i].key := ToItem(pages[i])])
  {
    var p := pages[i];
    var pages' := pages[..i] + pages[i + 1..];
    var items' := items[p.key := ToItem(p)];
    assert p in pages && p in before;
    RemoveLeaves(pages, i);
    RemoveKeys(pages, i);
    forall q | q in before && q !in pages' ensures q.key in items' && items'[q.key] == ToItem(q) {
      if q != p {
        assert q !in pages;
      }
    }
    assert items'.Keys == items.Keys + {p.key};
    assert p.key in Keys(before);
  }

  /** Two conserving steps make one. */
  lemma ConservedTrans(before: seq<Page>, beforeItems: map<Key, Item>, mid: seq<Page>, midItems: map<Key, Item>,
                       pages: seq<Page>, items: map<Key, Item>)
    requires Conserved(before, beforeItems, mid, midItems) && Conserved(mid, midItems, pages, items)
    ensures Conserved(before, beforeItems, pages, items)
  {
    assert Keys(pages) <= Keys(mid) <= Keys(before);
  }
  /** A page that left the pending list is attached under its explicit menu
      name, or else its title, with its own url and position. */
  lemma AttachedName(before: seq<Page>, pages: seq<Page>, items: map<Key, Item>)
    requires Conserved(before, map[], pages, items)
    ensures forall p :: p in before && p !in pages ==>
              && p.key in items && items[p.key].url == p.url && items[p.key].position == p.position
              && items[p.key].name == (if p.name.Some? then p.name.value else p.title)
  {
    forall p | p in before && p !in pages
      ensures items[p.key].name == (if p.name.Some? then p.name.value else p.title)
    {
      assert items[p.key] == ToItem(p);
    }
  }

  /** Every menu recorded since `menues0` is the root key of the parent of a
      page that left `before`: a root is allocated only for the parent of a
      page that then attaches. */
  ghost predicate RootsFromPages(cfg: Config, before: seq<Page>, pages: seq<Page>, menues0: seq<string>, menues: seq<string>) {
    forall n :: n in menues && n !in menues0 ==>
      exists p :: p in before && p !in pages && p.parent == Some(RootKey(cfg, n))
  }

  lemma RootsFromPagesTrans(cfg: Config, a: seq<Page>, b: seq<Page>, c: seq<Page>,
                            m0: seq<string>, m1: seq<string>, m2: seq<string>)
    requires RootsFromPages(cfg, a, b, m0, m1) && RootsFromPages(cfg, b, c, m1, m2)
    requires forall p :: p in c ==> p in b
    requires forall p :: p in b ==> p in a
    ensures RootsFromPages(cfg, a, c, m0, m2)
  {
    forall n | n in m2 && n !in m0
      ensures exists p :: p in a && p !in c && p.parent == Some(RootKey(cfg, n))
    {
      if n in m1 {
        var p :| p in a && p !in b && p.parent == Some(RootKey(cfg, n));
        assert p !in c;
      } else {
        var p :| p in b && p !in c && p.parent == Some(RootKey(cfg, n));
        assert p in a;
      }
    }
  }

  /** Attaching the page at `k` records at most the name of its parent's root. */
  lemma AttachRootFromPage(cfg: Config, before: seq<Page>, k: nat, menues0: seq<string>, menues: seq<string>)
    requires k < |before| && UniqueKeys(before) && before[k].parent.Some?
    requires menues == menues0 || (IsRootKey(cfg, before[k].parent.value) && menues == menues0 + [RootName(cfg, before[k].parent.value)])
    ensures RootsFromPages(cfg, before, before[..k] + before[k + 1..], menues0, menues)
  {
    RemoveLeaves(before, k);
    forall n | n in menues && n !in menues0
      ensures exists p :: p in before && p !in before[..k] + before[k + 1..] && p.parent == Some(RootKey(cfg, n))
    {
      assert before[k] in before && before[k] !in before[..k] + before[k + 1..];
      assert before[k].parent == Some(RootKey(cfg, n));
    }
  }


  /** Reordering subpage lists keeps the invariant. */
  lemma PermuteKeepsValid(cfg: Config, pages: seq<Page>, lookup: map<Key, seq<Key>>, menues: seq<string>,
                          items: map<Key, Item>, rank: map<Key, nat>, clock: nat, lookup': map<Key, seq<Key>>)
    requires ValidState(cfg, pages, lookup, menues, items, rank, clock)
    requires lookup'.Keys == lookup.Keys
    requires forall c :: c in lookup ==> multiset(lookup'[c]) == multiset(lookup[c])
    ensures ValidState(cfg, pages, lookup', menues, items, rank, clock)
  {
    PermuteKeepsKeys(cfg, items, lookup, menues, rank, clock, lookup');
    PermuteKeepsLinks(items, lookup, rank, lookup');
  }

  lemma PermuteKeepsKeys(cfg: Config, items: map<Key, Item>, lookup: map<Key, seq<Key>>, menues: seq<string>,
                         rank: map<Key, nat>, clock: nat, lookup': map<Key, seq<Key>>)
    requires ItemsOk(cfg, items, lookup) && RootsOk(cfg, items, lookup, menues) && RanksOk(lookup, rank, clock)
    requires lookup'.Keys == lookup.Keys
    ensures ItemsOk(cfg, items, lookup') && RootsOk(cfg, items, lookup', menues) && RanksOk(lookup', rank, clock)
  {
    assert forall k :: k in lookup' <==> k in lookup;
  }

  lemma PermuteKeepsLinks(items: map<Key, Item>, lookup: map<Key, seq<Key>>, rank: map<Key, nat>,
                          lookup': map<Key, seq<Key>>)
    requires LinksOk(items, lookup, rank) && OnceOk(items, lookup)
    requires lookup'.Keys == lookup.Keys
    requires forall c :: c in lookup ==> multiset(lookup'[c]) == multiset(lookup[c])
    ensures LinksOk(items, lookup', rank) && OnceOk(items, lookup')
  {
    forall d, k | d in lookup' && k in lookup'[d]
      ensures k in items && d in rank && k in rank && items[k].parent == Some(d) && rank[d] < rank[k]
    {
      assert d in lookup;
      assert k in multiset(lookup'[d]);
      assert k in lookup[d];
    }
    forall k | k in items
      ensures items[k].parent.Some? && items[k].parent.value in lookup'
              && multiset(lookup'[items[k].parent.value])[k] == 1
    {
      assert items[k].parent.value in lookup;
    }
  }

  lemma LinkedAllIn(items: map<Key, Item>, lookup: map<Key, seq<Key>>, rank: map<Key, nat>)
    requires LinksOk(items, lookup, rank)
    ensures forall c :: c in lookup ==> AllIn(items, lookup[c])
  {
  }

  /** The loop of `sort_pages`: each list of the table, one at a time,
      is replaced by its sorted version. */
  method SortLists(items: map<Key, Item>, lookup: map<Key, seq<Key>>) returns (table: map<Key, seq<Key>>)
    requires forall c :: c in lookup ==> AllIn(items, lookup[c])
    ensures table.Keys == lookup.Keys
    ensures forall c :: c in table ==> multiset(table[c]) == multiset(lookup[c])
    ensures AllSorted(items, table)
  {
    table := lookup;
    var todo := lookup.Keys;
    while todo != {}
      invariant todo <= table.Keys && table.Keys == lookup.Keys
      invariant forall c :: c in table ==> multiset(table[c]) == multiset(lookup[c]) && AllIn(items, table[c])
      invariant forall c :: c in table && c !in todo ==> SortedBy(items, table[c])
      decreases todo
    {
      var c :| c in todo;
      var sorted := SortSiblings(items, table[c]);
      table := table[c := sorted];
      todo := todo - {c};
    }
  }

  /** Every recorded menu name stands for a root key that is a container. */
  predicate MenusKnown(cfg: Config, lookup: map<Key, seq<Key>>, menues: seq<string>) {
    forall n :: n in menues ==> IsRootKey(cfg, RootKey(cfg, n)) && RootKey(cfg, n) in lookup
  }

  lemma ValidLinked(cfg: Config, pages: seq<Page>, lookup: map<Key, seq<Key>>, menues: seq<string>,
                     items: map<Key, Item>, rank: map<Key, nat>, clock: nat)
    requires ValidState(cfg, pages, lookup, menues, items, rank, clock)
    ensures Linked(items, lookup, rank, clock) && MenusKnown(cfg, lookup, menues)
  {
  }

  /** An attached page sits exactly once in its parent's list and in no other
      list, and its parent was attached (or allocated) before it. */
  lemma PlacedOnce(cfg: Config, pages: seq<Page>, lookup: map<Key, seq<Key>>, menues: seq<string>,
                   items: map<Key, Item>, rank: map<Key, nat>, clock: nat, k: Key)
    requires ValidState(cfg, pages, lookup, menues, items, rank, clock) && k in items
    ensures items[k].parent.Some? && items[k].parent.value in lookup
    ensures multiset(lookup[items[k].parent.value])[k] == 1
    ensures forall c :: c in lookup && k in lookup[c] ==> c == items[k].parent.value && rank[c] < rank[k]
  {
  }

  /** The trees of the subpages of container `c`, as `@lookup[c]` holds them. */
  function Children(items: map<Key, Item>, lookup: map<Key, seq<Key>>, ghost rank: map<Key, nat>, ghost clock: nat,
                    stored: map<Key, seq<Url>>, c: Key): (ns: seq<MenuNode>)
    requires Linked(items, lookup, rank, clock) && c in lookup
    ensures |ns| == |lookup[c]|
    ensures forall i :: 0 <= i < |ns| ==> ns[i].item == items[lookup[c][i]]
  {
    Forest(items, lookup, rank, clock, stored, lookup[c], rank[c])
  }

  /** A published menu whose lists are sorted and whose subpage urls are stored
      is well formed and ordered at every level. */
  lemma ChildrenSound(items: map<Key, Item>, lookup: map<Key, seq<Key>>, rank: map<Key, nat>, clock: nat,
                      stored: map<Key, seq<Url>>, c: Key)
    requires Linked(items, lookup, rank, clock) && c in lookup
    requires AllSorted(items, lookup) && ListStored(items, lookup, rank, clock, stored, lookup[c])
    ensures ForestWellFormed(Children(items, lookup, rank, clock, stored, c))
    ensures Ordered(Children(items, lookup, rank, clock, stored, c))
  {
    StoredWellFormed(items, lookup, rank, clock, stored, lookup[c], rank[c]);
    SortedOrdered(items, lookup, rank, clock, stored, lookup[c], rank[c]);
  }

  /** Every attached page hangs, through its ancestors, below a recorded
      root: so storing the subtrees of the root lists stores every page. */
  lemma {:induction false} AttachedStored(cfg: Config, pages: seq<Page>, lookup: map<Key, seq<Key>>, menues: seq<string>,
                                          items: map<Key, Item>, rank: map<Key, nat>, clock: nat,
                                          stored: map<Key, seq<Url>>, k: Key)
    requires ValidState(cfg, pages, lookup, menues, items, rank, clock) && Linked(items, lookup, rank, clock)
    requires forall n :: n in menues ==>
               RootKey(cfg, n) in lookup && ListStored(items, lookup, rank, clock, stored, lookup[RootKey(cfg, n)])
    requires k in items
    ensures Stored(items, lookup, rank, clock, stored, k)
    decreases rank[k]
  {
    var c := items[k].parent.value;
    assert c in lookup && k in multiset(lookup[c]);
    if c in items {
      assert rank[c] < rank[k];
      AttachedStored(cfg, pages, lookup, menues, items, rank, clock, stored, c);
    } else {
      var n := RootName(cfg, c);
      assert RootKey(cfg, n) == c;
    }
  }

  lemma AllStored(cfg: Config, pages: seq<Page>, lookup: map<Key, seq<Key>>, menues: seq<string>,
                  items: map<Key, Item>, rank: map<Key, nat>, clock: nat, stored: map<Key, seq<Url>>)
    requires ValidState(cfg, pages, lookup, menues, items, rank, clock) && Linked(items, lookup, rank, clock)
    requires forall n :: n in menues ==>
               RootKey(cfg, n) in lookup && ListStored(items, lookup, rank, clock, stored, lookup[RootKey(cfg, n)])
    ensures forall k :: k in items ==> Stored(items, lookup, rank, clock, stored, k)
  {
    forall k | k in items ensures Stored(items, lookup, rank, clock, stored, k) {
      AttachedStored(cfg, pages, lookup, menues, items, rank, clock, stored, k);
    }
  }

  /** What `publish_menues` sets `site.menu` to: the empty list when no menu
      root was met; in single-menu mode the subpages of the menu root; in
      multi-menu mode a map from each recorded name to the subpages of its root. */
  ghost predicate Publishes(cfg: Config, items: map<Key, Item>, lookup: map<Key, seq<Key>>, rank: map<Key, nat>, clock: nat,
                            stored: map<Key, seq<Url>>, menues: seq<string>, menu: Published)
    requires Linked(items, lookup, rank, clock) && MenusKnown(cfg, lookup, menues)
  {
    if |menues| == 0 then menu == Listed([])
    else if !cfg.multiMenu then
      cfg.menuRoot in lookup && menu == Listed(Children(items, lookup, rank, clock, stored, cfg.menuRoot))
    else
      && menu.Named?
      && (forall n :: n in menu.menus <==> n in menues)
      && forall n :: n in menues ==> menu.menus[n] == Children(items, lookup, rank, clock, stored, RootKey(cfg, n))
  }

  /** Once every list is sorted and every recorded menu's pages have their
      urls stored, what is published is sound, and it is a list exactly when
      no menu was recorded or the generator is in single-menu mode. */
  lemma PublishedSound(cfg: Config, items: map<Key, Item>, lookup: map<Key, seq<Key>>, rank: map<Key, nat>, clock: nat,
                       stored: map<Key, seq<Url>>, menues: seq<string>, menu: Published)
    requires Linked(items, lookup, rank, clock) && MenusKnown(cfg, lookup, menues) && AllSorted(items, lookup)
    requires forall n :: n in menues ==> ListStored(items, lookup, rank, clock, stored, lookup[RootKey(cfg, n)])
    requires Publishes(cfg, items, lookup, rank, clock, stored, menues, menu)
    ensures menu.Listed? <==> |menues| == 0 || !cfg.multiMenu
    ensures Sound(menu)
  {
    MenusSound(cfg, items, lookup, rank, clock, stored, menues);
    if |menues| > 0 {
      if cfg.multiMenu {
        forall n | n in menu.menus ensures ForestWellFormed(menu.menus[n]) && Ordered(menu.menus[n]) {
          assert n in menues;
        }
      } else {
        assert RootKey(cfg, menues[0]) == cfg.menuRoot;
      }
    }
  }

  /** The multi-menu branch of `publish_menues`: each recorded name maps to
      the subpages of its root. */
  method NamedMenus(cfg: Config, items: map<Key, Item>, lookup: map<Key, seq<Key>>, ghost rank: map<Key, nat>,
                    ghost clock: nat, stored: map<Key, seq<Url>>, menues: seq<string>)
    returns (ms: map<string, seq<MenuNode>>)
    requires Linked(items, lookup, rank, clock) && MenusKnown(cfg, lookup, menues)
    ensures forall n :: n in ms <==> n in menues
    ensures forall n :: n in menues ==> ms[n] == Children(items, lookup, rank, clock, stored, RootKey(cfg, n))
  {
    ms := map[];
    for i := 0 to |menues|
      invariant forall n :: n in ms <==> n in menues[..i]
      invariant forall n :: n in ms ==>
                  RootKey(cfg, n) in lookup && ms[n] == Children(items, lookup, rank, clock, stored, RootKey(cfg, n))
    {
      var name := menues[i];
      assert RootKey(cfg, name) in lookup;
      ms := ms[name := Children(items, lookup, rank, clock, stored, cfg.menuRoot + name)];
      assert menues[..i + 1] == menues[..i] + [name];
    }
    assert menues[..|menues|] == menues;
  }

  /** The subpage lists of every recorded menu are well formed and ordered. */
  lemma MenusSound(cfg: Config, items: map<Key, Item>, lookup: map<Key, seq<Key>>, rank: map<Key, nat>, clock: nat,
                   stored: map<Key, seq<Url>>, menues: seq<string>)
    requires Linked(items, lookup, rank, clock) && MenusKnown(cfg, lookup, menues) && AllSorted(items, lookup)
    requires forall n :: n in menues ==> ListStored(items, lookup, rank, clock, stored, lookup[RootKey(cfg, n)])
    ensures forall n :: n in menues ==>
              && ForestWellFormed(Children(items, lookup, rank, clock, stored, RootKey(cfg, n)))
              && Ordered(Children(items, lookup, rank, clock, stored, RootKey(cfg, n)))
  {
    forall n | n in menues
      ensures ForestWellFormed(Children(items, lookup, rank, clock, stored, RootKey(cfg, n)))
      ensures Ordered(Children(items, lookup, rank, clock, stored, RootKey(cfg, n)))
    {
      ChildrenSound(items, lookup, rank, clock, stored, RootKey(cfg, n));
    }
  }

  /** What `site.menu` is set to: a list, or in multi-menu mode a map from menu name to list. */
  datatype Published = Listed(list: seq<MenuNode>) | Named(menus: map<string, seq<MenuNode>>)

  /** Every list of a published menu is well formed and ordered. */
  predicate Sound(menu: Published) {
    match menu
    case Listed(ns) => ForestWellFormed(ns) && Ordered(ns)
    case Named(ms) => forall n :: n in ms ==> ForestWellFormed(ms[n]) && Ordered(ms[n])
  }

  class MenuGenerator {
    const cfg: Config
    /** `@pages`: the pages not attached yet. */
    var pages: seq<Page>
    /** `@lookup`: container key to the keys of its subpages, in order. */
    var lookup: map<Key, seq<Key>>
    /** `@menues`: the names of the menu roots recorded so far. */
    var menues: seq<string>
    /** The records of the attached pages, by key. */
    var items: map<Key, Item>
    /** `menu.suburls` of the attached pages, by key. */
    var suburls: map<Key, seq<Url>>
    /** Attachment order: 0 for a root, the number of pages attached so far
        for a page; a page is attached only after its parent. */
    ghost var rank: map<Key, nat>
    ghost var clock: nat

    ghost predicate Valid()
      reads this`pages, this`lookup, this`menues, this`items, this`rank, this`clock
    {
      ValidState(cfg, pages, lookup, menues, items, rank, clock)
    }

    /** The state `generate` starts from: all pages pending, no container. */
    constructor (cfg: Config, site: seq<Page>)
      requires UniqueKeys(site) && forall p :: p in site ==> !IsRootKey(cfg, p.key)
      ensures Valid()
      ensures this.cfg == cfg && pages == site && lookup == map[] && menues == []
      ensures items == map[] && suburls == map[]
    {
      this.cfg := cfg;
      pages := site;
      lookup := map[];
      menues := [];
      items := map[];
      suburls := map[];
      rank := map[];
      clock := 0;
    }

    /** `getParentInLookup(parent)`: the container the page attaches to, if
        any. A root key that is not yet a container becomes one with an empty
        list, and its name is recorded. */
    method GetParentInLookup(parent: Option<Key>) returns (found: Option<Key>)
      requires Valid()
      modifies this`lookup, this`menues, this`rank
      ensures Valid()
      ensures found.Some? <==> Resolves(cfg, old(lookup), parent)
      ensures found.Some? ==> found == parent && found.value in lookup
      ensures if parent.Some? && parent.value !in old(lookup) && IsRootKey(cfg, parent.value)
              then lookup == old(lookup)[parent.value := []]
                   && menues == old(menues) + [RootName(cfg, parent.value)]
              else lookup == old(lookup) && menues == old(menues)
    {
      if parent.Some? && parent.value in lookup {
        return parent;
      }
      if parent.Some? && cfg.menuRoot <= parent.value {
        var k := parent.value;
        if cfg.multiMenu {
          var name := RootName(cfg, k);
          ghost var lookup0, menues0, rank0 := lookup, menues, rank;
          menues := menues + [name];
          lookup := lookup[k := []];
          rank := rank[k := 0];
          AllocRootKeepsValid(cfg, pages, lookup0, menues0, items, rank0, clock, k, lookup, menues, rank);
          return parent;
        } else if k == cfg.menuRoot {
          assert RootName(cfg, k) == "";
          ghost var lookup0, menues0, rank0 := lookup, menues, rank;
          lookup := lookup[k := []];
          menues := menues + [""];
          rank := rank[k := 0];
          AllocRootKeepsValid(cfg, pages, lookup0, menues0, items, rank0, clock, k, lookup, menues, rank);
          return parent;
        }
      }
      return None;
    }

    /** The `reject!` block for a page whose parent resolved: the page leaves
        `@pages`, its name is fixed, its own key gets an empty subpage list
        and its record is appended to the parent's list. */
    method Attach(i: nat)
      requires Valid() && i < |pages|
      requires pages[i].parent.Some? && pages[i].parent.value in lookup
      modifies this`pages, this`lookup, this`items, this`rank, this`clock
      ensures Valid()
      ensures pages == old(pages[..i] + pages[i + 1..])
      ensures items == old(items[pages[i].key := ToItem(pages[i])])
      ensures lookup == old(lookup[pages[i].key := []]
                                  [pages[i].parent.value := lookup[pages[i].parent.value] + [pages[i].key]])
    {
      var page := pages[i];
      var parent := page.parent.value;
      ghost var pages0, lookup0, items0, rank0, clock0 := pages, lookup, items, rank, clock;
      pages := pages[..i] + pages[i + 1..];
      items := items[page.key := ToItem(page)];
      lookup := lookup[page.key := []][parent := lookup[parent] + [page.key]];
      rank := rank[page.key := clock + 1];
      clock := clock + 1;
      AttachKeepsValid(cfg, pages0, lookup0, menues, items0, rank0, clock0, i, pages, lookup, items, rank, clock);
    }

    /** The `reject!` block for the pending page at `k`: it attaches, and
        leaves `@pages`, exactly when its parent resolves now. */
    method Visit(k: nat) returns (attached: bool)
      requires Valid() && k < |pages|
      modifies this`pages, this`lookup, this`menues, this`items, this`rank, this`clock
      ensures Valid()
      ensures attached <==> Resolves(cfg, old(lookup), old(pages[k].parent))
      ensures Conserved(old(pages), old(items), pages, items)
      ensures old(menues) <= menues
      ensures RootsFromPages(cfg, old(pages), pages, old(menues), menues)
      ensures attached ==>
                var p, c := old(pages[k]), old(pages[k].parent.value);
                var l := if c in old(lookup) then old(lookup) else old(lookup)[c := []];
                && pages == old(pages[..k] + pages[k + 1..])
                && items == old(items)[p.key := ToItem(p)]
                && lookup == l[p.key := []][c := l[c] + [p.key]]
                && menues == if c in old(lookup) then old(menues) else old(menues) + [RootName(cfg, c)]
      ensures !attached ==> pages == old(pages) && lookup == old(lookup) && menues == old(menues) && items == old(items)
    {
      var page := pages[k];
      ghost var pages0, menues0 := pages, menues;
      var parent := GetParentInLookup(page.parent);
      ConservedRefl(pages, items);
      attached := parent.Some?;
      if attached {
        assert page in pages;
        AttachConserves(pages, items, pages, items, k);
        Attach(k);
        AttachRootFromPage(cfg, pages0, k, menues0, menues);
      }
    }

    /** One `@pages.reject!` pass: each pending page, in order, attaches if
        its parent resolves at that moment, else stays pending. `j` is the
        position of the next page to visit; the pages before it stay. */
    method Sweep()
      requires Valid()
      modifies this`pages, this`lookup, this`menues, this`items, this`rank, this`clock
      ensures Valid()
      ensures Conserved(old(pages), old(items), pages, items)
      ensures old(menues) <= menues
      ensures |pages| <= |old(pages)|
      ensures |pages| == |old(pages)| ==>
                pages == old(pages) && lookup == old(lookup) && menues == old(menues) && items == old(items)
      ensures |pages| == |old(pages)| ==> forall p :: p in pages ==> !Resolves(cfg, lookup, p.parent)
      ensures forall p :: p in pages ==> !Resolves(cfg, old(lookup), p.parent)
      ensures RootsFromPages(cfg, old(pages), pages, old(menues), menues)
    {
      var j := 0;
      ghost var changed := false;
      ConservedRefl(pages, items);
      while j < |pages|
        invariant Valid() && j <= |pages|
        invariant Conserved(old(pages), old(items), pages, items)
        invariant old(menues) <= menues
        invariant |pages| <= |old(pages)| && (changed ==> |pages| < |old(pages)|)
        invariant !changed ==> pages == old(pages) && lookup == old(lookup) && menues == old(menues) && items == old(items)
        invariant !changed ==> forall p :: p in pages[..j] ==> !Resolves(cfg, lookup, p.parent)
        invariant old(lookup).Keys <= lookup.Keys
        invariant forall p :: p in pages[..j] ==> !Resolves(cfg, old(lookup), p.parent)
        invariant RootsFromPages(cfg, old(pages), pages, old(menues), menues)
        decreases |pages| - j
      {
        ghost var mid, midItems, midMenues := pages, items, menues;
        var attached := Visit(j);
        ConservedTrans(old(pages), old(items), mid, midItems, pages, items);
        RootsFromPagesTrans(cfg, old(pages), mid, pages, old(menues), midMenues, menues);
        if attached {
          changed := true;
        } else {
          j := j + 1;
        }
      }
      assert pages[..j] == pages;
    }

    /** `build_tree`: sweep until a sweep attaches nothing. */
    method BuildTree() returns (ghost sweeps: nat)
      requires Valid()
      modifies this`pages, this`lookup, this`menues, this`items, this`rank, this`clock
      ensures Valid()
      ensures Conserved(old(pages), old(items), pages, items)
      ensures forall p :: p in pages ==> !Resolves(cfg, lookup, p.parent)
      ensures sweeps <= |old(pages)| - |pages| + 1
      ensures RootsFromPages(cfg, old(pages), pages, old(menues), menues)
    {
      sweeps := 0;
      ConservedRefl(pages, items);
      while true
        invariant Valid() && Conserved(old(pages), old(items), pages, items)
        invariant sweeps <= |old(pages)| - |pages|
        invariant RootsFromPages(cfg, old(pages), pages, old(menues), menues)
        decreases |pages|
      {
        var prevSize := |pages|;
        ghost var mid, midItems, midMenues := pages, items, menues;
        Sweep();
        ConservedTrans(old(pages), old(items), mid, midItems, pages, items);
        RootsFromPagesTrans(cfg, old(pages), mid, pages, old(menues), midMenues, menues);
        sweeps := sweeps + 1;
        if |pages| == prevSize {
          break;
        }
      }
    }

    /** `sort_pages`: every subpage list is sorted by `compare_pages`. */
    method SortPages()
      requires Valid()
      modifies this`lookup
      ensures Valid()
      ensures lookup.Keys == old(lookup).Keys
      ensures forall c :: c in lookup ==> multiset(lookup[c]) == multiset(old(lookup)[c])
      ensures AllSorted(items, lookup)
    {
      LinkedAllIn(items, lookup, rank);
      ghost var lookup0 := lookup;
      lookup := SortLists(items, lookup);
      PermuteKeepsValid(cfg, pages, lookup0, menues, items, rank, clock, lookup);
    }

    /** `set_suburls(page)`: the subpages first, then the page itself gets
        `suburls(page)`. */
    method SetSuburls(k: Key)
      requires Linked(items, lookup, rank, clock) && k in items
      modifies this`suburls
      ensures Stored(items, lookup, rank, clock, suburls, k)
      ensures Refines(items, lookup, rank, clock, old(suburls), suburls)
      decreases clock - rank[k]
    {
      var subs := lookup[k];
      for i := 0 to |subs|
        invariant ListStored(items, lookup, rank, clock, suburls, subs[..i])
        invariant Refines(items, lookup, rank, clock, old(suburls), suburls)
      {
        ghost var before := suburls;
        SetSuburls(subs[i]);
        RefinesKeepsListStored(items, lookup, rank, clock, before, suburls, subs[..i]);
        RefinesTrans(items, lookup, rank, clock, old(suburls), before, suburls);
        ListStoredNext(items, lookup, rank, clock, suburls, subs, i);
      }
      assert subs[..|subs|] == subs;
      ghost var before := suburls;
      suburls := suburls[k := SuburlsOf(items, lookup, rank, clock, k, false)];
      RefinesKeepsListStored(items, lookup, rank, clock, before, suburls, subs);
      RefinesTrans(items, lookup, rank, clock, old(suburls), before, suburls);
    }

    /** `generate_suburls`: `set_suburls` on every page of every recorded
        menu's root list (`AttachedStored`: this reaches every attached page). */
    method GenerateSuburls()
      requires Linked(items, lookup, rank, clock)
      requires forall n :: n in menues ==> RootKey(cfg, n) in lookup
      modifies this`suburls
      ensures forall n :: n in menues ==> ListStored(items, lookup, rank, clock, suburls, lookup[RootKey(cfg, n)])
      ensures Refines(items, lookup, rank, clock, old(suburls), suburls)
    {
      for m := 0 to |menues|
        invariant forall n :: n in menues[..m] ==>
                    RootKey(cfg, n) in lookup && ListStored(items, lookup, rank, clock, suburls, lookup[RootKey(cfg, n)])
        invariant Refines(items, lookup, rank, clock, old(suburls), suburls)
      {
        assert RootKey(cfg, menues[m]) in lookup;
        var top := lookup[cfg.menuRoot + menues[m]];
        for i := 0 to |top|
          invariant ListStored(items, lookup, rank, clock, suburls, top[..i])
          invariant forall n :: n in menues[..m] ==>
                      RootKey(cfg, n) in lookup && ListStored(items, lookup, rank, clock, suburls, lookup[RootKey(cfg, n)])
          invariant Refines(items, lookup, rank, clock, old(suburls), suburls)
        {
          ghost var before := suburls;
          SetSuburls(top[i]);
          RefinesTrans(items, lookup, rank, clock, old(suburls), before, suburls);
          RefinesKeepsListStored(items, lookup, rank, clock, before, suburls, top[..i]);
          forall n | n in menues[..m]
            ensures ListStored(items, lookup, rank, clock, suburls, lookup[RootKey(cfg, n)])
          {
            RefinesKeepsListStored(items, lookup, rank, clock, before, suburls, lookup[RootKey(cfg, n)]);
          }
          ListStoredNext(items, lookup, rank, clock, suburls, top, i);
        }
        assert top[..|top|] == top;
        assert menues[..m + 1] == menues[..m] + [menues[m]];
      }
      assert menues[..|menues|] == menues;
    }

    /** `publish_menues`: no menu gives the empty list; a single menu gives the
        subpages of the menu root; several give a map from each recorded menu
        name to the subpages of its root. */
    method Publish() returns (menu: Published)
      requires Linked(items, lookup, rank, clock) && MenusKnown(cfg, lookup, menues)
      ensures Publishes(cfg, items, lookup, rank, clock, suburls, menues, menu)
    {
      if |menues| == 0 {
        return Listed([]);
      }
      if !cfg.multiMenu {
        assert RootKey(cfg, menues[0]) == cfg.menuRoot;
        return Listed(Children(items, lookup, rank, clock, suburls, cfg.menuRoot));
      }
      var ms := NamedMenus(cfg, items, lookup, rank, clock, suburls, menues);
      return Named(ms);
    }
    /** The steps of `generate` after sorting: store the subpage urls, then
        publish. Every attached page's urls are stored, and every published
        list is well formed and ordered. */
    method Finish() returns (menu: Published)
      requires Valid() && AllSorted(items, lookup)
      modifies this`suburls
      ensures Linked(items, lookup, rank, clock)
      ensures forall k :: k in items ==> Stored(items, lookup, rank, clock, suburls, k)
      ensures MenusKnown(cfg, lookup, menues)
      ensures Publishes(cfg, items, lookup, rank, clock, suburls, menues, menu)
      ensures menu.Listed? <==> |menues| == 0 || !cfg.multiMenu
      ensures Sound(menu)
    {
      ValidLinked(cfg, pages, lookup, menues, items, rank, clock);
      GenerateSuburls();
      AllStored(cfg, pages, lookup, menues, items, rank, clock, suburls);
      menu := Publish();
      PublishedSound(cfg, items, lookup, rank, clock, suburls, menues, menu);
    }
  }

  /** What `build_tree` leaves behind for the site's pages: every page is
      still pending or attached under its menu name, no pending page can be
      attached any more, and every recorded menu is the root of the parent of
      an attached page. */
  ghost predicate Built(cfg: Config, site: seq<Page>, pages: seq<Page>, lookup: map<Key, seq<Key>>,
                        menues: seq<string>, items: map<Key, Item>)
  {
    && Conserved(site, map[], pages, items)
    && (forall p :: p in pages ==> !Resolves(cfg, lookup, p.parent))
    && (forall p :: p in site && p !in pages ==>
          p.key in items && items[p.key].name == (if p.name.Some? then p.name.value else p.title))
    && RootsFromPages(cfg, site, pages, [], menues)
  }

  /** The steps of `generate` up to sorting: a fresh generator over the site's
      pages, `build_tree`, then `sort_pages`. */
  method Prepare(cfg: Config, site: seq<Page>) returns (g: MenuGenerator)
    requires UniqueKeys(site) && forall p :: p in site ==> !IsRootKey(cfg, p.key)
    ensures fresh(g) && g.Valid() && g.cfg == cfg
    ensures Built(cfg, site, g.pages, g.lookup, g.menues, g.items)
    ensures AllSorted(g.items, g.lookup)
  {
    g := new MenuGenerator(cfg, site);
    ghost var sweeps := g.BuildTree();
    AttachedName(site, g.pages, g.items);
    g.SortPages();
  }

  /** `generate(site)`: build the tree from the site's pages, sort every
      subpage list, store the subpage urls and publish the menu. */
  method Generate(cfg: Config, site: seq<Page>) returns (g: MenuGenerator, menu: Published)
    requires UniqueKeys(site) && forall p :: p in site ==> !IsRootKey(cfg, p.key)
    ensures g.Valid() && g.cfg == cfg
    ensures Built(cfg, site, g.pages, g.lookup, g.menues, g.items)
    ensures AllSorted(g.items, g.lookup)
    ensures Linked(g.items, g.lookup, g.rank, g.clock)
    ensures forall k :: k in g.items ==> Stored(g.items, g.lookup, g.rank, g.clock, g.suburls, k)
    ensures MenusKnown(cfg, g.lookup, g.menues)
    ensures Publishes(cfg, g.items, g.lookup, g.rank, g.clock, g.suburls, g.menues, menu)
    ensures menu.Listed? <==> |g.menues| == 0 || !cfg.multiMenu
    ensures Sound(menu)
  {
    g := Prepare(cfg, site);
    menu := g.Finish();
  }
}
