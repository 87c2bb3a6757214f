# jekyll-menu-generator, modelled in Dafny

A model of the menu generator for Jekyll sites (`menu_generator.rb`). It has two parts.

The generator reads the `menu` front matter of every page (parent key, name, position). It then:
- links the pages into subpage trees below one or more menu roots (`build_tree` and `getParentInLookup`);
- sorts every subpage list (`sort_pages` and `compare_pages`);
- stores on every page the urls of all its descendants (`generate_suburls`, `set_suburls` and `suburls`);
- publishes the root list, or in multi-menu mode a map from menu name to root list (`publish_menues`).

The `menu` Liquid tag renders such a list as nested `<ul>`/`<li>` HTML. Its `max_depth` parameter limits the depth. The tag marks the current page and its ancestors with CSS classes (`render_menu`).

The files:
- **types.dfy**, module `MenuTypes`: pages, attached page records, the configuration, and the menu-root key convention.
- **ordering.dfy**, module `Ordering`: `compare_pages`, its order laws, and the sort applied to one subpage list.
- **tree.dfy**, module `MenuTree`: the nested menu value (`MenuNode`), `suburls` over it, and cutting a forest at a depth.
- **arena.dfy**, module `Arena`: the generator's tables read as trees.
  - In Ruby, each page's `subpages` array is shared between `@lookup` and the page record.
  - Here `lookup` maps a container key to the keys of its subpages, and `items` holds the record of every attached page.
  - `Tree`/`Forest` read a nested menu off these tables. A ghost attachment rank makes the reading terminate.
- **generator.dfy**, module `Generator`: the class `MenuGenerator` with the fields `pages`, `lookup`, `menues`, `items` and `suburls`, and its invariant and transition lemmas. It contains the steps of `generate`: `BuildTree` (a loop of `Sweep`s, each a loop of `Visit`s), `SortPages`, `GenerateSuburls`/`SetSuburls` and `Publish`. It also contains the whole run, `Generate`.
- **render.dfy**, module `Render`: the `max_depth` attribute and `render_menu` as pure functions, with lemmas about what they produce.

## Model

| member | source | states |
|---|---|---|
| `MenuTypes.MenuName` | menu_generator.rb:15-17 | `Page#menu_name`: the explicit menu name, or else the page title; `Generator.AttachedName` states it for every attached page |
| `MenuTypes.IsRootKey` | menu_generator.rb:92-101 | the parent keys that are allocated as roots: `menu_root` itself in single-menu mode, any key starting with it in multi-menu mode; `GetParentInLookup` states its use |
| `MenuTypes.RootName` | menu_generator.rb:92-96 | the menu name recorded for a root key is the part after `menu_root`; in single-menu mode it is always the empty name |
| `MenuTypes.RootNameKey` | menu_generator.rb:94-99 | recording a name and looking its root key up again (`@menu_root + menu_name`) are inverse |
| `Ordering.CompareStrings` | menu_generator.rb:152 | `String#<=>` is -1, 0 or 1, and 0 exactly for equal strings |
| `Ordering.ComparePages` | menu_generator.rb:149-163 | `compare_pages` is the lexicographic order on (no position?, position, name). A positioned page goes before an unpositioned one, and a smaller position goes first. The result is 0 exactly when positions and names agree |
| `Ordering.CompareStringsAntisymmetric` | menu_generator.rb:152 | swapping the strings flips the sign of `<=>` |
| `Ordering.CompareStringsTransitive` | menu_generator.rb:152 | `<=>` on strings is transitive |
| `Ordering.ComparePagesAntisymmetric` | menu_generator.rb:149-163 | swapping the pages flips the sign of `compare_pages` |
| `Ordering.ComparePagesTransitive` | menu_generator.rb:149-163 | `compare_pages` is transitive, so it is a total preorder |
| `Ordering.InsertionKeepsOrder` | menu_generator.rb:143-145 | inserting a key after the keys that do not go after it keeps a list sorted by `compare_pages` |
| `Ordering.InsertSorted` | menu_generator.rb:143-145 | inserting into a sorted list gives a sorted list holding one more copy of the key |
| `Ordering.SortSiblings` | menu_generator.rb:143-145 | `val.sort!` with `compare_pages`: a permutation of the list, sorted by `compare_pages` |
| `MenuTree.Suburls` | menu_generator.rb:184-194 | `suburls(page)` has one entry per proper descendant |
| `MenuTree.ForestUrls` | menu_generator.rb:185-188 | the flattened list over subpages has one entry per node of the subtrees |
| `MenuTree.ForestUrlsAreNodeUrls` | menu_generator.rb:184-194 | a url is in the flattened list of a forest iff it is the url of one of its nodes |
| `MenuTree.SuburlsAreDescendantUrls` | menu_generator.rb:184-194 | a url is in `suburls(page)` iff it is the url of a proper descendant |
| `MenuTree.Prune` | menu_generator.rb:247-249 | cutting a forest keeps every node's record and stored urls, and at depth 0 drops all subpages |
| `MenuTree.PruneHeight` | menu_generator.rb:247-249 | a forest cut below `k` more levels has at most `k + 1` levels |
| `MenuTree.PruneShallow` | menu_generator.rb:247-249 | cutting a forest below its own height changes nothing |
| `Arena.Tree` | menu_generator.rb:122-128 | the tree read off the tables at a page holds the page's record, with one subtree per key of its subpage list, in order |
| `Arena.Forest` | menu_generator.rb:122-128 | a subpage list is read as the trees of its keys, in order |
| `Arena.SuburlsOf` | menu_generator.rb:184-194 | `suburls(page, add_self)` on the shared tables: the value `set_suburls` stores; `Arena.SuburlsOfTree` gives its meaning |
| `Arena.ForestSuburlsOf` | menu_generator.rb:185-188 | the flattened `suburls(subpage, true)` over a subpage list |
| `Arena.SuburlsOfTree` | menu_generator.rb:184-194 | `suburls` computed on the shared tables equals `suburls` of the tree they stand for |
| `Arena.ForestSuburlsOfForest` | menu_generator.rb:185-188 | the same, for a subpage list |
| `Arena.StoredWellFormed` | menu_generator.rb:177-182 | once `set_suburls` has stored every page of a subtree, every node of it holds exactly the urls of its proper descendants |
| `Arena.SortedOrdered` | menu_generator.rb:139-147 | once every subpage list is sorted, the tree read off the tables is ordered by `compare_pages` at every level |
| `Arena.RefinesKeepsStored` | menu_generator.rb:177-182 | later `set_suburls` writes do not undo a stored subtree: they only write the values `suburls` gives |
| `Arena.RefinesTrans` | menu_generator.rb:177-182 | successive `set_suburls` writes compose |
| `Arena.RefinesKeepsListStored` | menu_generator.rb:170-172 | the same, for every page of a subpage list |
| `Arena.ListStoredNext` | menu_generator.rb:170-172 | storing the next page of a list extends the stored prefix |
| `Generator.AllocRootKeepsValid` | menu_generator.rb:92-104 | allocating an absent root key (empty list, name recorded once) keeps the generator's invariant |
| `Generator.AttachKeepsValid` | menu_generator.rb:117-133 | attaching a pending page whose parent is a container keeps the invariant. The page gets its own empty list, and its record is appended once to its parent's list |
| `Generator.RemoveKeys` | menu_generator.rb:117-133 | `reject!` of one page drops exactly its key from the pending keys |
| `Generator.AttachConserves` | menu_generator.rb:117-133 | attaching a page moves it from the pending pages to the attached records, and keeps every other page where it was |
| `Generator.AttachedName` | menu_generator.rb:119-128 | a page that left the pending list is attached with its own url and position, under its explicit menu name or else its title |
| `Generator.RootsFromPages` | menu_generator.rb:92-104 | every newly recorded menu is the root key of the parent of a page that left the pending list |
| `Generator.RootsFromPagesTrans` | menu_generator.rb:114-136 | that link between recorded menus and attached pages composes across visits and sweeps |
| `Generator.AttachRootFromPage` | menu_generator.rb:117-128 | attaching one page records at most the name of its parent's root, so the link holds |
| `Generator.ConservedTrans` | menu_generator.rb:114-136 | conservation of pages composes across visits and sweeps |
| `Generator.PermuteKeepsValid` | menu_generator.rb:139-147 | permuting every subpage list keeps the invariant |
| `Generator.LinkedAllIn` | menu_generator.rb:142-146 | every key in a subpage list has an attached record, so `compare_pages` applies to it |
| `Generator.SortLists` | menu_generator.rb:142-146 | every list of `@lookup` becomes a sorted permutation of itself, and no key is added or dropped |
| `Generator.ValidLinked` | menu_generator.rb:169-170 | every recorded menu name has a root container, and the tables form a forest ranked by attachment order |
| `Generator.PlacedOnce` | menu_generator.rb:122-128 | an attached page sits exactly once in its parent's list and in no other list, and its parent came first |
| `Generator.Children` | menu_generator.rb:170 | the trees of a container's subpage list, one per key, in order |
| `Generator.ChildrenSound` | menu_generator.rb:165-182 | a sorted, stored subpage list reads as a well-formed forest, ordered at every level |
| `Generator.AttachedStored` | menu_generator.rb:165-175 | storing the subtrees of every recorded root list stores every attached page, because each one hangs below a recorded root |
| `Generator.AllStored` | menu_generator.rb:165-175 | the same, for all attached pages at once |
| `Generator.MenusSound` | menu_generator.rb:165-175 | every recorded menu's list is well formed and ordered |
| `Generator.Publishes` | menu_generator.rb:67-85 | `site.menu` is `[]` when no root was met; in single-menu mode the subpage list of `menu_root`; in multi-menu mode a map whose keys are exactly the recorded names, each mapped to the subpage list of `menu_root + name` |
| `Generator.PublishedSound` | menu_generator.rb:67-85 | what is published is a list exactly when no menu was recorded or the generator is in single-menu mode, and every published list is well formed and ordered |
| `Generator.NamedMenus` | menu_generator.rb:72-75 | the multi-menu map has exactly the recorded names as keys, each mapped to the subpage list of its root |
| `Generator.MenuGenerator.constructor` | menu_generator.rb:53-58 | every page is pending, with no container, no recorded menu and no stored urls |
| `Generator.MenuGenerator.GetParentInLookup` | menu_generator.rb:87-110 | resolves exactly a container key or an accepted root key. A new root gets an empty list and records its name, and the state is unchanged otherwise. No parent resolves nothing |
| `Generator.MenuGenerator.Attach` | menu_generator.rb:118-129 | the page leaves the pending list, gets its record and an empty list of its own, and is appended to its parent's list |
| `Generator.MenuGenerator.Visit` | menu_generator.rb:117-133 | a pending page attaches, and leaves `@pages`, exactly when its parent resolves at that moment. Then the exact new state is given: the parent's root is allocated (and its name recorded) if it was absent, the page gets its record and an empty list, and it is appended to its parent's list. Otherwise nothing changes |
| `Generator.MenuGenerator.Sweep` | menu_generator.rb:117-133 | one `reject!` pass conserves pages and visits every pending page: no page left pending had a parent that resolved when the pass began. Every menu it records is the root of the parent of a page it attached. If it removes nothing, the state is unchanged and no pending page's parent resolves |
| `Generator.MenuGenerator.BuildTree` | menu_generator.rb:112-137 | stops after at most (pages attached + 1) sweeps. Then no pending page's parent resolves, every page is still pending or attached once, and every recorded menu is the root of the parent of an attached page |
| `Generator.MenuGenerator.SortPages` | menu_generator.rb:139-147 | every subpage list is a sorted permutation of itself, and the set of containers is unchanged |
| `Generator.MenuGenerator.SetSuburls` | menu_generator.rb:177-182 | after the call every page of the subtree holds its descendant urls; values already written are not undone |
| `Generator.MenuGenerator.GenerateSuburls` | menu_generator.rb:165-175 | every page of every recorded menu's root list has its subtree stored; the only entries written are those of attached pages, each set to its `suburls` value (`Refines`) |
| `Generator.MenuGenerator.Publish` | menu_generator.rb:67-85 | `site.menu` is `[]` with no root, the root list in single-menu mode, and otherwise a map whose keys are exactly the recorded names |
| `Generator.MenuGenerator.Finish` | menu_generator.rb:62-63 | after `generate_suburls` every attached page holds its descendant urls; the published menu is what `publish_menues` gives (`Publishes`), and it is sound |
| `Generator.Built` | menu_generator.rb:112-137 | what `build_tree` leaves: pages conserved, named as `menu_name` says, none still attachable, and every recorded menu the root of an attached page's parent |
| `Generator.Prepare` | menu_generator.rb:53-61 | a fresh generator, `build_tree` and `sort_pages` leave the site's pages `Built` and every list sorted |
| `Generator.Generate` | menu_generator.rb:53-65 | the whole run leaves the site's pages `Built`. Every list is sorted, every page holds its descendant urls, and the menu is exactly what `publish_menues` gives (`Publishes`), well formed and ordered. For a site with no attachable page nothing is recorded, so `[]` is published |
| `Render.ShowNat` | menu_generator.rb:230 | the level is written as a non-empty string of decimal digits |
| `Render.LeadingDigits` | menu_generator.rb:214 | `to_i` reads the longest prefix of decimal digits |
| `Render.ToI` | menu_generator.rb:214 | `to_i` on a string of the tag syntax: the value of its leading digits; `ToIShowNat` gives the round trip |
| `Render.ToIShowNat` | menu_generator.rb:214 | `to_i` reads back the digits of a non-negative integer |
| `Render.MaxDepth` | menu_generator.rb:214 | `@max_depth` is never below -1, the value meaning "no limit" |
| `Render.MaxDepthOfAttribute` | menu_generator.rb:199-214 | `@max_depth` is -1 when the tag has no `max_depth` attribute, and `max_depth:d` sets it to `d` |
| `Render.HighlightOf` | menu_generator.rb:234-239 | the mark of an item: current, current parent (page url in its `suburls`) or none; `HighlightMeaning` gives its meaning |
| `Render.ClassAttribute` | menu_generator.rb:234-239 | an item gets no `class` attribute exactly when it is not marked |
| `Render.HighlightMeaning` | menu_generator.rb:234-239 | an item is `current` iff its url is the page url. It is `current_parent` iff not, and a descendant has the page url. Otherwise it has no class |
| `Render.RenderMenu` | menu_generator.rb:229-257 | the output starts with `<ul class="menu-level-{level} ` and ends with `</ul>` |
| `Render.RenderItems` | menu_generator.rb:232-252 | the items of a list render to nothing exactly when the list is empty |
| `Render.RenderItem` | menu_generator.rb:234-250 | each item renders as one `<li…>…</li>` |
| `Render.RenderItemsAppend` | menu_generator.rb:232-253 | rendering a list is rendering its items one after the other, in list order |
| `Render.RenderIsUnlimitedOfPruned` | menu_generator.rb:229-257 | rendering from `level` with limit `d` is rendering without a limit the forest cut `d - level` levels below: nesting stops at level `d` |
| `Render.RenderItemsPruned` | menu_generator.rb:232-253 | the same, for the items of one list |
| `Render.RenderItemPruned` | menu_generator.rb:244-251 | the same, for one item |
| `Render.LimitBeyondHeight` | menu_generator.rb:247-249 | a limit at or beyond the depth of the forest renders the whole tree |

## Left out

- Jekyll plumbing is not modelled: `Site#menu`, `site.pages.dup`, the writes into `site.config`, and the defaults of `setup_config`. The configuration is a parameter: `DefaultConfig` holds the `__root`, single-menu default, and `DefaultCss` the default class names.
- `parent_match_hash` is fixed: a page's identity key is a plain field of the page.
- `page.to_liquid` and the `delete_content_hash` removal of `content` are left out: the page payload is opaque, and a record keeps only what the generator reads.
- The `||=` memoising side effects of `Page#menu`, `menu_name` and `subpages` are left out. The name is fixed at attach time as "explicit name, else title". A page's own subpage list starts empty: front matter that presets `menu.subpages` is not modelled.
- A page whose title and name are both `nil` is not modelled: names are strings. In Ruby such a page sorts equal to another nil-named sibling (`nil <=> nil` is 0), `sort!` raises only when its nil name is compared with a string name under equal or absent positions, and it renders with an empty title.
- Positions are integers. Other Ruby values that `<=>` accepts are not modelled.
- `Generator.MenuGenerator.constructor` requires unique page keys and no page key that is a root key. The source does not check this; with duplicate keys, `@lookup` entries would be overwritten.
- `Ordering.SortSiblings`: Ruby's `sort!` is not stable. An insertion sort stands in, and only "sorted permutation" is promised, not an order among equal siblings.
- `@lookup.each` in `sort_pages` iterates in hash order. The model sorts the lists in any order, which gives the same result because each list is sorted independently.
- A page's stored suburls default to the empty list where Ruby would leave the key unset. Only pages reachable from a recorded root are written, as in the source.
- The Liquid tag machinery is not modelled: registration, `render(context)` register lookups, the `Syntax` regular expression and the `Liquid::TagAttributes` scan. Only "absent → -1, else the integer value" of `max_depth` is modelled.
- `Render.ToI` only handles strings of digits, the only strings the tag syntax admits. Signs and leading blanks are not modelled.
- Multi-menu rendering is not modelled: `render` passes `site.menu` to `render_menu` even when it is a map. `render_menu` is modelled on a list only.
- Names and urls are inserted into the HTML unescaped, and are treated as opaque strings.
- `Render.RenderIsUnlimitedOfPruned`: "no `menu-level-k` with k > d appears in the output" is stated by equality with the unlimited rendering of the forest cut at depth d, not as a property of substrings of the output.
- `Generator.MenuGenerator.GenerateSuburls`: the Ruby method writes through the shared hashes in place. The model writes a separate `suburls` table keyed by page, and the trees read off the tables pick it up.
