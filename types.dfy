/** The records the menu generator reads and keeps, and the menu-root key convention. */
module MenuTypes {

  datatype Option<T> = None | Some(value: T)

  /** A page's identity key: the configured `parent_match_hash` field (`path` by default). */
  type Key = string
  type Url = string

  /** A content page as the generator sees it: its identity key, the `menu`
      front matter it declares (parent, name, position), its url and title. */
  datatype Page = Page(key: Key, parent: Option<Key>, name: Option<string>,
                       position: Option<int>, url: Url, title: string)

  /** The plain record of an attached page as it sits in a subpage list, with
      its display name fixed at attach time. */
  datatype Item = Item(key: Key, parent: Option<Key>, name: string,
                       position: Option<int>, url: Url)

  /** The recognised options of the generator that the core depends on. */
  datatype Config = Config(menuRoot: string, multiMenu: bool)

  const DefaultConfig: Config := Config("__root", false)

  /** `Page#menu_name`: the explicit menu name, or else the page title. */
  function MenuName(p: Page): string {
    match p.name
    case Some(n) => n
    case None => p.title
  }

  /** The record a page contributes once attached (`page.to_liquid`, payload left out). */
  function ToItem(p: Page): Item {
    Item(p.key, p.parent, MenuName(p), p.position, p.url)
  }

  /** A parent key the generator turns into a menu root when it is not yet
      a container: the base key itself in single-menu mode, any key starting
      with it in multi-menu mode. */
  predicate IsRootKey(cfg: Config, k: Key) {
    if cfg.multiMenu then cfg.menuRoot <= k else k == cfg.menuRoot
  }

  /** The menu name a root key records: the part after the base key. */
  function RootName(cfg: Config, k: Key): (name: string)
    requires IsRootKey(cfg, k)
    ensures cfg.menuRoot + name == k
    ensures !cfg.multiMenu ==> name == ""
  {
    k[|cfg.menuRoot|..]
  }

  /** The lookup key of the menu recorded under `name`. */
  function RootKey(cfg: Config, name: string): Key {
    cfg.menuRoot + name
  }

  /** Recording a name and looking its root up again are inverse to each other. */
  lemma RootNameKey(cfg: Config, name: string)
    requires IsRootKey(cfg, RootKey(cfg, name))
    ensures RootName(cfg, RootKey(cfg, name)) == name
    ensures !cfg.multiMenu ==> name == ""
  {
    var k := RootKey(cfg, name);
    assert k[|cfg.menuRoot|..] == name;
    if !cfg.multiMenu {
      assert |k| == |cfg.menuRoot|;
    }
  }
}
