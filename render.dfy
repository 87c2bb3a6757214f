/** The `menu` Liquid tag: its `max_depth` parameter and `render_menu`, the
    depth-limited renderer that marks the current page and its ancestors. */
module Render {
  import opened MenuTypes
  import opened MenuTree

  /** The configured CSS class names (`menu_generator.css`). */
  datatype Css = Css(ul: string, li: string, current: string, currentParent: string)

  const DefaultCss: Css := Css("", "", "current", "current-parent")

  predicate IsDigit(c: char) {
    '0' <= c <= '9'
  }

  function DigitChar(d: nat): (c: char)
    requires d < 10
    ensures IsDigit(c)
  {
    ('0' as int + d) as char
  }

  /** Ruby's `Integer#to_s` for a non-negative integer. */
  function ShowNat(n: nat): (s: string)
    ensures |s| > 0 && forall i :: 0 <= i < |s| ==> IsDigit(s[i])
  {
    if n < 10 then [DigitChar(n)] else ShowNat(n / 10) + [DigitChar(n % 10)]
  }

  /** The value of a string of decimal digits. */
  function DigitsValue(s: string): nat
    requires forall i :: 0 <= i < |s| ==> IsDigit(s[i])
  {
    if s == [] then 0
    else
      assert IsDigit(s[|s| - 1]);
      10 * DigitsValue(s[..|s| - 1]) + (s[|s| - 1] as int - '0' as int)
  }

  /** The longest prefix of `s` made of decimal digits. */
  function LeadingDigits(s: string): (d: string)
    ensures d <= s && forall i :: 0 <= i < |d| ==> IsDigit(d[i])
    ensures |d| < |s| ==> !IsDigit(s[|d|])
  {
    if s == [] || !IsDigit(s[0]) then [] else [s[0]] + LeadingDigits(s[1..])
  }

  /** Ruby's `String#to_i` on a string of decimal digits, the only kind the
      tag syntax admits: the value of its leading digits, 0 when there are
      none. */
  function ToI(s: string): nat {
    DigitsValue(LeadingDigits(s))
  }

  /** `to_i` reads back what `to_s` wrote. */
  lemma {:induction false} ToIShowNat(n: nat)
    ensures ToI(ShowNat(n)) == n
  {
    var s := ShowNat(n);
    LeadingDigitsOfDigits(s);
    DigitsValueShowNat(n);
  }

  lemma {:induction false} LeadingDigitsOfDigits(s: string)
    requires forall i :: 0 <= i < |s| ==> IsDigit(s[i])
    ensures LeadingDigits(s) == s
  {
    if s != [] {
      LeadingDigitsOfDigits(s[1..]);
    }
  }

  lemma {:induction false} DigitsValueShowNat(n: nat)
    ensures DigitsValue(ShowNat(n)) == n
  {
    if n >= 10 {
      DigitsValueShowNat(n / 10);
      var s := ShowNat(n);
      assert s[..|s| - 1] == ShowNat(n / 10);
    }
  }

  /** `@max_depth` from the tag's `max_depth` attribute: -1 (no limit) when
      absent, else its integer value. */
  function MaxDepth(attribute: Option<string>): (d: int)
    ensures d >= -1
  {
    if attribute.None? then -1 else ToI(attribute.value)
  }

  /** `{% menu max_depth:d %}` limits the rendering to depth `d`. */
  lemma MaxDepthOfAttribute(d: nat)
    ensures MaxDepth(Some(ShowNat(d))) == d
    ensures MaxDepth(None) == -1
  {
    ToIShowNat(d);
  }

  /** How an item is marked for the page being rendered. */
  datatype Highlight = Current | CurrentParent | Plain

  function HighlightOf(n: MenuNode, pageUrl: Url): Highlight {
    if pageUrl == n.item.url then Current
    else if pageUrl in n.suburls then CurrentParent
    else Plain
  }

  /** The `class` attribute of an item's `<li>`: none for a plain item. */
  function ClassAttribute(h: Highlight, css: Css): (c: string)
    ensures c == "" <==> h == Plain
  {
    match h
    case Current => " class=\"" + css.li + " " + css.current + "\""
    case CurrentParent => " class=\"" + css.li + " " + css.currentParent + "\""
    case Plain => ""
  }

  /** In a tree whose nodes store their descendant urls, an item is the current
      one iff its url is the page url, and a current parent iff it is not and
      one of its descendants has the page url. */
  lemma HighlightMeaning(n: MenuNode, pageUrl: Url)
    requires WellFormed(n)
    ensures HighlightOf(n, pageUrl) == Current <==> pageUrl == n.item.url
    ensures HighlightOf(n, pageUrl) == CurrentParent <==>
              pageUrl != n.item.url && exists d :: IsDescendant(d, n) && d.item.url == pageUrl
    ensures HighlightOf(n, pageUrl) == Plain <==>
              pageUrl != n.item.url && !exists d :: IsDescendant(d, n) && d.item.url == pageUrl
  {
    SuburlsAreDescendantUrls(n, pageUrl);
  }

  /** `render_menu(menu, site, page, level)`. */
  function RenderMenu(menu: seq<MenuNode>, pageUrl: Url, level: nat, maxDepth: int, css: Css): (r: string)
    ensures "<ul class=\"menu-level-" + ShowNat(level) + " " <= r
    ensures |r| >= 5 && r[|r| - 5..] == "</ul>"
    decreases menu, 1
  {
    "<ul class=\"menu-level-" + ShowNat(level) + " " + css.ul + "\">"
    + RenderItems(menu, pageUrl, level, maxDepth, css)
    + "</ul>"
  }

  /** The items of one list, in list order. */
  function RenderItems(menu: seq<MenuNode>, pageUrl: Url, level: nat, maxDepth: int, css: Css): (r: string)
    ensures r == "" <==> menu == []
    decreases menu, 0
  {
    if menu == [] then ""
    else RenderItem(menu[0], pageUrl, level, maxDepth, css) + RenderItems(menu[1..], pageUrl, level, maxDepth, css)
  }

  /** One `<li>`: the link, then the nested list unless the node has no
      subpages or this level is the depth limit. */
  function RenderItem(n: MenuNode, pageUrl: Url, level: nat, maxDepth: int, css: Css): (r: string)
    ensures |r| >= 8 && r[..3] == "<li" && r[|r| - 5..] == "</li>"
    decreases n
  {
    "<li" + ClassAttribute(HighlightOf(n, pageUrl), css) + "><a href=\"" + n.item.url + "\">" + n.item.name + "</a>"
    + (if |n.subpages| == 0 || level - maxDepth == 0 then ""
       else RenderMenu(n.subpages, pageUrl, level + 1, maxDepth, css))
    + "</li>"
  }

  /** The items of two lists rendered one after the other: one `<li>` per node, in order. */
  lemma {:induction false} RenderItemsAppend(a: seq<MenuNode>, b: seq<MenuNode>, pageUrl: Url, level: nat, maxDepth: int, css: Css)
    ensures RenderItems(a + b, pageUrl, level, maxDepth, css)
            == RenderItems(a, pageUrl, level, maxDepth, css) + RenderItems(b, pageUrl, level, maxDepth, css)
  {
    if a == [] {
      assert a + b == b;
    } else {
      assert (a + b)[0] == a[0] && (a + b)[1..] == a[1..] + b;
      RenderItemsAppend(a[1..], b, pageUrl, level, maxDepth, css);
    }
  }

  /** Rendering from `level` with depth limit `d` is rendering, without any
      limit, the forest cut below depth `d`: nested lists stop at level `d`. */
  lemma {:induction false} RenderIsUnlimitedOfPruned(menu: seq<MenuNode>, pageUrl: Url, level: nat, d: int, css: Css)
    requires level <= d
    ensures RenderMenu(menu, pageUrl, level, d, css)
            == RenderMenu(Prune(menu, d - level), pageUrl, level, -1, css)
    decreases menu, 1
  {
    RenderItemsPruned(menu, pageUrl, level, d, css);
  }

  lemma {:induction false} RenderItemsPruned(menu: seq<MenuNode>, pageUrl: Url, level: nat, d: int, css: Css)
    requires level <= d
    ensures RenderItems(menu, pageUrl, level, d, css)
            == RenderItems(Prune(menu, d - level), pageUrl, level, -1, css)
    decreases menu, 0
  {
    if menu != [] {
      var p := Prune(menu, d - level);
      assert p[1..] == Prune(menu[1..], d - level);
      RenderItemPruned(menu[0], p[0], pageUrl, level, d, css);
      RenderItemsPruned(menu[1..], pageUrl, level, d, css);
    }
  }

  lemma {:induction false} RenderItemPruned(n: MenuNode, m: MenuNode, pageUrl: Url, level: nat, d: int, css: Css)
    requires level <= d
    requires m == n.(subpages := if d - level == 0 then [] else Prune(n.subpages, d - level - 1))
    ensures RenderItem(n, pageUrl, level, d, css) == RenderItem(m, pageUrl, level, -1, css)
    decreases n
  {
    assert HighlightOf(m, pageUrl) == HighlightOf(n, pageUrl);
    if level < d && |n.subpages| != 0 {
      RenderIsUnlimitedOfPruned(n.subpages, pageUrl, level + 1, d, css);
    }
  }

  /** With a limit at or beyond the depth of the forest, the whole tree is rendered. */
  lemma LimitBeyondHeight(menu: seq<MenuNode>, pageUrl: Url, level: nat, d: int, css: Css)
    requires level <= d && Height(menu) <= d - level + 1
    ensures RenderMenu(menu, pageUrl, level, d, css) == RenderMenu(menu, pageUrl, level, -1, css)
  {
    RenderIsUnlimitedOfPruned(menu, pageUrl, level, d, css);
    PruneShallow(menu, d - level);
  }
}
