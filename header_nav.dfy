/**
 * The site header's menu walker: for each menu item it decides the
 * `active` classes of the link and appends the item's anchor to the
 * menu's output; the end of an item emits nothing, and the children of
 * an item are wrapped in the level markup the walker inherits.
 */
module HeaderNav {
  import opened Text
  import opened WordPress

  /** A menu item as the walker reads it. */
  datatype MenuItem = MenuItem(classes: seq<string>, title: string, url: string)

  const Active := "active"

  /** WordPress marks the current item, page or ancestor with one of these
      classes. */
  predicate IsCurrent(item: MenuItem) {
    "current-menu-item" in item.classes || "current_page_item" in item.classes
    || "current-menu-ancestor" in item.classes
  }

  /** `stripos($title, $word) !== false` for a lower-case `word`. */
  predicate TitleHas(item: MenuItem, word: string) {
    Contains(Lower(item.title), word)
  }

  /** The Library link on a single product page. */
  predicate LibraryLink(item: MenuItem, r: Request) {
    r.singularProduct && TitleHas(item, "library")
  }

  /** The Blog link on a blog-type page. */
  predicate BlogLink(item: MenuItem, r: Request) {
    IsBlog(r) && (TitleHas(item, "blog") || TitleHas(item, "news") || TitleHas(item, "articles"))
  }

  /** The three rules, each adding its own `active`. */
  function ActiveClasses(item: MenuItem, r: Request): (classes: seq<string>)
    ensures forall k :: 0 <= k < |classes| ==> classes[k] == Active
    ensures |classes| == (if IsCurrent(item) then 1 else 0) + (if LibraryLink(item, r) then 1 else 0)
                         + (if BlogLink(item, r) then 1 else 0)
    ensures classes != [] <==> IsCurrent(item) || LibraryLink(item, r) || BlogLink(item, r)
  {
    (if IsCurrent(item) then [Active] else [])
    + (if LibraryLink(item, r) then [Active] else [])
    + (if BlogLink(item, r) then [Active] else [])
  }

  /** The classes of `start_el`, appended rule by rule. */
  method ItemClasses(item: MenuItem, r: Request) returns (classes: seq<string>)
    ensures classes == ActiveClasses(item, r)
  {
    classes := [];
    if "current-menu-item" in item.classes || "current_page_item" in item.classes
       || "current-menu-ancestor" in item.classes {
      classes := classes + [Active];
    }
    if r.singularProduct && Contains(Lower(item.title), "library") {
      classes := classes + [Active];
    }
    if (r.singularPost || r.archive || r.home || r.search)
       && (Contains(Lower(item.title), "blog") || Contains(Lower(item.title), "news")
           || Contains(Lower(item.title), "articles")) {
      classes := classes + [Active];
    }
  }

  const ClassOpen := " class=\""
  const Quote := "\""

  /** The `class` attribute: omitted without classes, else the classes
      joined by spaces. */
  function ClassAttr(classes: seq<string>): (attr: string)
    ensures attr == "" <==> classes == []
    ensures classes != [] ==> |attr| >= |ClassOpen| + 1 && attr[..|ClassOpen|] == ClassOpen
  {
    assert |ClassOpen| == 8;
    if classes != [] then ClassOpen + Join(classes, ' ') + Quote else ""
  }

  /** The class list can be read back from a non-empty attribute when no
      class holds a space. */
  lemma ClassAttrRoundTrip(classes: seq<string>)
    requires classes != [] && forall k :: 0 <= k < |classes| ==> Free(classes[k], ' ')
    ensures var attr := ClassAttr(classes);
      Split(attr[|ClassOpen|..|attr| - 1], ' ') == classes
  {
    var attr := ClassAttr(classes);
    assert attr[|ClassOpen|..|attr| - 1] == Join(classes, ' ');
    SplitJoin(classes, ' ');
  }

  /** Two `active` classes give the attribute ` class="active active"`. */
  lemma TwoActiveClassAttr()
    ensures ClassAttr([Active, Active]) == ClassOpen + Active + " " + Active + Quote
  {
    var classes := [Active, Active];
    assert classes[1..] == [Active];
    assert Join(classes[1..], ' ') == Active;
    assert Join(classes, ' ') == Active + " " + Active;
    AppendAssoc(ClassOpen, Active + " ", Active);
    AppendAssoc(ClassOpen, Active, " ");
  }

  /** A current item titled with "library" on a single product page meets
      two rules and carries `active` twice. */
  lemma CurrentLibraryItemIsActiveTwice(item: MenuItem, r: Request)
    requires IsCurrent(item) && TitleHas(item, "library") && r.singularProduct && !IsBlog(r)
    ensures ActiveClasses(item, r) == [Active, Active]
    ensures ClassAttr(ActiveClasses(item, r)) == ClassOpen + Active + " " + Active + Quote
  {
    TwoActiveClassAttr();
  }

  const AnchorOpen := "<a href=\""
  const TagEnd := ">"
  const AnchorClose := "</a>"

  /** What `start_el` appends for an item; `escUrl` and `escHtml` are
      WordPress's `esc_url` and `esc_html`. */
  function Anchor(item: MenuItem, r: Request, escUrl: string -> string, escHtml: string -> string): (html: string)
    ensures IsPrefix(AnchorOpen + escUrl(item.url) + Quote, html)
    ensures |html| >= |AnchorClose| && html[|html| - |AnchorClose|..] == AnchorClose
  {
    var prefix := AnchorOpen + escUrl(item.url) + Quote;
    var html := prefix + ClassAttr(ActiveClasses(item, r)) + TagEnd + escHtml(item.title) + AnchorClose;
    assert html[..|prefix|] == prefix;
    html
  }

  /** The menu's output for a list of items, one anchor after the other. */
  function MenuHtml(items: seq<MenuItem>, r: Request, escUrl: string -> string, escHtml: string -> string): string {
    if items == [] then "" else Anchor(items[0], r, escUrl, escHtml) + MenuHtml(items[1..], r, escUrl, escHtml)
  }

  /** Rendering two lists one after the other is rendering their
      concatenation. */
  lemma {:induction false} MenuHtmlAppend(xs: seq<MenuItem>, ys: seq<MenuItem>, r: Request,
                                          escUrl: string -> string, escHtml: string -> string)
    ensures MenuHtml(xs + ys, r, escUrl, escHtml) == MenuHtml(xs, r, escUrl, escHtml) + MenuHtml(ys, r, escUrl, escHtml)
  {
    if xs != [] {
      assert (xs + ys)[1..] == xs[1..] + ys;
      MenuHtmlAppend(xs[1..], ys, r, escUrl, escHtml);
    } else {
      assert xs + ys == ys;
    }
  }

  /** Appending three pieces one by one appends their concatenation. */
  lemma AppendThree(s: string, a: string, b: string, c: string)
    ensures s + a + b + c == s + (a + b + c)
    ensures IsPrefix(s, s + (a + b + c))
  {
    assert (s + (a + b + c))[..|s|] == s;
  }

  /** Appending four pieces one by one appends their concatenation. */
  lemma AppendFour(s: string, a: string, b: string, c: string, d: string)
    ensures s + a + b + c + d == s + (a + (b + c + d))
  {
  }

  /** A menu item with the items nested under it. */
  datatype MenuNode = MenuNode(item: MenuItem, children: seq<MenuNode>)

  /** The markup `start_lvl` and `end_lvl` emit around the children of an
      item at a given depth. The theme's walker does not override them: they
      are those of WordPress's `Walker_Nav_Menu`, given here as functions. */
  datatype Levels = Levels(open: nat -> string, close: nat -> string)

  /** What the walk emits for an item at `depth`: its anchor, then, when it
      has children, the level opening, the children one level deeper and
      the level closing; `end_el` adds nothing. */
  function NodeHtml(node: MenuNode, depth: nat, r: Request, escUrl: string -> string, escHtml: string -> string,
                    lvl: Levels): string
    decreases node, 1
  {
    Anchor(node.item, r, escUrl, escHtml)
    + (if node.children == [] then ""
       else lvl.open(depth) + ChildrenHtml(node, 0, depth + 1, r, escUrl, escHtml, lvl) + lvl.close(depth))
  }

  /** The output for the children of `parent` from index `from` on. */
  function ChildrenHtml(parent: MenuNode, from: nat, depth: nat, r: Request, escUrl: string -> string,
                        escHtml: string -> string, lvl: Levels): string
    requires from <= |parent.children|
    decreases parent, 0, |parent.children| - from
  {
    if from == |parent.children| then ""
    else
      assert parent.children[from] in parent.children;
      NodeHtml(parent.children[from], depth, r, escUrl, escHtml, lvl)
      + ChildrenHtml(parent, from + 1, depth, r, escUrl, escHtml, lvl)
  }

  /** The menu's output: its top-level items one after the other. */
  function TreeHtml(nodes: seq<MenuNode>, r: Request, escUrl: string -> string, escHtml: string -> string,
                    lvl: Levels): string
  {
    if nodes == [] then ""
    else NodeHtml(nodes[0], 0, r, escUrl, escHtml, lvl) + TreeHtml(nodes[1..], r, escUrl, escHtml, lvl)
  }

  /** Items without children. */
  function Leaves(items: seq<MenuItem>): seq<MenuNode> {
    seq(|items|, i requires 0 <= i < |items| => MenuNode(items[i], []))
  }

  /** A menu without nested items is exactly the anchors of its items, in
      order, whatever the level markup. */
  lemma {:induction false} FlatMenuIsAnchors(items: seq<MenuItem>, r: Request, escUrl: string -> string,
                                             escHtml: string -> string, lvl: Levels)
    ensures TreeHtml(Leaves(items), r, escUrl, escHtml, lvl) == MenuHtml(items, r, escUrl, escHtml)
  {
    if items != [] {
      assert Leaves(items)[1..] == Leaves(items[1..]);
      FlatMenuIsAnchors(items[1..], r, escUrl, escHtml, lvl);
    }
  }

  /** An item with one child: the child's anchor sits inside the level
      markup of depth 0, right after its parent's anchor. */
  lemma NestedItemGetsSubMenu(parent: MenuItem, child: MenuItem, r: Request, escUrl: string -> string,
                              escHtml: string -> string, lvl: Levels)
    ensures TreeHtml([MenuNode(parent, [MenuNode(child, [])])], r, escUrl, escHtml, lvl)
            == Anchor(parent, r, escUrl, escHtml) + lvl.open(0) + Anchor(child, r, escUrl, escHtml) + lvl.close(0)
  {
    var node := MenuNode(parent, [MenuNode(child, [])]);
    assert ChildrenHtml(node, 1, 1, r, escUrl, escHtml, lvl) == "";
    assert ChildrenHtml(node, 0, 1, r, escUrl, escHtml, lvl) == Anchor(child, r, escUrl, escHtml);
  }

  /** The walker and the output buffer it appends to. */
  class Walker {
    var output: string

    constructor ()
      ensures output == ""
    {
      output := "";
    }

    /** `start_el`: appends the anchor of the item and nothing else. */
    method StartEl(item: MenuItem, r: Request, escUrl: string -> string, escHtml: string -> string)
      modifies this
      ensures output == old(output) + Anchor(item, r, escUrl, escHtml)
      ensures IsPrefix(old(output), output)
    {
      var classes := ItemClasses(item, r);
      var classAttr := if classes != [] then ClassOpen + Join(classes, ' ') + Quote else "";
      var opening := AnchorOpen + escUrl(item.url) + Quote + classAttr + TagEnd;
      var title := escHtml(item.title);
      output := output + opening;
      output := output + title;
      output := output + AnchorClose;
      assert Anchor(item, r, escUrl, escHtml) == opening + title + AnchorClose;
      AppendThree(old(output), opening, title, AnchorClose);
    }

    /** `end_el`: no closing markup; the output is unchanged. */
    method EndEl(item: MenuItem)
      modifies this
      ensures output == old(output)
    {
    }

    /** The inherited `start_lvl`. */
    method StartLvl(depth: nat, lvl: Levels)
      modifies this
      ensures output == old(output) + lvl.open(depth)
    {
      output := output + lvl.open(depth);
    }

    /** The inherited `end_lvl`. */
    method EndLvl(depth: nat, lvl: Levels)
      modifies this
      ensures output == old(output) + lvl.close(depth)
    {
      output := output + lvl.close(depth);
    }

    /** `display_element`: `start_el`, then the children between
        `start_lvl` and `end_lvl`, then `end_el`. */
    method DisplayElement(node: MenuNode, depth: nat, r: Request, escUrl: string -> string,
                          escHtml: string -> string, lvl: Levels)
      modifies this
      ensures output == old(output) + NodeHtml(node, depth, r, escUrl, escHtml, lvl)
      decreases node, 1
    {
      ghost var start := output;
      ghost var anchor := Anchor(node.item, r, escUrl, escHtml);
      StartEl(node.item, r, escUrl, escHtml);
      if node.children != [] {
        StartLvl(depth, lvl);
        DisplayChildren(node, depth + 1, r, escUrl, escHtml, lvl);
        EndLvl(depth, lvl);
        ghost var kids := ChildrenHtml(node, 0, depth + 1, r, escUrl, escHtml, lvl);
        AppendFour(start, anchor, lvl.open(depth), kids, lvl.close(depth));
      }
      EndEl(node.item);
    }

    /** The `foreach` of `display_element` over the children of `node`. */
    method DisplayChildren(node: MenuNode, depth: nat, r: Request, escUrl: string -> string,
                           escHtml: string -> string, lvl: Levels)
      modifies this
      ensures output == old(output) + ChildrenHtml(node, 0, depth, r, escUrl, escHtml, lvl)
      decreases node, 0
    {
      ghost var before := output;
      for i := 0 to |node.children|
        invariant output + ChildrenHtml(node, i, depth, r, escUrl, escHtml, lvl)
                  == before + ChildrenHtml(node, 0, depth, r, escUrl, escHtml, lvl)
      {
        assert node.children[i] in node.children;
        ghost var done := output;
        ghost var rest := ChildrenHtml(node, i + 1, depth, r, escUrl, escHtml, lvl);
        DisplayElement(node.children[i], depth, r, escUrl, escHtml, lvl);
        ghost var child := NodeHtml(node.children[i], depth, r, escUrl, escHtml, lvl);
        assert ChildrenHtml(node, i, depth, r, escUrl, escHtml, lvl) == child + rest;
        AppendAssoc(done, child, rest);
      }
    }

    /** The menu walk: each top-level item in order, with its children. */
    method Walk(nodes: seq<MenuNode>, r: Request, escUrl: string -> string, escHtml: string -> string, lvl: Levels)
      modifies this
      ensures output == old(output) + TreeHtml(nodes, r, escUrl, escHtml, lvl)
    {
      ghost var start := output;
      for i := 0 to |nodes|
        invariant output + TreeHtml(nodes[i..], r, escUrl, escHtml, lvl) == start + TreeHtml(nodes, r, escUrl, escHtml, lvl)
      {
        assert nodes[i..][0] == nodes[i] && nodes[i..][1..] == nodes[i + 1..];
        ghost var done := output;
        DisplayElement(nodes[i], 0, r, escUrl, escHtml, lvl);
        AppendAssoc(done, NodeHtml(nodes[i], 0, r, escUrl, escHtml, lvl), TreeHtml(nodes[i + 1..], r, escUrl, escHtml, lvl));
      }
      assert nodes[|nodes|..] == [];
    }
  }

  /** A menu rendered on a fresh walker: each item's anchor, with the
      children of an item inside the level markup right after it. */
  method RenderMenu(nodes: seq<MenuNode>, r: Request, escUrl: string -> string, escHtml: string -> string,
                    lvl: Levels)
    returns (html: string)
    ensures html == TreeHtml(nodes, r, escUrl, escHtml, lvl)
  {
    var walker := new Walker();
    walker.Walk(nodes, r, escUrl, escHtml, lvl);
    html := walker.output;
  }
}
