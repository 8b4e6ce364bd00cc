/**
 * The single product page: the defaults applied to the product's custom
 * fields, which content sections exist, whether they are shown as tabs,
 * which tab and panel start active, how the feature icons cycle, and the
 * screenshot thumbnails and lightbox images.
 */
module ProductPage {
  import opened Text
  import Widgets

  /** `get_field(...) ?: default` for a text field: a missing or falsy
      value ("" or "0") gives the default. */
  function TextOr(field: Option<string>, default: string): (r: string)
    ensures field.Some? && !PhpEmpty(field.value) ==> r == field.value
    ensures field.None? || PhpEmpty(field.value) ==> r == default
  {
    if field.Some? && !PhpEmpty(field.value) then field.value else default
  }

  const DefaultBackground := "#3B82F6"

  /** The hero icon's background colour: the field when it is set, else the
      theme's blue. */
  function BackgroundColor(field: Option<string>): (c: string)
    ensures !PhpEmpty(c)
    ensures field.Some? && !PhpEmpty(field.value) ==> c == field.value
    ensures field.None? || PhpEmpty(field.value) ==> c == DefaultBackground
  {
    assert DefaultBackground[0] == '#';
    TextOr(field, DefaultBackground)
  }

  /** A colour the page computed is kept when fed back as the field. */
  lemma BackgroundColorIdempotent(field: Option<string>)
    ensures BackgroundColor(Some(BackgroundColor(field))) == BackgroundColor(field)
  {
  }

  /** The `downloadurl` link field: not an array (unset), or an array whose
      `url` and `title` keys may be missing. */
  datatype DownloadLink = NotArray | LinkArray(url: Option<string>, title: Option<string>)

  /** `is_array($link) ? ($link['url'] ?? '') : ''`. */
  function DownloadUrl(link: DownloadLink): (url: string)
    ensures link.NotArray? ==> url == ""
    ensures link.LinkArray? && link.url.None? ==> url == ""
    ensures link.LinkArray? && link.url.Some? ==> url == link.url.value
  {
    if link.LinkArray? && link.url.Some? then link.url.value else ""
  }

  const GetIt := "Get It"

  /** The text of the download button: the link's non-empty title, or
      "Get It". */
  function LinkTitle(link: DownloadLink): (t: string)
    ensures !PhpEmpty(t)
    ensures link.LinkArray? && link.title.Some? && !PhpEmpty(link.title.value) ==> t == link.title.value
    ensures !(link.LinkArray? && link.title.Some? && !PhpEmpty(link.title.value)) ==> t == GetIt
  {
    assert GetIt[0] == 'G';
    if link.LinkArray? && link.title.Some? && !PhpEmpty(link.title.value) then link.title.value else GetIt
  }

  /** The download button is shown iff the link is an array with a `url`
      that PHP reads as true, i.e. neither "" nor "0". */
  lemma DownloadButtonShown(link: DownloadLink)
    ensures !PhpEmpty(DownloadUrl(link)) <==> link.LinkArray? && link.url.Some? && !PhpEmpty(link.url.value)
  {
  }

  /** The content fields after their `?: []` / `?: ''` defaults. */
  datatype Content = Content(features: seq<string>, usage: string, installation: string, faqs: string)

  /** The four content sections. */
  datatype Section = Features | Download | HowToUse | Faqs

  /** The `has_*` flags: a section exists iff its field is non-empty. */
  predicate Present(c: Content, s: Section) {
    match s
    case Features => c.features != []
    case Download => !PhpEmpty(c.installation)
    case HowToUse => !PhpEmpty(c.usage)
    case Faqs => !PhpEmpty(c.faqs)
  }

  /** `tab_count`: the number of true flags. */
  function TabCount(c: Content): (n: nat)
    ensures n <= 4
  {
    (if Present(c, Features) then 1 else 0) + (if Present(c, HowToUse) then 1 else 0)
    + (if Present(c, Download) then 1 else 0) + (if Present(c, Faqs) then 1 else 0)
  }

  /** `has_tabs`. */
  predicate HasTabs(c: Content) {
    TabCount(c) > 1
  }

  /** `tabs` followed by `s` when `present`. */
  function AddIf(tabs: seq<Section>, present: bool, s: Section): seq<Section> {
    if present then tabs + [s] else tabs
  }

  /** The sections that exist, in tab order. */
  function PresentTabs(c: Content): seq<Section> {
    var r := AddIf([], Present(c, Features), Features);
    var r := AddIf(r, Present(c, Download), Download);
    var r := AddIf(r, Present(c, HowToUse), HowToUse);
    AddIf(r, Present(c, Faqs), Faqs)
  }

  /** Each section that exists appears once in the tab order, and no other. */
  lemma PresentTabsExactlyOnce(c: Content)
    ensures forall s :: s in PresentTabs(c) <==> Present(c, s)
    ensures forall i, j :: 0 <= i < j < |PresentTabs(c)| ==> PresentTabs(c)[i] != PresentTabs(c)[j]
  {
  }

  /** `tab_count` counts the sections that exist. */
  lemma TabCountCountsSections(c: Content)
    ensures TabCount(c) == |PresentTabs(c)|
    ensures TabCount(c) == 0 <==> forall s :: !Present(c, s)
  {
    PresentTabsExactlyOnce(c);
    if TabCount(c) != 0 {
      assert PresentTabs(c) != [];
      assert Present(c, PresentTabs(c)[0]);
    }
  }

  const FeaturesTab := "features"
  const DownloadTab := "download"
  const HowToUseTab := "how-to-use"
  const FaqsTab := "faqs"

  /** The `data-tab` of each button; its panel's id is "tab-" followed by it. */
  function TabName(s: Section): string {
    match s
    case Features => FeaturesTab
    case Download => DownloadTab
    case HowToUse => HowToUseTab
    case Faqs => FaqsTab
  }

  /** The `id` of a section's panel. */
  function PanelId(s: Section): string {
    "tab-" + TabName(s)
  }

  /** Different sections have different tab names and panel ids. */
  lemma TabNamesDistinct(s: Section, t: Section)
    requires s != t
    ensures TabName(s) != TabName(t)
    ensures PanelId(s) != PanelId(t)
  {
    assert FeaturesTab[0] == 'f' && DownloadTab[0] == 'd' && HowToUseTab[0] == 'h' && FaqsTab[0] == 'f';
    assert FeaturesTab[1] == 'e' && FaqsTab[1] == 'a';
    assert PanelId(s)[4..] == TabName(s) && PanelId(t)[4..] == TabName(t);
  }

  /** A button or panel as rendered: its `data-tab` or `id`, and whether it
      carries the `active` class. */
  datatype Item = Item(name: string, active: bool)

  /** What the content section renders. */
  datatype Layout =
    | NoSection
    | Tabbed(buttons: seq<Item>, panels: seq<Item>)
    | Single(section: Section)

  /** A strip of buttons or panels for sections in order: one item per
      section, named by `name`, only the first active. */
  function Strip(tabs: seq<Section>, name: Section -> string): (items: seq<Item>)
    ensures |items| == |tabs|
    ensures forall i :: 0 <= i < |tabs| ==> items[i] == Item(name(tabs[i]), i == 0)
  {
    seq(|tabs|, i requires 0 <= i < |tabs| => Item(name(tabs[i]), i == 0))
  }

  /** Emitting the item of one more section extends the strip; it is active
      iff nothing was emitted before. */
  lemma StripSnoc(tabs: seq<Section>, present: bool, s: Section, name: Section -> string)
    ensures Strip(AddIf(tabs, present, s), name)
            == Strip(tabs, name) + (if present then [Item(name(s), tabs == [])] else [])
  {
    if present {
      assert Strip(tabs + [s], name) == Strip(tabs, name) + [Item(name(s), tabs == [])];
    }
  }

  /** The tab navigation: one button per section, in tab order, the first
      one emitted carrying `active`. */
  method RenderButtons(c: Content) returns (buttons: seq<Item>)
    ensures buttons == Strip(PresentTabs(c), TabName)
  {
    ghost var tabs: seq<Section> := [];
    buttons := [];
    var firstTab := true;
    StripSnoc(tabs, Present(c, Features), Features, TabName);
    if Present(c, Features) {
      buttons := buttons + [Item(FeaturesTab, firstTab)];
      firstTab := false;
    }
    tabs := AddIf(tabs, Present(c, Features), Features);
    StripSnoc(tabs, Present(c, Download), Download, TabName);
    if Present(c, Download) {
      buttons := buttons + [Item(DownloadTab, firstTab)];
      firstTab := false;
    }
    tabs := AddIf(tabs, Present(c, Download), Download);
    StripSnoc(tabs, Present(c, HowToUse), HowToUse, TabName);
    if Present(c, HowToUse) {
      buttons := buttons + [Item(HowToUseTab, firstTab)];
      firstTab := false;
    }
    tabs := AddIf(tabs, Present(c, HowToUse), HowToUse);
    StripSnoc(tabs, Present(c, Faqs), Faqs, TabName);
    if Present(c, Faqs) {
      buttons := buttons + [Item(FaqsTab, firstTab)];
    }
  }

  /** The tab panels: one per section, in the same order, with id
      "tab-" + its tab name, the first one emitted carrying `active`. */
  method RenderPanels(c: Content) returns (panels: seq<Item>)
    ensures panels == Strip(PresentTabs(c), PanelId)
  {
    ghost var tabs: seq<Section> := [];
    panels := [];
    var firstPanel := true;
    StripSnoc(tabs, Present(c, Features), Features, PanelId);
    if Present(c, Features) {
      panels := panels + [Item(PanelId(Features), firstPanel)];
      firstPanel := false;
    }
    tabs := AddIf(tabs, Present(c, Features), Features);
    StripSnoc(tabs, Present(c, Download), Download, PanelId);
    if Present(c, Download) {
      panels := panels + [Item(PanelId(Download), firstPanel)];
      firstPanel := false;
    }
    tabs := AddIf(tabs, Present(c, Download), Download);
    StripSnoc(tabs, Present(c, HowToUse), HowToUse, PanelId);
    if Present(c, HowToUse) {
      panels := panels + [Item(PanelId(HowToUse), firstPanel)];
      firstPanel := false;
    }
    tabs := AddIf(tabs, Present(c, HowToUse), HowToUse);
    StripSnoc(tabs, Present(c, Faqs), Faqs, PanelId);
    if Present(c, Faqs) {
      panels := panels + [Item(PanelId(Faqs), firstPanel)];
    }
  }

  /** The content section: nothing without content, tabs for two or more
      sections, else the one section, in the order features, how to use,
      download, FAQs. */
  method ContentSection(c: Content) returns (layout: Layout)
    ensures layout.NoSection? <==> TabCount(c) == 0
    ensures layout.Tabbed? <==> HasTabs(c)
    ensures layout.Single? <==> TabCount(c) == 1
    ensures layout.Single? ==> PresentTabs(c) == [layout.section]
    ensures layout.Tabbed? ==>
      layout.buttons == Strip(PresentTabs(c), TabName) && layout.panels == Strip(PresentTabs(c), PanelId)
  {
    TabCountCountsSections(c);
    if !(Present(c, Features) || Present(c, HowToUse) || Present(c, Download) || Present(c, Faqs)) {
      layout := NoSection;
    } else if HasTabs(c) {
      var buttons := RenderButtons(c);
      var panels := RenderPanels(c);
      layout := Tabbed(buttons, panels);
    } else if Present(c, Features) {
      layout := Single(Features);
    } else if Present(c, HowToUse) {
      layout := Single(HowToUse);
    } else if Present(c, Download) {
      layout := Single(Download);
    } else {
      layout := Single(Faqs);
    }
  }

  /** With tabs, exactly one button and one panel start active, and both are
      the first section that exists in tab order. */
  lemma FirstTabActive(c: Content, buttons: seq<Item>, panels: seq<Item>)
    requires HasTabs(c)
    requires buttons == Strip(PresentTabs(c), TabName) && panels == Strip(PresentTabs(c), PanelId)
    ensures |buttons| > 0 && buttons[0].active
    ensures |panels| > 0 && panels[0].active
    ensures forall i, j :: 0 <= i < |buttons| && 0 <= j < |buttons| && buttons[i].active && buttons[j].active ==> i == j
    ensures forall i, j :: 0 <= i < |panels| && 0 <= j < |panels| && panels[i].active && panels[j].active ==> i == j
    ensures var first := if Present(c, Features) then Features
                         else if Present(c, Download) then Download
                         else if Present(c, HowToUse) then HowToUse else Faqs;
      buttons[0].name == TabName(first) && panels[0].name == PanelId(first)
  {
    TabCountCountsSections(c);
    assert buttons[0].active;
  }

  /** The delivered page's tab strip after a click on button `b`: that
      button alone is active and the panel of the same section alone is
      shown. */
  method ClickTab(c: Content, b: nat) returns (buttonActive: seq<bool>, panelActive: seq<bool>)
    requires HasTabs(c) && b < TabCount(c)
    ensures |buttonActive| == |panelActive| == TabCount(c)
    ensures forall i :: 0 <= i < |buttonActive| ==> (buttonActive[i] <==> i == b)
    ensures forall i :: 0 <= i < |panelActive| ==> (panelActive[i] <==> i == b)
  {
    TabCountCountsSections(c);
    PresentTabsExactlyOnce(c);
    var buttons := RenderButtons(c);
    var panels := RenderPanels(c);
    var tabs := PresentTabs(c);
    var buttonTabs := seq(|buttons|, i requires 0 <= i < |buttons| => buttons[i].name);
    var panelIds := seq(|panels|, i requires 0 <= i < |panels| => panels[i].name);
    var strip := new Widgets.TabStrip(buttonTabs, panelIds,
                                      seq(|buttons|, i requires 0 <= i < |buttons| => buttons[i].active),
                                      seq(|panels|, i requires 0 <= i < |panels| => panels[i].active));
    strip.Click(b);
    buttonActive, panelActive := strip.buttonActive, strip.panelActive;
    forall k | 0 <= k < |panelIds|
      ensures panelIds[k] == "tab-" + buttonTabs[b] <==> k == b
    {
      if k != b {
        TabNamesDistinct(tabs[k], tabs[b]);
      }
    }
  }

  /** The feature icons, cycled by the feature's index. */
  const Icons := ["\U{2B50}", "\U{1F3AF}", "\U{26A1}", "\U{1F527}"]

  /** `$icons[$index % count($icons)]`. */
  function FeatureIcon(index: nat): (icon: string)
    ensures icon in Icons
    ensures index < 4 ==> icon == Icons[index]
  {
    Icons[index % |Icons|]
  }

  /** The icons repeat every four features, and four features in a row get
      four different icons. */
  lemma IconsCycle(index: nat)
    ensures FeatureIcon(index + 4) == FeatureIcon(index)
    ensures FeatureIcon(index + 1) != FeatureIcon(index)
    ensures FeatureIcon(index + 2) != FeatureIcon(index)
    ensures FeatureIcon(index + 3) != FeatureIcon(index)
  {
    assert Icons[0][0] == '\U{2B50}' && Icons[1][0] == '\U{1F3AF}';
    assert Icons[2][0] == '\U{26A1}' && Icons[3][0] == '\U{1F527}';
    assert (index + 4) % 4 == index % 4;
    assert (index + 1) % 4 != index % 4 && (index + 2) % 4 != index % 4 && (index + 3) % 4 != index % 4;
  }

  /** The features list: one item per feature, in order, with its icon. */
  method RenderFeatures(features: seq<string>) returns (items: seq<(string, string)>)
    ensures |items| == |features|
    ensures forall i :: 0 <= i < |items| ==> items[i] == (FeatureIcon(i), features[i])
  {
    items := [];
    for index := 0 to |features|
      invariant |items| == index
      invariant forall i :: 0 <= i < index ==> items[i] == (FeatureIcon(i), features[i])
    {
      items := items + [(Icons[index % |Icons|], features[index])];
    }
  }

  /** The screenshot thumbnails and the lightbox images: the `data-index` of
      each, and which image starts active. */
  method RenderScreenshots(count: nat) returns (thumbIndex: seq<int>, imageIndex: seq<int>, imageActive: seq<bool>)
    ensures |thumbIndex| == |imageIndex| == |imageActive| == count
    ensures forall i :: 0 <= i < count ==> thumbIndex[i] == i && imageIndex[i] == i
    ensures forall i :: 0 <= i < count ==> (imageActive[i] <==> i == 0)
  {
    thumbIndex, imageIndex, imageActive := [], [], [];
    for index := 0 to count
      invariant |thumbIndex| == |imageIndex| == |imageActive| == index
      invariant forall i :: 0 <= i < index ==> thumbIndex[i] == i && imageIndex[i] == i
      invariant forall i :: 0 <= i < index ==> (imageActive[i] <==> i == 0)
    {
      thumbIndex := thumbIndex + [index];
      imageIndex := imageIndex + [index];
      imageActive := imageActive + [index == 0];
    }
  }

  /** A click on thumbnail `t` opens the lightbox on the image with the
      same index, with the counter at `t + 1` of the number of screenshots. */
  method OpenFromThumbnail(count: nat, t: nat) returns (index: int, counter: int, activeImage: seq<bool>)
    requires t < count
    ensures index == t && counter == t + 1
    ensures |activeImage| == count && forall i :: 0 <= i < count ==> (activeImage[i] <==> i == t)
  {
    var thumbIndex, imageIndex, imageActive := RenderScreenshots(count);
    var box := new Widgets.Lightbox(|imageIndex|, true, true, true);
    box.Open(thumbIndex[t]);
    index, counter, activeImage := box.currentIndex, box.counter, box.imageActive;
  }

  /** The template file as PHP reads it: opening and closing tags, code
      between them, and markup outside them. Markup that falls inside a
      code block is not PHP and stops the file with a parse error. */
  datatype Piece = OpenTag | CloseTag | Code(text: string) | Markup(html: string)

  datatype Compiled = ParseError | Output(html: string)

  /** The markup a file sends, or the parse error; `inCode` says whether
      the scanner is inside a code block. Code outside a block is text. */
  function Compile(pieces: seq<Piece>, inCode: bool): (r: Compiled)
    ensures pieces == [] ==> r == Output("")
  {
    if pieces == [] then Output("")
    else
      var rest := Compile(pieces[1..], match pieces[0] case OpenTag => true case CloseTag => false case _ => inCode);
      match pieces[0]
      case OpenTag => if inCode then ParseError else rest
      case CloseTag => if inCode then rest else Prepend("?>", rest)
      case Code(text) => if inCode then rest else Prepend(text, rest)
      case Markup(html) => if inCode then ParseError else Prepend(html, rest)
  }

  function Prepend(text: string, r: Compiled): Compiled {
    if r.ParseError? then ParseError else Output(text + r.html)
  }

  /** The product template as written: the code block that computes the
      section flags runs straight into the page markup, so no product page
      renders at all. */
  lemma TemplateAsWritten(flags: string, page: string)
    ensures Compile([OpenTag, Code(flags), Markup(page)], false) == ParseError
  {
    var pieces := [OpenTag, Code(flags), Markup(page)];
    assert pieces[1..] == [Code(flags), Markup(page)] && pieces[1..][1..] == [Markup(page)];
    assert Compile([Markup(page)], true) == ParseError;
    assert Compile([Code(flags), Markup(page)], true) == ParseError;
  }

  /** With the block closed after the flags, the page markup is what the
      template sends. */
  lemma TemplateWithCloseTag(flags: string, page: string)
    ensures Compile([OpenTag, Code(flags), CloseTag, Markup(page)], false) == Output(page)
  {
    var pieces := [OpenTag, Code(flags), CloseTag, Markup(page)];
    assert pieces[1..] == [Code(flags), CloseTag, Markup(page)];
    assert pieces[1..][1..] == [CloseTag, Markup(page)] && pieces[1..][1..][1..] == [Markup(page)];
    assert [Markup(page)][1..] == [];
    assert Compile([Markup(page)], false) == Output(page + "");
    assert page + "" == page;
    assert Compile([CloseTag, Markup(page)], true) == Output(page);
    assert Compile([Code(flags), CloseTag, Markup(page)], true) == Output(page);
  }
}
