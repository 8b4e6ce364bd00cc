/**
 * The two filterable grids of the theme script as objects with the page
 * state they change: the catalog page (category and tag checkboxes, a
 * search input, product cards) and the blog page (a group of category
 * radios, a search input, post cards). Filtering marks each card hidden
 * or not, counts the visible ones, updates the "no results" element and
 * rewrites the URL; the URL decoder restores the inputs from the pairs
 * of the page's query string and re-runs the filter when it restored
 * something.
 */
module ThemePages {
  import opened Text
  import opened CardFilter
  import opened UrlParams

  /** A filter checkbox: its `value` and whether it is checked. */
  datatype Box = Box(value: string, checked: bool)

  /** No two boxes of a group share a value. */
  predicate DistinctValues(boxes: seq<Box>) {
    forall i, j :: 0 <= i < j < |boxes| ==> boxes[i].value != boxes[j].value
  }

  /** `Array.from(querySelectorAll(':checked')).map(cb => cb.value)`. */
  function CheckedValues(boxes: seq<Box>): seq<string> {
    if boxes == [] then []
    else (if boxes[0].checked then [boxes[0].value] else []) + CheckedValues(boxes[1..])
  }

  lemma {:induction false} CheckedValuesMembership(boxes: seq<Box>, v: string)
    ensures v in CheckedValues(boxes) <==> exists j :: 0 <= j < |boxes| && boxes[j] == Box(v, true)
  {
    if boxes != [] {
      CheckedValuesMembership(boxes[1..], v);
      if exists j :: 0 <= j < |boxes[1..]| && boxes[1..][j] == Box(v, true) {
        var j :| 0 <= j < |boxes[1..]| && boxes[1..][j] == Box(v, true);
        assert boxes[j + 1] == Box(v, true);
      }
      if exists j :: 0 <= j < |boxes| && boxes[j] == Box(v, true) {
        var j :| 0 <= j < |boxes| && boxes[j] == Box(v, true);
        if j > 0 {
          assert boxes[1..][j - 1] == Box(v, true);
        }
      }
    }
  }

  /** `querySelector('input[value="v"]')`: the first box with that value. */
  function FirstWithValue(boxes: seq<Box>, v: string): (r: Option<nat>)
    ensures r.None? <==> forall j :: 0 <= j < |boxes| ==> boxes[j].value != v
    ensures r.Some? ==> r.value < |boxes| && boxes[r.value].value == v
                        && forall k :: 0 <= k < r.value ==> boxes[k].value != v
  {
    if boxes == [] then None
    else if boxes[0].value == v then Some(0)
    else
      var r := FirstWithValue(boxes[1..], v);
      if r.None? then None else Some(r.value + 1)
  }

  /** Checks the first box with value `v`; without one nothing changes. */
  function CheckValue(boxes: seq<Box>, v: string): (r: seq<Box>)
    ensures |r| == |boxes|
  {
    match FirstWithValue(boxes, v)
    case None => boxes
    case Some(j) => boxes[j := boxes[j].(checked := true)]
  }

  /** Every box unchecked. */
  function Unchecked(boxes: seq<Box>): (r: seq<Box>)
    ensures |r| == |boxes|
    ensures forall j :: 0 <= j < |r| ==> r[j] == Box(boxes[j].value, false)
  {
    if boxes == [] then [] else [Box(boxes[0].value, false)] + Unchecked(boxes[1..])
  }

  /** The boxes after checking each decoded value in turn. */
  function CheckAll(boxes: seq<Box>, vals: seq<string>): (r: seq<Box>)
    ensures |r| == |boxes|
    decreases |vals|
  {
    if vals == [] then boxes else CheckAll(CheckValue(boxes, vals[0]), vals[1..])
  }

  /** With distinct values, a box ends up checked iff it was checked or its
      value was decoded; values are never changed and unknown values are
      dropped. */
  lemma {:induction false} CheckAllEffect(boxes: seq<Box>, vals: seq<string>)
    requires DistinctValues(boxes)
    ensures var r := CheckAll(boxes, vals);
      forall j :: 0 <= j < |r| ==>
        (r[j].value == boxes[j].value && (r[j].checked <==> boxes[j].checked || boxes[j].value in vals))
    decreases |vals|
  {
    if vals != [] {
      var next := CheckValue(boxes, vals[0]);
      assert forall j :: 0 <= j < |next| ==>
        (next[j].value == boxes[j].value && (next[j].checked <==> boxes[j].checked || boxes[j].value == vals[0]));
      CheckAllEffect(next, vals[1..]);
      assert forall x :: x in vals <==> x == vals[0] || x in vals[1..];
    }
  }

  /** The checked boxes survive a trip through the URL: checking the
      encoded values on the unchecked group restores the group. */
  lemma CheckedRoundTrip(boxes: seq<Box>)
    requires DistinctValues(boxes)
    ensures CheckAll(Unchecked(boxes), CheckedValues(boxes)) == boxes
  {
    var u := Unchecked(boxes);
    var r := CheckAll(u, CheckedValues(boxes));
    CheckAllEffect(u, CheckedValues(boxes));
    forall j | 0 <= j < |boxes| ensures r[j] == boxes[j] {
      CheckedValuesMembership(boxes, boxes[j].value);
    }
  }

  /** A value that reads back as itself between the double quotes of the
      attribute selector `[value="…"]`: no quote, no backslash and no line
      break. Any other value is taken to make `querySelector` throw. */
  predicate SelectorSafe(v: string) {
    forall k :: 0 <= k < |v| ==>
      v[k] != '"' && v[k] != '\\' && v[k] != '\n' && v[k] != '\r' && v[k] != '\U{000C}'
  }

  predicate AllSelectorSafe(vals: seq<string>) {
    forall k :: 0 <= k < |vals| ==> SelectorSafe(vals[k])
  }

  /** The boxes a `forEach` of selector lookups leaves, and whether a lookup
      threw before the values ran out. */
  datatype Applied = Applied(boxes: seq<Box>, threw: bool)

  /** The `forEach` as written: each value is looked up through a selector
      built from the raw value, and the first value that breaks the
      selector stops the loop with the boxes checked so far. */
  function CheckAllAsWritten(boxes: seq<Box>, vals: seq<string>): (r: Applied)
    ensures |r.boxes| == |boxes|
    decreases |vals|
  {
    if vals == [] then Applied(boxes, false)
    else if !SelectorSafe(vals[0]) then Applied(boxes, true)
    else CheckAllAsWritten(CheckValue(boxes, vals[0]), vals[1..])
  }

  /** The number of leading values that are safe in a selector. */
  function SafePrefix(vals: seq<string>): (n: nat)
    ensures n <= |vals|
    ensures forall k :: 0 <= k < n ==> SelectorSafe(vals[k])
    ensures n < |vals| ==> !SelectorSafe(vals[n])
  {
    if vals == [] || !SelectorSafe(vals[0]) then 0 else 1 + SafePrefix(vals[1..])
  }

  /** The loop as written checks exactly the values before the first unsafe
      one and throws iff there is one; with only safe values it does what
      the exact lookup does. */
  lemma {:induction false} CheckAllAsWrittenMeaning(boxes: seq<Box>, vals: seq<string>)
    ensures CheckAllAsWritten(boxes, vals)
            == Applied(CheckAll(boxes, vals[..SafePrefix(vals)]), SafePrefix(vals) < |vals|)
    ensures CheckAllAsWritten(boxes, vals).threw <==> !AllSelectorSafe(vals)
    ensures AllSelectorSafe(vals) ==> CheckAllAsWritten(boxes, vals).boxes == CheckAll(boxes, vals)
    decreases |vals|
  {
    var n := SafePrefix(vals);
    if vals != [] && SelectorSafe(vals[0]) {
      CheckAllAsWrittenMeaning(CheckValue(boxes, vals[0]), vals[1..]);
      assert vals[..n][0] == vals[0] && vals[..n][1..] == vals[1..][..n - 1];
    }
    if AllSelectorSafe(vals) {
      assert vals[..n] == vals;
    }
  }

  /** A quote in an earlier value keeps a later, known value from being
      checked, where the exact lookup checks it. */
  lemma QuoteStopsLaterValues()
    ensures CheckAllAsWritten([Box("b", false)], ["x\"y", "b"]) == Applied([Box("b", false)], true)
    ensures CheckAll([Box("b", false)], ["x\"y", "b"]) == [Box("b", true)]
  {
    assert !SelectorSafe("x\"y") by {
      assert "x\"y"[1] == '"';
    }
    assert "x\"y" != "b" by {
      assert "x\"y"[0] != "b"[0];
    }
    assert CheckValue([Box("b", false)], "x\"y") == [Box("b", false)];
  }

  /** The search input's value as `updateUrlState` reads it before trimming. */
  function InputText(input: Option<string>): string {
    if input.None? then "" else input.value
  }

  /** The `hidden` flag of each product card for a selection: set iff the
      card fails the filter. */
  function HiddenProducts(cards: seq<ProductCard>, cats: seq<string>, tags: seq<string>, query: string)
    : (flags: seq<bool>)
    ensures |flags| == |cards|
    ensures forall k :: 0 <= k < |cards| ==> flags[k] == !ProductCardVisible(cards[k], cats, tags, query)
  {
    seq(|cards|, k requires 0 <= k < |cards| => !ProductCardVisible(cards[k], cats, tags, query))
  }

  /** The `hidden` flag of each post card for a selection. */
  function HiddenPosts(cards: seq<PostCard>, category: string, query: string): (flags: seq<bool>)
    ensures |flags| == |cards|
    ensures forall k :: 0 <= k < |cards| ==> flags[k] == !PostCardVisible(cards[k], category, query)
  {
    seq(|cards|, k requires 0 <= k < |cards| => !PostCardVisible(cards[k], category, query))
  }

  /** The `forEach` of `filterProducts`: the `hidden` flag of each card and
      the number of cards left visible. */
  method MarkProductCards(cards: seq<ProductCard>, cats: seq<string>, tags: seq<string>, query: string)
    returns (flags: seq<bool>, visibleCount: nat)
    ensures flags == HiddenProducts(cards, cats, tags, query)
    ensures visibleCount == CountProducts(cards, cats, tags, query)
  {
    flags := seq(|cards|, _ => false);
    visibleCount := 0;
    var i := 0;
    while i < |cards|
      invariant 0 <= i <= |cards| && |flags| == |cards|
      invariant forall k :: 0 <= k < i ==> flags[k] == !ProductCardVisible(cards[k], cats, tags, query)
      invariant visibleCount == CountProducts(cards[..i], cats, tags, query)
    {
      var visible := ProductCardVisible(cards[i], cats, tags, query);
      flags := flags[i := !visible];
      CountProductsSnoc(cards, i, cats, tags, query);
      if visible {
        visibleCount := visibleCount + 1;
      }
      i := i + 1;
    }
    assert cards[..|cards|] == cards;
  }

  /** The `forEach` of `filterPosts`. */
  method MarkPostCards(cards: seq<PostCard>, category: string, query: string)
    returns (flags: seq<bool>, visibleCount: nat)
    ensures flags == HiddenPosts(cards, category, query)
    ensures visibleCount == CountPosts(cards, category, query)
  {
    flags := seq(|cards|, _ => false);
    visibleCount := 0;
    var i := 0;
    while i < |cards|
      invariant 0 <= i <= |cards| && |flags| == |cards|
      invariant forall k :: 0 <= k < i ==> flags[k] == !PostCardVisible(cards[k], category, query)
      invariant visibleCount == CountPosts(cards[..i], category, query)
    {
      var visible := PostCardVisible(cards[i], category, query);
      flags := flags[i := !visible];
      CountPostsSnoc(cards, i, category, query);
      if visible {
        visibleCount := visibleCount + 1;
      }
      i := i + 1;
    }
    assert cards[..|cards|] == cards;
  }

  /** The catalog page: the checkboxes, the search input, the product
      cards and what filtering changes about them. */
  class CatalogPage {
    const pathname: string
    const cards: seq<ProductCard>
    var categoryBoxes: seq<Box>
    var tagBoxes: seq<Box>
    var searchInput: Option<string>
    var hidden: seq<bool>
    var placeholder: Placeholder
    var url: string

    /** One `hidden` flag per card. */
    predicate Valid()
      reads this
    {
      |hidden| == |cards|
    }

    /** The page as the server renders it: every card visible, and the
        "no products" message in the grid exactly when there is no card. */
    constructor (pathname: string, cards: seq<ProductCard>, categoryBoxes: seq<Box>, tagBoxes: seq<Box>,
                 searchInput: Option<string>, url: string)
      ensures Valid()
      ensures this.pathname == pathname && this.cards == cards && this.categoryBoxes == categoryBoxes
      ensures this.tagBoxes == tagBoxes && this.searchInput == searchInput && this.url == url
      ensures forall i :: 0 <= i < |hidden| ==> !hidden[i]
      ensures placeholder == (if cards == [] then Displayed else Missing)
    {
      this.pathname := pathname;
      this.cards := cards;
      this.categoryBoxes := categoryBoxes;
      this.tagBoxes := tagBoxes;
      this.searchInput := searchInput;
      this.url := url;
      hidden := seq(|cards|, _ => false);
      placeholder := if cards == [] then Displayed else Missing;
    }

    /** What the address bar should hold for the current inputs. */
    function StateUrl(): string
      reads this`categoryBoxes, this`tagBoxes, this`searchInput
    {
      RenderUrl(pathname, ProductParams(CheckedValues(categoryBoxes), CheckedValues(tagBoxes), InputText(searchInput)))
    }

    /** The cards are marked as the current inputs select them. */
    predicate ShowsSelection()
      reads this`hidden, this`categoryBoxes, this`tagBoxes, this`searchInput
    {
      hidden == HiddenProducts(cards, CheckedValues(categoryBoxes), CheckedValues(tagBoxes), SearchText(searchInput))
    }

    /** `updateUrlState`: the pairs are appended in place, then written. */
    method UpdateUrlState()
      modifies this`url
      ensures url == StateUrl()
    {
      var cats, tags := CheckedValues(categoryBoxes), CheckedValues(tagBoxes);
      var search := JsTrim(InputText(searchInput));
      var params: Pairs := [];
      params := AppendAll(params, "categories", cats);
      assert params == KeyPairs("categories", cats);
      params := AppendAll(params, "tags", tags);
      assert params == KeyPairs("categories", cats) + KeyPairs("tags", tags);
      if search != "" {
        params := params + [("search", search)];
      }
      assert params == KeyPairs("categories", cats) + KeyPairs("tags", tags) + Optional("search", search);
      url := RenderUrl(pathname, params);
    }

    /** `filterProducts`: marks every card, counts the visible ones, updates
        the "no products" element and the URL. */
    method FilterProducts() returns (visibleCount: nat)
      requires Valid()
      modifies this`hidden, this`placeholder, this`url
      ensures ShowsSelection()
      ensures visibleCount == CountProducts(cards, CheckedValues(categoryBoxes), CheckedValues(tagBoxes),
                                            SearchText(searchInput))
      ensures placeholder == NextPlaceholder(old(placeholder), visibleCount)
      ensures url == StateUrl()
      ensures categoryBoxes == old(categoryBoxes) && tagBoxes == old(tagBoxes) && searchInput == old(searchInput)
    {
      var cats, tags, query := CheckedValues(categoryBoxes), CheckedValues(tagBoxes), SearchText(searchInput);
      var flags;
      flags, visibleCount := MarkProductCards(cards, cats, tags, query);
      hidden := flags;
      placeholder := NextPlaceholder(placeholder, visibleCount);
      UpdateUrlState();
    }

    /** `initUrlState` on the catalog page, given the pairs of the page's
        query string. The search is restored first; a category or tag that
        breaks its selector throws out of the function, leaving the boxes
        checked so far and running no filter. Returns whether it re-ran the
        filter and whether it threw. */
    method InitUrlState(params: Pairs) returns (filtered: bool, threw: bool)
      requires Valid()
      modifies this
      ensures Get(params, "search").Some? && Get(params, "search").value != "" && old(searchInput).Some?
              ==> searchInput == Get(params, "search")
      ensures !(Get(params, "search").Some? && Get(params, "search").value != "") || old(searchInput).None?
              ==> searchInput == old(searchInput)
      ensures categoryBoxes == CheckAllAsWritten(old(categoryBoxes), GetAll(params, "categories")).boxes
      ensures !AllSelectorSafe(GetAll(params, "categories")) ==> tagBoxes == old(tagBoxes)
      ensures AllSelectorSafe(GetAll(params, "categories"))
              ==> tagBoxes == CheckAllAsWritten(old(tagBoxes), GetAll(params, "tags")).boxes
      ensures threw <==> !AllSelectorSafe(GetAll(params, "categories")) || !AllSelectorSafe(GetAll(params, "tags"))
      ensures filtered <==> !threw && (|GetAll(params, "categories")| > 0 || |GetAll(params, "tags")| > 0
                                       || (Get(params, "search").Some? && Get(params, "search").value != ""))
      ensures filtered ==> ShowsSelection() && url == StateUrl()
      ensures !filtered ==> hidden == old(hidden) && placeholder == old(placeholder) && url == old(url)
      ensures Valid()
    {
      filtered := false;
      var urlSearch := Get(params, "search");
      if urlSearch.Some? && urlSearch.value != "" && searchInput.Some? {
        searchInput := urlSearch;
      }
      var urlCategories := GetAll(params, "categories");
      threw := ApplyUrlValues(true, urlCategories);
      if threw {
        return;
      }
      var urlTags := GetAll(params, "tags");
      threw := ApplyUrlValues(false, urlTags);
      if threw {
        return;
      }
      filtered := |urlCategories| > 0 || |urlTags| > 0 || (urlSearch.Some? && urlSearch.value != "");
      if filtered {
        var _ := FilterProducts();
      }
    }

    /** The `forEach` over decoded values that checks the matching box of
        the category group (`categories`) or the tag group, stopping at
        the first value that breaks the selector. */
    method ApplyUrlValues(categories: bool, vals: seq<string>) returns (threw: bool)
      modifies this`categoryBoxes, this`tagBoxes
      ensures categories ==> Applied(categoryBoxes, threw) == CheckAllAsWritten(old(categoryBoxes), vals)
                             && tagBoxes == old(tagBoxes)
      ensures !categories ==> Applied(tagBoxes, threw) == CheckAllAsWritten(old(tagBoxes), vals)
                              && categoryBoxes == old(categoryBoxes)
      ensures threw <==> !AllSelectorSafe(vals)
    {
      var orig := if categories then categoryBoxes else tagBoxes;
      var boxes := orig;
      threw := false;
      var i := 0;
      while i < |vals|
        invariant 0 <= i <= |vals|
        invariant CheckAllAsWritten(boxes, vals[i..]) == CheckAllAsWritten(orig, vals)
      {
        assert vals[i..][0] == vals[i] && vals[i..][1..] == vals[i + 1..];
        if !SelectorSafe(vals[i]) {
          threw := true;
          break;
        }
        var found := FirstWithValue(boxes, vals[i]);
        if found.Some? {
          boxes := boxes[found.value := boxes[found.value].(checked := true)];
        }
        i := i + 1;
      }
      assert !threw ==> vals[i..] == [];
      CheckAllAsWrittenMeaning(orig, vals);
      if categories {
        categoryBoxes := boxes;
      } else {
        tagBoxes := boxes;
      }
    }
  }

  /** The value `querySelector('input[name="category"]:checked')?.value || ''`
      gives for a radio group whose checked radio is `checked`. */
  function SelectedRadio(radios: seq<string>, checked: Option<nat>): string {
    if checked.Some? && checked.value < |radios| then radios[checked.value] else ""
  }

  /** `querySelector('input[value="v"]')` on the radio values. */
  function FirstRadio(radios: seq<string>, v: string): (r: Option<nat>)
    ensures r.None? <==> v !in radios
    ensures r.Some? ==> r.value < |radios| && radios[r.value] == v && v !in radios[..r.value]
  {
    if radios == [] then None
    else if radios[0] == v then Some(0)
    else
      var r := FirstRadio(radios[1..], v);
      if r.None? then None
      else
        assert radios[..r.value + 1] == [radios[0]] + radios[1..][..r.value];
        Some(r.value + 1)
  }

  /** The blog archive: a radio group of categories, the search input, the
      post cards and what filtering changes about them. */
  class BlogPage {
    const pathname: string
    const cards: seq<PostCard>
    const radios: seq<string>
    var checked: Option<nat>
    var searchInput: Option<string>
    var hidden: seq<bool>
    var placeholder: Placeholder
    var url: string

    predicate Valid()
      reads this
    {
      |hidden| == |cards| && (checked.Some? ==> checked.value < |radios|)
    }

    constructor (pathname: string, cards: seq<PostCard>, radios: seq<string>, checked: Option<nat>,
                 searchInput: Option<string>, url: string)
      requires checked.Some? ==> checked.value < |radios|
      ensures Valid()
      ensures this.pathname == pathname && this.cards == cards && this.radios == radios
      ensures this.checked == checked && this.searchInput == searchInput && this.url == url
      ensures forall i :: 0 <= i < |hidden| ==> !hidden[i]
      ensures placeholder == (if cards == [] then Displayed else Missing)
    {
      this.pathname := pathname;
      this.cards := cards;
      this.radios := radios;
      this.checked := checked;
      this.searchInput := searchInput;
      this.url := url;
      hidden := seq(|cards|, _ => false);
      placeholder := if cards == [] then Displayed else Missing;
    }

    function SelectedCategory(): string
      reads this`checked
    {
      SelectedRadio(radios, checked)
    }

    function StateUrl(): string
      reads this`checked, this`searchInput
    {
      RenderUrl(pathname, BlogParams(SelectedCategory(), InputText(searchInput)))
    }

    predicate ShowsSelection()
      reads this`hidden, this`checked, this`searchInput
    {
      hidden == HiddenPosts(cards, SelectedCategory(), SearchText(searchInput))
    }

    /** `updateBlogUrlState`. */
    method UpdateBlogUrlState()
      modifies this`url
      ensures url == StateUrl()
    {
      var params: Pairs := [];
      var category := SelectedCategory();
      if category != "" {
        params := params + [("category", category)];
      }
      var search := JsTrim(InputText(searchInput));
      if search != "" {
        params := params + [("search", search)];
      }
      url := RenderUrl(pathname, params);
    }

    /** `filterPosts`. */
    method FilterPosts() returns (visibleCount: nat)
      requires Valid()
      modifies this`hidden, this`placeholder, this`url
      ensures ShowsSelection()
      ensures visibleCount == CountPosts(cards, SelectedCategory(), SearchText(searchInput))
      ensures placeholder == NextPlaceholder(old(placeholder), visibleCount)
      ensures url == StateUrl()
      ensures checked == old(checked) && searchInput == old(searchInput)
    {
      var category, query := SelectedCategory(), SearchText(searchInput);
      var flags;
      flags, visibleCount := MarkPostCards(cards, category, query);
      hidden := flags;
      placeholder := NextPlaceholder(placeholder, visibleCount);
      UpdateBlogUrlState();
    }

    /** `initUrlState` on the blog page. The search is restored first; a
        category that breaks its selector throws, leaving the radios as
        they were and running no filter. */
    method InitUrlState(params: Pairs) returns (filtered: bool, threw: bool)
      requires Valid()
      modifies this
      ensures var c := Get(params, "category");
        threw <==> c.Some? && c.value != "" && !SelectorSafe(c.value)
      ensures var c := Get(params, "category");
        c.Some? && c.value != "" && SelectorSafe(c.value) && c.value in radios ==> checked == FirstRadio(radios, c.value)
      ensures var c := Get(params, "category");
        !(c.Some? && c.value != "" && SelectorSafe(c.value) && c.value in radios) ==> checked == old(checked)
      ensures Get(params, "search").Some? && Get(params, "search").value != "" && old(searchInput).Some?
              ==> searchInput == Get(params, "search")
      ensures !(Get(params, "search").Some? && Get(params, "search").value != "") || old(searchInput).None?
              ==> searchInput == old(searchInput)
      ensures filtered <==> !threw && ((Get(params, "category").Some? && Get(params, "category").value != "")
                                       || (Get(params, "search").Some? && Get(params, "search").value != ""))
      ensures filtered ==> ShowsSelection() && url == StateUrl()
      ensures !filtered ==> hidden == old(hidden) && placeholder == old(placeholder) && url == old(url)
      ensures Valid()
    {
      filtered, threw := false, false;
      var urlSearch := Get(params, "search");
      if urlSearch.Some? && urlSearch.value != "" && searchInput.Some? {
        searchInput := urlSearch;
      }
      var urlCategory := Get(params, "category");
      if urlCategory.Some? && urlCategory.value != "" {
        if !SelectorSafe(urlCategory.value) {
          threw := true;
          return;
        }
        var radio := FirstRadio(radios, urlCategory.value);
        if radio.Some? {
          checked := radio;
        }
      }
      filtered := (urlCategory.Some? && urlCategory.value != "") || (urlSearch.Some? && urlSearch.value != "");
      if filtered {
        var _ := FilterPosts();
      }
    }
  }

  /** A non-empty blog category survives the URL: decoding what the blog
      page writes checks the radio of the category that was selected. */
  lemma BlogCategoryRoundTrip(radios: seq<string>, j: nat, search: string)
    requires j < |radios| && radios[j] != "" && radios[j] !in radios[..j]
    ensures FirstRadio(radios, Get(BlogParams(radios[j], search), "category").value) == Some(j)
  {
    BlogParamsDecode(radios[j], search);
  }
}
