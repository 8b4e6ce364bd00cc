/**
 * The theme script's card filters, as pure predicates over card records.
 * A product card carries the `data-category` and `data-tags` attributes
 * and the text of its name and description; a post card carries
 * `data-category` and the text of its title and excerpt. An attribute or
 * element the card lacks reads as "".
 */
module CardFilter {
  import opened Text

  datatype ProductCard = ProductCard(category: string, tags: string, title: string, description: string)

  datatype PostCard = PostCard(category: string, title: string, excerpt: string)

  /** The search text the filters use: the input's value lower-cased, then
      trimmed; "" when the page has no search input. */
  function SearchText(input: Option<string>): (r: string)
    ensures input.None? ==> r == ""
    ensures r == "" || (!IsJsSpace(r[0]) && !IsJsSpace(r[|r| - 1]))
  {
    if input.None? then "" else JsTrim(Lower(input.value))
  }

  /** The search term is the lower-cased input with the white space at its
      two ends removed, and nothing else removed. */
  lemma SearchTextMeaning(value: string)
    ensures TrimmedFrom(SearchText(Some(value)), Lower(value), IsJsSpace)
    ensures IsLower(SearchText(Some(value)))
  {
    var low := Lower(value);
    TrimMeaning(low, IsJsSpace);
    var r := SearchText(Some(value));
    var i, j :| 0 <= i <= j <= |low| && r == low[i..j];
    forall k | 0 <= k < |r| ensures IsLowerChar(r[k]) {
      assert r[k] == low[i + k];
    }
  }

  /** A search input holding only white space filters nothing out. */
  lemma BlankSearchIsEmpty(value: string)
    requires forall i :: 0 <= i < |value| ==> IsJsSpace(value[i])
    ensures SearchText(Some(value)) == ""
  {
    var low := Lower(value);
    forall i | 0 <= i < |low| ensures IsJsSpace(low[i]) {
      assert low[i] == LowerChar(value[i]);
    }
    TrimAllSpace(low, IsJsSpace);
  }

  /** `(card.dataset.tags || '').split(' ').filter(t => t)`. */
  function CardTags(tags: string): (r: seq<string>)
    ensures forall t :: t in r <==> t != "" && t in Split(tags, ' ')
    ensures forall k :: 0 <= k < |r| ==> r[k] != "" && Free(r[k], ' ')
  {
    var parts := Split(tags, ' ');
    var r := NonEmpty(parts);
    assert forall k :: 0 <= k < |r| ==> r[k] in parts;
    r
  }

  /** Decoding the space-join of non-empty, space-free slugs gives the
      slugs back, in order; no slugs encode as "" and decode as none. */
  lemma CardTagsInvertsJoin(slugs: seq<string>)
    requires forall k :: 0 <= k < |slugs| ==> slugs[k] != "" && Free(slugs[k], ' ')
    ensures CardTags(Join(slugs, ' ')) == slugs
  {
    if slugs == [] {
      assert Split("", ' ') == [""];
    } else {
      SplitJoin(slugs, ' ');
      NonEmptyOfNonEmpty(slugs);
    }
  }

  /** `selectedTags.some(tag => cardTags.includes(tag))`. */
  predicate SomeTagSelected(selected: seq<string>, cardTags: seq<string>) {
    exists t :: t in selected && t in cardTags
  }

  /** The test `filterProducts` applies to one product card. */
  predicate ProductCardVisible(card: ProductCard, cats: seq<string>, tags: seq<string>, query: string) {
    && (|cats| == 0 || card.category in cats)
    && (|tags| == 0 || SomeTagSelected(tags, CardTags(card.tags)))
    && (query == "" || Contains(Lower(card.title), query) || Contains(Lower(card.description), query))
  }

  /** The test `filterPosts` applies to one post card; "" selects every category. */
  predicate PostCardVisible(card: PostCard, category: string, query: string) {
    && (category == "" || card.category == category)
    && (query == "" || Contains(Lower(card.title), query) || Contains(Lower(card.excerpt), query))
  }

  /** With nothing selected and no search every product card shows. */
  lemma NoFilterShowsEveryProduct(card: ProductCard)
    ensures ProductCardVisible(card, [], [], "")
  {
  }

  /** A card is shown iff each of the three tests passes, and a tag test
      passes iff some selected tag is one of the card's non-empty tags. */
  lemma ProductCardVisibleIff(card: ProductCard, cats: seq<string>, tags: seq<string>, query: string)
    requires |tags| > 0
    ensures ProductCardVisible(card, cats, tags, query) ==>
      exists t :: t in tags && t != "" && t in Split(card.tags, ' ')
    ensures (exists t :: t in tags && t != "" && t in Split(card.tags, ' ')) &&
      (|cats| == 0 || card.category in cats) &&
      (query == "" || Contains(Lower(card.title), query) || Contains(Lower(card.description), query))
      ==> ProductCardVisible(card, cats, tags, query)
  {
    if exists t :: t in tags && t != "" && t in Split(card.tags, ' ') {
      var t :| t in tags && t != "" && t in Split(card.tags, ' ');
      assert t in CardTags(card.tags);
    }
  }

  /** The product filter only looks at the first category of a card:
      a card whose first category is unselected stays hidden even if a
      later category it belongs to is selected. */
  lemma OnlyTheFirstCategoryCounts(title: string, description: string)
    ensures !ProductCardVisible(ProductCard("ticketing", "", title, description), ["marketing"], [], "")
  {
    assert "ticketing" != "marketing" by {
      assert "ticketing"[0] != "marketing"[0];
    }
  }

  /** A post card is shown iff no category is chosen or the card's is the
      chosen one, and the query is empty or occurs in the lower-cased
      title or excerpt. */
  lemma PostCardVisibleIff(card: PostCard, category: string, query: string)
    ensures PostCardVisible(card, category, query) <==>
      (category == "" || card.category == category)
      && (query == "" || (exists i :: OccursAt(Lower(card.title), query, i))
                      || (exists i :: OccursAt(Lower(card.excerpt), query, i)))
  {
    ContainsIffOccurs(Lower(card.title), query);
    ContainsIffOccurs(Lower(card.excerpt), query);
    assert PostCardVisible(card, category, query) <==>
      (category == "" || card.category == category)
      && (query == "" || Contains(Lower(card.title), query) || Contains(Lower(card.excerpt), query));
  }

  /** The blog filter with no category and no search shows every post. */
  lemma NoFilterShowsEveryPost(card: PostCard)
    ensures PostCardVisible(card, "", "")
  {
  }

  /** A selected blog category keeps exactly the posts of that category. */
  lemma PostCategoryOnly(card: PostCard, category: string)
    requires category != ""
    ensures PostCardVisible(card, category, "") <==> card.category == category
  {
  }

  /** Number of product cards the filter leaves visible. */
  function CountProducts(cards: seq<ProductCard>, cats: seq<string>, tags: seq<string>, query: string): (n: nat)
    ensures n <= |cards|
  {
    if cards == [] then 0
    else (if ProductCardVisible(cards[0], cats, tags, query) then 1 else 0) + CountProducts(cards[1..], cats, tags, query)
  }

  /** No card is counted iff no card passes the filter. */
  lemma {:induction false} CountProductsZero(cards: seq<ProductCard>, cats: seq<string>, tags: seq<string>, query: string)
    ensures CountProducts(cards, cats, tags, query) == 0 <==> forall i :: 0 <= i < |cards| ==> !ProductCardVisible(cards[i], cats, tags, query)
  {
    if cards != [] {
      CountProductsZero(cards[1..], cats, tags, query);
      assert forall i :: 1 <= i < |cards| ==> cards[i] == cards[1..][i - 1];
    }
  }

  /** Number of post cards the filter leaves visible. */
  function CountPosts(cards: seq<PostCard>, category: string, query: string): (n: nat)
    ensures n <= |cards|
  {
    if cards == [] then 0
    else (if PostCardVisible(cards[0], category, query) then 1 else 0) + CountPosts(cards[1..], category, query)
  }

  /** No card is counted iff no card passes the filter. */
  lemma {:induction false} CountPostsZero(cards: seq<PostCard>, category: string, query: string)
    ensures CountPosts(cards, category, query) == 0 <==> forall i :: 0 <= i < |cards| ==> !PostCardVisible(cards[i], category, query)
  {
    if cards != [] {
      CountPostsZero(cards[1..], category, query);
      assert forall i :: 1 <= i < |cards| ==> cards[i] == cards[1..][i - 1];
    }
  }

  /** Counting a prefix one card further. */
  lemma {:induction false} CountProductsSnoc(cards: seq<ProductCard>, i: nat, cats: seq<string>, tags: seq<string>, query: string)
    requires i < |cards|
    ensures CountProducts(cards[..i + 1], cats, tags, query)
      == CountProducts(cards[..i], cats, tags, query) + (if ProductCardVisible(cards[i], cats, tags, query) then 1 else 0)
    decreases i
  {
    if i > 0 {
      assert cards[..i + 1][1..] == cards[1..][..i];
      assert cards[..i][1..] == cards[1..][..i - 1];
      CountProductsSnoc(cards[1..], i - 1, cats, tags, query);
    }
  }

  lemma {:induction false} CountPostsSnoc(cards: seq<PostCard>, i: nat, category: string, query: string)
    requires i < |cards|
    ensures CountPosts(cards[..i + 1], category, query)
      == CountPosts(cards[..i], category, query) + (if PostCardVisible(cards[i], category, query) then 1 else 0)
    decreases i
  {
    if i > 0 {
      assert cards[..i + 1][1..] == cards[1..][..i];
      assert cards[..i][1..] == cards[1..][..i - 1];
      CountPostsSnoc(cards[1..], i - 1, category, query);
    }
  }

  /** The "no results" element of a grid: not yet created, shown, or hidden. */
  datatype Placeholder = Missing | Displayed | Concealed

  /** `updateNoProductsMessage` / `updateNoPostsMessage`: created on first
      need, shown iff nothing is visible, hidden otherwise once it exists. */
  function NextPlaceholder(current: Placeholder, visibleCount: nat): (r: Placeholder)
    ensures r == Displayed <==> visibleCount == 0
    ensures r == Missing <==> current == Missing && visibleCount > 0
    ensures r != Missing || current == Missing
  {
    if visibleCount == 0 then Displayed
    else if current == Missing then Missing
    else Concealed
  }
}
