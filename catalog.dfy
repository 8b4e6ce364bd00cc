/**
 * The client catalog's data module: the sample tables of categories,
 * platforms, features and products, the slug and category look-ups, and
 * the product filter the catalog page applies (search AND category AND
 * platform AND feature, each selection OR-ed within its dimension).
 */
module Catalog {
  import opened Text

  /** A category of the sample table. */
  datatype Category = Category(id: string, name: string, color: string)

  /** A platform or feature of the sample tables. */
  datatype Facet = Facet(id: string, name: string)

  /** A product record, restricted to the fields the look-ups and the
      filter read or that identify it; display-only fields such as the
      short description are left out. */
  datatype Product = Product(
    id: nat,
    name: string,
    slug: string,
    category: string,
    description: string,
    platforms: seq<string>,
    features: seq<string>)

  const Categories: seq<Category> := [
    Category("ticketing", "Ticketing", "#4F7DF3"),
    Category("marketing", "Marketing", "#FF6B6B"),
    Category("analytics", "Analytics", "#4ECDC4"),
    Category("booking", "Booking", "#A855F7"),
    Category("admin", "Admin", "#F59E0B"),
    Category("websites", "Websites", "#10B981")
  ]

  const Platforms: seq<Facet> := [
    Facet("web", "Web"), Facet("ios", "iOS"), Facet("android", "Android")
  ]

  const Features: seq<Facet> := [
    Facet("ai-powered", "AI-Powered"), Facet("automation", "Automation"),
    Facet("reporting", "Reporting"), Facet("integrations", "Integrations"),
    Facet("realtime", "Real-time"), Facet("collaboration", "Collaboration")
  ]

  const P1: Product := Product(1, "Prekindle", "prekindle", "ticketing",
    "All-in-one ticketing platform for casual event creators and professional planners.",
    ["web", "ios", "android"], ["automation", "reporting", "integrations"])
  const P2: Product := Product(2, "Sparrow", "sparrow", "marketing",
    "Powerful marketing automation platform designed for concert promoters and event organizers.",
    ["web", "ios"], ["ai-powered", "automation", "integrations"])
  const P3: Product := Product(3, "Booking", "booking", "ticketing",
    "Streamlined booking management for venues and talent agencies.",
    ["web", "ios", "android"], ["realtime", "collaboration", "integrations"])
  const P4: Product := Product(4, "Flnment", "flnment", "marketing",
    "Strategic marketing intelligence platform for music industry professionals.",
    ["web"], ["ai-powered", "reporting", "realtime"])
  const P5: Product := Product(5, "Booktine", "booktine", "ticketing",
    "Booking tickets and manage prices and iterative apps for live events.",
    ["web", "ios"], ["automation", "integrations"])
  const P6: Product := Product(6, "Flankist", "flankist", "marketing",
    "Concert document to share baronela nirernorfor apps.",
    ["web", "android"], ["collaboration", "realtime"])
  const P7: Product := Product(7, "Charier", "charier", "ticketing",
    "finanx active marketing and oommanle analytea ermin.",
    ["web", "ios"], ["ai-powered", "automation", "reporting"])
  const P8: Product := Product(8, "Websites", "websites", "marketing",
    "Build stunning websites for your concerts and events with our drag-and-drop builder.",
    ["web"], ["automation", "integrations", "collaboration"])
  const P9: Product := Product(9, "Analytix", "analytix", "analytics",
    "Comprehensive analytics dashboard for tracking event performance and audience insights.",
    ["web", "ios", "android"], ["ai-powered", "reporting", "realtime"])
  const P10: Product := Product(10, "VenueHub", "venuehub", "booking",
    "Venue management and booking coordination for concert halls and event spaces.",
    ["web", "ios"], ["realtime", "collaboration", "integrations"])
  const P11: Product := Product(11, "AdminPanel", "adminpanel", "admin",
    "Centralized administration dashboard for managing all your concert tech stack.",
    ["web"], ["automation", "reporting", "collaboration"])
  const P12: Product := Product(12, "SiteBuilder", "sitebuilder", "websites",
    "Modern website builder specifically designed for music events and festivals.",
    ["web"], ["ai-powered", "automation", "integrations"])
  const Products: seq<Product> := [P1, P2, P3, P4, P5, P6, P7, P8, P9, P10, P11, P12]

  // ---------------------------------------------------------------
  // Order-preserving selection
  // ---------------------------------------------------------------

  /** `a` is `b` with some elements left out and none moved. */
  predicate IsSubsequence<T(==)>(a: seq<T>, b: seq<T>)
    decreases |b|
  {
    a == [] || (b != [] && ((a[0] == b[0] && IsSubsequence(a[1..], b[1..])) || IsSubsequence(a, b[1..])))
  }

  lemma {:induction false} SubsequenceOfSelf<T>(a: seq<T>)
    ensures IsSubsequence(a, a)
  {
    if a != [] {
      SubsequenceOfSelf(a[1..]);
    }
  }

  // ---------------------------------------------------------------
  // Look-ups
  // ---------------------------------------------------------------

  /** `products.find(p => p.slug === slug)` over `items`. */
  function FindBySlug(items: seq<Product>, slug: string): (r: Option<Product>)
    ensures r.None? <==> forall i :: 0 <= i < |items| ==> items[i].slug != slug
    ensures r.Some? ==> exists i :: 0 <= i < |items| && items[i] == r.value && r.value.slug == slug
                                     && forall j :: 0 <= j < i ==> items[j].slug != slug
  {
    if items == [] then None
    else if items[0].slug == slug then Some(items[0])
    else
      var r := FindBySlug(items[1..], slug);
      if r.Some? then
        var i :| 0 <= i < |items[1..]| && items[1..][i] == r.value && r.value.slug == slug
                 && forall j :: 0 <= j < i ==> items[1..][j].slug != slug;
        assert items[i + 1] == r.value;
        r
      else r
  }

  /** `getProductBySlug(slug)`: undefined iff no product has the slug. */
  function GetProductBySlug(slug: string): (r: Option<Product>)
    ensures r.None? <==> forall i :: 0 <= i < |Products| ==> Products[i].slug != slug
    ensures r.Some? ==> r.value in Products && r.value.slug == slug
  {
    FindBySlug(Products, slug)
  }

  /** Keeps the items of category `c`, in order. */
  function WithCategory(items: seq<Product>, c: string): (r: seq<Product>)
    ensures forall p :: p in r <==> p in items && p.category == c
    ensures IsSubsequence(r, items)
  {
    if items == [] then []
    else if items[0].category == c then [items[0]] + WithCategory(items[1..], c)
    else WithCategory(items[1..], c)
  }

  /** `getProductsByCategory(categoryId)`: all products for a falsy id
      (absent or ""), else the products of that category. */
  function GetProductsByCategory(categoryId: Option<string>): (r: seq<Product>)
    ensures categoryId.None? || categoryId.value == "" ==> r == Products
    ensures categoryId.Some? && categoryId.value != "" ==>
      forall p :: p in r <==> p in Products && p.category == categoryId.value
  {
    if categoryId.None? || categoryId.value == "" then Products
    else WithCategory(Products, categoryId.value)
  }

  // ---------------------------------------------------------------
  // The filter
  // ---------------------------------------------------------------

  /** The argument object of `filterProducts`; an absent property is None. */
  datatype Query = Query(
    search: Option<string>,
    categories: Option<seq<string>>,
    platforms: Option<seq<string>>,
    features: Option<seq<string>>)

  const NoFilter := Query(None, None, None, None)

  /** A selection takes part only when it is present and non-empty. */
  predicate Active(sel: Option<seq<string>>) {
    sel.Some? && |sel.value| > 0
  }

  /** The search text takes part only when it is truthy (present, not ""). */
  predicate Searching(search: Option<string>) {
    search.Some? && search.value != ""
  }

  /** The query, lower-cased but not trimmed, is a substring of the
      lower-cased name, description or category id. */
  predicate SearchMatches(p: Product, search: string) {
    var q := Lower(search);
    Contains(Lower(p.name), q) || Contains(Lower(p.description), q) || Contains(Lower(p.category), q)
  }

  /** Some selected value is among the product's values. */
  predicate AnySelected(selected: seq<string>, values: seq<string>) {
    exists x :: x in selected && x in values
  }

  /** The per-product test of `filterProducts`. */
  predicate Matches(p: Product, q: Query) {
    && (!Searching(q.search) || SearchMatches(p, q.search.value))
    && (!Active(q.categories) || p.category in q.categories.value)
    && (!Active(q.platforms) || AnySelected(q.platforms.value, p.platforms))
    && (!Active(q.features) || AnySelected(q.features.value, p.features))
  }

  /** `items.filter(product => Matches(product, q))`. */
  function Filter(items: seq<Product>, q: Query): seq<Product> {
    if items == [] then []
    else if Matches(items[0], q) then [items[0]] + Filter(items[1..], q)
    else Filter(items[1..], q)
  }

  /** A product is in the result iff it is an input that passes the test. */
  lemma {:induction false} FilterMembership(items: seq<Product>, q: Query)
    ensures forall p :: p in Filter(items, q) <==> p in items && Matches(p, q)
  {
    if items != [] {
      FilterMembership(items[1..], q);
      assert items == [items[0]] + items[1..];
    }
  }

  /** Every product of the result passes the test. */
  lemma {:induction false} FilterAllMatch(items: seq<Product>, q: Query)
    ensures forall k :: 0 <= k < |Filter(items, q)| ==> Matches(Filter(items, q)[k], q)
  {
    if items != [] {
      FilterAllMatch(items[1..], q);
    }
  }

  /** The result keeps the input order: no reordering, no duplication. */
  lemma {:induction false} FilterIsSubsequence(items: seq<Product>, q: Query)
    ensures IsSubsequence(Filter(items, q), items)
    ensures |Filter(items, q)| <= |items|
  {
    if items != [] {
      FilterIsSubsequence(items[1..], q);
      var r := Filter(items, q);
      if Matches(items[0], q) {
        assert r[0] == items[0] && r[1..] == Filter(items[1..], q);
      }
    }
  }

  /** `filterProducts(query)` over the sample table: the products that
      pass the test. */
  function FilterProducts(q: Query): (r: seq<Product>)
    ensures forall p {:trigger p in r} :: p in r <==> p in Products && Matches(p, q)
  {
    FilterMembership(Products, q);
    Filter(Products, q)
  }

  // ---------------------------------------------------------------
  // Properties of the filter
  // ---------------------------------------------------------------

  /** With nothing truthy to filter on, every item is kept in order. */
  lemma {:induction false} InactiveQueryKeepsAll(items: seq<Product>, q: Query)
    requires !Searching(q.search) && !Active(q.categories) && !Active(q.platforms) && !Active(q.features)
    ensures Filter(items, q) == items
  {
    if items != [] {
      InactiveQueryKeepsAll(items[1..], q);
      assert [items[0]] + items[1..] == items;
    }
  }

  lemma EmptyQueryKeepsAll()
    ensures FilterProducts(NoFilter) == Products
    ensures FilterProducts(Query(Some(""), Some([]), Some([]), Some([]))) == Products
  {
    InactiveQueryKeepsAll(Products, NoFilter);
    InactiveQueryKeepsAll(Products, Query(Some(""), Some([]), Some([]), Some([])));
  }

  /** Filtering twice with the same query changes nothing more. */
  lemma {:induction false} FilterIdempotent(items: seq<Product>, q: Query)
    ensures Filter(Filter(items, q), q) == Filter(items, q)
  {
    if items != [] {
      FilterIdempotent(items[1..], q);
    }
  }

  /** Without duplicate ids in the input, the result has none either. */
  lemma {:induction false} FilterKeepsIdsDistinct(items: seq<Product>, q: Query)
    requires forall i, j :: 0 <= i < j < |items| ==> items[i].id != items[j].id
    ensures forall i, j :: 0 <= i < j < |Filter(items, q)| ==> Filter(items, q)[i].id != Filter(items, q)[j].id
  {
    if items != [] {
      FilterKeepsIdsDistinct(items[1..], q);
      var r := Filter(items, q);
      if Matches(items[0], q) {
        var rest := Filter(items[1..], q);
        assert r == [items[0]] + rest;
        FilterMembership(items[1..], q);
        forall j | 0 < j < |r| ensures r[0].id != r[j].id {
          assert r[j] in rest;
          assert r[j] in items[1..];
          var k :| 0 <= k < |items[1..]| && items[1..][k] == r[j];
          assert items[k + 1] == r[j];
        }
      }
    }
  }

  /** A truthy search keeps exactly the products whose lower-cased name,
      description or category id contains the lower-cased (untrimmed) query;
      the short description is not searched. */
  lemma SearchOnly(p: Product, s: string)
    requires s != ""
    ensures Matches(p, Query(Some(s), None, None, None)) <==>
      (Contains(Lower(p.name), Lower(s)) || Contains(Lower(p.description), Lower(s))
       || Contains(Lower(p.category), Lower(s)))
  {
  }

  /** A search differing only in ASCII letter case matches the same products. */
  lemma SearchIgnoresCase(p: Product, s: string)
    requires s != ""
    ensures Matches(p, Query(Some(s), None, None, None)) <==> Matches(p, Query(Some(Lower(s)), None, None, None))
  {
    LowerOfLower(Lower(s));
  }

  /** A non-empty category selection keeps exactly the products of a selected category. */
  lemma CategoryOnly(p: Product, cats: seq<string>)
    requires |cats| > 0
    ensures Matches(p, Query(None, Some(cats), None, None)) <==> p.category in cats
  {
  }

  /** The result is the conjunction of the active dimensions, each an OR within itself. */
  lemma MatchesIsConjunction(p: Product, q: Query)
    ensures Matches(p, q) <==>
      Matches(p, Query(q.search, None, None, None))
      && Matches(p, Query(None, q.categories, None, None))
      && Matches(p, Query(None, None, q.platforms, None))
      && Matches(p, Query(None, None, None, q.features))
  {
  }

  /** Within the platform dimension selections are OR-ed: widening a
      non-empty platform selection never loses a product. */
  lemma PlatformsOrWithin(p: Product, q: Query, extra: string)
    requires Active(q.platforms)
    ensures Matches(p, q) ==> Matches(p, q.(platforms := Some(q.platforms.value + [extra])))
  {
    if Matches(p, q) {
      var x :| x in q.platforms.value && x in p.platforms;
      assert x in q.platforms.value + [extra];
    }
  }

  /** The same for features. */
  lemma FeaturesOrWithin(p: Product, q: Query, extra: string)
    requires Active(q.features)
    ensures Matches(p, q) ==> Matches(p, q.(features := Some(q.features.value + [extra])))
  {
    if Matches(p, q) {
      var x :| x in q.features.value && x in p.features;
      assert x in q.features.value + [extra];
    }
  }

  /** A product with no platforms never passes a non-empty platform selection. */
  lemma NoPlatformsNeverMatch(p: Product, q: Query)
    requires Active(q.platforms) && p.platforms == []
    ensures !Matches(p, q)
  {
  }

  // ---------------------------------------------------------------
  // Look-up properties
  // ---------------------------------------------------------------

  /** The sample table's ids and slugs are unique. */
  lemma TableKeysUnique()
    ensures forall i, j :: 0 <= i < j < |Products| ==> Products[i].id != Products[j].id
    ensures forall i, j :: 0 <= i < j < |Products| ==> Products[i].slug != Products[j].slug
  {
  }

  /** Every product of the table is found by its own slug. */
  lemma SlugFindsItsProduct(i: nat)
    requires i < |Products|
    ensures GetProductBySlug(Products[i].slug) == Some(Products[i])
  {
    TableKeysUnique();
    var r := GetProductBySlug(Products[i].slug);
    var k :| 0 <= k < |Products| && Products[k] == r.value && r.value.slug == Products[i].slug
             && forall j :: 0 <= j < k ==> Products[j].slug != Products[i].slug;
    assert k == i;
  }

  /** An unknown slug gives undefined. */
  lemma UnknownSlug(slug: string)
    requires forall i :: 0 <= i < |Products| ==> Products[i].slug != slug
    ensures GetProductBySlug(slug) == None
  {
  }

  /** A category look-up with an id is the filter with that one category selected. */
  lemma {:induction false} WithCategoryIsFilter(items: seq<Product>, c: string)
    ensures WithCategory(items, c) == Filter(items, Query(None, Some([c]), None, None))
  {
    if items != [] {
      WithCategoryIsFilter(items[1..], c);
    }
  }

  lemma ByCategoryProperties(categoryId: Option<string>)
    ensures categoryId.None? || categoryId == Some("") ==> GetProductsByCategory(categoryId) == Products
    ensures categoryId.Some? && categoryId.value != "" ==>
      GetProductsByCategory(categoryId) == FilterProducts(Query(None, Some([categoryId.value]), None, None))
  {
    if categoryId.Some? && categoryId.value != "" {
      WithCategoryIsFilter(Products, categoryId.value);
    }
  }

  // ---------------------------------------------------------------
  // Scenarios over the sample table
  // ---------------------------------------------------------------

  /** Filtering distributes over concatenation. */
  lemma {:induction false} FilterAppend(a: seq<Product>, b: seq<Product>, q: Query)
    ensures Filter(a + b, q) == Filter(a, q) + Filter(b, q)
  {
    if a == [] {
      assert a + b == b;
    } else {
      var head := Keep(a[0], q);
      assert (a + b)[0] == a[0];
      assert (a + b)[1..] == a[1..] + b;
      assert Filter(a + b, q) == head + Filter(a[1..] + b, q);
      assert Filter(a, q) == head + Filter(a[1..], q);
      FilterAppend(a[1..], b, q);
      AppendAssoc(head, Filter(a[1..], q), Filter(b, q));
    }
  }

  /** The names of a list of products, in order. */
  function Names(ps: seq<Product>): seq<string> {
    seq(|ps|, i requires 0 <= i < |ps| => ps[i].name)
  }

  function Keep(p: Product, q: Query): seq<Product> {
    if Matches(p, q) then [p] else []
  }

  lemma FilterCons(p: Product, rest: seq<Product>, q: Query)
    ensures Filter([p] + rest, q) == Keep(p, q) + Filter(rest, q)
  {
    assert ([p] + rest)[0] == p;
    assert ([p] + rest)[1..] == rest;
  }

  /** The filter over four items, one item at a time. */
  lemma FilterOfFour(a: Product, b: Product, c: Product, d: Product, q: Query)
    ensures Filter([a, b, c, d], q) == Keep(a, q) + (Keep(b, q) + (Keep(c, q) + Keep(d, q)))
  {
    assert [a, b, c, d] == [a] + [b, c, d] && [b, c, d] == [b] + [c, d] && [c, d] == [c] + [d];
    FilterCons(a, [b, c, d], q);
    FilterCons(b, [c, d], q);
    FilterCons(c, [d], q);
    FilterCons(d, [], q);
    assert [d] + [] == [d];
    assert Keep(d, q) + Filter([], q) == Keep(d, q);
  }

  /** The sample table in three groups of four. */
  lemma FilterProductsGrouped(q: Query)
    ensures FilterProducts(q) == Filter([P1, P2, P3, P4], q) + Filter([P5, P6, P7, P8], q)
                                 + Filter([P9, P10, P11, P12], q)
  {
    var g1, g2, g3 := [P1, P2, P3, P4], [P5, P6, P7, P8], [P9, P10, P11, P12];
    assert Products == g1 + g2 + g3;
    FilterAppend(g1 + g2, g3, q);
    FilterAppend(g1, g2, q);
  }

  const ByTicketing := Query(None, Some(["ticketing"]), None, None)
  const ByAndroid := Query(None, None, Some(["android"]), None)
  const ByTicketingOnAndroid := Query(None, Some(["ticketing"]), Some(["android"]), None)

  /** A product that runs on Android passes the Android selection. */
  lemma OnAndroid(p: Product, q: Query, k: nat)
    requires q.platforms == Some(["android"]) && k < |p.platforms| && p.platforms[k] == "android"
    ensures Active(q.platforms) && AnySelected(q.platforms.value, p.platforms)
  {
    assert "android" in q.platforms.value && "android" in p.platforms;
  }

  lemma TicketingFirstFour()
    ensures Filter([P1, P2, P3, P4], ByTicketing) == [P1, P3]
  {
    assert Keep(P2, ByTicketing) == [] by { assert P2.category[0] == 'm'; }
    assert Keep(P4, ByTicketing) == [] by { assert P4.category[0] == 'm'; }
    FilterOfFour(P1, P2, P3, P4, ByTicketing);
  }

  lemma TicketingSecondFour()
    ensures Filter([P5, P6, P7, P8], ByTicketing) == [P5, P7]
  {
    assert Keep(P6, ByTicketing) == [] by { assert P6.category[0] == 'm'; }
    assert Keep(P8, ByTicketing) == [] by { assert P8.category[0] == 'm'; }
    FilterOfFour(P5, P6, P7, P8, ByTicketing);
  }

  lemma TicketingLastFour()
    ensures Filter([P9, P10, P11, P12], ByTicketing) == []
  {
    assert Keep(P9, ByTicketing) == [] by { assert P9.category[0] == 'a'; }
    assert Keep(P10, ByTicketing) == [] by { assert P10.category[0] == 'b'; }
    assert Keep(P11, ByTicketing) == [] by { assert P11.category[0] == 'a'; }
    assert Keep(P12, ByTicketing) == [] by { assert P12.category[0] == 'w'; }
    FilterOfFour(P9, P10, P11, P12, ByTicketing);
  }

  lemma AndroidFirstFour()
    ensures Filter([P1, P2, P3, P4], ByAndroid) == [P1, P3]
  {
    assert Keep(P1, ByAndroid) == [P1] by { OnAndroid(P1, ByAndroid, 2); }
    assert Keep(P3, ByAndroid) == [P3] by { OnAndroid(P3, ByAndroid, 2); }
    FilterOfFour(P1, P2, P3, P4, ByAndroid);
  }

  lemma AndroidSecondFour()
    ensures Filter([P5, P6, P7, P8], ByAndroid) == [P6]
  {
    assert Keep(P6, ByAndroid) == [P6] by { OnAndroid(P6, ByAndroid, 1); }
    assert Keep(P5, ByAndroid) == [] && Keep(P7, ByAndroid) == [] by {
      assert "android" !in P5.platforms && "android" !in P7.platforms;
    }
    assert Keep(P8, ByAndroid) == [] by { assert "android" !in P8.platforms; }
    FilterOfFour(P5, P6, P7, P8, ByAndroid);
  }

  lemma AndroidLastFour()
    ensures Filter([P9, P10, P11, P12], ByAndroid) == [P9]
  {
    assert Keep(P9, ByAndroid) == [P9] by { OnAndroid(P9, ByAndroid, 2); }
    assert Keep(P10, ByAndroid) == [] by { assert "android" !in P10.platforms; }
    assert Keep(P11, ByAndroid) == [] && Keep(P12, ByAndroid) == [] by {
      assert "android" !in P11.platforms && "android" !in P12.platforms;
    }
    FilterOfFour(P9, P10, P11, P12, ByAndroid);
  }

  lemma BothFirstFour()
    ensures Filter([P1, P2, P3, P4], ByTicketingOnAndroid) == [P1, P3]
  {
    assert Keep(P1, ByTicketingOnAndroid) == [P1] by { OnAndroid(P1, ByTicketingOnAndroid, 2); }
    assert Keep(P2, ByTicketingOnAndroid) == [] by { assert P2.category[0] == 'm'; }
    assert Keep(P3, ByTicketingOnAndroid) == [P3] by { OnAndroid(P3, ByTicketingOnAndroid, 2); }
    assert Keep(P4, ByTicketingOnAndroid) == [] by { assert P4.category[0] == 'm'; }
    FilterOfFour(P1, P2, P3, P4, ByTicketingOnAndroid);
  }

  lemma BothSecondFour()
    ensures Filter([P5, P6, P7, P8], ByTicketingOnAndroid) == []
  {
    assert Keep(P6, ByTicketingOnAndroid) == [] by { assert P6.category[0] == 'm'; }
    assert Keep(P8, ByTicketingOnAndroid) == [] by { assert P8.category[0] == 'm'; }
    FilterOfFour(P5, P6, P7, P8, ByTicketingOnAndroid);
  }

  lemma BothLastFour()
    ensures Filter([P9, P10, P11, P12], ByTicketingOnAndroid) == []
  {
    assert Keep(P9, ByTicketingOnAndroid) == [] by { assert P9.category[0] == 'a'; }
    assert Keep(P10, ByTicketingOnAndroid) == [] by { assert P10.category[0] == 'b'; }
    assert Keep(P11, ByTicketingOnAndroid) == [] by { assert P11.category[0] == 'a'; }
    assert Keep(P12, ByTicketingOnAndroid) == [] by { assert P12.category[0] == 'w'; }
    FilterOfFour(P9, P10, P11, P12, ByTicketingOnAndroid);
  }

  lemma ScenarioTicketing()
    ensures Names(FilterProducts(ByTicketing)) == ["Prekindle", "Booking", "Booktine", "Charier"]
  {
    FilterProductsGrouped(ByTicketing);
    TicketingFirstFour();
    TicketingSecondFour();
    TicketingLastFour();
    assert FilterProducts(ByTicketing) == [P1, P3, P5, P7];
    assert Names([P1, P3, P5, P7]) == [P1.name, P3.name, P5.name, P7.name];
  }

  lemma ScenarioAndroid()
    ensures Names(FilterProducts(ByAndroid)) == ["Prekindle", "Booking", "Flankist", "Analytix"]
  {
    FilterProductsGrouped(ByAndroid);
    AndroidFirstFour();
    AndroidSecondFour();
    AndroidLastFour();
    assert FilterProducts(ByAndroid) == [P1, P3, P6, P9];
    assert Names([P1, P3, P6, P9]) == [P1.name, P3.name, P6.name, P9.name];
  }

  lemma ScenarioTicketingOnAndroid()
    ensures Names(FilterProducts(ByTicketingOnAndroid)) == ["Prekindle", "Booking"]
  {
    FilterProductsGrouped(ByTicketingOnAndroid);
    BothFirstFour();
    BothSecondFour();
    BothLastFour();
    assert FilterProducts(ByTicketingOnAndroid) == [P1, P3];
    assert Names([P1, P3]) == [P1.name, P3.name];
  }
}
