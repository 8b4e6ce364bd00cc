/**
 * The catalog page of the client: its filter state (a search text, three
 * selection lists and the open/closed flag of each sidebar section), the
 * transitions the sidebar triggers, and the values derived from the state
 * (the filtered products, whether any filter is active, the results label).
 */
module LibraryPage {
  import opened Text
  import opened Catalog

  /** The `type` argument of `toggleFilter`: which selection list to change. */
  datatype Dimension = CategoryDim | PlatformDim | FeaturesDim

  /** `current.filter(v => v !== value)`. */
  function RemoveAll(current: seq<string>, value: string): (r: seq<string>)
    ensures forall x :: x in r <==> x in current && x != value
    ensures IsSubsequence(r, current)
  {
    if current == [] then []
    else if current[0] != value then [current[0]] + RemoveAll(current[1..], value)
    else RemoveAll(current[1..], value)
  }

  /** The new list `toggleFilter` hands to the setter. */
  function Toggled(current: seq<string>, value: string): seq<string> {
    if value in current then RemoveAll(current, value) else current + [value]
  }

  lemma {:induction false} RemoveAllAbsent(current: seq<string>, value: string)
    requires value !in current
    ensures RemoveAll(current, value) == current
  {
    if current != [] {
      RemoveAllAbsent(current[1..], value);
      assert [current[0]] + current[1..] == current;
    }
  }

  /** A value already selected is removed, every occurrence of it, and the
      rest keep their order; an absent value is appended at the end. */
  lemma ToggledMeaning(current: seq<string>, value: string)
    ensures value in current ==>
      value !in Toggled(current, value)
      && (forall x :: x != value ==> (x in Toggled(current, value) <==> x in current))
      && IsSubsequence(Toggled(current, value), current)
    ensures value !in current ==> Toggled(current, value) == current + [value]
  {
  }

  /** Toggling an absent value twice gives back the original list. */
  lemma ToggleTwiceRestores(current: seq<string>, value: string)
    requires value !in current
    ensures Toggled(Toggled(current, value), value) == current
  {
    var once := current + [value];
    assert once[|current|] == value;
    RemoveAllAppended(current, value);
  }

  lemma {:induction false} RemoveAllAppended(current: seq<string>, value: string)
    requires value !in current
    ensures RemoveAll(current + [value], value) == current
  {
    if current == [] {
      assert [] + [value] == [value];
      assert [value][1..] == [];
    } else {
      RemoveAllAppended(current[1..], value);
      assert (current + [value])[0] == current[0];
      assert (current + [value])[1..] == current[1..] + [value];
      assert [current[0]] + current[1..] == current;
    }
  }

  /** `hasActiveFilters`, over plain values. */
  predicate AnyFilterActive(search: string, cats: seq<string>, plats: seq<string>, feats: seq<string>) {
    search != "" || |cats| > 0 || |plats| > 0 || |feats| > 0
  }

  /** The object `filteredProducts` passes to `filterProducts`. */
  function PageQuery(search: string, cats: seq<string>, plats: seq<string>, feats: seq<string>): (q: Query)
    ensures AnyFilterActive(search, cats, plats, feats) <==>
      Searching(q.search) || Active(q.categories) || Active(q.platforms) || Active(q.features)
  {
    Query(Some(search), Some(cats), Some(plats), Some(feats))
  }

  /** With no filter active the page shows every product, in table order. */
  lemma InactiveShowsAll(search: string, cats: seq<string>, plats: seq<string>, feats: seq<string>)
    requires !AnyFilterActive(search, cats, plats, feats)
    ensures FilterProducts(PageQuery(search, cats, plats, feats)) == Products
  {
    InactiveQueryKeepsAll(Products, PageQuery(search, cats, plats, feats));
  }

  /** The results count text: the number, a space, then "app" for one
      product and "apps" otherwise. */
  function ResultsLabel(n: nat): string {
    CountLabel(n, "app", "apps")
  }

  /** Two different counts never read the same. */
  lemma ResultsLabelInjective(a: nat, b: nat)
    requires ResultsLabel(a) == ResultsLabel(b)
    ensures a == b
  {
    CountLabelInjective(a, b, "app", "apps");
  }

  /** The sidebar section names with their initial flags. */
  const InitialSections: map<string, bool> := map["category" := true, "platform" := true, "features" := true]

  /** The page's state, one field per `useState` hook. */
  class Page {
    var searchQuery: string
    var selectedCategories: seq<string>
    var selectedPlatforms: seq<string>
    var selectedFeatures: seq<string>
    var expandedSections: map<string, bool>

    constructor ()
      ensures searchQuery == "" && selectedCategories == [] && selectedPlatforms == [] && selectedFeatures == []
      ensures expandedSections == InitialSections
    {
      searchQuery := "";
      selectedCategories := [];
      selectedPlatforms := [];
      selectedFeatures := [];
      expandedSections := InitialSections;
    }

    /** The selection list of a dimension. */
    function Selected(d: Dimension): seq<string>
      reads this
    {
      match d
      case CategoryDim => selectedCategories
      case PlatformDim => selectedPlatforms
      case FeaturesDim => selectedFeatures
    }

    /** `!prev[section]` reads a missing section as undefined, so as closed. */
    function IsExpanded(section: string): bool
      reads this
    {
      section in expandedSections && expandedSections[section]
    }

    /** `hasActiveFilters`. */
    function HasActiveFilters(): (r: bool)
      reads this
      ensures r <==> searchQuery != "" || |Selected(CategoryDim)| > 0 || |Selected(PlatformDim)| > 0
                     || |Selected(FeaturesDim)| > 0
    {
      AnyFilterActive(searchQuery, selectedCategories, selectedPlatforms, selectedFeatures)
    }

    /** `filteredProducts`. */
    function FilteredProducts(): (r: seq<Product>)
      reads this
      ensures forall p :: p in r <==>
        (p in Products && Matches(p, PageQuery(searchQuery, selectedCategories, selectedPlatforms, selectedFeatures)))
      ensures IsSubsequence(r, Products)
      ensures !HasActiveFilters() ==> r == Products
    {
      var q := PageQuery(searchQuery, selectedCategories, selectedPlatforms, selectedFeatures);
      FilterMembership(Products, q);
      FilterIsSubsequence(Products, q);
      if HasActiveFilters() then FilterProducts(q)
      else
        InactiveShowsAll(searchQuery, selectedCategories, selectedPlatforms, selectedFeatures);
        FilterProducts(q)
    }

    /** The search box's change handler. */
    method SetSearchQuery(text: string)
      modifies this
      ensures searchQuery == text
      ensures Selected(CategoryDim) == old(Selected(CategoryDim)) && Selected(PlatformDim) == old(Selected(PlatformDim))
      ensures Selected(FeaturesDim) == old(Selected(FeaturesDim)) && expandedSections == old(expandedSections)
    {
      searchQuery := text;
    }

    /** `toggleFilter(type, value)`: only the named list changes. */
    method ToggleFilter(d: Dimension, value: string)
      modifies this
      ensures Selected(d) == Toggled(old(Selected(d)), value)
      ensures forall e :: e != d ==> Selected(e) == old(Selected(e))
      ensures searchQuery == old(searchQuery) && expandedSections == old(expandedSections)
    {
      var current := Selected(d);
      var next;
      if value in current {
        next := RemoveAll(current, value);
      } else {
        next := current + [value];
      }
      match d
      case CategoryDim => selectedCategories := next;
      case PlatformDim => selectedPlatforms := next;
      case FeaturesDim => selectedFeatures := next;
    }

    /** `clearAllFilters`: after it every product is shown and no filter is active. */
    method ClearAllFilters()
      modifies this
      ensures searchQuery == "" && Selected(CategoryDim) == [] && Selected(PlatformDim) == []
              && Selected(FeaturesDim) == []
      ensures expandedSections == old(expandedSections)
      ensures !HasActiveFilters() && FilteredProducts() == Products
    {
      searchQuery := "";
      selectedCategories := [];
      selectedPlatforms := [];
      selectedFeatures := [];
    }

    /** `toggleSection(section)`: flips that one flag. */
    method ToggleSection(section: string)
      modifies this
      ensures IsExpanded(section) == !old(IsExpanded(section))
      ensures forall s :: s != section ==> (s in expandedSections <==> s in old(expandedSections))
      ensures forall s :: s != section && s in expandedSections ==> expandedSections[s] == old(expandedSections)[s]
      ensures searchQuery == old(searchQuery)
      ensures forall d :: Selected(d) == old(Selected(d))
    {
      expandedSections := expandedSections[section := !IsExpanded(section)];
    }
  }

  /** Toggling a value on and off again from the start state gives the start state back. */
  method ToggleOnOff(d: Dimension, value: string) returns (cats: seq<string>, plats: seq<string>, feats: seq<string>)
    ensures cats == [] && plats == [] && feats == []
  {
    var page := new Page();
    page.ToggleFilter(d, value);
    page.ToggleFilter(d, value);
    ToggleTwiceRestores([], value);
    assert page.Selected(CategoryDim) == [] && page.Selected(PlatformDim) == [] && page.Selected(FeaturesDim) == [];
    cats, plats, feats := page.selectedCategories, page.selectedPlatforms, page.selectedFeatures;
  }
}
