/**
 * The blog archive template: the title and filter values for the kind of
 * archive being shown, the posts query, the category radios, the count
 * label, and the reading time and `data-category` of each post card.
 */
module ArchiveTemplate {
  import opened Text
  import opened WordPress
  import CardFilter

  /** The conditional tags the template tests and the values the matching
      WordPress helpers return. */
  datatype ArchiveContext = ArchiveContext(
    isCategory: bool, categoryTitle: string, categoryDescription: string, queriedSlug: string,
    isTag: bool, tagTitle: string, tagDescription: string,
    isAuthor: bool, author: string, authorDescription: string,
    isDate: bool, isDay: bool, isMonth: bool, isYear: bool,
    dayDate: string, monthDate: string, yearDate: string,
    isSearch: bool, searchQuery: string)

  /** The header of the page and the two filter values. */
  datatype ArchiveState = ArchiveState(title: string, description: string, selectedCategory: string, searchQuery: string)

  /** The `if`/`elseif` chain over the kind of archive, starting from the
      sanitised `category` and `search` request parameters. */
  method ArchiveHeader(ctx: ArchiveContext, category: Option<string>, search: Option<string>,
                       sanitize: string -> string) returns (st: ArchiveState)
    ensures var fromRequest := if category.Some? then sanitize(category.value) else "";
      st.selectedCategory == (if ctx.isCategory then ctx.queriedSlug else fromRequest)
    ensures var fromRequest := if search.Some? then sanitize(search.value) else "";
      st.searchQuery == (if !ctx.isCategory && !ctx.isTag && !ctx.isAuthor && !ctx.isDate && ctx.isSearch
                         then ctx.searchQuery else fromRequest)
    ensures st.title == ArchiveTitle(ctx)
    ensures ctx.isCategory ==> st.description == ctx.categoryDescription
    ensures !ctx.isCategory && ctx.isTag ==> st.description == ctx.tagDescription
    ensures !ctx.isCategory && !ctx.isTag && ctx.isAuthor ==> st.description == ctx.authorDescription
    ensures !ctx.isCategory && !ctx.isTag && !ctx.isAuthor ==> st.description == ""
  {
    var selectedCategory := if category.Some? then sanitize(category.value) else "";
    var searchQuery := if search.Some? then sanitize(search.value) else "";
    var title := "Latest Articles";
    var description := "";
    if ctx.isCategory {
      title := ctx.categoryTitle;
      description := ctx.categoryDescription;
      selectedCategory := ctx.queriedSlug;
    } else if ctx.isTag {
      title := "Posts tagged: " + ctx.tagTitle;
      description := ctx.tagDescription;
    } else if ctx.isAuthor {
      title := "Posts by " + ctx.author;
      description := ctx.authorDescription;
    } else if ctx.isDate {
      if ctx.isDay {
        title := "Posts from " + ctx.dayDate;
      } else if ctx.isMonth {
        title := "Posts from " + ctx.monthDate;
      } else if ctx.isYear {
        title := "Posts from " + ctx.yearDate;
      }
    } else if ctx.isSearch {
      title := "Search Results";
      searchQuery := ctx.searchQuery;
    }
    st := ArchiveState(title, description, selectedCategory, searchQuery);
  }

  /** The heading of each kind of archive; "Latest Articles" otherwise,
      including a date archive that is neither a day, month nor year. */
  function ArchiveTitle(ctx: ArchiveContext): (t: string)
    ensures (&& !ctx.isCategory && !ctx.isTag && !ctx.isAuthor && !ctx.isSearch
             && !(ctx.isDate && (ctx.isDay || ctx.isMonth || ctx.isYear))) ==> t == "Latest Articles"
    ensures ctx.isCategory ==> t == ctx.categoryTitle
    ensures !ctx.isCategory && ctx.isTag ==> t == "Posts tagged: " + ctx.tagTitle
    ensures !ctx.isCategory && !ctx.isTag && ctx.isAuthor ==> t == "Posts by " + ctx.author
    ensures var dated := !ctx.isCategory && !ctx.isTag && !ctx.isAuthor && ctx.isDate;
      && (dated && ctx.isDay ==> t == "Posts from " + ctx.dayDate)
      && (dated && !ctx.isDay && ctx.isMonth ==> t == "Posts from " + ctx.monthDate)
      && (dated && !ctx.isDay && !ctx.isMonth && ctx.isYear ==> t == "Posts from " + ctx.yearDate)
    ensures !ctx.isCategory && !ctx.isTag && !ctx.isAuthor && !ctx.isDate && ctx.isSearch ==> t == "Search Results"
  {
    if ctx.isCategory then ctx.categoryTitle
    else if ctx.isTag then "Posts tagged: " + ctx.tagTitle
    else if ctx.isAuthor then "Posts by " + ctx.author
    else if ctx.isDate then
      (if ctx.isDay then "Posts from " + ctx.dayDate
       else if ctx.isMonth then "Posts from " + ctx.monthDate
       else if ctx.isYear then "Posts from " + ctx.yearDate
       else "Latest Articles")
    else if ctx.isSearch then "Search Results"
    else "Latest Articles"
  }

  /** On a page that is both a category archive and a search, the search
      branch is never reached and the request's `search` value stays. */
  method CategorySearchKeepsRequest(ctx: ArchiveContext, search: string, sanitize: string -> string)
    returns (st: ArchiveState)
    requires ctx.isCategory && ctx.isSearch
    ensures st.searchQuery == sanitize(search) && st.selectedCategory == ctx.queriedSlug
  {
    st := ArchiveHeader(ctx, None, Some(search), sanitize);
  }

  /** The posts query. `perPage` is the `headless_cms_archive_posts_per_page`
      filter applied to the default. */
  method PostsQuery(st: ArchiveState, pagedVar: int, perPage: int -> int) returns (args: QueryArgs)
    ensures args.postType == "post" && args.orderby == "date" && args.order == "DESC" && args.postStatus == "publish"
    ensures args.postsPerPage == Some(perPage(12))
    ensures args.paged == Some(PagedOf(pagedVar))
    ensures args.taxQuery.None? && args.noFoundRows.None?
    ensures args.categoryName.Some? <==> !PhpEmpty(st.selectedCategory)
    ensures args.categoryName.Some? ==> args.categoryName.value == st.selectedCategory
    ensures args.search.Some? <==> !PhpEmpty(st.searchQuery)
    ensures args.search.Some? ==> args.search.value == st.searchQuery
  {
    var paged := if pagedVar != 0 then Absint(pagedVar) else 1;
    var postsPerPage := perPage(12);
    args := QueryArgs("post", Some(postsPerPage), "date", "DESC", "publish", None, Some(paged), None, None, None);
    if !PhpEmpty(st.selectedCategory) {
      args := args.(categoryName := Some(st.selectedCategory));
    }
    if !PhpEmpty(st.searchQuery) {
      args := args.(search := Some(st.searchQuery));
    }
  }

  /** `ceil(words / 200)`: the least number of 200-word minutes that covers
      the words. */
  function ReadingTime(words: nat): (minutes: nat)
    ensures minutes * 200 >= words
    ensures minutes == 0 || (minutes - 1) * 200 < words
  {
    (words + 199) / 200
  }

  /** The reading time grows with the text and is 1 for a short post. */
  lemma ReadingTimeBounds(a: nat, b: nat)
    requires a <= b
    ensures ReadingTime(a) <= ReadingTime(b)
    ensures 0 < a <= 200 ==> ReadingTime(a) == 1
    ensures ReadingTime(0) == 0
  {
  }

  /** The posts count of the archive header: the total, a space, then
      "article", with an "s" unless the total is exactly 1. */
  function PostsCountLabel(total: nat): string {
    CountLabel(total, "article", "articles")
  }

  /** Two different totals never read the same. */
  lemma PostsCountLabelInjective(a: nat, b: nat)
    requires PostsCountLabel(a) == PostsCountLabel(b)
    ensures a == b
  {
    CountLabelInjective(a, b, "article", "articles");
  }

  /** The category radios: "All Categories" checked iff the selection is
      empty in PHP's sense, each category checked iff its slug is the
      selection. */
  method RenderRadios(categories: seq<Term>, selected: string) returns (allChecked: bool, checked: seq<bool>)
    ensures allChecked <==> PhpEmpty(selected)
    ensures |checked| == |categories|
    ensures forall i :: 0 <= i < |categories| ==> (checked[i] <==> categories[i].slug == selected)
  {
    allChecked := PhpEmpty(selected);
    checked := [];
    for i := 0 to |categories|
      invariant |checked| == i
      invariant forall k :: 0 <= k < i ==> (checked[k] <==> categories[k].slug == selected)
    {
      checked := checked + [categories[i].slug == selected];
    }
  }

  /** With distinct slugs at most one category radio is checked. */
  lemma OneRadioChecked(categories: seq<Term>, selected: string, checked: seq<bool>, i: nat, j: nat)
    requires forall a, b :: 0 <= a < b < |categories| ==> categories[a].slug != categories[b].slug
    requires |checked| == |categories|
    requires forall k :: 0 <= k < |categories| ==> (checked[k] <==> categories[k].slug == selected)
    requires i < |categories| && j < |categories| && checked[i] && checked[j]
    ensures i == j
  {
  }

  /** A category whose slug is "0" is checked together with "All
      Categories" when it is selected, since PHP reads "0" as empty. */
  method ZeroSlugChecksTwoRadios(name: string) returns (allChecked: bool, checked: seq<bool>)
    ensures allChecked && checked == [true]
  {
    allChecked, checked := RenderRadios([Term(name, "0")], "0");
  }

  /** The `data-category` of a post card: the first category's slug or "". */
  function PostCardCategory(cats: seq<Term>): (slug: string)
    ensures cats == [] ==> slug == ""
    ensures cats != [] ==> slug == cats[0].slug
  {
    if cats != [] then cats[0].slug else ""
  }

  /** The browser's category filter shows a rendered post iff its first
      category is the chosen one. */
  lemma PostCardCategoryTest(cats: seq<Term>, title: string, excerpt: string, chosen: string)
    requires chosen != ""
    ensures CardFilter.PostCardVisible(CardFilter.PostCard(PostCardCategory(cats), title, excerpt), chosen, "")
      <==> cats != [] && cats[0].slug == chosen
  {
  }
}
