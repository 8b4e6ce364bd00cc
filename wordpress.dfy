/**
 * The WordPress values the theme's templates read and build: request
 * parameters, the conditional tags describing the current request, the
 * terms attached to a post, and the argument record handed to `WP_Query`
 * with its taxonomy clauses.
 */
module WordPress {
  import opened Text
  import UrlParams

  /** A `$_GET`/`$_POST` entry: unset, one string, or an array of strings. */
  datatype Param = Unset | Scalar(s: string) | List(items: seq<string>)

  /** The conditional tags of the current request. */
  datatype Request = Request(
    libraryTemplate: bool,   // is_page_template('template-library.php')
    singularProduct: bool,   // is_singular('product')
    singularPost: bool,      // is_singular('post')
    archive: bool,           // is_archive()
    home: bool,              // is_home()
    search: bool,            // is_search()
    page: bool,              // is_page()
    pageTemplate: bool)      // is_page_template() with no argument

  /** `is_blog` of the header: a post, an archive, the posts page or a search. */
  predicate IsBlog(r: Request) {
    r.singularPost || r.archive || r.home || r.search
  }

  /** `is_library` of the header: the library page or a single product. */
  predicate IsLibrary(r: Request) {
    r.libraryTemplate || r.singularProduct
  }

  /** A term of a taxonomy. */
  datatype Term = Term(name: string, slug: string)

  /** What `get_the_terms` returns: `false`, a `WP_Error`, or the terms. */
  datatype Terms = NoTerms | TermsError | TermList(terms: seq<Term>)

  /** `!empty($terms) && !is_wp_error($terms)`. */
  predicate HasTerms(t: Terms) {
    t.TermList? && t.terms != []
  }

  /** The slug of each term, in order. */
  function Slugs(terms: seq<Term>): (r: seq<string>)
    ensures |r| == |terms| && forall i :: 0 <= i < |r| ==> r[i] == terms[i].slug
  {
    if terms == [] then [] else [terms[0].slug] + Slugs(terms[1..])
  }

  /** One entry of `tax_query`. */
  datatype TaxClause = TaxClause(taxonomy: string, field: string, terms: seq<string>)

  /** `tax_query`: the clauses and the optional `relation` key. */
  datatype TaxQuery = TaxQuery(clauses: seq<TaxClause>, relation: Option<string>)

  /** The argument array of a `WP_Query`; `None` is a key that is not set. */
  datatype QueryArgs = QueryArgs(
    postType: string,
    postsPerPage: Option<int>,
    orderby: string,
    order: string,
    postStatus: string,
    noFoundRows: Option<bool>,
    paged: Option<int>,
    taxQuery: Option<TaxQuery>,
    search: Option<string>,
    categoryName: Option<string>)

  /** The clauses built from the selections: one `product_cat` clause when
      categories are selected, then one `product_tag` clause when tags are. */
  function TaxClauses(cats: seq<string>, tags: seq<string>): seq<TaxClause> {
    (if cats != [] then [TaxClause("product_cat", "slug", cats)] else [])
    + (if tags != [] then [TaxClause("product_tag", "slug", tags)] else [])
  }

  /** The selection code shared by the AJAX handler and the library page:
      adds `tax_query` when there is a clause, with `relation` "AND" when
      there are two; every other key is left as it was. */
  method AddTaxQuery(args: QueryArgs, cats: seq<string>, tags: seq<string>) returns (r: QueryArgs)
    ensures TaxClauses(cats, tags) == [] ==> r == args
    ensures TaxClauses(cats, tags) != [] ==>
      r == args.(taxQuery := Some(TaxQuery(TaxClauses(cats, tags),
                                           if |TaxClauses(cats, tags)| > 1 then Some("AND") else None)))
  {
    var taxQueries: seq<TaxClause> := [];
    if cats != [] {
      taxQueries := taxQueries + [TaxClause("product_cat", "slug", cats)];
    }
    if tags != [] {
      taxQueries := taxQueries + [TaxClause("product_tag", "slug", tags)];
    }
    assert taxQueries == TaxClauses(cats, tags);
    r := args;
    if taxQueries != [] {
      r := r.(taxQuery := Some(TaxQuery(taxQueries, None)));
      if |taxQueries| > 1 {
        r := r.(taxQuery := Some(r.taxQuery.value.(relation := Some("AND"))));
      }
    }
  }

  /** What the query ends up selecting on: a category clause iff categories
      are selected, a tag clause iff tags are, the category clause first,
      `tax_query` present iff either is, and `relation` "AND" iff both. */
  lemma TaxClausesMeaning(cats: seq<string>, tags: seq<string>)
    ensures var c := TaxClauses(cats, tags);
      && (TaxClause("product_cat", "slug", cats) in c <==> cats != [])
      && (TaxClause("product_tag", "slug", tags) in c <==> tags != [])
      && (c == [] <==> cats == [] && tags == [])
      && (|c| > 1 <==> cats != [] && tags != [])
      && (cats != [] ==> c[0] == TaxClause("product_cat", "slug", cats))
      && (forall k :: 0 <= k < |c| ==> c[k].field == "slug")
  {
    var c := TaxClauses(cats, tags);
    assert "product_cat" != "product_tag" by {
      assert "product_cat"[8] == 'c' && "product_tag"[8] == 't';
    }
  }

  /** `absint`. */
  function Absint(n: int): (r: nat)
    ensures r == n || r == -n
  {
    if n < 0 then -n else n
  }

  /** `(get_query_var('paged')) ? absint(get_query_var('paged')) : 1`, the
      query variable being 0 when it is not set. */
  function PagedOf(queryVar: int): (r: nat)
    ensures queryVar == 0 ==> r == 1
    ensures queryVar != 0 ==> r == Absint(queryVar) && r > 0
  {
    if queryVar != 0 then Absint(queryVar) else 1
  }

  /** `array_map` of a sanitiser over a list. */
  function MapAll(f: string -> string, xs: seq<string>): (r: seq<string>)
    ensures |r| == |xs| && forall i :: 0 <= i < |xs| ==> r[i] == f(xs[i])
  {
    seq(|xs|, i requires 0 <= i < |xs| => f(xs[i]))
  }

  /** `$_GET[key]` for a query string of plain `key=value` pairs: PHP keeps
      only the last value of a repeated key (a list needs a `key[]` name,
      which the theme never writes). */
  function PhpQueryParam(pairs: UrlParams.Pairs, key: string): (p: Param)
    ensures !p.List?
  {
    if pairs == [] then Unset
    else
      var rest := PhpQueryParam(pairs[1..], key);
      if rest.Unset? && pairs[0].0 == key then Scalar(pairs[0].1) else rest
  }

  /** The parameter PHP sees is unset iff the key is absent, and otherwise
      the last of the values `getAll` returns for it. */
  lemma {:induction false} PhpQueryParamIsLast(pairs: UrlParams.Pairs, key: string)
    ensures var vals := UrlParams.GetAll(pairs, key);
      PhpQueryParam(pairs, key) == if vals == [] then Unset else Scalar(vals[|vals| - 1])
  {
    if pairs != [] {
      PhpQueryParamIsLast(pairs[1..], key);
    }
  }
}
