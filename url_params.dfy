/**
 * The filter state the theme script keeps in the address bar, as an
 * ordered list of key/value pairs: the encoders for the catalog page
 * (`categories`, `tags`, `search`) and the blog page (`category`,
 * `search`), the `get`/`getAll` look-ups the decoder uses, and the URL
 * written back to the history.
 */
module UrlParams {
  import opened Text

  /** The pairs of a query string, in order; keys may repeat. */
  type Pairs = seq<(string, string)>

  /** `params.get(key)`: the first value under `key`, if any. */
  function Get(pairs: Pairs, key: string): (r: Option<string>)
    ensures r.None? <==> forall i :: 0 <= i < |pairs| ==> pairs[i].0 != key
    ensures r.Some? ==> exists i :: 0 <= i < |pairs| && pairs[i] == (key, r.value)
                                     && forall j :: 0 <= j < i ==> pairs[j].0 != key
  {
    if pairs == [] then None
    else if pairs[0].0 == key then Some(pairs[0].1)
    else
      var r := Get(pairs[1..], key);
      if r.Some? then
        var i :| 0 <= i < |pairs[1..]| && pairs[1..][i] == (key, r.value)
                 && forall j :: 0 <= j < i ==> pairs[1..][j].0 != key;
        assert pairs[i + 1] == (key, r.value);
        r
      else r
  }

  /** `params.getAll(key)`: every value under `key`, in order. */
  function GetAll(pairs: Pairs, key: string): (r: seq<string>)
    ensures |r| <= |pairs|
  {
    if pairs == [] then []
    else (if pairs[0].0 == key then [pairs[0].1] else []) + GetAll(pairs[1..], key)
  }

  /** A value is among `getAll(key)` iff some pair carries it under `key`. */
  lemma {:induction false} GetAllMembership(pairs: Pairs, key: string, v: string)
    ensures v in GetAll(pairs, key) <==> (key, v) in pairs
  {
    if pairs != [] {
      GetAllMembership(pairs[1..], key, v);
      assert (key, v) in pairs <==> pairs[0] == (key, v) || (key, v) in pairs[1..];
    }
  }

  /** `get` is the head of `getAll`. */
  lemma {:induction false} GetIsFirstOfGetAll(pairs: Pairs, key: string)
    ensures Get(pairs, key) == if GetAll(pairs, key) == [] then None else Some(GetAll(pairs, key)[0])
  {
    if pairs != [] && pairs[0].0 != key {
      GetIsFirstOfGetAll(pairs[1..], key);
    }
  }

  /** `getAll` of a concatenation is the concatenation of the look-ups. */
  lemma {:induction false} GetAllAppend(a: Pairs, b: Pairs, key: string)
    ensures GetAll(a + b, key) == GetAll(a, key) + GetAll(b, key)
  {
    if a == [] {
      assert a + b == b;
    } else {
      var head := if a[0].0 == key then [a[0].1] else [];
      assert (a + b)[0] == a[0];
      assert (a + b)[1..] == a[1..] + b;
      assert GetAll(a + b, key) == head + GetAll(a[1..] + b, key);
      GetAllAppend(a[1..], b, key);
      AppendAssoc(head, GetAll(a[1..], key), GetAll(b, key));
    }
  }

  /** One `(key, value)` pair per value, in order. */
  function KeyPairs(key: string, values: seq<string>): (r: Pairs)
    ensures |r| == |values|
    ensures forall i :: 0 <= i < |r| ==> r[i] == (key, values[i])
  {
    if values == [] then [] else [(key, values[0])] + KeyPairs(key, values[1..])
  }

  lemma {:induction false} GetAllKeyPairs(key: string, values: seq<string>, other: string)
    ensures GetAll(KeyPairs(key, values), key) == values
    ensures other != key ==> GetAll(KeyPairs(key, values), other) == []
  {
    if values != [] {
      GetAllKeyPairs(key, values[1..], other);
      assert KeyPairs(key, values)[1..] == KeyPairs(key, values[1..]);
      assert [values[0]] + values[1..] == values;
    }
  }

  /** `values.forEach(v => params.append(key, v))`. */
  method AppendAll(params: Pairs, key: string, values: seq<string>) returns (r: Pairs)
    ensures r == params + KeyPairs(key, values)
  {
    r := params;
    var i := 0;
    while i < |values|
      invariant 0 <= i <= |values|
      invariant r == params + KeyPairs(key, values[..i])
    {
      KeyPairsSnoc(key, values, i);
      r := r + [(key, values[i])];
      i := i + 1;
    }
    assert values[..|values|] == values;
  }

  lemma KeyPairsSnoc(key: string, values: seq<string>, i: nat)
    requires i < |values|
    ensures KeyPairs(key, values[..i + 1]) == KeyPairs(key, values[..i]) + [(key, values[i])]
  {
    var a, b := KeyPairs(key, values[..i + 1]), KeyPairs(key, values[..i]) + [(key, values[i])];
    assert |a| == |b|;
    forall k | 0 <= k < |a| ensures a[k] == b[k] {
    }
  }

  /** An optional trailing pair, present iff the value is non-empty. */
  function Optional(key: string, value: string): Pairs {
    if value != "" then [(key, value)] else []
  }

  /** The pairs `updateUrlState` appends: one `categories` pair per checked
      category, then one `tags` pair per checked tag, then `search` when the
      trimmed search text is non-empty. */
  function ProductParams(cats: seq<string>, tags: seq<string>, search: string): Pairs {
    KeyPairs("categories", cats) + KeyPairs("tags", tags) + Optional("search", JsTrim(search))
  }

  /** The pairs `updateBlogUrlState` appends: `category` when a non-empty
      value is checked, then `search` when the trimmed text is non-empty. */
  function BlogParams(category: string, search: string): Pairs {
    Optional("category", category) + Optional("search", JsTrim(search))
  }

  /** The query string without percent-encoding: `k=v` joined by `&`. */
  function Serialize(pairs: Pairs): (s: string)
    ensures pairs != [] ==> s != ""
  {
    if pairs == [] then ""
    else if |pairs| == 1 then pairs[0].0 + "=" + pairs[0].1
    else pairs[0].0 + "=" + pairs[0].1 + "&" + Serialize(pairs[1..])
  }

  /** The URL written to the history: the bare path with no pairs, else the
      path, "?" and the query string. */
  function RenderUrl(pathname: string, pairs: Pairs): (url: string)
    ensures url == pathname <==> pairs == []
    ensures pairs != [] ==> |url| > |pathname| && url[..|pathname|] == pathname && url[|pathname|] == '?'
  {
    if pairs == [] then pathname else pathname + "?" + Serialize(pairs)
  }

  lemma KeysDistinct()
    ensures "categories" != "tags" && "categories" != "search" && "tags" != "search"
    ensures "category" != "search"
  {
    assert "categories"[0] != "tags"[0] && "categories"[0] != "search"[0] && "tags"[0] != "search"[0];
    assert "category"[0] != "search"[0];
  }

  /** Decoding the catalog pairs gives back the checked categories and tags,
      in order, and the trimmed search text when it is non-empty. */
  lemma ProductParamsDecode(cats: seq<string>, tags: seq<string>, search: string)
    ensures GetAll(ProductParams(cats, tags, search), "categories") == cats
    ensures GetAll(ProductParams(cats, tags, search), "tags") == tags
    ensures Get(ProductParams(cats, tags, search), "search")
            == if JsTrim(search) == "" then None else Some(JsTrim(search))
  {
    KeysDistinct();
    var a, b, c := KeyPairs("categories", cats), KeyPairs("tags", tags), Optional("search", JsTrim(search));
    assert GetAll(a + b + c, "categories") == cats by {
      GetAllAppend(a + b, c, "categories");
      GetAllAppend(a, b, "categories");
      GetAllKeyPairs("categories", cats, "tags");
      GetAllKeyPairs("tags", tags, "categories");
      assert cats + [] + [] == cats;
    }
    assert GetAll(a + b + c, "tags") == tags by {
      GetAllAppend(a + b, c, "tags");
      GetAllAppend(a, b, "tags");
      GetAllKeyPairs("categories", cats, "tags");
      GetAllKeyPairs("tags", tags, "categories");
      assert [] + tags + [] == tags;
    }
    assert GetAll(a + b + c, "search") == GetAll(c, "search") by {
      GetAllAppend(a + b, c, "search");
      GetAllAppend(a, b, "search");
      GetAllKeyPairs("categories", cats, "search");
      GetAllKeyPairs("tags", tags, "search");
      assert [] + [] + GetAll(c, "search") == GetAll(c, "search");
    }
    GetIsFirstOfGetAll(a + b + c, "search");
  }

  /** The pairs come in the order categories, tags, search. */
  lemma ProductParamsOrder(cats: seq<string>, tags: seq<string>, search: string)
    ensures var p := ProductParams(cats, tags, search);
      forall i, j :: 0 <= i < j < |p| && p[j].0 == "categories" ==> p[i].0 == "categories"
    ensures var p := ProductParams(cats, tags, search);
      forall i :: 0 <= i < |p| - 1 ==> p[i].0 != "search"
    ensures |ProductParams(cats, tags, search)| == |cats| + |tags| + (if JsTrim(search) == "" then 0 else 1)
  {
    KeysDistinct();
    var a, b, c := KeyPairs("categories", cats), KeyPairs("tags", tags), Optional("search", JsTrim(search));
    var p := a + b + c;
    assert forall k :: 0 <= k < |p| ==> p[k].0 == (if k < |a| then "categories" else if k < |a| + |b| then "tags" else "search");
  }

  /** Decoding the blog pairs gives back the category and trimmed search,
      each only when non-empty. */
  lemma BlogParamsDecode(category: string, search: string)
    ensures Get(BlogParams(category, search), "category") == if category == "" then None else Some(category)
    ensures Get(BlogParams(category, search), "search")
            == if JsTrim(search) == "" then None else Some(JsTrim(search))
  {
    KeysDistinct();
  }

  /** The URL is the bare path iff nothing is checked and the search is blank. */
  lemma BareUrlIffNoState(pathname: string, cats: seq<string>, tags: seq<string>, search: string)
    ensures RenderUrl(pathname, ProductParams(cats, tags, search)) == pathname
            <==> cats == [] && tags == [] && JsTrim(search) == ""
  {
  }
}
