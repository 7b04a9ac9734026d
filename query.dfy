/** The search URL that scrape_ebay builds from a keyword and the four
    optional filters (ebaybot.py, lines 18-31). */
module Query {
  import opened Text

  const Endpoint := "https://www.ebay.de/sch/i.html"

  /** The fixed start of every search URL, up to the keyword. */
  const SearchPrefix := Endpoint + "?_nkw="

  /** The optional filters of one search. A filter the user did not give is
      None; Python treats None and "" alike as false, so both add nothing. */
  datatype Filters = Filters(
    minPrice: Option<string>,
    maxPrice: Option<string>,
    condition: Option<string>,
    listingType: Option<string>)

  /** One name=value pair of the query string. */
  datatype Param = Param(name: string, value: string)

  /** Python truthiness of an optional string. */
  predicate Truthy(o: Option<string>) {
    o.Some? && o.value != ""
  }

  /** The parameters that follow the keyword, one per truthy filter in the
      order min, max, condition, type. The condition is folded into a second
      keyword parameter; the listing type maps to a flag only for "auction"
      and "buyitnow". */
  function ExtraParams(keyword: string, f: Filters): seq<Param> {
    MinParam(f) + MaxParam(f) + ConditionParam(keyword, f) + TypeParam(f)
  }

  function MinParam(f: Filters): seq<Param> {
    if Truthy(f.minPrice) then [Param("_udlo", f.minPrice.value)] else []
  }

  function MaxParam(f: Filters): seq<Param> {
    if Truthy(f.maxPrice) then [Param("_udhi", f.maxPrice.value)] else []
  }

  function ConditionParam(keyword: string, f: Filters): seq<Param> {
    if Truthy(f.condition) then [Param("_nkw", keyword + " " + f.condition.value)] else []
  }

  function TypeParam(f: Filters): seq<Param> {
    if Truthy(f.listingType) && f.listingType.value == "auction" then [Param("LH_Auction", "1")]
    else if Truthy(f.listingType) && f.listingType.value == "buyitnow" then [Param("LH_BIN", "1")]
    else []
  }

  function QueryParams(keyword: string, f: Filters): seq<Param> {
    [Param("_nkw", keyword)] + ExtraParams(keyword, f)
  }

  function Field(p: Param): string {
    p.name + "=" + p.value
  }

  function Fields(ps: seq<Param>): (fs: seq<string>)
    ensures |fs| == |ps|
  {
    if ps == [] then [] else Fields(ps[..|ps| - 1]) + [Field(ps[|ps| - 1])]
  }

  lemma {:induction false} FieldsAt(ps: seq<Param>, i: nat)
    requires i < |ps|
    ensures Fields(ps)[i] == Field(ps[i])
    decreases |ps|
  {
    if i < |ps| - 1 {
      FieldsAt(ps[..|ps| - 1], i);
    }
  }

  /** The URL as a whole: the fixed prefix, the keyword, then each further
      parameter as "&name=value". Nothing is URL-encoded. */
  function SearchUrl(keyword: string, f: Filters): string {
    SearchPrefix + keyword + Render(ExtraParams(keyword, f))
  }

  /** scrape_ebay's chain of `url +=` appends. */
  method BuildSearchUrl(keyword: string, f: Filters) returns (url: string)
    ensures url == SearchUrl(keyword, f)
  {
    url := SearchPrefix + keyword;
    MinStep(url, f);
    if Truthy(f.minPrice) {
      url := url + "&_udlo=" + f.minPrice.value;
    }
    MaxStep(url, f);
    if Truthy(f.maxPrice) {
      url := url + "&_udhi=" + f.maxPrice.value;
    }
    ConditionStep(url, keyword, f);
    if Truthy(f.condition) {
      url := url + "&_nkw=" + keyword + " " + f.condition.value;
    }
    TypeStep(url, f);
    if Truthy(f.listingType) {
      if f.listingType.value == "auction" {
        url := url + "&LH_Auction=1";
      } else if f.listingType.value == "buyitnow" {
        url := url + "&LH_BIN=1";
      }
    }
    RenderPieces(keyword, f);
  }

  // One lemma per `if` of BuildSearchUrl: what the branch appends is the
  // rendering of that filter's parameters.

  lemma MinStep(u: string, f: Filters)
    ensures Truthy(f.minPrice) ==> u + "&_udlo=" + f.minPrice.value == u + Render(MinParam(f))
    ensures !Truthy(f.minPrice) ==> u == u + Render(MinParam(f))
  {
    RenderSingle(MinParam(f));
  }

  lemma MaxStep(u: string, f: Filters)
    ensures Truthy(f.maxPrice) ==> u + "&_udhi=" + f.maxPrice.value == u + Render(MaxParam(f))
    ensures !Truthy(f.maxPrice) ==> u == u + Render(MaxParam(f))
  {
    RenderSingle(MaxParam(f));
  }

  lemma ConditionStep(u: string, keyword: string, f: Filters)
    ensures Truthy(f.condition) ==>
      u + "&_nkw=" + keyword + " " + f.condition.value == u + Render(ConditionParam(keyword, f))
    ensures !Truthy(f.condition) ==> u == u + Render(ConditionParam(keyword, f))
  {
    RenderSingle(ConditionParam(keyword, f));
  }

  lemma TypeStep(u: string, f: Filters)
    ensures Truthy(f.listingType) && f.listingType.value == "auction" ==>
      u + "&LH_Auction=1" == u + Render(TypeParam(f))
    ensures Truthy(f.listingType) && f.listingType.value != "auction" && f.listingType.value == "buyitnow" ==>
      u + "&LH_BIN=1" == u + Render(TypeParam(f))
    ensures !(Truthy(f.listingType) && f.listingType.value in {"auction", "buyitnow"}) ==>
      u == u + Render(TypeParam(f))
  {
    RenderSingle(TypeParam(f));
  }

  lemma RenderSingle(ps: seq<Param>)
    requires |ps| <= 1
    ensures Render(ps) == if ps == [] then "" else "&" + ps[0].name + "=" + ps[0].value
  {
    if ps != [] {
      assert ps[1..] == [];
      assert Render(ps) == "&" + Field(ps[0]) + "";
    }
  }

  /** The parameters rendered one after another, each as "&name=value". */
  function Render(ps: seq<Param>): string {
    if ps == [] then "" else "&" + Field(ps[0]) + Render(ps[1..])
  }

  lemma {:induction false} RenderAppend(a: seq<Param>, b: seq<Param>)
    ensures Render(a + b) == Render(a) + Render(b)
    decreases |a|
  {
    if a == [] {
      assert a + b == b;
    } else {
      RenderAppend(a[1..], b);
      assert (a + b)[1..] == a[1..] + b;
      assert (a + b)[0] == a[0];
      AppendAssoc("&" + Field(a[0]), Render(a[1..]), Render(b));
    }
  }

  lemma {:induction false} JoinIsRender(p: Param, ps: seq<Param>)
    ensures Join(Fields([p] + ps), "&") == Field(p) + Render(ps)
    decreases |ps|
  {
    if ps == [] {
      assert [p] + ps == [p];
      assert [p][..0] == [];
    } else {
      var init := ps[..|ps| - 1];
      var last := ps[|ps| - 1];
      JoinIsRender(p, init);
      assert [p] + ps == ([p] + init) + [last];
      assert ([p] + ps)[..|[p] + ps| - 1] == [p] + init;
      JoinSnoc(Fields([p] + init), "&", Field(last));
      assert ps == init + [last];
      RenderAppend(init, [last]);
      RenderSingle([last]);
      AppendAssoc(Field(p), Render(init), "&" + Field(last));
      AppendAssoc(Field(p) + Render(init), "&", Field(last));
    }
  }

  lemma RenderPieces(keyword: string, f: Filters)
    ensures SearchUrl(keyword, f) == SearchPrefix + keyword + Render(MinParam(f)) + Render(MaxParam(f))
      + Render(ConditionParam(keyword, f)) + Render(TypeParam(f))
  {
    var r1, r2, r3, r4 := Render(MinParam(f)), Render(MaxParam(f)), Render(ConditionParam(keyword, f)), Render(TypeParam(f));
    RenderAppend(MinParam(f), MaxParam(f));
    RenderAppend(MinParam(f) + MaxParam(f), ConditionParam(keyword, f));
    RenderAppend(MinParam(f) + MaxParam(f) + ConditionParam(keyword, f), TypeParam(f));
    var a := SearchPrefix + keyword;
    AppendAssoc(a, r1 + r2 + r3, r4);
    AppendAssoc(a, r1 + r2, r3);
    AppendAssoc(a, r1, r2);
  }

  /** The query string of the URL is its parameters joined by '&'. */
  lemma QueryStringIsJoin(keyword: string, f: Filters)
    ensures SearchUrl(keyword, f) == Endpoint + "?" + Join(Fields(QueryParams(keyword, f)), "&")
  {
    var p := Param("_nkw", keyword);
    var r := Render(ExtraParams(keyword, f));
    var e := Endpoint + "?";
    calc {
      Endpoint + "?" + Join(Fields(QueryParams(keyword, f)), "&");
    == { JoinIsRender(p, ExtraParams(keyword, f)); }
      e + (Field(p) + r);
    == { assert Field(p) == "_nkw=" + keyword; }
      e + (("_nkw=" + keyword) + r);
    == { AppendAssoc(e, "_nkw=" + keyword, r); }
      (e + ("_nkw=" + keyword)) + r;
    == { AppendAssoc(e, "_nkw=", keyword); }
      ((e + "_nkw=") + keyword) + r;
    == { AppendAssoc(Endpoint, "?", "_nkw="); assert "?" + "_nkw=" == "?_nkw="; }
      SearchPrefix + keyword + r;
    }
  }

  // ---------------------------------------------------------------------
  // Properties of the query

  /** The position of a parameter kind in the fixed order min, max,
      condition, type. */
  function Rank(p: Param): nat {
    if p.name == "_udlo" then 0
    else if p.name == "_udhi" then 1
    else if p.name == "_nkw" then 2
    else 3
  }

  /** Every URL starts with the endpoint and the keyword parameter. */
  lemma UrlStartsWithKeyword(keyword: string, f: Filters)
    ensures StartsWith(SearchUrl(keyword, f), SearchPrefix + keyword)
  {
  }

  /** At most one parameter per filter, and they come in the fixed order. */
  lemma ExtraParamsOrdered(keyword: string, f: Filters)
    ensures |ExtraParams(keyword, f)| <= 4
    ensures forall i, j :: 0 <= i < j < |ExtraParams(keyword, f)| ==>
      Rank(ExtraParams(keyword, f)[i]) < Rank(ExtraParams(keyword, f)[j])
  {
  }

  lemma InExtraParams(keyword: string, f: Filters, x: Param)
    ensures x in ExtraParams(keyword, f) <==>
      x in MinParam(f) || x in MaxParam(f) || x in ConditionParam(keyword, f) || x in TypeParam(f)
  {
    var a, b, c, d := MinParam(f), MaxParam(f), ConditionParam(keyword, f), TypeParam(f);
    assert x in a + b <==> x in a || x in b;
    assert x in a + b + c <==> x in a + b || x in c;
    assert x in a + b + c + d <==> x in a + b + c || x in d;
  }

  /** Each filter contributes its parameter exactly when it is truthy. */
  lemma ExtraParamsPresence(keyword: string, f: Filters, v: string)
    ensures Param("_udlo", v) in ExtraParams(keyword, f) <==> f.minPrice == Some(v) && v != ""
    ensures Param("_udhi", v) in ExtraParams(keyword, f) <==> f.maxPrice == Some(v) && v != ""
    ensures Param("_nkw", keyword + " " + v) in ExtraParams(keyword, f) <==> f.condition == Some(v) && v != ""
    ensures Param("LH_Auction", "1") in ExtraParams(keyword, f) <==> f.listingType == Some("auction")
    ensures Param("LH_BIN", "1") in ExtraParams(keyword, f) <==> f.listingType == Some("buyitnow")
  {
    var cond := Param("_nkw", keyword + " " + v);
    InExtraParams(keyword, f, Param("_udlo", v));
    InExtraParams(keyword, f, Param("_udhi", v));
    InExtraParams(keyword, f, cond);
    InExtraParams(keyword, f, Param("LH_Auction", "1"));
    InExtraParams(keyword, f, Param("LH_BIN", "1"));
    if cond in ExtraParams(keyword, f) {
      assert Truthy(f.condition) && cond == Param("_nkw", keyword + " " + f.condition.value);
      assert v == (keyword + " " + v)[|keyword| + 1..];
      assert f.condition.value == (keyword + " " + f.condition.value)[|keyword| + 1..];
    }
  }

  /** No parameter with an empty value is ever added after the keyword. */
  lemma ExtraParamsNonEmpty(keyword: string, f: Filters)
    ensures forall p :: p in ExtraParams(keyword, f) ==> p.value != ""
  {
  }

  /** A listing type other than "auction" or "buyitnow" adds nothing and
      is not an error. */
  lemma UnknownListingTypeIgnored(keyword: string, f: Filters)
    requires f.listingType != Some("auction") && f.listingType != Some("buyitnow")
    ensures SearchUrl(keyword, f) == SearchUrl(keyword, f.(listingType := None))
  {
    assert ExtraParams(keyword, f) == ExtraParams(keyword, f.(listingType := None));
  }

  /** An empty filter value is the same as an absent one. */
  lemma EmptyFilterIgnored(keyword: string, f: Filters)
    ensures SearchUrl(keyword, f.(minPrice := Some(""))) == SearchUrl(keyword, f.(minPrice := None))
    ensures SearchUrl(keyword, f.(maxPrice := Some(""))) == SearchUrl(keyword, f.(maxPrice := None))
    ensures SearchUrl(keyword, f.(condition := Some(""))) == SearchUrl(keyword, f.(condition := None))
    ensures SearchUrl(keyword, f.(listingType := Some(""))) == SearchUrl(keyword, f.(listingType := None))
  {
    assert ExtraParams(keyword, f.(minPrice := Some(""))) == ExtraParams(keyword, f.(minPrice := None));
    assert ExtraParams(keyword, f.(maxPrice := Some(""))) == ExtraParams(keyword, f.(maxPrice := None));
    assert ExtraParams(keyword, f.(condition := Some(""))) == ExtraParams(keyword, f.(condition := None));
    assert ExtraParams(keyword, f.(listingType := Some(""))) == ExtraParams(keyword, f.(listingType := None));
  }

  /** The characters that end a query-string field ('&') or the query
      string itself ('#', which starts the fragment) in a URL. */
  predicate Delimiter(c: char) {
    c == '&' || c == '#'
  }

  predicate Lacks(o: Option<string>, c: char) {
    o.None? || c !in o.value
  }

  /** No text the user typed, the keyword or a filter value, holds c. */
  predicate UserTextLacks(keyword: string, f: Filters, c: char) {
    && c !in keyword
    && Lacks(f.minPrice, c) && Lacks(f.maxPrice, c)
    && Lacks(f.condition, c) && Lacks(f.listingType, c)
  }

  /** When no user text holds '&' or '#', the query string of the URL, all
      that follows its first '?' with no fragment after it, splits at '&'
      into exactly the parameters, in order. (The code does no URL encoding,
      so an '&' in user text would start a parameter of its own, and a '#'
      would cut the query string short.) */
  lemma {:induction false} QueryStringRoundTrip(keyword: string, f: Filters)
    requires UserTextLacks(keyword, f, '&') && UserTextLacks(keyword, f, '#')
    ensures var url := SearchUrl(keyword, f);
      && '?' !in Endpoint && url[|Endpoint|] == '?'
      && '#' !in url
      && Split(url[|Endpoint| + 1..], "&") == Fields(QueryParams(keyword, f))
  {
    var ps := QueryParams(keyword, f);
    var fs := Fields(ps);
    ParamsWithout(keyword, f, '&');
    forall i | 0 <= i < |fs| ensures '&' !in fs[i] {
      FieldsAt(ps, i);
      assert ps[i] in ps;
      FieldWithout(ps[i], '&');
    }
    SplitJoin(fs, '&');
    QueryStringIsJoin(keyword, f);
    var url := SearchUrl(keyword, f);
    var q := Join(fs, "&");
    assert url == (Endpoint + "?") + q;
    assert url[|Endpoint + "?"|..] == q;
    assert url[|Endpoint|] == (Endpoint + "?")[|Endpoint|];
    FixedTextSafe();
    UrlHasNoFragment(keyword, f);
  }

  /** When no user text holds '#', neither does the URL: nothing of it is
      cut off as a fragment. */
  lemma UrlHasNoFragment(keyword: string, f: Filters)
    requires UserTextLacks(keyword, f, '#')
    ensures '#' !in SearchUrl(keyword, f)
  {
    ParamsWithout(keyword, f, '#');
    var extra := ExtraParams(keyword, f);
    assert ParamsLack(extra, '#') by {
      forall p | p in extra ensures '#' !in p.name && '#' !in p.value {
        assert p in QueryParams(keyword, f);
      }
    }
    RenderWithout(extra, '#');
    FixedTextSafe();
  }

  /** The endpoint holds no '?', and the fixed prefix no '#'. */
  lemma FixedTextSafe()
    ensures '?' !in Endpoint && '#' !in SearchPrefix
  {
    assert '#' !in Endpoint;
  }

  /** No parameter name or value holds c. */
  predicate ParamsLack(ps: seq<Param>, c: char) {
    forall p :: p in ps ==> c !in p.name && c !in p.value
  }

  lemma ParamsLackAppend(a: seq<Param>, b: seq<Param>, c: char)
    requires ParamsLack(a, c) && ParamsLack(b, c)
    ensures ParamsLack(a + b, c)
  {
  }

  /** When no user text holds the delimiter c, no parameter name or value
      does: the fixed names and flag values hold neither '&' nor '#'. */
  lemma ParamsWithout(keyword: string, f: Filters, c: char)
    requires Delimiter(c) && UserTextLacks(keyword, f, c)
    ensures ParamsLack(QueryParams(keyword, f), c)
  {
    var a, b, d, e := MinParam(f), MaxParam(f), ConditionParam(keyword, f), TypeParam(f);
    PiecesWithout(keyword, f, c);
    TypeParamWithout(f, c);
    ParamsLackAppend(a, b, c);
    ParamsLackAppend(a + b, d, c);
    ParamsLackAppend(a + b + d, e, c);
    ParamsLackAppend([Param("_nkw", keyword)], a + b + d + e, c);
  }

  lemma PiecesWithout(keyword: string, f: Filters, c: char)
    requires Delimiter(c) && UserTextLacks(keyword, f, c)
    ensures ParamsLack(MinParam(f), c) && ParamsLack(MaxParam(f), c)
    ensures ParamsLack(ConditionParam(keyword, f), c)
    ensures ParamsLack([Param("_nkw", keyword)], c)
  {
    assert c !in "_udlo" && c !in "_udhi" && c !in "_nkw";
    if Truthy(f.condition) {
      assert c !in keyword + " " + f.condition.value;
    }
  }

  lemma TypeParamWithout(f: Filters, c: char)
    requires Delimiter(c)
    ensures ParamsLack(TypeParam(f), c)
  {
    assert c !in "LH_Auction" && c !in "LH_BIN" && c !in "1";
  }

  lemma FieldWithout(p: Param, c: char)
    requires Delimiter(c) && c !in p.name && c !in p.value
    ensures c !in Field(p)
  {
  }

  /** The rendered parameters hold no delimiter their names and values lack. */
  lemma {:induction false} RenderWithout(ps: seq<Param>, c: char)
    requires Delimiter(c) && ParamsLack(ps, c)
    ensures c !in Render(ps) <==> c != '&' || ps == []
    decreases |ps|
  {
    if ps != [] {
      assert ps[0] in ps;
      FieldWithout(ps[0], c);
      assert ParamsLack(ps[1..], c) by {
        forall p | p in ps[1..] ensures c !in p.name && c !in p.value {
          assert p in ps;
        }
      }
      RenderWithout(ps[1..], c);
      assert Render(ps)[0] == '&';
    }
  }
}
