/**
 * The gallery page: the active filter, kept in step with the `filter` query
 * parameter of the page's URL, and the projection of the catalog it selects.
 */
module Gallery {
  import opened Optional
  import Query
  import GalleryFilters
  import GalleryItem

  /** A catalog entry. Its category is a plain string: the catalog uses values outside the filter enum. */
  datatype Item = Item(id: string, title: string, category: string, imageSrc: string)

  /** The catalog the page ships with: a single house number plate. */
  function Catalog(): seq<Item>
  {
    [ Item("ss001", "House Number Plate", "stainless-name",
           "https://images.unsplash.com/photo-1527767013444-3551422e5eec?auto=format&fit=crop&q=80&w=2070") ]
  }

  // ---------------------------------------------------------------------------
  // The URL side

  /** The URL written for a filter: the bare page for "all", a `filter` parameter otherwise. */
  function UrlFor(filter: string): (url: string)
    ensures filter == "all" ==> '?' !in url
  {
    if filter == "all" then "/gallery" else "/gallery?filter=" + filter
  }

  /** Only "all" is written as the bare page; every other filter puts a query on the URL. */
  lemma BarePageOnlyForAll(filter: string)
    ensures UrlFor(filter) == "/gallery" <==> filter == "all"
    ensures filter != "all" ==> '?' in UrlFor(filter)
  {
    if filter != "all" {
      var url := UrlFor(filter);
      assert url[8] == '?';
    }
  }

  /** `new URLSearchParams(location.search).get("filter")` for the location `url`. */
  function FilterParam(url: string): (param: Option<string>)
    ensures '?' !in url ==> param == None
  {
    Query.Get(Query.Search(url), "filter")
  }

  /**
   * Reading back the URL written for `f`: no parameter for "all", `f` itself
   * otherwise (for any value a query can carry unescaped, which includes every
   * category literal).
   */
  lemma UrlRoundTrip(f: string)
    requires Query.SafeValue(f)
    ensures FilterParam(UrlFor(f)) == if f == "all" then None else Some(f)
  {
    if f == "all" {
      Query.NoQueryNoParam("/gallery", "filter");
    } else {
      var url := UrlFor(f);
      assert url == "/gallery" + "?" + "filter" + "=" + f;
      Query.WriteThenGet("/gallery", "filter", f);
    }
  }

  /** Every category literal survives the URL round trip. */
  lemma CategoryUrlRoundTrip(c: GalleryFilters.Category)
    ensures FilterParam(UrlFor(GalleryFilters.Slug(c))) ==
            if c == GalleryFilters.All then None else Some(GalleryFilters.Slug(c))
  {
    UrlRoundTrip(GalleryFilters.Slug(c));
  }

  /** The initial filter, `filterParam || "all"`: the raw parameter when non-empty, taken without validation. */
  function InitialFilter(param: Option<string>): (active: string)
    ensures active != ""
    ensures Truthy(param) ==> active == param.value
    ensures !Truthy(param) ==> active == "all"
  {
    match param
    case None => "all"
    case Some(p) => if p == "" then "all" else p
  }

  /** The literals the URL effect accepts. */
  const Accepted: set<string> :=
    {"all", "stainless-etching", "company-names", "stainless-name",
     "arcylic", "badges", "brass-etching", "gems"}

  /** The URL effect: adopt a non-empty accepted parameter, otherwise keep the current filter. */
  function EffectResult(param: Option<string>, current: string): (active: string)
    ensures active != current ==> param.Some? && param.value in Accepted && active == param.value
    ensures Truthy(param) && param.value in Accepted ==> active == param.value
  {
    if Truthy(param) && param.value in Accepted then param.value else current
  }

  /**
   * The accepted literals and the category enum share only "all" and "gems":
   * three buttons' literals are refused by the effect and six accepted
   * literals have no button.
   */
  lemma AcceptedDiffersFromEnum()
    ensures forall c :: GalleryFilters.Slug(c) in Accepted <==> c == GalleryFilters.All || c == GalleryFilters.Gems
    ensures forall s :: s in Accepted && GalleryFilters.IsSlug(s) ==> s == "all" || s == "gems"
    ensures |Accepted| == 8
  {
    forall c ensures GalleryFilters.Slug(c) in Accepted <==> c == GalleryFilters.All || c == GalleryFilters.Gems {
      match c
      case All =>
      case StainlessSteel =>
      case PlasticSignage =>
      case StickerWorks =>
      case Gems =>
    }
  }

  /**
   * For the three buttons whose literal the effect refuses (stainless-steel,
   * plastic-signage, sticker-works), a URL carrying that literal is still taken
   * as the initial filter, while the effect would leave any filter as it is.
   */
  lemma InitialValueIsUnvalidated(c: GalleryFilters.Category, current: string)
    requires c in {GalleryFilters.StainlessSteel, GalleryFilters.PlasticSignage, GalleryFilters.StickerWorks}
    ensures InitialFilter(FilterParam(UrlFor(GalleryFilters.Slug(c)))) == GalleryFilters.Slug(c)
    ensures EffectResult(FilterParam(UrlFor(GalleryFilters.Slug(c))), current) == current
  {
    CategoryUrlRoundTrip(c);
    AcceptedDiffersFromEnum();
  }

  /**
   * The six accepted literals that are no category ("stainless-name" among
   * them) are adopted from the URL both at mount and by the effect, yet no
   * button is drawn active for them.
   */
  lemma AcceptedValueWithoutButton(s: string, current: string)
    requires s in Accepted && !GalleryFilters.IsSlug(s)
    ensures InitialFilter(FilterParam(UrlFor(s))) == s
    ensures EffectResult(FilterParam(UrlFor(s)), current) == s
    ensures forall i :: 0 <= i < |GalleryFilters.Filters()| ==> !GalleryFilters.ActiveStyles(s)[i]
  {
    assert Query.SafeValue(s);
    UrlRoundTrip(s);
    GalleryFilters.AtMostOneActive(s);
  }

  /** The effect run at mount, with the parameter the initial filter came from, changes nothing. */
  lemma MountEffectIsNoOp(param: Option<string>)
    ensures EffectResult(param, InitialFilter(param)) == InitialFilter(param)
  {
  }

  /** After a click on `c`, the effect triggered by the new URL keeps `c`. */
  lemma EffectKeepsClickedFilter(c: GalleryFilters.Category)
    ensures EffectResult(FilterParam(UrlFor(GalleryFilters.Slug(c))), GalleryFilters.Slug(c)) == GalleryFilters.Slug(c)
  {
    CategoryUrlRoundTrip(c);
  }

  // ---------------------------------------------------------------------------
  // The projection

  /** The items of the given category, in catalog order. */
  function Matching(items: seq<Item>, category: string): (r: seq<Item>)
    ensures |r| <= |items|
    ensures forall x :: x in r <==> x in items && x.category == category
  {
    if items == [] then []
    else if items[0].category == category then [items[0]] + Matching(items[1..], category)
    else Matching(items[1..], category)
  }

  /** `filteredItems`: the whole catalog for "all", otherwise the items of the active category. */
  function FilteredItems(items: seq<Item>, active: string): (r: seq<Item>)
    ensures |r| <= |items|
    ensures active == "all" ==> r == items
    ensures active != "all" ==> forall x :: x in r ==> x in items && x.category == active
  {
    if active == "all" then items else Matching(items, active)
  }

  /** `a` is `b` with some elements dropped, the rest kept in order. */
  ghost predicate IsSubsequence(a: seq<Item>, b: seq<Item>)
    decreases |b|
  {
    a == [] || (b != [] && ((a[0] == b[0] && IsSubsequence(a[1..], b[1..])) || IsSubsequence(a, b[1..])))
  }

  /** How many times `x` occurs in `s`. */
  function CountOf(s: seq<Item>, x: Item): nat
  {
    if s == [] then 0 else (if s[0] == x then 1 else 0) + CountOf(s[1..], x)
  }

  /**
   * The projection for a category is the catalog's subsequence of exactly the
   * items of that category: every such item is kept as often as it occurs, no
   * other item is kept, and catalog order is preserved.
   */
  lemma {:induction false} MatchingIsOrderedSelection(items: seq<Item>, category: string)
    ensures IsSubsequence(Matching(items, category), items)
    ensures forall x :: CountOf(Matching(items, category), x) == if x.category == category then CountOf(items, x) else 0
  {
    if items != [] {
      MatchingIsOrderedSelection(items[1..], category);
      var rest := Matching(items[1..], category);
      if items[0].category == category {
        assert ([items[0]] + rest)[1..] == rest;
      } else {
        SubsequenceOfTail(rest, items);
      }
    }
  }

  lemma SubsequenceOfTail(a: seq<Item>, b: seq<Item>)
    requires b != [] && IsSubsequence(a, b[1..])
    ensures IsSubsequence(a, b)
  {
  }

  /** `filteredItems` is all items for "all" and the ordered selection of the active category otherwise. */
  lemma FilteredItemsSpec(items: seq<Item>, active: string)
    ensures active == "all" ==> FilteredItems(items, active) == items
    ensures active != "all" ==> forall x :: x in FilteredItems(items, active) <==> x in items && x.category == active
    ensures IsSubsequence(FilteredItems(items, active), items)
    ensures |FilteredItems(items, active)| <= |items|
  {
    if active == "all" {
      SubsequenceReflexive(items);
    } else {
      MatchingIsOrderedSelection(items, active);
    }
  }

  lemma {:induction false} SubsequenceReflexive(s: seq<Item>)
    ensures IsSubsequence(s, s)
  {
    if s != [] {
      SubsequenceReflexive(s[1..]);
    }
  }

  /** Filtering the filtered items again by the same filter changes nothing. */
  lemma {:induction false} FilterIdempotent(items: seq<Item>, active: string)
    ensures FilteredItems(FilteredItems(items, active), active) == FilteredItems(items, active)
  {
    if active != "all" {
      MatchingIdempotent(items, active);
    }
  }

  lemma {:induction false} MatchingIdempotent(items: seq<Item>, category: string)
    ensures Matching(Matching(items, category), category) == Matching(items, category)
  {
    if items != [] {
      MatchingIdempotent(items[1..], category);
      if items[0].category == category {
        assert ([items[0]] + Matching(items[1..], category))[1..] == Matching(items[1..], category);
      }
    }
  }

  /** The "No items found" block is shown exactly when the projection is empty. */
  predicate ShowsNoItems(items: seq<Item>, active: string)
    ensures items == [] ==> ShowsNoItems(items, active)
    ensures active == "all" && items != [] ==> !ShowsNoItems(items, active)
  {
    |FilteredItems(items, active)| == 0
  }

  /** It is shown exactly when the catalog is empty ("all") or holds no item of the active category. */
  lemma NoItemsIff(items: seq<Item>, active: string)
    ensures active == "all" ==> (ShowsNoItems(items, active) <==> items == [])
    ensures active != "all" ==> (ShowsNoItems(items, active) <==> forall x :: x in items ==> x.category != active)
  {
    if active != "all" && !ShowsNoItems(items, active) {
      assert FilteredItems(items, active)[0] in Matching(items, active);
    }
  }

  /** With the shipped catalog, every button but "All Works" leads to "No items found"; its one item is shown for "stainless-name". */
  lemma ShippedCatalogMatchesNoButton(c: GalleryFilters.Category)
    ensures ShowsNoItems(Catalog(), GalleryFilters.Slug(c)) <==> c != GalleryFilters.All
    ensures FilteredItems(Catalog(), "stainless-name") == Catalog()
  {
    NoItemsIff(Catalog(), GalleryFilters.Slug(c));
  }

  /** The card props of a catalog entry: the gallery passes no description, so no card shows a detail block. */
  function CardProps(item: Item): (p: GalleryItem.Props)
    ensures p.title == item.title && p.category == item.category && p.imageSrc == item.imageSrc
    ensures GalleryItem.Detail(p).None?
  {
    GalleryItem.Props(item.id, item.title, item.category, item.imageSrc, None)
  }

  // ---------------------------------------------------------------------------
  // The page's filter state

  /** The gallery page's filter state and the browser history it writes to. */
  class FilterController {
    /** `activeFilter`. */
    var activeFilter: string
    /** The session history; its last entry is the current location. */
    var history: seq<string>
    /** The `filter` parameter the URL effect last ran with. */
    var effectParam: Option<string>

    ghost predicate Valid()
      reads this`history
    {
      |history| > 0
    }

    function Location(): string
      reads this`history
      requires Valid()
    {
      history[|history| - 1]
    }

    /** Mounting at `location`: initial state from the parameter, then the effect's first run. */
    constructor (location: string)
      ensures Valid() && history == [location]
      ensures activeFilter == InitialFilter(FilterParam(location))
      ensures effectParam == FilterParam(location)
    {
      history := [location];
      activeFilter := InitialFilter(FilterParam(location));
      effectParam := FilterParam(location);
      new;
      RunEffect();
      MountEffectIsNoOp(FilterParam(location));
    }

    /** The effect body, run with the current location's parameter. */
    method RunEffect()
      requires Valid()
      modifies this`activeFilter, this`effectParam
      ensures Valid()
      ensures effectParam == FilterParam(Location())
      ensures activeFilter == EffectResult(FilterParam(Location()), old(activeFilter))
    {
      var p := FilterParam(Location());
      if Truthy(p) && p.value in Accepted {
        activeFilter := p.value;
      }
      effectParam := p;
    }

    /** After a render: the effect runs only when the `filter` parameter changed since its last run. */
    method Commit()
      requires Valid()
      modifies this`activeFilter, this`effectParam
      ensures Valid()
      ensures effectParam == FilterParam(Location())
      ensures activeFilter == if old(effectParam) != FilterParam(Location())
                              then EffectResult(FilterParam(Location()), old(activeFilter))
                              else old(activeFilter)
    {
      if FilterParam(Location()) != effectParam {
        RunEffect();
      }
    }

    /** `navigate(url, { replace })`: replace the current history entry, or push a new one. */
    method Navigate(url: string, replace: bool)
      requires Valid()
      modifies this`history
      ensures Valid() && Location() == url
      ensures history == if replace then old(history)[..|old(history)| - 1] + [url] else old(history) + [url]
    {
      if replace {
        history := history[..|history| - 1] + [url];
      } else {
        history := history + [url];
      }
    }

    /** `handleFilterChange`: set the filter, then replace the URL with its encoding. */
    method HandleFilterChange(f: GalleryFilters.Category)
      requires Valid()
      modifies this`activeFilter, this`history
      ensures Valid()
      ensures activeFilter == GalleryFilters.Slug(f)
      ensures |history| == |old(history)| && history[..|history| - 1] == old(history)[..|history| - 1]
      ensures Location() == UrlFor(GalleryFilters.Slug(f))
      ensures FilterParam(Location()) == if f == GalleryFilters.All then None else Some(GalleryFilters.Slug(f))
      ensures effectParam == old(effectParam)
    {
      activeFilter := GalleryFilters.Slug(f);
      var newUrl := UrlFor(GalleryFilters.Slug(f));
      Navigate(newUrl, true);
      CategoryUrlRoundTrip(f);
    }

    /**
     * A click on filter button `i` and the render it causes: the clicked
     * category is active afterwards, its button alone is drawn active, and the
     * URL carries it.
     */
    method ClickFilter(i: nat)
      requires Valid() && i < |GalleryFilters.Filters()|
      modifies this`activeFilter, this`history, this`effectParam
      ensures Valid()
      ensures activeFilter == GalleryFilters.Slug(GalleryFilters.Filters()[i].value)
      ensures forall j :: 0 <= j < |GalleryFilters.Filters()| ==> (GalleryFilters.ActiveStyles(activeFilter)[j] <==> j == i)
      ensures |history| == |old(history)| && history[..|history| - 1] == old(history)[..|history| - 1]
      ensures Location() == UrlFor(activeFilter)
      ensures effectParam == FilterParam(Location())
    {
      var c := GalleryFilters.OnClick(i);
      HandleFilterChange(c);
      ghost var h1 := history;
      Commit();
      assert history == h1;
      EffectKeepsClickedFilter(c);
    }
  }
}
