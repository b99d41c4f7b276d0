/** The gallery's filter buttons: a closed category type and its ordered list of buttons. */
module GalleryFilters {
  import opened Optional

  /** The five values of the `FilterCategory` type. */
  datatype Category = All | StainlessSteel | PlasticSignage | StickerWorks | Gems

  /** The string literal each category stands for. */
  function Slug(c: Category): string
  {
    match c
    case All => "all"
    case StainlessSteel => "stainless-steel"
    case PlasticSignage => "plastic-signage"
    case StickerWorks => "sticker-works"
    case Gems => "gems"
  }

  /** A string is a category's literal. */
  predicate IsSlug(s: string) {
    s in {"all", "stainless-steel", "plastic-signage", "sticker-works", "gems"}
  }

  /** The category a literal stands for, if any. */
  function CategoryOf(s: string): (r: Option<Category>)
    ensures r.Some? <==> IsSlug(s)
    ensures r.Some? ==> Slug(r.value) == s
  {
    if s == "all" then Some(All)
    else if s == "stainless-steel" then Some(StainlessSteel)
    else if s == "plastic-signage" then Some(PlasticSignage)
    else if s == "sticker-works" then Some(StickerWorks)
    else if s == "gems" then Some(Gems)
    else None
  }

  /** Every category's literal reads back as that category, so distinct categories have distinct literals. */
  lemma SlugRoundTrip(c: Category)
    ensures IsSlug(Slug(c))
    ensures CategoryOf(Slug(c)) == Some(c)
  {
  }

  /** One button: the category it selects and its caption. */
  datatype Filter = Filter(value: Category, caption: string)

  /** The buttons, in display order. */
  function Filters(): (fs: seq<Filter>)
    ensures |fs| == 5
    ensures forall i :: 0 <= i < |fs| ==> Position(fs[i].value) == i
  {
    [ Filter(All, "All Works"),
      Filter(StainlessSteel, "Stainless Steel"),
      Filter(PlasticSignage, "Plastic Signage"),
      Filter(StickerWorks, "Sticker Works"),
      Filter(Gems, "Gem Collection") ]
  }

  /** Where the button of `c` stands in the list. */
  function Position(c: Category): nat
  {
    match c
    case All => 0
    case StainlessSteel => 1
    case PlasticSignage => 2
    case StickerWorks => 3
    case Gems => 4
  }

  /**
   * The list has five buttons, no category twice, and every category once, at
   * its `Position`; so the buttons and the categories correspond one to one.
   */
  lemma FiltersEnumerateCategories()
    ensures |Filters()| == 5
    ensures forall i, j :: 0 <= i < j < |Filters()| ==> Filters()[i].value != Filters()[j].value
    ensures forall c :: Position(c) < |Filters()| && Filters()[Position(c)].value == c
  {
    forall c ensures Position(c) < |Filters()| && Filters()[Position(c)].value == c {
      match c
      case All =>
      case StainlessSteel =>
      case PlasticSignage =>
      case StickerWorks =>
      case Gems =>
    }
  }

  /** The caption of the button for `c`. */
  function CaptionOf(c: Category): (caption: string)
    ensures exists i :: 0 <= i < |Filters()| && Filters()[i] == Filter(c, caption)
  {
    FiltersEnumerateCategories();
    Filters()[Position(c)].caption
  }

  /**
   * Which buttons are drawn in the active style: button `i` is active when the
   * active filter string equals its category's literal.
   */
  function ActiveStyles(active: string): (r: seq<bool>)
    ensures |r| == |Filters()|
    ensures forall i :: 0 <= i < |r| ==> (r[i] <==> Slug(Filters()[i].value) == active)
  {
    seq(|Filters()|, i requires 0 <= i < |Filters()| => Slug(Filters()[i].value) == active)
  }

  /**
   * At most one button is active; one is active exactly when `active` is the
   * literal of a category, and then it is that category's button.
   */
  lemma AtMostOneActive(active: string)
    ensures forall i, j :: 0 <= i < j < |Filters()| ==> !(ActiveStyles(active)[i] && ActiveStyles(active)[j])
    ensures (exists i :: 0 <= i < |Filters()| && ActiveStyles(active)[i]) <==> IsSlug(active)
    ensures forall i :: 0 <= i < |Filters()| && ActiveStyles(active)[i] ==> CategoryOf(active) == Some(Filters()[i].value)
  {
    var r := ActiveStyles(active);
    FiltersEnumerateCategories();
    forall i, j | 0 <= i < j < |Filters()| ensures !(r[i] && r[j]) {
      SlugRoundTrip(Filters()[i].value);
      SlugRoundTrip(Filters()[j].value);
    }
    if IsSlug(active) {
      var c := CategoryOf(active).value;
      assert r[Position(c)];
    }
    forall i | 0 <= i < |Filters()| && r[i] ensures CategoryOf(active) == Some(Filters()[i].value) {
      SlugRoundTrip(Filters()[i].value);
    }
  }

  /** For an active filter of the enum, exactly the button of that category is active. */
  lemma ExactlyOneActive(c: Category)
    ensures exists i :: 0 <= i < |Filters()| && Filters()[i].value == c && ActiveStyles(Slug(c))[i]
    ensures forall i :: 0 <= i < |Filters()| && ActiveStyles(Slug(c))[i] ==> Filters()[i].value == c
  {
    AtMostOneActive(Slug(c));
    SlugRoundTrip(c);
  }

  /** Clicking button `i` passes its category to `setActiveFilter`, and nothing else. */
  function OnClick(i: nat): (selected: Category)
    requires i < |Filters()|
    ensures forall j :: 0 <= j < |Filters()| ==> (ActiveStyles(Slug(selected))[j] <==> j == i)
  {
    var c := Filters()[i].value;
    ExactlyOneActive(c);
    FiltersEnumerateCategories();
    c
  }
}
