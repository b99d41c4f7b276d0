/** A gallery card and the full-screen dialog it opens. */
module GalleryItem {
  import opened Optional

  /** The card's props; `category` is shown through `CategoryLabel`. */
  datatype Props = Props(id: string, title: string, category: string, imageSrc: string, description: Option<string>)

  /** `category.replace(/-/g, ' ')`: every hyphen becomes a space, every other character stays. */
  function CategoryLabel(category: string): (shown: string)
    ensures |shown| == |category|
    ensures forall i :: 0 <= i < |category| ==> shown[i] == (if category[i] == '-' then ' ' else category[i])
    ensures '-' !in shown
  {
    if category == [] then []
    else [if category[0] == '-' then ' ' else category[0]] + CategoryLabel(category[1..])
  }

  /** Relabelling a label changes nothing. */
  lemma LabelIdempotent(category: string)
    ensures CategoryLabel(CategoryLabel(category)) == CategoryLabel(category)
  {
    var l := CategoryLabel(category);
    assert forall i :: 0 <= i < |l| ==> CategoryLabel(l)[i] == l[i];
  }

  /** Only hyphens are touched: two categories with the same label differ only where one has '-' and the other ' '. */
  lemma LabelCollapsesOnlyHyphenAndSpace(a: string, b: string)
    requires CategoryLabel(a) == CategoryLabel(b)
    ensures |a| == |b|
    ensures forall i :: 0 <= i < |a| && a[i] != b[i] ==> (a[i] == '-' || a[i] == ' ') && (b[i] == '-' || b[i] == ' ')
  {
    assert |a| == |CategoryLabel(a)|;
    forall i | 0 <= i < |a| && a[i] != b[i]
      ensures (a[i] == '-' || a[i] == ' ') && (b[i] == '-' || b[i] == ' ')
    {
      assert CategoryLabel(a)[i] == CategoryLabel(b)[i];
    }
  }

  /** The dialog's text block below the image. */
  datatype DetailBlock = DetailBlock(description: string, categoryLabel: string)

  /** `{description && ...}`: the block is rendered only for a present, non-empty description. */
  function Detail(p: Props): (r: Option<DetailBlock>)
    ensures r.Some? <==> Truthy(p.description)
    ensures r.Some? ==> r.value.description == p.description.value && r.value.categoryLabel == CategoryLabel(p.category)
  {
    if p.description.Some? && p.description.value != "" then
      Some(DetailBlock(p.description.value, CategoryLabel(p.category)))
    else None
  }

  /** What the user can do to a card and its dialog. */
  datatype Event =
    | CardClick      // the card
    | CloseClick     // the dialog's close button
    | BackdropClick  // the darkened area around the dialog
    | ContentClick   // the dialog's image or text

  /** Whether the dialog is open after `e`: the card opens it, the close button closes it, nothing else has a handler. */
  function NextOpen(open: bool, e: Event): (next: bool)
    ensures next <==> e == CardClick || (open && e != CloseClick)
  {
    match e
    case CardClick => true
    case CloseClick => false
    case BackdropClick => open
    case ContentClick => open
  }

  /** The close button is the only way to close the dialog, and the card the only way to open it. */
  lemma OnlyCloseButtonDismisses(open: bool, e: Event)
    ensures open && !NextOpen(open, e) <==> open && e == CloseClick
    ensures !open && NextOpen(open, e) <==> !open && e == CardClick
    ensures NextOpen(NextOpen(open, e), e) == NextOpen(open, e)
  {
  }

  /** The dialog state after a sequence of events. */
  function Run(open: bool, events: seq<Event>): bool
    decreases |events|
  {
    if events == [] then open else Run(NextOpen(open, events[0]), events[1..])
  }

  /** An open dialog stays open through any events without a close click. */
  lemma {:induction false} OpenUntilClosed(events: seq<Event>)
    requires forall i :: 0 <= i < |events| ==> events[i] != CloseClick
    ensures Run(true, events)
  {
    if events != [] {
      OpenUntilClosed(events[1..]);
    }
  }

  /** The state is decided by the last card or close click; with neither, it is unchanged. */
  lemma {:induction false} LastClickDecides(open: bool, events: seq<Event>, k: nat)
    requires k < |events| && events[k] in {CardClick, CloseClick}
    requires forall i :: k < i < |events| ==> events[i] !in {CardClick, CloseClick}
    ensures Run(open, events) == (events[k] == CardClick)
    decreases |events|
  {
    if k > 0 {
      LastClickDecides(NextOpen(open, events[0]), events[1..], k - 1);
    } else {
      KeepsState(NextOpen(open, events[0]), events[1..]);
    }
  }

  lemma {:induction false} KeepsState(open: bool, events: seq<Event>)
    requires forall i :: 0 <= i < |events| ==> events[i] !in {CardClick, CloseClick}
    ensures Run(open, events) == open
  {
    if events != [] {
      KeepsState(open, events[1..]);
    }
  }

  /** The card's `isDialogOpen` state. */
  class Card {
    var isDialogOpen: bool

    /** The dialog starts closed. */
    constructor ()
      ensures !isDialogOpen
    {
      isDialogOpen := false;
    }

    /** The handler for `e`, where the card has one. */
    method Handle(e: Event)
      modifies this
      ensures isDialogOpen == NextOpen(old(isDialogOpen), e)
    {
      match e
      case CardClick => isDialogOpen := true;
      case CloseClick => isDialogOpen := false;
      case BackdropClick =>
      case ContentClick =>
    }
  }
}
