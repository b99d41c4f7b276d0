/** The gem collection page: one card per gem and a dialog for the selected gem. */
module Gems {
  import opened Optional
  import GemCard

  /** A gem of the collection. */
  datatype Gem = Gem(
    id: string, name: string, description: string, price: string, imageSrc: string,
    carat: Option<string>, origin: Option<string>, phone: Option<string>)

  /** `{...gem}`: the gem's fields become the card's props. */
  function PropsOf(g: Gem): GemCard.Props
  {
    GemCard.Props(g.id, g.name, g.description, g.price, g.imageSrc, g.carat, g.origin, g.phone)
  }

  /** One rendered card: its React key, its props and its stagger slot (`index % 3`). */
  datatype Card = Card(key: string, props: GemCard.Props, slot: nat)

  /** `gems.map((gem, index) => <GemCard key={gem.id} ... />)`. */
  function Cards(gems: seq<Gem>): (cards: seq<Card>)
    ensures |cards| == |gems|
    ensures forall i :: 0 <= i < |cards| ==> cards[i].slot < 3
  {
    seq(|gems|, i requires 0 <= i < |gems| => Card(gems[i].id, PropsOf(gems[i]), i % 3))
  }

  /**
   * One card per gem, in catalog order, keyed by the gem's id and showing that
   * gem; distinct ids give distinct keys.
   */
  lemma CardsFollowCatalog(gems: seq<Gem>)
    ensures |Cards(gems)| == |gems|
    ensures forall i :: 0 <= i < |gems| ==> Cards(gems)[i].key == gems[i].id
    ensures forall i :: 0 <= i < |gems| ==> Cards(gems)[i].props == PropsOf(gems[i])
    ensures forall i :: 0 <= i < |gems| ==> GemCard.Render(Cards(gems)[i].props).name == gems[i].name
    ensures (forall i, j :: 0 <= i < j < |gems| ==> gems[i].id != gems[j].id) ==>
            forall i, j :: 0 <= i < j < |gems| ==> Cards(gems)[i].key != Cards(gems)[j].key
  {
  }

  /** The stagger slot is 0, 1 or 2, starts at 0, and repeats every three cards. */
  lemma StaggerSlotsCycle(gems: seq<Gem>)
    ensures forall i :: 0 <= i < |gems| ==> Cards(gems)[i].slot < 3
    ensures |gems| > 0 ==> Cards(gems)[0].slot == 0
    ensures forall i :: 0 <= i < |gems| - 1 ==>
              Cards(gems)[i + 1].slot == if Cards(gems)[i].slot == 2 then 0 else Cards(gems)[i].slot + 1
  {
  }

  // ---------------------------------------------------------------------------
  // The dialog

  /** `selectedGem` and `isDialogOpen`. */
  datatype Overlay = Overlay(selected: Option<Gem>, open: bool)

  /** At mount: no gem, closed. */
  const Initial: Overlay := Overlay(None, false)

  /** `handleGemClick(gem)`: select the gem and open, from any state. */
  function Select(s: Overlay, g: Gem): (r: Overlay)
    ensures r.open && r.selected == Some(g)
  {
    Overlay(Some(g), true)
  }

  /** `onOpenChange(open)`: only the open flag changes. */
  function SetOpen(s: Overlay, open: bool): (r: Overlay)
    ensures r.selected == s.selected && r.open == open
  {
    s.(open := open)
  }

  /**
   * Selecting retargets without an intermediate close; dismissing keeps the
   * selection, and dismissing twice is dismissing once.
   */
  lemma OverlayTransitions(s: Overlay, x: Gem, y: Gem)
    ensures Select(Select(s, x), y) == Select(s, y) == Overlay(Some(y), true)
    ensures SetOpen(Select(Select(s, x), y), false) == Overlay(Some(y), false)
    ensures SetOpen(s, false).selected == s.selected && !SetOpen(s, false).open
    ensures SetOpen(SetOpen(s, false), false) == SetOpen(s, false)
  {
  }

  /** The dialog's title, `{selectedGem?.name} - Stainless Steel Examples`. */
  function DialogTitle(s: Overlay): (title: string)
    ensures |title| >= |" - Stainless Steel Examples"|
    ensures title[|title| - |" - Stainless Steel Examples"|..] == " - Stainless Steel Examples"
    ensures s.selected.Some? ==> |title| == |s.selected.value.name| + |" - Stainless Steel Examples"|
                                 && title[..|s.selected.value.name|] == s.selected.value.name
    ensures s.selected.None? ==> title == " - Stainless Steel Examples"
  {
    match s.selected
    case None => " - Stainless Steel Examples"
    case Some(g) => g.name + " - Stainless Steel Examples"
  }

  /** What a visitor can do: click the card at an index, or dismiss the dialog (`onOpenChange(false)`). */
  datatype Event = CardClick(index: nat) | Dismiss

  /**
   * The page as written: `GemCard` declares no `onClick` prop and renders
   * nothing that receives one, so a card click reaches no handler.
   */
  function StepAsWritten(s: Overlay, e: Event): Overlay
  {
    match e
    case CardClick(_) => s
    case Dismiss => SetOpen(s, false)
  }

  function RunAsWritten(s: Overlay, events: seq<Event>): Overlay
    decreases |events|
  {
    if events == [] then s else RunAsWritten(StepAsWritten(s, events[0]), events[1..])
  }

  /** As written, whatever the visitor does, no gem is ever selected and the dialog never opens. */
  lemma {:induction false} AsWrittenDialogNeverOpens(events: seq<Event>)
    ensures RunAsWritten(Initial, events) == Initial
    decreases |events|
  {
    if events != [] {
      assert StepAsWritten(Initial, events[0]) == Initial;
      AsWrittenDialogNeverOpens(events[1..]);
    }
  }

  /** The page as intended: a card click runs `handleGemClick` for its gem. */
  function Step(s: Overlay, gems: seq<Gem>, e: Event): Overlay
  {
    match e
    case CardClick(i) => if i < |gems| then Select(s, gems[i]) else s
    case Dismiss => SetOpen(s, false)
  }

  function Run(s: Overlay, gems: seq<Gem>, events: seq<Event>): Overlay
    decreases |events|
  {
    if events == [] then s else Run(Step(s, gems, events[0]), gems, events[1..])
  }

  /** With the click delivered, the dialog shows the gem of the last card clicked, and is open unless dismissed since. */
  lemma {:induction false} LastClickSelects(s: Overlay, gems: seq<Gem>, events: seq<Event>, k: nat)
    requires k < |events| && events[k].CardClick? && events[k].index < |gems|
    requires forall j :: k < j < |events| ==> events[j] == Dismiss || events[j].index >= |gems|
    ensures Run(s, gems, events).selected == Some(gems[events[k].index])
    ensures Run(s, gems, events).open <==> forall j :: k < j < |events| ==> events[j] != Dismiss
    decreases |events|
  {
    if k > 0 {
      LastClickSelects(Step(s, gems, events[0]), gems, events[1..], k - 1);
    } else {
      AfterSelection(Step(s, gems, events[0]), gems, events[1..]);
    }
  }

  lemma {:induction false} AfterSelection(s: Overlay, gems: seq<Gem>, events: seq<Event>)
    requires forall j :: 0 <= j < |events| ==> events[j] == Dismiss || events[j].index >= |gems|
    ensures Run(s, gems, events).selected == s.selected
    ensures Run(s, gems, events).open <==> s.open && forall j :: 0 <= j < |events| ==> events[j] != Dismiss
    decreases |events|
  {
    if events != [] {
      AfterSelection(Step(s, gems, events[0]), gems, events[1..]);
    }
  }

  /** The page's overlay state over a fixed gem collection. */
  class Page {
    /** The collection; the overlay never changes it, so the card list is fixed. */
    const gems: seq<Gem>
    var selectedGem: Option<Gem>
    var isDialogOpen: bool

    function State(): Overlay
      reads this
    {
      Overlay(selectedGem, isDialogOpen)
    }

    constructor (gems: seq<Gem>)
      ensures this.gems == gems && State() == Initial
    {
      this.gems := gems;
      selectedGem := None;
      isDialogOpen := false;
    }

    /** `handleGemClick`. */
    method HandleGemClick(g: Gem)
      modifies this`selectedGem, this`isDialogOpen
      ensures State() == Select(old(State()), g)
    {
      selectedGem := Some(g);
      isDialogOpen := true;
    }

    /** `onOpenChange={setIsDialogOpen}`. */
    method OnOpenChange(open: bool)
      modifies this`isDialogOpen
      ensures State() == SetOpen(old(State()), open)
    {
      isDialogOpen := open;
    }

    /** A click on the card at `i`, delivered to `handleGemClick` as intended. */
    method ClickCard(i: nat)
      requires i < |gems|
      modifies this`selectedGem, this`isDialogOpen
      ensures State() == Step(old(State()), gems, CardClick(i))
      ensures State() == Overlay(Some(gems[i]), true)
    {
      HandleGemClick(gems[i]);
    }
  }
}
