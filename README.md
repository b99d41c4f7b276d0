# Gallery and gem catalog: filter, URL and overlay logic

This project models the stateful and computational core of a signage and gemstone showcase site. That core covers:

- the gallery page's active filter, and how it is kept in step with the `filter` query parameter of the page URL;
- the projection of the catalog that the filter selects, and the "No items found" state;
- the filter buttons and which of them is drawn active;
- the animated statistics counters;
- the gallery card's dialog and its category label;
- the gem page's selected-gem dialog and its card list;
- the gem card's optional rows and its WhatsApp inquiry message.

Modules follow the source files:

| module | source |
|---|---|
| `GalleryFilters` (gallery_filters.dfy) | src/components/GalleryFilters.tsx |
| `Gallery` (gallery.dfy) | src/pages/Gallery.tsx, page part |
| `Counter` (counter.dfy) | src/pages/Gallery.tsx, `CounterAnimation` |
| `GalleryItem` (gallery_item.dfy) | src/components/GalleryItem.tsx |
| `Gems` (gems.dfy) | src/pages/Gems.tsx |
| `GemCard` (gem_card.dfy) | src/components/GemCard.tsx |
| `Query` (query.dfy) | the browser's `location.search` and `URLSearchParams.get`, as the gallery page uses them |
| `Optional` (optional.dfy) | `undefined`/`null` values and JavaScript truthiness of strings |

State that the source updates in place is modelled as classes:

- `Gallery.FilterController` holds `activeFilter`, the session history that `navigate` writes, and the parameter the URL effect last ran with.
- `Counter.Animation` holds `count`, `startTime` and whether a frame is pending.
- `GalleryItem.Card` holds `isDialogOpen`.
- `Gems.Page` holds `selectedGem` and `isDialogOpen`.

The methods that compute a value are tied to pure functions: `EffectResult`, `UrlFor`, `Value`, `NextOpen`, `Select`/`SetOpen`. The lemmas are stated about those functions. `Navigate`, `Cancel` and `Restart` state their new fields directly.

The gallery's `activeFilter` is a string, not the five-value category type. The page casts the raw URL parameter to that type without checking it. The shipped catalog item also has the category "stainless-name", which is not one of the five. The URL effect accepts eight literals, and only "all" and "gems" are also categories. `AcceptedDiffersFromEnum`, `InitialValueIsUnvalidated` and `AcceptedValueWithoutButton` state this mismatch exactly.

Four behaviours of the code a reader may not expect:

- At mount, an unrecognised `filter` value is adopted, not rejected.
- `handleFilterChange` does not validate its argument. Only the type of its caller restricts it.
- The gallery card's backdrop has no click handler. Only the close button dismisses the dialog.
- No subcategory grouping exists in the code.

## Model

| member | source | states |
|---|---|---|
| GalleryFilters.CategoryOf | src/components/GalleryFilters.tsx:5 | a string is one of the five category literals iff it reads back as a category, and then that category's literal is the string |
| GalleryFilters.SlugRoundTrip | src/components/GalleryFilters.tsx:5 | every category's literal is recognised and reads back as that same category, so the five literals are distinct |
| GalleryFilters.Filters | src/components/GalleryFilters.tsx:18-24 | five buttons, the one at position i selecting the category whose Position is i, with the captions of the list |
| GalleryFilters.FiltersEnumerateCategories | src/components/GalleryFilters.tsx:18-24 | the button list has five entries, no category twice, and every category exactly once |
| GalleryFilters.CaptionOf | src/components/GalleryFilters.tsx:19-23 | each category has a caption taken from its own entry in the button list |
| GalleryFilters.ActiveStyles | src/components/GalleryFilters.tsx:34-36 | one style flag per button, set exactly when the active filter equals that button's literal |
| GalleryFilters.AtMostOneActive | src/components/GalleryFilters.tsx:34-36 | for any filter string, at most one button is active; one is active iff the string is a category literal, and then it is that category's button |
| GalleryFilters.ExactlyOneActive | src/components/GalleryFilters.tsx:34-36 | for a category, exactly its own button is drawn active |
| GalleryFilters.OnClick | src/components/GalleryFilters.tsx:31 | clicking button i hands over a category whose only active button is button i |
| Gallery.UrlFor | src/pages/Gallery.tsx:83 | "/gallery" for "all", which carries no query, and "/gallery?filter=" + f otherwise; BarePageOnlyForAll and UrlRoundTrip prove it is the bare page only for "all" and that the parameter reads back |
| Gallery.BarePageOnlyForAll | src/pages/Gallery.tsx:83 | the URL is the bare page exactly for "all"; every other filter puts a query on the URL |
| Gallery.FilterParam | src/pages/Gallery.tsx:57-58 | a location with no '?' has no `filter` parameter |
| Gallery.UrlRoundTrip | src/pages/Gallery.tsx:57-58 | reading `filter` back from the URL written for f gives no parameter for "all" and f otherwise, for any value a query carries unescaped |
| Gallery.CategoryUrlRoundTrip | src/pages/Gallery.tsx:83 | the same round trip holds for every category literal |
| Gallery.InitialFilter | src/pages/Gallery.tsx:60-62 | the initial filter is the raw parameter when it is present and non-empty, otherwise "all"; it is never empty |
| Gallery.EffectResult | src/pages/Gallery.tsx:64-78 | the effect adopts the parameter iff it is present, non-empty and one of the eight literals; otherwise the filter is unchanged |
| Gallery.AcceptedDiffersFromEnum | src/pages/Gallery.tsx:67-74 | of the five category literals, the effect accepts only "all" and "gems"; the other six accepted literals are not categories |
| Gallery.InitialValueIsUnvalidated | src/pages/Gallery.tsx:60-78 | for stainless-steel, plastic-signage and sticker-works, the URL's value becomes the initial filter, but the effect would leave any filter unchanged |
| Gallery.AcceptedValueWithoutButton | src/pages/Gallery.tsx:64-78 | an accepted literal that is not a category is adopted both at mount and by the effect, and no filter button is active for it |
| Gallery.MountEffectIsNoOp | src/pages/Gallery.tsx:57-78 | the effect's first run, on the parameter the initial state came from, leaves the initial filter unchanged |
| Gallery.EffectKeepsClickedFilter | src/pages/Gallery.tsx:64-86 | after a click on a category, the effect triggered by the new URL never undoes the click |
| Gallery.Matching | src/pages/Gallery.tsx:108 | the selection is no longer than the catalog and contains exactly the catalog items of the category |
| Gallery.MatchingIsOrderedSelection | src/pages/Gallery.tsx:108 | the selection is a subsequence of the catalog (order kept), and keeps each item of the category as often as it occurs and no other item |
| Gallery.FilteredItems | src/pages/Gallery.tsx:105-108 | never longer than the catalog; the whole catalog for "all"; otherwise only catalog items whose category is the active filter |
| Gallery.FilteredItemsSpec | src/pages/Gallery.tsx:105-108 | `filteredItems` is the whole catalog for "all"; otherwise its members are exactly the items of the active category; either way it is an ordered subsequence no longer than the catalog |
| Gallery.FilterIdempotent | src/pages/Gallery.tsx:105-108 | filtering the filtered items again by the same filter changes nothing |
| Gallery.ShowsNoItems | src/pages/Gallery.tsx:151 | an empty catalog always shows "No items found"; under "all" a non-empty catalog never does |
| Gallery.NoItemsIff | src/pages/Gallery.tsx:151-158 | "No items found" is shown iff the catalog is empty (for "all"), or no item has the active category |
| Gallery.ShippedCatalogMatchesNoButton | src/pages/Gallery.tsx:95-108 | with the shipped one-item catalog, every button except "All Works" leads to "No items found"; "stainless-name" shows the item |
| Gallery.CardProps | src/pages/Gallery.tsx:139-148 | each card gets its item's title, category and image; no description is passed, so no card dialog shows a detail block |
| Gallery.FilterController.constructor | src/pages/Gallery.tsx:57-78 | at mount the history is the one location, the filter is `InitialFilter` of its parameter, and the effect has run on that parameter |
| Gallery.FilterController.RunEffect | src/pages/Gallery.tsx:64-78 | the effect body sets the filter to `EffectResult` of the current parameter and records that parameter |
| Gallery.FilterController.Commit | src/pages/Gallery.tsx:64-78 | after a render, the effect runs only when the `filter` parameter changed since its last run; otherwise the filter is unchanged |
| Gallery.FilterController.Navigate | src/pages/Gallery.tsx:85 | a replacing navigation swaps the current history entry for the URL; a pushing one appends it |
| Gallery.FilterController.HandleFilterChange | src/pages/Gallery.tsx:80-86 | sets the filter to the category's literal and replaces the current entry with its URL; the history's length and earlier entries are unchanged, and the new URL's parameter is absent for "all" and the literal otherwise |
| Gallery.FilterController.ClickFilter | src/pages/Gallery.tsx:132-136 | a button click followed by its render leaves that button's category active, only that button drawn active, the URL encoding it, the effect's recorded parameter equal to that URL's parameter, and the history's length and earlier entries unchanged |
| Counter.Value | src/pages/Gallery.tsx:29-30 | the shown count is 0 at the first frame and exactly `end` once the duration has passed |
| Counter.ValueBounded | src/pages/Gallery.tsx:29-30 | from the first frame on, a non-negative target's count stays between 0 and the target |
| Counter.ValueMonotone | src/pages/Gallery.tsx:29-30 | for a non-negative target, the count never decreases as elapsed time grows |
| Counter.ReachesEndExactlyWhenStopping | src/pages/Gallery.tsx:29-34 | for a positive target, the count equals the target exactly when no further frame is requested |
| Counter.DoneProjectsSamples | src/pages/Gallery.tsx:125 | the 630 counter over 2 s shows 0 at the start, 315 at 1 s and 630 at 2 s, and stops requesting frames at 2 s |
| Counter.Animation.constructor | src/pages/Gallery.tsx:15-37 | the count starts at 0, no start time is set, and the first frame is requested; the duration defaults to 2 s |
| Counter.Animation.Tick | src/pages/Gallery.tsx:27-35 | the start time is fixed at the first frame (or while it is falsy), the count is `Value` of the elapsed time, and another frame is requested iff the duration has not passed |
| Counter.Animation.Cancel | src/pages/Gallery.tsx:39-41 | teardown leaves no frame pending |
| Counter.Animation.Restart | src/pages/Gallery.tsx:21-42 | a change of `end` or `duration` runs the effect again with the new values, an unset start time and a frame pending, while the shown count keeps its old value until that frame |
| GalleryItem.CategoryLabel | src/components/GalleryItem.tsx:47 | the label has the category's length, a space wherever the category has '-', every other character unchanged, and no '-' |
| GalleryItem.LabelIdempotent | src/components/GalleryItem.tsx:81 | relabelling a label changes nothing |
| GalleryItem.LabelCollapsesOnlyHyphenAndSpace | src/components/GalleryItem.tsx:47 | two categories with the same label differ only at places holding '-' or ' ' |
| GalleryItem.Detail | src/components/GalleryItem.tsx:76-84 | the detail block appears iff the description is present and non-empty, and then shows that description with the category label |
| GalleryItem.NextOpen | src/components/GalleryItem.tsx:32-60 | after an event the dialog is open iff the event was a card click, or it was open and the event was not the close button |
| GalleryItem.OnlyCloseButtonDismisses | src/components/GalleryItem.tsx:32-64 | an open dialog closes iff the event is the close button; a closed one opens iff it is the card; repeating an event changes nothing |
| GalleryItem.OpenUntilClosed | src/components/GalleryItem.tsx:55-64 | an open dialog stays open through any events that do not include the close button |
| GalleryItem.LastClickDecides | src/components/GalleryItem.tsx:32-60 | after any event sequence, the dialog is open iff the last card-or-close click was on the card |
| GalleryItem.Card.constructor | src/components/GalleryItem.tsx:23 | the dialog starts closed |
| GalleryItem.Card.Handle | src/components/GalleryItem.tsx:32-60 | each event moves the open flag as `NextOpen` says |
| GemCard.InquiryMessage | src/components/GemCard.tsx:73 | the message is the name, id and price plus 82 template characters long, opens with the greeting and ends with the closing question |
| GemCard.InquiryMessageFields | src/components/GemCard.tsx:73 | the message holds the name, id and price verbatim, each at a fixed place between the template's fixed pieces |
| GemCard.Row | src/components/GemCard.tsx:53-63 | an optional property's row is drawn iff the value is present and non-empty, and then shows that value |
| GemCard.Render | src/components/GemCard.tsx:18-73 | price, name and description always shown; carat and origin rows only when truthy; the phone defaults to +12345678901 only when absent; the message is the inquiry for this gem |
| GemCard.OptionalFieldsIndependent | src/components/GemCard.tsx:43-63 | changing carat or origin changes neither the price, name and description nor the contact |
| Gems.Cards | src/pages/Gems.tsx:60-65 | one card per gem, each with a stagger slot below 3 |
| Gems.CardsFollowCatalog | src/pages/Gems.tsx:60-63 | one card per gem, in catalog order, keyed by the gem's id and given exactly that gem's properties; distinct ids give distinct keys |
| Gems.StaggerSlotsCycle | src/pages/Gems.tsx:65 | the stagger slot is in {0,1,2}, starts at 0 and steps 0,1,2,0,… from card to card |
| Gems.Select | src/pages/Gems.tsx:31-34 | selecting a gem opens the dialog on that gem |
| Gems.SetOpen | src/pages/Gems.tsx:74 | the open flag takes the given value and the selection is kept |
| Gems.OverlayTransitions | src/pages/Gems.tsx:31-34 | selecting retargets with no close; dismissing keeps the selection, closes, and is idempotent |
| Gems.DialogTitle | src/pages/Gems.tsx:77 | the title ends in " - Stainless Steel Examples" and starts with the selected gem's name; with no gem it is just that suffix |
| Gems.AsWrittenDialogNeverOpens | src/pages/Gems.tsx:66 | as written, from mount, no sequence of card clicks and dismissals ever selects a gem or opens the dialog |
| Gems.LastClickSelects | src/pages/Gems.tsx:31-34 | with clicks delivered, the dialog shows the gem of the last card clicked, and is open iff no dismissal came after it |
| Gems.Page.constructor | src/pages/Gems.tsx:13-14 | no gem selected, dialog closed |
| Gems.Page.HandleGemClick | src/pages/Gems.tsx:31-34 | selects the gem and opens the dialog, from any state |
| Gems.Page.OnOpenChange | src/pages/Gems.tsx:74 | only the open flag changes; the selection is kept |
| Gems.Page.ClickCard | src/pages/Gems.tsx:66 | a click on card i selects gem i and opens the dialog; the gem list is a constant the overlay cannot change |
| Query.Search | src/pages/Gallery.tsx:57 | `location.search` is empty or a '?' followed by at least one character, never holds '#', and is empty for a URL with no '?' |
| Query.Get | src/pages/Gallery.tsx:57-58 | an empty search string, or a bare '?', has no parameter |
| Query.Lookup | src/pages/Gallery.tsx:58 | `get` finds a value iff some pair has the name, and then returns the first such pair's value |
| Query.WriteThenGet | src/pages/Gallery.tsx:57-58 | a parameter written into a path's query reads back unchanged |
| Query.NoQueryNoParam | src/pages/Gallery.tsx:57-58 | a path with no '?' has no parameter |

## Left out

- JSX markup, Tailwind classes, CSS `capitalize`, hover effects and framer-motion: presentational only. The category label is modelled before `capitalize` is applied.
- The Navbar, Footer, PageHeader, CallToAction and ContactWhatsApp components, and the Dialog and Tabs library, are not part of this model. ContactWhatsApp is represented only by the phone and message it receives.
- The Dialog library's own dismiss triggers (escape, overlay click, close button) are modelled as one `Dismiss` event, `onOpenChange(false)`.
- `gem_details.json` and the image URL arrays are data. The gem list is a parameter. Only the gallery's one-item catalog is included, because it shows the category mismatch.
- Query.Get: percent-decoding is not modelled. `SafeValue` excludes '%' so that the round-trip lemmas are still true of the real decoder.
- Counter.Value: the source computes in floating point. The model uses exact integer arithmetic on whole milliseconds, so a float rounding near a step may differ by one.
- Counter.Value: requires a positive duration. With a zero duration the source yields NaN or Infinity, which has no integer counterpart.
- Counter.ValueMonotone: stated for non-negative targets only. Every target the page passes is positive.
- Counter.Animation.Tick: the timing of `requestAnimationFrame` callbacks is the host's. A tick is a call that may happen only while a frame is pending. React's scheduling of the effect cleanup and rerun after a prop change is collapsed into one `Restart` call.
- The stagger slot's conversion to a float `animationDelay` string is left out. `GemCard` also drops the `style` prop, so the delay never reaches the page.
- Subcategory grouping and slug capitalisation do not appear in the code, so they are not modelled.

## Findings

| source | as written | input that shows it | evidently intended | confidence | as-written member | corrected member |
|---|---|---|---|---|---|---|
| src/pages/Gems.tsx:66 | `onClick` is passed to `GemCard`. `GemCard` (src/components/GemCard.tsx:6-28) neither declares nor forwards that prop, so the click reaches no handler. | Any click on any gem card, from mount. | A click on a card runs `handleGemClick` for its gem and opens the examples dialog. | high; not executed | Gems.AsWrittenDialogNeverOpens | Gems.Page.ClickCard |
