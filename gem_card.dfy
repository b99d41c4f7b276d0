/** A gem's card: price tag, name, optional properties and a WhatsApp inquiry button. */
module GemCard {
  import opened Optional

  /** The card's props; `phone` is left undefined by callers that rely on the default. */
  datatype Props = Props(
    id: string, name: string, description: string, price: string, imageSrc: string,
    carat: Option<string>, origin: Option<string>, phone: Option<string>)

  /** What the inquiry button hands to WhatsApp. */
  datatype Contact = Contact(phone: string, message: string)

  /** What the card shows. */
  datatype View = View(
    priceTag: string, name: string, caratRow: Option<string>, originRow: Option<string>,
    description: string, contact: Contact)

  /** The phone used when the props carry none. */
  const DefaultPhone: string := "+12345678901"

  const Greeting: string := "Hello, I'm interested in the "
  const IdOpen: string := " (ID: "
  const PriceLead: string := ") priced at "
  const Closing: string := ". Can you provide more information?"

  /** The inquiry text for a gem. */
  function InquiryMessage(name: string, id: string, price: string): (m: string)
    ensures |m| == |name| + |id| + |price| + 82
    ensures m[..|Greeting|] == Greeting && m[|m| - |Closing|..] == Closing
  {
    Greeting + name + IdOpen + id + PriceLead + price + Closing
  }

  /** `t` occurs in `s` as a contiguous run of characters. */
  predicate Occurs(t: string, s: string)
  {
    exists k :: 0 <= k <= |s| && t <= s[k..]
  }

  /**
   * The message holds the name, id and price verbatim, each at a fixed place
   * between the template's fixed pieces, so each can be read back from it.
   */
  lemma InquiryMessageFields(name: string, id: string, price: string)
    ensures var m := InquiryMessage(name, id, price);
      var n := |Greeting|;
      var i := n + |name| + |IdOpen|;
      var p := i + |id| + |PriceLead|;
      && |m| == p + |price| + |Closing|
      && m[..n] == Greeting
      && m[n..n + |name|] == name
      && m[n + |name|..i] == IdOpen
      && m[i..i + |id|] == id
      && m[i + |id|..p] == PriceLead
      && m[p..p + |price|] == price
      && m[p + |price|..] == Closing
    ensures Occurs(name, InquiryMessage(name, id, price))
    ensures Occurs(id, InquiryMessage(name, id, price))
    ensures Occurs(price, InquiryMessage(name, id, price))
  {
    var m := InquiryMessage(name, id, price);
    var n := |Greeting|;
    var i := n + |name| + |IdOpen|;
    var p := i + |id| + |PriceLead|;
    assert m == (((((Greeting + name) + IdOpen) + id) + PriceLead) + price) + Closing;
    assert m[n..n + |name|] == name;
    assert m[i..i + |id|] == id;
    assert m[p..p + |price|] == price;
    assert name <= m[n..];
    assert id <= m[i..];
    assert price <= m[p..];
  }

  /** Whether a row is drawn for an optional property, `{carat && ...}`: present and non-empty. */
  function Row(v: Option<string>): (r: Option<string>)
    ensures r.Some? <==> Truthy(v)
    ensures r.Some? ==> r.value == v.value
  {
    if v.Some? && v.value != "" then v else None
  }

  /** Rendering a card. */
  function Render(p: Props): (v: View)
    ensures v.priceTag == p.price && v.name == p.name && v.description == p.description
    ensures v.caratRow.Some? <==> Truthy(p.carat)
    ensures v.caratRow.Some? ==> v.caratRow.value == p.carat.value
    ensures v.originRow.Some? <==> Truthy(p.origin)
    ensures v.originRow.Some? ==> v.originRow.value == p.origin.value
    ensures v.contact.phone == if p.phone.Some? then p.phone.value else DefaultPhone
    ensures v.contact.message == InquiryMessage(p.name, p.id, p.price)
  {
    var phone := match p.phone case Some(ph) => ph case None => DefaultPhone;
    View(p.price, p.name, Row(p.carat), Row(p.origin), p.description,
         Contact(phone, InquiryMessage(p.name, p.id, p.price)))
  }

  /** The optional properties change only their own rows: price, name, text and contact stay the same. */
  lemma OptionalFieldsIndependent(p: Props, carat: Option<string>, origin: Option<string>)
    ensures var v, w := Render(p), Render(p.(carat := carat, origin := origin));
      v.priceTag == w.priceTag && v.name == w.name && v.description == w.description && v.contact == w.contact
  {
  }
}
