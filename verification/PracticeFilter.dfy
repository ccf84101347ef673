/** The practice-area filter: each card is given a category from its
    heading, and a filter button shows the cards of its category (or all
    of them) and hides the rest. */
module PracticeFilter {
  import opened Text
  import opened Options

  const All := "all"
  const Other := "other"

  /** The category a practice-area heading maps to, if it is one of the
      twelve known headings. */
  function KnownCategory(title: string): (c: Option<string>)
    ensures c.Some? ==> IsCategory(c.value) && c.value != Other
  {
    if title == "Civil & Criminal Law" then Some("family")
    else if title == "Cyber Crime & Digital Offences" then Some("criminal")
    else if title == "POCSO & Child Protection Laws" then Some("criminal")
    else if title == "Corporate & Startup Legal Services" then Some("corporate")
    else if title == "Property & Land Laws" then Some("civil")
    else if title == "Medical & Healthcare Laws" then Some("civil")
    else if title == "Criminal Procedure & Legal Remedies" then Some("criminal")
    else if title == "POSH Act & Sexual Offences" then Some("criminal")
    else if title == "Legal Consultancy & Advisory" then Some("advisory")
    else if title == "Drafting & Issuance of Legal Notices" then Some("advisory")
    else if title == "Rights, Duties & Legal Awareness" then Some("advisory")
    else if title == "Animal Welfare & Environmental Protection" then Some("civil")
    else None
  }

  /** The categories a card can be given. */
  predicate IsCategory(c: string) {
    c == "family" || c == "criminal" || c == "corporate" || c == "civil" || c == "advisory" || c == Other
  }

  /** `categoryMap[title.textContent.trim()] || 'other'`. */
  function Category(heading: string): (c: string)
    ensures IsCategory(c)
    ensures c == Other <==> KnownCategory(Trim(heading)).None?
    ensures KnownCategory(Trim(heading)).Some? ==> c == KnownCategory(Trim(heading)).value
  {
    match KnownCategory(Trim(heading))
    case Some(c) => c
    case None => Other
  }

  /** White space around a heading does not change its category. */
  lemma CategoryIgnoresPadding(heading: string)
    ensures Category(Trim(heading)) == Category(heading)
  {
    TrimIdempotent(heading);
  }

  /** A practice card: the text of its `h3`, if it has one. A card without
      a heading is never given a category. */
  datatype Card = Card(heading: Option<string>)

  function CardCategory(card: Card): (c: Option<string>)
    ensures c.Some? <==> card.heading.Some?
  {
    match card.heading
    case Some(h) => Some(Category(h))
    case None => None
  }

  /** Which cards a click on the button with `data-filter` `filter` shows. */
  function Shown(cards: seq<Card>, filter: string): (shown: seq<bool>)
    ensures |shown| == |cards|
    ensures forall k :: 0 <= k < |cards| ==>
              (shown[k] <==> filter == All || (cards[k].heading.Some? && Category(cards[k].heading.value) == filter))
  {
    seq(|cards|, k requires 0 <= k < |cards| => filter == All || CardCategory(cards[k]) == Some(filter))
  }

  /** Which buttons carry the `active` class after a click on button `i`,
      given which did before: the class is removed from every button and
      then added to the clicked one, so exactly that one ends active,
      whichever were active before. */
  function ActiveButtons(before: seq<bool>, i: nat): (active: seq<bool>)
    requires i < |before|
    ensures |active| == |before|
    ensures forall b :: 0 <= b < |before| ==> (active[b] <==> b == i)
  {
    var cleared := seq(|before|, b requires 0 <= b < |before| => false);
    cleared[i := true]
  }

  /** The buttons' previous state leaves no trace. */
  lemma ActiveForgetsBefore(before: seq<bool>, other: seq<bool>, i: nat)
    requires i < |before| && |other| == |before|
    ensures ActiveButtons(before, i) == ActiveButtons(other, i)
  {
  }

  /** The "all" button shows every card. */
  lemma AllShowsEverything(cards: seq<Card>)
    ensures forall k :: 0 <= k < |cards| ==> Shown(cards, All)[k]
  {
  }

  /** A filter that is not one of the categories hides every card. */
  lemma UnknownFilterHidesAll(cards: seq<Card>, filter: string)
    requires filter != All && !IsCategory(filter)
    ensures forall k :: 0 <= k < |cards| ==> !Shown(cards, filter)[k]
  {
  }

  /** Every card with a heading is shown by exactly one category button,
      and a card without one only by "all". */
  lemma OneCategoryPerCard(cards: seq<Card>, k: int, f: string, g: string)
    requires 0 <= k < |cards| && f != All && g != All
    requires Shown(cards, f)[k] && Shown(cards, g)[k]
    ensures f == g && IsCategory(f) && cards[k].heading.Some?
  {
  }

  lemma SomeCategoryPerCard(cards: seq<Card>, k: int)
    requires 0 <= k < |cards| && cards[k].heading.Some?
    ensures var f := Category(cards[k].heading.value);
            IsCategory(f) && f != All && Shown(cards, f)[k]
  {
  }
}
