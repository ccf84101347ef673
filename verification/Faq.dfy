/** The FAQ accordion: clicking a question closes every item and then,
    unless the clicked item was already open, opens it. */
module Faq {

  /** One `.faq-item`: whether it has a `.faq-question` (only those listen
      for clicks and carry `aria-expanded`), whether it has the `active`
      class, and its question's `aria-expanded` value. */
  datatype FaqItem = FaqItem(hasQuestion: bool, active: bool, expanded: bool)

  /** The accordion shows what it claims: at most one item is open, only
      items with a question open, and a question's `aria-expanded` says
      whether its item is open. */
  predicate Inv(items: seq<FaqItem>) {
    && (forall j, k :: 0 <= j < |items| && 0 <= k < |items| && items[j].active && items[k].active ==> j == k)
    && (forall j :: 0 <= j < |items| && items[j].active ==> items[j].hasQuestion)
    && (forall j :: 0 <= j < |items| && items[j].hasQuestion ==> (items[j].expanded <==> items[j].active))
  }

  /** Every item loses `active`, and every question is marked collapsed. */
  function CloseAll(items: seq<FaqItem>): (r: seq<FaqItem>)
    ensures |r| == |items|
    ensures forall j :: 0 <= j < |r| ==> !r[j].active && r[j].hasQuestion == items[j].hasQuestion
    ensures forall j :: 0 <= j < |r| ==>
              r[j].expanded == (if items[j].hasQuestion then false else items[j].expanded)
  {
    seq(|items|, j requires 0 <= j < |items| =>
      items[j].(active := false, expanded := if items[j].hasQuestion then false else items[j].expanded))
  }

  /** A click on item `i`'s question. */
  function Click(items: seq<FaqItem>, i: int): (r: seq<FaqItem>)
    requires 0 <= i < |items| && items[i].hasQuestion
    ensures |r| == |items|
    ensures forall j :: 0 <= j < |r| ==> (r[j].active <==> j == i && !items[i].active)
    ensures forall j :: 0 <= j < |r| ==> r[j].hasQuestion == items[j].hasQuestion
    ensures forall j :: 0 <= j < |r| && r[j].hasQuestion ==> (r[j].expanded <==> r[j].active)
    ensures forall j :: 0 <= j < |r| && !r[j].hasQuestion ==> r[j].expanded == items[j].expanded
  {
    var wasActive := items[i].active;
    var closed := CloseAll(items);
    if wasActive then closed
    else closed[i := closed[i].(active := true, expanded := true)]
  }

  /** After any click, from any state, the accordion is consistent. */
  lemma ClickEstablishesInv(items: seq<FaqItem>, i: int)
    requires 0 <= i < |items| && items[i].hasQuestion
    ensures Inv(Click(items, i))
  {
  }

  /** Clicking the same question twice leaves its item open or closed as it
      was, and every other item closed. */
  lemma ClickTwice(items: seq<FaqItem>, i: int)
    requires 0 <= i < |items| && items[i].hasQuestion
    ensures var r := Click(Click(items, i), i);
            forall j :: 0 <= j < |r| ==> (r[j].active <==> j == i && items[i].active)
  {
  }
}
