/**
 * The waste: the pile of played cards. Index 0 is the top card, the one the
 * next slot card must match; each card's depth counts how many cards lie on
 * top of it.
 */
module Wastes {
  import opened Cards
  import opened Collections

  class Waste {
    var cards: seq<Card>

    constructor ()
      ensures cards == []
    {
      cards := [];
    }

    /** Each card object is on the pile once. */
    ghost predicate Valid()
      reads this
    {
      NoDuplicates(cards)
    }

    function Size(): nat
      reads this
    {
      |cards|
    }

    /** The indexer: the card at position `index`, 0 being the top card. */
    function At(index: int): (card: Card)
      reads this
      requires 0 <= index < |cards|
      ensures card in cards
    {
      cards[index]
    }

    /**
     * Puts a card on top: every card already on the pile moves one step down,
     * and the new card lies at depth 0.
     */
    method AddCard(card: Card)
      requires Valid() && card !in cards
      modifies this`cards, card`depth, (set c | c in cards)`depth
      ensures cards == [card] + old(cards) && Valid()
      ensures card.depth == 0
      ensures forall i :: 1 <= i < |cards| ==> cards[i].depth == old(cards[i - 1].depth) + 1
      ensures old(DepthsIndexed(cards)) ==> DepthsIndexed(cards)
    {
      ShiftCardDepths(1);
      cards := [card] + cards;
      // MoveToPosition(Vector3.zero)
      card.depth := 0;
    }

    /**
     * Takes the top card off the pile, moving every remaining card one step up.
     * On an empty pile it returns null and changes nothing.
     */
    method TakeTopCard() returns (card: Card?)
      requires Valid()
      modifies this`cards, (set c | c in cards)`depth
      ensures old(cards) == [] ==> card == null && cards == []
      ensures old(cards) != [] ==> card == old(cards[0]) && cards == old(cards[1..]) && card.depth == old(card.depth)
      ensures forall i :: 0 <= i < |cards| ==> cards[i].depth == old(cards[i + 1].depth) - 1
      ensures old(DepthsIndexed(cards)) ==> DepthsIndexed(cards)
      ensures Valid()
    {
      if |cards| == 0 {
        return null;
      }
      card := cards[0];
      cards := cards[1..];
      ShiftCardDepths(-1);
    }

    /** Moves every card on the pile `direction` steps deeper. */
    method ShiftCardDepths(direction: int)
      requires Valid()
      modifies (set c | c in cards)`depth
      ensures forall i :: 0 <= i < |cards| ==> cards[i].depth == old(cards[i].depth) + direction
    {
      var i := 0;
      while i < |cards|
        invariant 0 <= i <= |cards|
        invariant forall j :: 0 <= j < i ==> cards[j].depth == old(cards[j].depth) + direction
        invariant forall j :: i <= j < |cards| ==> cards[j].depth == old(cards[j].depth)
      {
        cards[i].depth := cards[i].depth + direction;
        i := i + 1;
      }
    }
  }
}
