/**
 * The older engine: deal the board, keep slot cards' faces in step with the
 * visibility rule, and react to taps. It has no Wild cards, no undo and no
 * scoring.
 */
module TriPeaks {
  import opened Cards
  import opened Slots
  import opened Boards
  import opened Decks
  import opened Wastes
  import opened Tables

  class TriPeaksGame {
    const deck: Deck
    const board: Board
    const waste: Waste

    /** The scene wiring: the three containers the game plays with. */
    constructor (deck: Deck, board: Board, waste: Waste)
      ensures this.deck == deck && this.board == board && this.waste == waste
    {
      this.deck := deck;
      this.board := board;
      this.waste := waste;
    }

    /** Between taps: every card is in one place and the board shows exactly its uncovered cards. */
    ghost predicate Valid()
      reads this, deck, waste, board, board.slots, board.SlotSet()`card, board.SlotSet()`overlapping
      reads HeldCards(board)`revealed
    {
      Custody(deck, waste, board) && Visible(board)
    }

    /**
     * Start: deals one deck card into each slot in index order, turns the
     * uncovered ones face up and puts the next deck card face up on the waste.
     * The deck must hold more cards than there are slots, or the final deal
     * reads past its end.
     */
    method DealInitialBoard()
      requires Custody(deck, waste, board) && board.Contents() == Empties(board.slots.Length)
      requires |deck.cards| > board.slots.Length
      modifies deck`cards, waste`cards, board.SlotSet()`card
      modifies (set c | c in deck.cards)`depth, (set c | c in deck.cards)`revealed, (set c | c in waste.cards)`depth
      ensures var n := board.slots.Length;
        board.Contents() == old(deck.cards[..n]) && deck.cards == old(deck.cards[n + 1..]) &&
        waste.cards == [old(deck.cards[n])] + old(waste.cards)
      ensures waste.cards[0].revealed
      ensures InPlay(deck, waste, board) == old(InPlay(deck, waste, board))
      ensures Valid()
    {
      DealAndShow();
      RevealNextCard(deck, waste, board);
    }

    /** The first two steps of Start: a deck card into each slot, then the faces updated. */
    method DealAndShow()
      requires Custody(deck, waste, board) && board.Contents() == Empties(board.slots.Length)
      requires |deck.cards| > board.slots.Length
      modifies deck`cards, board.SlotSet()`card
      modifies (set c | c in deck.cards)`depth, (set c | c in deck.cards)`revealed
      ensures var n := board.slots.Length;
        board.Contents() == old(deck.cards[..n]) && deck.cards == old(deck.cards[n..]) && waste.cards == old(waste.cards)
      ensures InPlay(deck, waste, board) == old(InPlay(deck, waste, board))
      ensures Valid()
    {
      ghost var dealt := deck.cards;
      DealToSlots(deck, waste, board);
      UpdateBoard(dealt);
    }

    /**
     * UpdateBoard: every occupied slot's card is turned face up exactly when
     * its overlapping slots are all empty.
     */
    method UpdateBoard(ghost held: seq<Card?>)
      requires Custody(deck, waste, board) && forall c | c in board.Contents() && c != null :: c in held
      modifies (set c: Card | c in held)`revealed
      ensures board.Contents() == old(board.Contents()) && InPlay(deck, waste, board) == old(InPlay(deck, waste, board))
      ensures Custody(deck, waste, board) && Visible(board)
    {
      CustodySlotsDistinct(deck, waste, board);
      HeldInContents(board);
      ghost var before, pool := board.Contents(), Pool(deck, waste, board);
      RefreshVisibility(board);
      assert board.Contents() == before && Pool(deck, waste, board) == pool;
    }

    /** Moves the card of an occupied slot onto the waste, then updates the board. */
    method RemoveCardFromSlot(slot: Slot)
      requires Valid() && slot in board.SlotSet() && slot.card != null
      modifies slot`card, waste`cards, slot.card`depth, (set c | c in waste.cards)`depth
      modifies (set c: Card | c in board.Contents())`revealed
      ensures waste.cards == [old(slot.card)] + old(waste.cards) && deck.cards == old(deck.cards)
      ensures InPlay(deck, waste, board) == old(InPlay(deck, waste, board))
      ensures Valid()
      ensures board.Contents() == old(board.Contents())[SlotIndex(board, slot) := null]
    {
      ghost var before := board.Contents();
      Tables.RemoveCardFromSlot(deck, waste, board, slot);
      UpdateBoard(before);
    }

    /**
     * A tap. A tap on any deck card moves the deck's front card face up onto
     * the waste. A tap on a slot card moves it onto the waste exactly when it
     * is face up and its rank is one above or below the waste top's, Ace and
     * King being neighbours. Anything else changes nothing.
     */
    method OnRecognizeTap(tap: Tap)
      requires Valid() && TapConsistent(tap, deck, waste, board)
      requires tap.SlotCard? && tap.card.revealed ==> waste.cards != []
      modifies deck`cards, waste`cards, board.SlotSet()`card
      modifies (set c | c in deck.cards)`depth, (set c | c in deck.cards)`revealed, (set c | c in waste.cards)`depth
      modifies (set c: Card | c in board.Contents())`depth, (set c: Card | c in board.Contents())`revealed
      ensures Valid() && InPlay(deck, waste, board) == old(InPlay(deck, waste, board))
      ensures tap.DeckCard? ==>
        deck.cards == old(deck.cards[1..]) && waste.cards == [old(deck.cards[0])] + old(waste.cards) &&
        waste.cards[0].revealed && board.Contents() == old(board.Contents())
      ensures tap.SlotCard? && old(tap.card.revealed && Adjacent(tap.card.rank, waste.cards[0].rank)) ==>
        waste.cards == [tap.card] + old(waste.cards) && deck.cards == old(deck.cards) &&
        board.Contents() == old(board.Contents())[SlotIndex(board, tap.slot) := null]
      ensures !tap.DeckCard? && !(tap.SlotCard? && old(tap.card.revealed && Adjacent(tap.card.rank, waste.cards[0].rank))) ==>
        deck.cards == old(deck.cards) && waste.cards == old(waste.cards) && board.Contents() == old(board.Contents())
    {
      match tap
      case DeckCard(_) =>
        Tables.RevealNextCard(deck, waste, board);
      case SlotCard(card, slot) =>
        if card.revealed && Adjacent(card.rank, waste.At(0).rank) {
          RemoveCardFromSlot(slot);
        }
      case _ =>
    }
  }
}
