/**
 * The table both game engines play on: a deck, a waste and a board. This
 * module holds the custody rule (every card object lies in at most one place),
 * the visibility rule for slot cards and the card moves between containers
 * that both engines share.
 */
module Tables {
  import opened Cards
  import opened Slots
  import opened Boards
  import opened Decks
  import opened Wastes
  import opened Collections

  /**
   * What a tap gesture selected: nothing, an object that is not a card, or a
   * card together with the container its game object is parented to.
   */
  datatype Tap =
    | NoSelection
    | NotACard
    | DeckCard(card: Card)
    | SlotCard(card: Card, slot: Slot)
    | WasteCard(card: Card)

  /** The parent named by a tap is the container that holds the card. */
  ghost predicate TapConsistent(tap: Tap, deck: Deck, waste: Waste, board: Board)
    reads deck, waste, board, board.slots, board.SlotSet()`card
  {
    match tap
    case DeckCard(c) => c in deck.cards
    case SlotCard(c, s) => s in board.SlotSet() && s.card == c
    case WasteCard(c) => c in waste.cards
    case _ => true
  }

  /** The cards held by the board's slots. */
  ghost function HeldCards(board: Board): set<Card>
    reads board, board.slots, board.SlotSet()`card
  {
    set s | s in board.SlotSet() && s.card != null :: s.card
  }

  /** Every card in play, in container order: the deck, then the waste, then the held cards in slot order. */
  ghost function Pool(deck: Deck, waste: Waste, board: Board): seq<Card>
    reads deck, waste, board, board.slots, board.SlotSet()`card
  {
    deck.cards + waste.cards + Present(board.Contents())
  }

  /** Every card in play, counted once per place it occupies. */
  ghost function InPlay(deck: Deck, waste: Waste, board: Board): multiset<Card>
    reads deck, waste, board, board.slots, board.SlotSet()`card
  {
    multiset(Pool(deck, waste, board))
  }

  /**
   * Custody: the containers are well formed and no card lies in two places (or
   * twice in one).
   */
  ghost predicate Custody(deck: Deck, waste: Waste, board: Board)
    reads deck, waste, board, board.slots, board.SlotSet()`card, board.SlotSet()`overlapping
  {
    deck.Valid() && waste.Valid() && board.Valid() && NoDuplicates(Pool(deck, waste, board))
  }

  /** Custody is exactly the statement that every card in play is in play once. */
  lemma CustodyIffUnique(deck: Deck, waste: Waste, board: Board)
    requires deck.Valid() && waste.Valid() && board.Valid()
    ensures Custody(deck, waste, board) <==> Unique(InPlay(deck, waste, board))
  {
    NoDuplicatesIffUnique(Pool(deck, waste, board));
  }

  /**
   * The visibility rule: an occupied slot shows its card face up exactly when
   * every slot in its overlapping set is empty.
   */
  ghost predicate Visible(board: Board)
    requires board.Valid()
    reads board, board.slots, board.SlotSet()`card, board.SlotSet()`overlapping, HeldCards(board)`revealed
  {
    forall i :: 0 <= i < board.slots.Length && board.slots[i].card != null ==>
      (board.slots[i].card.revealed <==> board.slots[i].Uncovered())
  }

  /** A card is held by the board exactly when it is among the occupied slots' cards. */
  lemma HeldIffOccupied(board: Board, c: Card)
    ensures c in HeldCards(board) <==> c in Occupied(board.Contents())
  {
    OccupiedMembers(board.Contents(), c);
    if c in HeldCards(board) {
      var s :| s in board.SlotSet() && s.card == c;
      var i :| 0 <= i < board.slots.Length && board.slots[i] == s;
      assert board.Contents()[i] == c;
    }
  }

  /** Every held card appears in the board's contents. */
  lemma HeldInContents(board: Board)
    ensures forall c | c in HeldCards(board) :: c in board.Contents()
  {
    forall c | c in HeldCards(board) ensures c in board.Contents() {
      var s :| s in board.SlotSet() && s.card == c;
      var i :| 0 <= i < board.slots.Length && board.slots[i] == s;
      assert board.Contents()[i] == c;
    }
  }

  /** A card held by a slot of the board is in play. */
  lemma HeldInPool(deck: Deck, waste: Waste, board: Board, i: nat)
    requires i < board.slots.Length && board.slots[i].card != null
    ensures board.slots[i].card in Pool(deck, waste, board)
  {
    OccupiedMembers(board.Contents(), board.slots[i].card);
  }

  /**
   * When the cards in play are the same and the waste is the same, the deck
   * and the board together hold the same cards.
   */
  lemma InPlayApart(d: seq<Card>, w: seq<Card>, p: seq<Card?>, d': seq<Card>, p': seq<Card?>)
    requires multiset(d' + w + Present(p')) == multiset(d + w + Present(p))
    ensures multiset(d') + Occupied(p') == multiset(d) + Occupied(p)
  {
    var a, b, m := multiset(d') + Occupied(p'), multiset(d) + Occupied(p), multiset(w);
    assert multiset(d' + w + Present(p')) == a + m;
    assert multiset(d + w + Present(p)) == b + m;
    MultisetCancelPart(a, b, m);
  }

  /** Under custody a card lies in at most one of the three containers. */
  lemma CustodyApart(deck: Deck, waste: Waste, board: Board, c: Card)
    requires Custody(deck, waste, board)
    ensures c in deck.cards ==> c !in waste.cards && c !in HeldCards(board)
    ensures c in waste.cards ==> c !in HeldCards(board)
  {
    CustodyIffUnique(deck, waste, board);
    var a, b, o := multiset(deck.cards), multiset(waste.cards), Occupied(board.Contents());
    assert InPlay(deck, waste, board) == a + b + o;
    HeldIffOccupied(board, c);
    assert (a + b + o)[c] == a[c] + b[c] + o[c];
  }

  /** In a sequence without repetitions made of three parts, no element lies in two parts. */
  lemma PoolApart(d: seq<Card>, w: seq<Card>, p: seq<Card>, c: Card)
    requires NoDuplicates(d + w + p)
    ensures c in d ==> c !in w && c !in p
    ensures c in w ==> c !in p
  {
    var s := d + w + p;
    forall i, j | 0 <= i < |d| && 0 <= j < |w| ensures d[i] != w[j] {
      assert s[i] == d[i] && s[|d| + j] == w[j];
    }
    forall i, j | 0 <= i < |d| && 0 <= j < |p| ensures d[i] != p[j] {
      assert s[i] == d[i] && s[|d| + |w| + j] == p[j];
    }
    forall i, j | 0 <= i < |w| && 0 <= j < |p| ensures w[i] != p[j] {
      assert s[|d| + i] == w[i] && s[|d| + |w| + j] == p[j];
    }
  }

  /** Under custody a card of the deck or of the waste is held by no slot. */
  lemma Unheld(deck: Deck, waste: Waste, board: Board, c: Card)
    requires Custody(deck, waste, board) && (c in deck.cards || c in waste.cards)
    ensures c !in HeldCards(board)
  {
    PoolApart(deck.cards, waste.cards, Present(board.Contents()), c);
    HeldIffOccupied(board, c);
  }

  /** Under custody no two slots hold the same card. */
  lemma CustodySlotsDistinct(deck: Deck, waste: Waste, board: Board)
    requires Custody(deck, waste, board)
    ensures forall i, j :: 0 <= i < board.slots.Length && 0 <= j < board.slots.Length && i != j && board.slots[i].card != null ==>
      board.slots[i].card != board.slots[j].card
  {
    CustodyIffUnique(deck, waste, board);
    var a, b, o := multiset(deck.cards), multiset(waste.cards), Occupied(board.Contents());
    assert InPlay(deck, waste, board) == a + b + o;
    var cs := board.Contents();
    forall i, j | 0 <= i < board.slots.Length && 0 <= j < board.slots.Length && i != j && board.slots[i].card != null
      ensures board.slots[i].card != board.slots[j].card
    {
      forall x | x in o ensures o[x] == 1 {
        assert (a + b + o)[x] == a[x] + b[x] + o[x];
      }
      OccupiedDistinct(cs, i, j);
    }
  }

  /**
   * RefreshBoard (and UpdateBoard of the older game): every occupied slot's card
   * is turned face up when no overlapping slot holds a card, face down
   * otherwise. Only the revealed flags of held cards change.
   */
  method RefreshVisibility(board: Board)
    requires board.Valid()
    requires forall i, j :: 0 <= i < board.slots.Length && 0 <= j < board.slots.Length && i != j && board.slots[i].card != null ==>
      board.slots[i].card != board.slots[j].card
    modifies HeldCards(board)`revealed
    ensures Visible(board)
  {
    var i, iMax := 0, board.Size();
    while i < iMax
      invariant 0 <= i <= iMax
      invariant forall k :: 0 <= k < i && board.slots[k].card != null ==>
        (board.slots[k].card.revealed <==> board.slots[k].Uncovered())
    {
      var slot := board.At(i);
      if slot.card != null {
        var faceUp := RevealRule(slot);
        slot.card.SetRevealed(faceUp);
      }
      i := i + 1;
    }
  }

  /** The inner loop of RefreshBoard: scan the overlapping slots until an occupied one is found. */
  method RevealRule(slot: Slot) returns (faceUp: bool)
    ensures faceUp <==> slot.Uncovered()
  {
    faceUp := true;
    var pending := slot.overlapping;
    while pending != {}
      invariant pending <= slot.overlapping
      invariant faceUp && forall t | t in slot.overlapping - pending :: t.card == null
      decreases pending
    {
      var dependentSlot :| dependentSlot in pending;
      if dependentSlot.card != null {
        faceUp := false;
        break;
      }
      pending := pending - {dependentSlot};
    }
  }

  /** Moves the deck's front card into an empty slot (PlaceCard puts it at depth 0). */
  method DealCardToSlot(deck: Deck, waste: Waste, board: Board, slot: Slot)
    requires Custody(deck, waste, board) && slot in board.SlotSet() && slot.card == null && deck.cards != []
    modifies deck`cards, (set c | c in deck.cards)`depth, slot`card
    ensures slot.card == old(deck.cards[0]) && deck.cards == old(deck.cards[1..])
    ensures board.Contents() == old(board.Contents())[SlotIndex(board, slot) := slot.card]
    ensures InPlay(deck, waste, board) == old(InPlay(deck, waste, board))
    ensures Custody(deck, waste, board)
  {
    ghost var i := SlotIndex(board, slot);
    ghost var before, onWaste := board.Contents(), waste.cards;
    ghost var onDeck := deck.cards;
    var card := deck.DealCard();
    slot.PlaceCard(card);
    FilledFromDeck(deck, waste, board, i, onDeck, onWaste, before);
  }

  /** Moves the deck's front card onto the waste, face up. */
  method RevealNextCard(deck: Deck, waste: Waste, board: Board)
    requires Custody(deck, waste, board) && deck.cards != []
    modifies deck`cards, waste`cards, (set c | c in deck.cards[..1])`revealed
    modifies (set c | c in deck.cards)`depth, (set c | c in waste.cards)`depth
    ensures waste.cards == [old(deck.cards[0])] + old(waste.cards) && deck.cards == old(deck.cards[1..])
    ensures waste.cards[0].revealed && board.Contents() == old(board.Contents())
    ensures InPlay(deck, waste, board) == old(InPlay(deck, waste, board))
    ensures Custody(deck, waste, board)
    ensures old(Visible(board)) ==> Visible(board)
  {
    ghost var onDeck, onWaste, before := deck.cards, waste.cards, board.Contents();
    PoolApart(onDeck, onWaste, Present(before), onDeck[0]);
    var card := DeckFrontToWaste(deck, waste, board);
    card.SetRevealed(true);
    DeckToWaste(deck, waste, board, onDeck, onWaste, before);
    Unheld(deck, waste, board, card);
  }

  /**
   * The card movement of RevealNextCard, DealCard followed by AddCard: the
   * board is not touched, so what it shows stays as it was.
   */
  method DeckFrontToWaste(deck: Deck, waste: Waste, board: Board) returns (card: Card)
    requires deck.Valid() && waste.Valid() && board.Valid() && deck.cards != [] && deck.cards[0] !in waste.cards
    modifies deck`cards, waste`cards, (set c | c in deck.cards)`depth, (set c | c in waste.cards)`depth
    ensures card == old(deck.cards[0]) && waste.cards == [card] + old(waste.cards) && deck.cards == old(deck.cards[1..])
    ensures deck.Valid() && waste.Valid() && board.Contents() == old(board.Contents())
    ensures old(Visible(board)) ==> Visible(board)
  {
    card := deck.DealCard();
    waste.AddCard(card);
  }

  /** Moves the card of an occupied slot onto the waste. */
  method RemoveCardFromSlot(deck: Deck, waste: Waste, board: Board, slot: Slot)
    requires Custody(deck, waste, board) && slot in board.SlotSet() && slot.card != null
    modifies slot`card, waste`cards, slot.card`depth, (set c | c in waste.cards)`depth
    ensures waste.cards == [old(slot.card)] + old(waste.cards) && slot.card == null
    ensures InPlay(deck, waste, board) == old(InPlay(deck, waste, board))
    ensures Custody(deck, waste, board)
    ensures board.Contents() == old(board.Contents())[SlotIndex(board, slot) := null]
  {
    CustodyApart(deck, waste, board, slot.card);
    ghost var i := SlotIndex(board, slot);
    ghost var onDeck, onWaste, before := deck.cards, waste.cards, board.Contents();
    var card := slot.TakeCard();
    waste.AddCard(card);
    ClearedToWaste(deck, waste, board, i, onDeck, onWaste, before);
  }

  /** Moves the card of an occupied slot to the front of the deck, face down. */
  method ReturnCardFromSlot(deck: Deck, waste: Waste, board: Board, slot: Slot)
    requires Custody(deck, waste, board) && slot in board.SlotSet() && slot.card != null
    modifies slot`card, deck`cards, slot.card`depth, slot.card`revealed, (set c | c in deck.cards)`depth
    ensures deck.cards == [old(slot.card)] + old(deck.cards) && slot.card == null
    ensures !deck.cards[0].revealed
    ensures InPlay(deck, waste, board) == old(InPlay(deck, waste, board))
    ensures Custody(deck, waste, board)
    ensures board.Contents() == old(board.Contents())[SlotIndex(board, slot) := null]
  {
    CustodyApart(deck, waste, board, slot.card);
    ghost var i := SlotIndex(board, slot);
    ghost var onDeck, onWaste, before := deck.cards, waste.cards, board.Contents();
    var card := slot.TakeCard();
    deck.AddCardOnTop(card);
    card.SetRevealed(false);
    ClearedToDeck(deck, waste, board, i, onDeck, onWaste, before);
  }

  /** Moves the waste's top card to the front of the deck, face down. */
  method ReturnCardFromWaste(deck: Deck, waste: Waste, board: Board)
    requires Custody(deck, waste, board) && waste.cards != []
    modifies deck`cards, waste`cards, (set c | c in waste.cards[..1])`revealed
    modifies (set c | c in deck.cards)`depth, (set c | c in waste.cards)`depth
    ensures deck.cards == [old(waste.cards[0])] + old(deck.cards) && waste.cards == old(waste.cards[1..])
    ensures !deck.cards[0].revealed && board.Contents() == old(board.Contents())
    ensures InPlay(deck, waste, board) == old(InPlay(deck, waste, board))
    ensures Custody(deck, waste, board)
    ensures old(Visible(board)) ==> Visible(board)
  {
    ghost var onDeck, onWaste, before := deck.cards, waste.cards, board.Contents();
    PoolApart(onDeck, onWaste, Present(before), onWaste[0]);
    var card := WasteTopToDeck(deck, waste, board);
    card.SetRevealed(false);
    WasteToDeck(deck, waste, board, onDeck, onWaste, before);
    Unheld(deck, waste, board, card);
  }

  /**
   * The card movement of ReturnCardFromWaste, TakeTopCard followed by
   * AddCardOnTop: the board is not touched, so what it shows stays as it was.
   */
  method WasteTopToDeck(deck: Deck, waste: Waste, board: Board) returns (card: Card)
    requires deck.Valid() && waste.Valid() && board.Valid() && waste.cards != [] && waste.cards[0] !in deck.cards
    modifies deck`cards, waste`cards, (set c | c in deck.cards)`depth, (set c | c in waste.cards)`depth
    ensures card == old(waste.cards[0]) && deck.cards == [card] + old(deck.cards) && waste.cards == old(waste.cards[1..])
    ensures deck.Valid() && waste.Valid() && board.Contents() == old(board.Contents())
    ensures old(Visible(board)) ==> Visible(board)
  {
    var c := waste.TakeTopCard();
    card := c;
    deck.AddCardOnTop(card);
  }

  /** Moves the waste's top card into an empty slot. */
  method ReturnCardToSlot(deck: Deck, waste: Waste, board: Board, slot: Slot)
    requires Custody(deck, waste, board) && waste.cards != []
    requires slot in board.SlotSet() && slot.card == null
    modifies slot`card, waste`cards, (set c | c in waste.cards)`depth
    ensures slot.card == old(waste.cards[0]) && waste.cards == old(waste.cards[1..])
    ensures InPlay(deck, waste, board) == old(InPlay(deck, waste, board))
    ensures Custody(deck, waste, board)
    ensures board.Contents() == old(board.Contents())[SlotIndex(board, slot) := slot.card]
  {
    ghost var i := SlotIndex(board, slot);
    ghost var onDeck, onWaste, before := deck.cards, waste.cards, board.Contents();
    var card := waste.TakeTopCard();
    slot.PlaceCard(card);
    FilledFromWaste(deck, waste, board, i, onDeck, onWaste, before);
  }

  /**
   * The dealing loop of both engines: slot by slot in index order, one deck card
   * each, until the slots or the deck run out.
   */
  method DealToSlots(deck: Deck, waste: Waste, board: Board)
    requires Custody(deck, waste, board) && board.Contents() == Empties(board.slots.Length)
    modifies deck`cards, (set c | c in deck.cards)`depth, board.SlotSet()`card
    ensures var n := if board.slots.Length <= old(|deck.cards|) then board.slots.Length else old(|deck.cards|);
      deck.cards == old(deck.cards[n..]) && board.Contents() == old(deck.cards[..n]) + Empties(board.slots.Length - n)
    ensures InPlay(deck, waste, board) == old(InPlay(deck, waste, board))
    ensures Custody(deck, waste, board)
  {
    ghost var dealt, inPlay := deck.cards, InPlay(deck, waste, board);
    var i, iMax := 0, board.Size();
    DealtNone(deck, waste, board);
    while i < iMax && deck.Size() > 0
      invariant iMax == board.slots.Length && DealtTo(deck, waste, board, dealt, inPlay, i)
    {
      DealNext(deck, waste, board, dealt, inPlay, i);
      i := i + 1;
    }
    DealtAll(deck, waste, board, dealt, inPlay, i);
    assert dealt == old(deck.cards) && inPlay == old(InPlay(deck, waste, board));
  }

  /**
   * Where the dealing loop stands before slot i: the first i cards of the deck
   * `dealt` it began with fill the first i slots, the rest are still on the
   * deck, and the cards in play are still `inPlay`.
   */
  ghost predicate DealtTo(deck: Deck, waste: Waste, board: Board, dealt: seq<Card>, inPlay: multiset<Card>, i: nat)
    reads deck, waste, board, board.slots, board.SlotSet()`card, board.SlotSet()`overlapping
  {
    i <= board.slots.Length && i <= |dealt| && deck.cards == dealt[i..] &&
    board.Contents() == dealt[..i] + Empties(board.slots.Length - i) &&
    InPlay(deck, waste, board) == inPlay && Custody(deck, waste, board)
  }

  /** When the dealing loop begins, no slot has been dealt to. */
  lemma DealtNone(deck: Deck, waste: Waste, board: Board)
    requires Custody(deck, waste, board) && board.Contents() == Empties(board.slots.Length)
    ensures DealtTo(deck, waste, board, deck.cards, InPlay(deck, waste, board), 0)
  {
    assert deck.cards[0..] == deck.cards;
  }

  /** When the dealing loop ends, the slots or the deck have run out. */
  lemma DealtAll(deck: Deck, waste: Waste, board: Board, dealt: seq<Card>, inPlay: multiset<Card>, i: nat)
    requires DealtTo(deck, waste, board, dealt, inPlay, i) && !(i < board.slots.Length && |deck.cards| > 0)
    ensures var n := if board.slots.Length <= |dealt| then board.slots.Length else |dealt|;
      deck.cards == dealt[n..] && board.Contents() == dealt[..n] + Empties(board.slots.Length - n)
    ensures InPlay(deck, waste, board) == inPlay && Custody(deck, waste, board)
  {
  }

  /** One round of the dealing loop: the next deck card goes into slot i. */
  method DealNext(deck: Deck, waste: Waste, board: Board, ghost dealt: seq<Card>, ghost inPlay: multiset<Card>, i: nat)
    requires DealtTo(deck, waste, board, dealt, inPlay, i) && i < board.slots.Length && deck.cards != []
    modifies deck`cards, (set c | c in dealt)`depth, board.SlotSet()`card
    ensures DealtTo(deck, waste, board, dealt, inPlay, i + 1)
  {
    var slot := board.At(i);
    assert SlotIndex(board, slot) == i && slot.card == board.Contents()[i];
    DealCardToSlot(deck, waste, board, slot);
    DealtOneMore(dealt, i, board.slots.Length);
    assert dealt[i..][1..] == dealt[i + 1..];
  }

  /** A row of n empty slots. */
  function Empties(n: nat): (cs: seq<Card?>)
    ensures |cs| == n && forall k :: 0 <= k < n ==> cs[k] == null
  {
    seq(n, _ => null)
  }

  /** Writing the next dealt card over the first empty slot extends the dealt prefix by one. */
  lemma DealtOneMore(dealt: seq<Card>, i: nat, n: nat)
    requires i < n && i < |dealt|
    ensures (dealt[..i] + Empties(n - i))[i := dealt[i]] == dealt[..i + 1] + Empties(n - i - 1)
  {
  }

  /** The index at which a board slot sits in the board's slot array. */
  ghost function SlotIndex(board: Board, slot: Slot): (i: nat)
    requires NoDuplicates(board.slots[..]) && slot in board.SlotSet()
    reads board, board.slots
    ensures i < board.slots.Length && board.slots[i] == slot
    ensures forall j :: 0 <= j < board.slots.Length && board.slots[j] == slot ==> j == i
  {
    var i :| 0 <= i < board.slots.Length && board.slots[i] == slot;
    i
  }

  /**
   * The custody step of DealCardToSlot, on the states before and after: the
   * deck's front card has moved into the empty slot at index i.
   */
  lemma FilledFromDeck(deck: Deck, waste: Waste, board: Board, i: nat, onDeck: seq<Card>, onWaste: seq<Card>, before: seq<Card?>)
    requires board.Valid() && deck.Valid() && waste.cards == onWaste && NoDuplicates(onWaste)
    requires i < board.slots.Length == |before| && before[i] == null
    requires forall k :: 0 <= k < |before| && k != i ==> board.slots[k].card == before[k]
    requires onDeck != [] && deck.cards == onDeck[1..] && board.slots[i].card == onDeck[0]
    requires NoDuplicates(onDeck + onWaste + Present(before))
    ensures board.Contents() == before[i := onDeck[0]]
    ensures InPlay(deck, waste, board) == multiset(onDeck + onWaste + Present(before))
    ensures Custody(deck, waste, board)
  {
    NoDuplicatesIffUnique(onDeck + onWaste + Present(before));
    SlotWritten(board, i, before);
    OccupiedFill(before, i, onDeck[0]);
    assert onDeck == [onDeck[0]] + deck.cards;
    CustodyIffUnique(deck, waste, board);
  }

  /** The custody step of ReturnCardToSlot: the waste's top card has moved into the empty slot at index i. */
  lemma FilledFromWaste(deck: Deck, waste: Waste, board: Board, i: nat, onDeck: seq<Card>, onWaste: seq<Card>, before: seq<Card?>)
    requires board.Valid() && waste.Valid() && deck.cards == onDeck && NoDuplicates(onDeck)
    requires i < board.slots.Length == |before| && before[i] == null
    requires forall k :: 0 <= k < |before| && k != i ==> board.slots[k].card == before[k]
    requires onWaste != [] && waste.cards == onWaste[1..] && board.slots[i].card == onWaste[0]
    requires NoDuplicates(onDeck + onWaste + Present(before))
    ensures board.Contents() == before[i := onWaste[0]]
    ensures InPlay(deck, waste, board) == multiset(onDeck + onWaste + Present(before))
    ensures Custody(deck, waste, board)
  {
    NoDuplicatesIffUnique(onDeck + onWaste + Present(before));
    SlotWritten(board, i, before);
    OccupiedFill(before, i, onWaste[0]);
    assert onWaste == [onWaste[0]] + waste.cards;
    CustodyIffUnique(deck, waste, board);
  }

  /** The custody step of RemoveCardFromSlot: the card of the slot at index i has moved onto the waste. */
  lemma ClearedToWaste(deck: Deck, waste: Waste, board: Board, i: nat, onDeck: seq<Card>, onWaste: seq<Card>, before: seq<Card?>)
    requires board.Valid() && waste.Valid() && deck.cards == onDeck && NoDuplicates(onDeck)
    requires i < board.slots.Length == |before| && before[i] != null
    requires forall k :: 0 <= k < |before| && k != i ==> board.slots[k].card == before[k]
    requires board.slots[i].card == null && waste.cards == [before[i]] + onWaste
    requires NoDuplicates(onDeck + onWaste + Present(before))
    ensures board.Contents() == before[i := null]
    ensures InPlay(deck, waste, board) == multiset(onDeck + onWaste + Present(before))
    ensures Custody(deck, waste, board)
  {
    NoDuplicatesIffUnique(onDeck + onWaste + Present(before));
    SlotWritten(board, i, before);
    OccupiedClear(before, i);
    CustodyIffUnique(deck, waste, board);
  }

  /** The custody step of ReturnCardFromSlot: the card of the slot at index i has moved to the deck's front. */
  lemma ClearedToDeck(deck: Deck, waste: Waste, board: Board, i: nat, onDeck: seq<Card>, onWaste: seq<Card>, before: seq<Card?>)
    requires board.Valid() && deck.Valid() && waste.cards == onWaste && NoDuplicates(onWaste)
    requires i < board.slots.Length == |before| && before[i] != null
    requires forall k :: 0 <= k < |before| && k != i ==> board.slots[k].card == before[k]
    requires board.slots[i].card == null && deck.cards == [before[i]] + onDeck
    requires NoDuplicates(onDeck + onWaste + Present(before))
    ensures board.Contents() == before[i := null]
    ensures InPlay(deck, waste, board) == multiset(onDeck + onWaste + Present(before))
    ensures Custody(deck, waste, board)
  {
    NoDuplicatesIffUnique(onDeck + onWaste + Present(before));
    SlotWritten(board, i, before);
    OccupiedClear(before, i);
    CustodyIffUnique(deck, waste, board);
  }

  /** The custody step of RevealNextCard: the deck's front card has moved onto the waste. */
  lemma DeckToWaste(deck: Deck, waste: Waste, board: Board, onDeck: seq<Card>, onWaste: seq<Card>, before: seq<Card?>)
    requires board.Valid() && deck.Valid() && waste.Valid() && board.Contents() == before
    requires onDeck != [] && deck.cards == onDeck[1..] && waste.cards == [onDeck[0]] + onWaste
    requires NoDuplicates(onDeck + onWaste + Present(before))
    ensures InPlay(deck, waste, board) == multiset(onDeck + onWaste + Present(before))
    ensures Custody(deck, waste, board)
  {
    NoDuplicatesIffUnique(onDeck + onWaste + Present(before));
    assert onDeck == [onDeck[0]] + deck.cards;
    CustodyIffUnique(deck, waste, board);
  }

  /** The custody step of ReturnCardFromWaste: the waste's top card has moved to the deck's front. */
  lemma WasteToDeck(deck: Deck, waste: Waste, board: Board, onDeck: seq<Card>, onWaste: seq<Card>, before: seq<Card?>)
    requires board.Valid() && deck.Valid() && waste.Valid() && board.Contents() == before
    requires onWaste != [] && waste.cards == onWaste[1..] && deck.cards == [onWaste[0]] + onDeck
    requires NoDuplicates(onDeck + onWaste + Present(before))
    ensures InPlay(deck, waste, board) == multiset(onDeck + onWaste + Present(before))
    ensures Custody(deck, waste, board)
  {
    NoDuplicatesIffUnique(onDeck + onWaste + Present(before));
    assert onWaste == [onWaste[0]] + waste.cards;
    CustodyIffUnique(deck, waste, board);
  }

  /**
   * When every slot but the one at index i still holds what `before` records,
   * the board's contents differ from `before` at index i only.
   */
  lemma SlotWritten(board: Board, i: nat, before: seq<Card?>)
    requires i < board.slots.Length == |before|
    requires forall k :: 0 <= k < |before| && k != i ==> board.slots[k].card == before[k]
    ensures board.Contents() == before[i := board.slots[i].card]
  {
  }

  /** A card not yet in play has been put on the waste's top: it is now in play, once. */
  lemma JoinedWaste(deck: Deck, waste: Waste, board: Board, onWaste: seq<Card>, c: Card)
    requires deck.Valid() && waste.Valid() && board.Valid() && waste.cards == [c] + onWaste
    requires NoDuplicates(deck.cards + onWaste + Present(board.Contents()))
    requires c !in deck.cards && c !in onWaste && c !in board.Contents()
    ensures InPlay(deck, waste, board) == multiset(deck.cards + onWaste + Present(board.Contents())) + multiset{c}
    ensures Custody(deck, waste, board)
  {
    PresentWithin(board.Contents());
    var d, p := deck.cards, Present(board.Contents());
    assert d + onWaste + p == d + (onWaste + p);
    NoDuplicatesInsert(d, onWaste + p, c);
    assert Pool(deck, waste, board) == d + [c] + (onWaste + p);
  }

  /** A card not yet in play has been put at the deck's front: it is now in play, once. */
  lemma JoinedDeck(deck: Deck, waste: Waste, board: Board, onDeck: seq<Card>, c: Card)
    requires deck.Valid() && waste.Valid() && board.Valid() && deck.cards == [c] + onDeck
    requires NoDuplicates(onDeck + waste.cards + Present(board.Contents()))
    requires c !in onDeck && c !in waste.cards && c !in board.Contents()
    ensures InPlay(deck, waste, board) == multiset(onDeck + waste.cards + Present(board.Contents())) + multiset{c}
    ensures Custody(deck, waste, board)
  {
    PresentWithin(board.Contents());
    var w, p := waste.cards, Present(board.Contents());
    assert [] + (onDeck + w + p) == onDeck + w + p;
    NoDuplicatesInsert([], onDeck + w + p, c);
    assert Pool(deck, waste, board) == [] + [c] + (onDeck + w + p);
  }

  /** The waste's top card has been taken away and destroyed: it is out of play, and nothing else moved. */
  lemma LeftWaste(deck: Deck, waste: Waste, board: Board, onWaste: seq<Card>)
    requires deck.Valid() && waste.Valid() && board.Valid() && onWaste != [] && waste.cards == onWaste[1..]
    requires NoDuplicates(deck.cards + onWaste + Present(board.Contents()))
    ensures InPlay(deck, waste, board) + multiset{onWaste[0]} == multiset(deck.cards + onWaste + Present(board.Contents()))
    ensures onWaste[0] !in Pool(deck, waste, board)
    ensures Custody(deck, waste, board)
  {
    var d, w, p := deck.cards, waste.cards, Present(board.Contents());
    assert d + onWaste + p == d + [onWaste[0]] + (w + p);
    NoDuplicatesRemove(d, w + p, onWaste[0]);
    assert Pool(deck, waste, board) == d + (w + p);
  }

  /** The card of the slot at index i has been taken and destroyed: it is out of play, and nothing else moved. */
  lemma LeftSlot(deck: Deck, waste: Waste, board: Board, i: nat, before: seq<Card?>)
    requires board.Valid() && deck.Valid() && waste.Valid()
    requires i < board.slots.Length == |before| && before[i] != null
    requires forall k :: 0 <= k < |before| && k != i ==> board.slots[k].card == before[k]
    requires board.slots[i].card == null
    requires NoDuplicates(deck.cards + waste.cards + Present(before))
    ensures board.Contents() == before[i := null]
    ensures InPlay(deck, waste, board) + multiset{before[i]} == multiset(deck.cards + waste.cards + Present(before))
    ensures Custody(deck, waste, board)
  {
    var all := deck.cards + waste.cards + Present(before);
    NoDuplicatesIffUnique(all);
    SlotWritten(board, i, before);
    OccupiedClear(before, i);
    var m, a, b := InPlay(deck, waste, board), multiset(deck.cards), multiset(waste.cards);
    assert m == a + b + Occupied(before[i := null]);
    assert multiset(all) == a + b + Occupied(before);
    forall x | x in m ensures m[x] == 1 {
      assert (m + multiset{before[i]})[x] == multiset(all)[x];
    }
    CustodyIffUnique(deck, waste, board);
  }
}
