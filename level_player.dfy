/**
 * The round engine of the solitaire game: a state machine over the deck, the
 * waste, the board, an undo list and the round counters, with the player's
 * coin balance and high score. Time is counted in whole milliseconds; the
 * round's timer, the power-up that extends it and the frame step are all
 * milliseconds here.
 */
module LevelPlayer {
  import opened Cards
  import opened Slots
  import opened Boards
  import opened Decks
  import opened Wastes
  import opened Tables
  import opened Collections
  import opened LevelData

  datatype Option<T> = None | Some(value: T)

  /** What an undo entry undoes. */
  datatype Move = RevealNextCard | RemoveCardFromSlot

  /** An undo entry: the move, and for a slot move the slot the card came from. */
  datatype Action = Action(move: Move, slot: Slot?)

  /** The tuning fields set in the scene. Times are in milliseconds. */
  datatype Settings = Settings(
    pointsPerCardTakenFromBoard: int,
    pointsPerCardRemainingInDeck: int,
    pointsPerSecondsRemaining: int,
    coinsPerCardTakenFromBoard: int,
    coinsPerCardRemainingInDeck: int,
    coinsPerSecondsRemaining: int,
    cardsForExtraLife: int,
    costForUndoLastMove: int,
    costForShuffleBoard: int,
    costForGenerateWildCard: int,
    extraCardsPowerup: int,
    costForAddExtraCards: int,
    extraTimePowerup: int,
    costForAddExtraTime: int)

  /** The arguments the end-of-round event carries. */
  datatype Report = Report(
    won: bool,
    baseScore: int,
    deckScore: int,
    timeScore: int,
    totalScore: int,
    coinsCollected: int,
    deckCoins: int,
    timeCoins: int,
    totalCoins: int)

  /** Whole seconds left, rounded down, for a time in milliseconds (Mathf.Floor of the seconds). */
  function FloorSeconds(ms: int): (s: int)
    ensures 1000 * s <= ms < 1000 * (s + 1)
  {
    ms / 1000
  }

  /** The floor of the time left is positive exactly when at least a full second is left. */
  lemma FloorSecondsPositive(ms: int)
    ensures FloorSeconds(ms) <= 0 <==> ms < 1000
  {
  }

  /** No slot holds a card. */
  ghost predicate Cleared(cs: seq<Card?>) {
    forall i :: 0 <= i < |cs| ==> cs[i] == null
  }

  /** The slot an undo entry names, when it is a slot entry. */
  function EntrySlots(a: Action): seq<Slot?> {
    if a.move == RemoveCardFromSlot then [a.slot] else []
  }

  /** The slots named by the slot entries of an undo list, oldest first. */
  function RemovedSlots(history: seq<Action>): (r: seq<Slot?>)
    ensures |r| <= |history|
  {
    if history == [] then [] else EntrySlots(history[0]) + RemovedSlots(history[1..])
  }

  /** Removed slots of a list are those of its two parts, in order. */
  lemma {:induction false} RemovedSlotsConcat(a: seq<Action>, b: seq<Action>)
    ensures RemovedSlots(a + b) == RemovedSlots(a) + RemovedSlots(b)
  {
    if a == [] {
      assert a + b == b;
    } else {
      var ab := a + b;
      assert ab[0] == a[0] && ab[1..] == a[1..] + b;
      RemovedSlotsConcat(a[1..], b);
      assert RemovedSlots(ab) == EntrySlots(a[0]) + RemovedSlots(a[1..] + b);
    }
  }

  /**
   * The table right after dealing the cards `shuffled`: the slots hold its
   * first cards in slot order, the next one lies on the waste above `under`,
   * and the rest stay in the deck in order.
   */
  ghost predicate DealtOut(deck: Deck, waste: Waste, board: Board, shuffled: seq<Card>, under: seq<Card>)
    reads deck, waste, board, board.slots, board.SlotSet()`card
  {
    var n := board.slots.Length;
    |shuffled| > n && board.Contents() == shuffled[..n] && deck.cards == shuffled[n + 1..] &&
    waste.cards == [shuffled[n]] + under
  }

  /** Every card is in one place and the board shows exactly its uncovered cards. */
  ghost predicate Settled(deck: Deck, waste: Waste, board: Board)
    reads deck, waste, board, board.slots, board.SlotSet()`card, board.SlotSet()`overlapping
    reads HeldCards(board)`revealed
  {
    Custody(deck, waste, board) && Visible(board)
  }

  /**
   * The slot entries of an undo list name distinct slots of the board, each of
   * them empty: the card taken from it lies on the waste.
   */
  ghost predicate Undoable(history: seq<Action>, board: Board)
    reads board, board.slots, board.SlotSet()`card
  {
    var r := RemovedSlots(history);
    NamesBoardSlots(history, board) &&
    NoDuplicates(r) && forall k :: 0 <= k < |r| ==> r[k] in board.SlotSet() && r[k].card == null
  }

  /** Every slot entry of an undo list names a slot of the board. */
  ghost predicate NamesBoardSlots(history: seq<Action>, board: Board)
    reads board, board.slots
  {
    forall k :: 0 <= k < |history| && history[k].move == RemoveCardFromSlot ==> history[k].slot in board.SlotSet()
  }

  /**
   * Recording a move keeps the undo list undoable when a slot move names an
   * empty board slot that no other entry names.
   */
  lemma UndoableRecorded(history: seq<Action>, a: Action, board: Board)
    requires var r := RemovedSlots(history);
      NamesBoardSlots(history, board) &&
      NoDuplicates(r) && forall k :: 0 <= k < |r| ==> r[k] in board.SlotSet() && r[k].card == null
    requires a.move == RemoveCardFromSlot ==> a.slot in board.SlotSet() && a.slot.card == null && a.slot !in RemovedSlots(history)
    ensures Undoable(history + [a], board)
  {
    var r := RemovedSlots(history);
    RecordedMove(history, a.move, a.slot);
    if a.move == RemoveCardFromSlot {
      NoDuplicatesInsert(r, [], a.slot);
      assert r + [a.slot] + [] == r + [a.slot];
    } else {
      assert r + [] == r;
    }
    assert forall k :: 0 <= k < |history| ==> (history + [a])[k] == history[k];
  }

  /** Dropping the last entry of an undo list keeps it undoable. */
  lemma UndoablePopped(history: seq<Action>, a: Action, board: Board)
    requires Undoable(history + [a], board)
    ensures Undoable(history, board)
    ensures a.move == RemoveCardFromSlot ==> a.slot in board.SlotSet() && a.slot.card == null && a.slot !in RemovedSlots(history)
  {
    var r := RemovedSlots(history);
    RecordedMove(history, a.move, a.slot);
    assert (history + [a])[|history|] == a;
    if a.move == RemoveCardFromSlot {
      assert a.slot == (r + [a.slot])[|r|];
      NoDuplicatesRemove(r, [], a.slot);
      assert r + [a.slot] + [] == r + [a.slot] && r + [] == r;
      assert forall k :: 0 <= k < |r| ==> r[k] == (r + [a.slot])[k];
    } else {
      assert r + [] == r;
    }
    assert forall k :: 0 <= k < |history| ==> history[k] == (history + [a])[k];
  }

  /** Recording a move adds its slot to the removed slots exactly when it is a slot move. */
  lemma RecordedMove(history: seq<Action>, move: Move, slot: Slot?)
    ensures RemovedSlots(history + [Action(move, slot)]) ==
      RemovedSlots(history) + (if move == RemoveCardFromSlot then [slot] else [])
  {
    RemovedSlotsConcat(history, [Action(move, slot)]);
    assert RemovedSlots([Action(move, slot)]) == EntrySlots(Action(move, slot)) + RemovedSlots([]);
  }

  /**
   * The tap rule of this engine: a Normal card one rank away from the waste's
   * top card may be taken, and any card may be taken while a Wild card is on
   * top. The top card's rank is read even when it is Wild.
   */
  predicate Playable(kind: Kind, rank: Rank, topKind: Kind, topRank: Rank) {
    (kind == Normal && Adjacent(rank, topRank)) || topKind == Wild
  }

  /**
   * A Wild top takes every card; a Normal top takes exactly the Normal cards
   * one rank away.
   */
  lemma PlayableIff(kind: Kind, rank: Rank, topKind: Kind, topRank: Rank)
    ensures topKind == Wild ==> Playable(kind, rank, topKind, topRank)
    ensures topKind == Normal ==> (Playable(kind, rank, topKind, topRank) <==>
      kind == Normal && RankIndex(rank) - RankIndex(topRank) in {1, -1, 12, -12})
  {
    AdjacentIffDistance(rank, topRank);
  }

  /**
   * A Normal top never takes a card of its own rank nor a Wild card, and
   * between Normal cards the rule is symmetric.
   */
  lemma PlayableNormalTop(kind: Kind, rank: Rank, topRank: Rank)
    ensures !Playable(kind, topRank, Normal, topRank) && !Playable(Wild, rank, Normal, topRank)
    ensures Playable(Normal, rank, Normal, topRank) <==> Playable(Normal, topRank, Normal, rank)
  {
    AdjacentProperties(topRank, rank);
  }

  /** Where the cards a move can shift lie: the deck, the waste, and what each slot holds. */
  datatype Tableau = Tableau(deck: seq<Card>, waste: seq<Card>, slots: seq<Card?>)

  /** The tableau of the three containers. */
  ghost function Snapshot(deck: Deck, waste: Waste, board: Board): (t: Tableau)
    reads deck, waste, board, board.slots, board.SlotSet()`card
    ensures t.deck == deck.cards && t.waste == waste.cards && t.slots == board.Contents()
  {
    Tableau(deck.cards, waste.cards, board.Contents())
  }

  /** RevealNextCard on a tableau: the deck's front card goes on top of the waste. */
  function Drawn(t: Tableau): (u: Tableau)
    requires t.deck != []
    ensures u.slots == t.slots && |u.deck| + 1 == |t.deck| && |u.waste| == |t.waste| + 1
  {
    Tableau(t.deck[1..], [t.deck[0]] + t.waste, t.slots)
  }

  /** RemoveCardFromSlot on a tableau: slot i's card goes on top of the waste. */
  function Taken(t: Tableau, i: nat): (u: Tableau)
    requires i < |t.slots| && t.slots[i] != null
    ensures u.deck == t.deck && |u.waste| == |t.waste| + 1 && |u.slots| == |t.slots| && u.slots[i] == null
  {
    Tableau(t.deck, [t.slots[i]] + t.waste, t.slots[i := null])
  }

  /**
   * The inversion step of UndoLastMove: the waste's top card goes back to the
   * deck front for a RevealNextCard entry, or into slot i for a
   * RemoveCardFromSlot entry. With an empty waste nothing moves.
   */
  function Undone(t: Tableau, move: Move, i: nat): (u: Tableau)
    requires move == RemoveCardFromSlot ==> i < |t.slots|
    ensures t.waste == [] ==> u == t
    ensures t.waste != [] ==> u.waste == t.waste[1..] && |u.slots| == |t.slots|
  {
    if t.waste == [] then t
    else if move == RevealNextCard then Tableau([t.waste[0]] + t.deck, t.waste[1..], t.slots)
    else Tableau(t.deck, t.waste[1..], t.slots[i := t.waste[0]])
  }

  /** Before inverting, UndoLastMove destroys a Wild card lying on top of the waste. */
  function Unwild(t: Tableau, wildTop: bool): (u: Tableau)
    ensures u.deck == t.deck && u.slots == t.slots
    ensures u.waste == if wildTop && t.waste != [] then t.waste[1..] else t.waste
  {
    if wildTop && t.waste != [] then Tableau(t.deck, t.waste[1..], t.slots) else t
  }

  /**
   * Undo inverts the recorded move: undoing a deck tap puts the drawn card
   * back on the deck front, undoing a take puts the taken card back into its
   * slot, and a Wild card played on top is discarded first.
   */
  lemma UndoInverts(t: Tableau, i: nat, wild: Card)
    ensures t.deck != [] ==> Undone(Drawn(t), RevealNextCard, i) == t
    ensures i < |t.slots| && t.slots[i] != null ==> Undone(Taken(t, i), RemoveCardFromSlot, i) == t
    ensures Unwild(Tableau(t.deck, [wild] + t.waste, t.slots), true) == t
  {
    if t.deck != [] {
      assert [t.deck[0]] + t.deck[1..] == t.deck;
    }
    if i < |t.slots| && t.slots[i] != null {
      assert t.slots[i := null][i := t.slots[i]] == t.slots;
    }
    assert ([wild] + t.waste)[1..] == t.waste;
  }

  /**
   * ShuffleBoard on a tableau: the waste stays, the same slots stay occupied,
   * and the cards of the deck and the occupied slots are dealt out again among
   * themselves.
   */
  ghost predicate Reshuffled(t: Tableau, u: Tableau) {
    u.waste == t.waste && SamePattern(t.slots, u.slots) &&
    multiset(u.deck) + Occupied(u.slots) == multiset(t.deck) + Occupied(t.slots)
  }

  /** A shuffle keeps the number of cards in the deck and on the board. */
  lemma ReshuffledKeepsCounts(t: Tableau, u: Tableau)
    requires Reshuffled(t, u)
    ensures |u.deck| == |t.deck| && |Present(u.slots)| == |Present(t.slots)|
  {
    SamePatternSize(t.slots, u.slots);
    assert |multiset(u.deck) + Occupied(u.slots)| == |multiset(t.deck) + Occupied(t.slots)|;
  }

  /** The slot index an undo entry refers to: its slot's place on the board, or 0 for a deck entry. */
  ghost function EntryIndex(board: Board, a: Action): (i: nat)
    reads board, board.slots
    ensures a.move == RemoveCardFromSlot && a.slot in board.SlotSet() ==> i < board.slots.Length && board.slots[i] == a.slot
  {
    if a.move == RemoveCardFromSlot && a.slot in board.SlotSet() && NoDuplicates(board.slots[..]) then SlotIndex(board, a.slot)
    else if a.move == RemoveCardFromSlot && a.slot in board.SlotSet() then
      var i :| 0 <= i < board.slots.Length && board.slots[i] == a.slot; i
    else 0
  }

  class SolitaireLevelPlayer {
    const settings: Settings
    const deck: Deck
    const board: Board
    const waste: Waste

    var boardShape: Shape
    var numPeaks: int
    var peakHeight: int
    var numColumns: int
    var columnHeight: int
    var numDecks: int

    var paused: bool
    var endGame: bool

    var score: int
    var round: int
    var roundTime: int
    var lives: int
    var timeRemaining: int
    var coinsCollected: int
    var successfulRound: bool

    var undoHistory: seq<Action>

    /** The persistent store: the player's coins and best score. */
    var coins: int
    var highScore: int

    /** Awake: the engine finds its containers; the counters take their initial values. */
    constructor (settings: Settings, deck: Deck, board: Board, waste: Waste, coins: int, highScore: int)
      ensures this.settings == settings && this.deck == deck && this.board == board && this.waste == waste
      ensures this.coins == coins && this.highScore == highScore
      ensures boardShape == Peaks && numPeaks == 1 && peakHeight == 1 && numColumns == 1 && columnHeight == 1 && numDecks == 1
      ensures !paused && !endGame && score == 0 && round == 1 && roundTime == 60000 && lives == 0
      ensures timeRemaining == 0 && coinsCollected == 0 && !successfulRound && undoHistory == []
    {
      this.settings := settings;
      this.deck := deck;
      this.board := board;
      this.waste := waste;
      this.coins := coins;
      this.highScore := highScore;
      boardShape := Peaks;
      numPeaks, peakHeight, numColumns, columnHeight, numDecks := 1, 1, 1, 1, 1;
      paused, endGame := false, false;
      score, round, roundTime, lives := 0, 1, 60000, 0;
      timeRemaining, coinsCollected, successfulRound := 0, 0, false;
      undoHistory := [];
    }

    /**
     * Between commands: every card is in one place, the board shows exactly its
     * uncovered cards, and every slot entry of the undo list can be undone.
     */
    ghost predicate Valid()
      reads this`undoHistory, deck, waste, board, board.slots, board.SlotSet()`card, board.SlotSet()`overlapping
      reads HeldCards(board)`revealed
    {
      Settled(deck, waste, board) && Undoable(undoHistory, board)
    }

    // -------------------------------------------------------------------------
    // Setting up a round
    // -------------------------------------------------------------------------

    /** The level's shape can be built and its decks deal every slot and one waste card. */
    predicate CanDeal()
      reads this
    {
      Deals(boardShape, numPeaks, peakHeight, numColumns, columnHeight, numDecks)
    }

    /**
     * LoadGame: the level's shape, decks, round and round time are taken over
     * (seconds become milliseconds), the full round time is on the clock, and
     * a new deck is generated, the board arranged and dealt.
     */
    method LoadGame(levelData: SolitaireLevelData) returns (ghost shuffled: seq<Card>)
      requires Valid() && undoHistory == [] && Dealable(levelData)
      modifies this`boardShape, this`numPeaks, this`peakHeight, this`numColumns, this`columnHeight
      modifies this`numDecks, this`round, this`roundTime, this`timeRemaining, this`paused
      modifies deck`cards, board, waste`cards, (set c | c in waste.cards)`depth
      ensures boardShape == levelData.boardShape && numPeaks == levelData.numPeaks && peakHeight == levelData.peakHeight
      ensures numColumns == levelData.numColumns && columnHeight == levelData.columnHeight && numDecks == levelData.numDecks
      ensures round == levelData.round && roundTime == 1000 * levelData.roundTime && timeRemaining == roundTime
      ensures undoHistory == [] && !paused
      ensures DealtOut(deck, waste, board, shuffled, old(waste.cards)) && waste.cards[0].revealed && Valid()
      ensures multiset(Faces(shuffled)) == multiset(StandardFaces(levelData.numDecks))
      ensures forall c | c in shuffled :: fresh(c) && c.kind == Normal && !c.generated
    {
      ghost var slots, held := board.SlotSet(), HeldCards(board);
      TakeLevel(levelData);
      assert board.SlotSet() == slots && HeldCards(board) == held;
      shuffled := GenerateAndDeal();
    }

    /** LoadGame's settings step: the level's fields are copied, the round time converted to milliseconds. */
    method TakeLevel(levelData: SolitaireLevelData)
      modifies this`boardShape, this`numPeaks, this`peakHeight, this`numColumns, this`columnHeight
      modifies this`numDecks, this`round, this`roundTime, this`timeRemaining
      ensures boardShape == levelData.boardShape && numPeaks == levelData.numPeaks && peakHeight == levelData.peakHeight
      ensures numColumns == levelData.numColumns && columnHeight == levelData.columnHeight && numDecks == levelData.numDecks
      ensures round == levelData.round && roundTime == 1000 * levelData.roundTime && timeRemaining == roundTime
      ensures Dealable(levelData) ==> CanDeal()
    {
      boardShape := levelData.boardShape;
      numPeaks := levelData.numPeaks;
      peakHeight := levelData.peakHeight;
      numColumns := levelData.numColumns;
      columnHeight := levelData.columnHeight;
      numDecks := levelData.numDecks;
      round := levelData.round;
      roundTime := 1000 * levelData.roundTime;
      timeRemaining := roundTime;
    }

    /**
     * RestartGame: the board's and then the waste's cards go back to the deck
     * (generated ones are destroyed), the round moves on after a win, a life
     * is spent after a loss, and with no life left the score and the round
     * start over; then the undo list is cleared, the clock reset, and a new
     * deck is generated, the board arranged and dealt.
     */
    method RestartGame() returns (ghost shuffled: seq<Card>)
      requires Valid() && CanDeal()
      modifies this`round, this`lives, this`score, this`undoHistory, this`paused, this`successfulRound, this`timeRemaining
      modifies deck`cards, waste`cards, board, board.SlotSet()`card
      modifies (set c | c in Pool(deck, waste, board))`depth, (set c | c in Pool(deck, waste, board))`revealed
      ensures round == (if old(successfulRound) then old(round) + 1 else if old(lives) > 0 then old(round) else 1)
      ensures lives == (if !old(successfulRound) && old(lives) > 0 then old(lives) - 1 else old(lives))
      ensures score == (if !old(successfulRound) && old(lives) <= 0 then 0 else old(score))
      ensures undoHistory == [] && !paused && !successfulRound && timeRemaining == roundTime
      ensures DealtOut(deck, waste, board, shuffled, []) && waste.cards[0].revealed && Valid()
      ensures multiset(Faces(shuffled)) == multiset(StandardFaces(numDecks))
      ensures forall c | c in shuffled :: fresh(c) && c.kind == Normal && !c.generated
    {
      EndRound();
      shuffled := GenerateAndDeal();
    }

    /**
     * The first part of RestartGame: the round's outcome is booked and the
     * table cleared. The source clears the table first; the two steps touch
     * disjoint state, so their order does not matter.
     */
    method EndRound()
      requires Valid()
      modifies this`round, this`lives, this`score, this`undoHistory, this`paused, this`successfulRound, this`timeRemaining
      modifies deck`cards, waste`cards, board.SlotSet()`card
      modifies (set c | c in Pool(deck, waste, board))`depth, (set c | c in Pool(deck, waste, board))`revealed
      ensures round == (if old(successfulRound) then old(round) + 1 else if old(lives) > 0 then old(round) else 1)
      ensures lives == (if !old(successfulRound) && old(lives) > 0 then old(lives) - 1 else old(lives))
      ensures score == (if !old(successfulRound) && old(lives) <= 0 then 0 else old(score))
      ensures undoHistory == [] && !paused && !successfulRound && timeRemaining == roundTime
      ensures waste.cards == [] && Valid()
    {
      NextRound();
      ClearTable(deck, waste, board);
    }

    /**
     * RestartGame's bookkeeping between clearing the table and dealing: the
     * outcome of the round just played decides the round, the lives and the
     * score; the undo list, the pause and the win flag are reset and the
     * clock is refilled.
     */
    method NextRound()
      modifies this`round, this`lives, this`score, this`undoHistory, this`paused, this`successfulRound, this`timeRemaining
      ensures round == (if old(successfulRound) then old(round) + 1 else if old(lives) > 0 then old(round) else 1)
      ensures lives == (if !old(successfulRound) && old(lives) > 0 then old(lives) - 1 else old(lives))
      ensures score == (if !old(successfulRound) && old(lives) <= 0 then 0 else old(score))
      ensures undoHistory == [] && !paused && !successfulRound && timeRemaining == roundTime
    {
      if successfulRound {
        round := round + 1;
      } else if lives > 0 {
        lives := lives - 1;
      } else {
        score := 0;
        round := 1;
      }
      undoHistory := [];
      paused := false;
      successfulRound := false;
      timeRemaining := roundTime;
    }

    /**
     * The steps LoadGame and RestartGame end with: GenerateDeck, ArrangeBoard
     * and DealBoard. Every card dealt is one of the new deck's, so the faces in
     * play are numDecks standard decks.
     */
    method GenerateAndDeal() returns (ghost shuffled: seq<Card>)
      requires Valid() && undoHistory == [] && CanDeal()
      modifies this`paused, deck`cards, board, waste`cards, (set c | c in waste.cards)`depth
      ensures DealtOut(deck, waste, board, shuffled, old(waste.cards)) && waste.cards[0].revealed && !paused && Valid()
      ensures multiset(Faces(shuffled)) == multiset(StandardFaces(old(numDecks)))
      ensures forall c | c in shuffled :: fresh(c) && c.kind == Normal && !c.generated
    {
      PrepareTable();
      ghost var generated := deck.cards;
      shuffled := DealBoard(multiset(StandardFaces(old(numDecks))));
      assert forall c | c in shuffled :: c in generated by {
        PermutationMembers(shuffled, generated);
      }
    }

    /**
     * The first two steps of GenerateAndDeal: a new deck of numDecks standard
     * decks, then an empty layout of the level's shape, with more cards in the
     * deck than the layout has slots.
     */
    method PrepareTable()
      requires Valid() && undoHistory == [] && CanDeal()
      modifies deck`cards, board
      ensures fresh(board.slots) && forall s | s in board.SlotSet() :: fresh(s)
      ensures multiset(Faces(deck.cards)) == multiset(StandardFaces(old(numDecks))) && |deck.cards| > board.slots.Length
      ensures forall c | c in deck.cards :: fresh(c) && c.kind == Normal && !c.generated
      ensures board.Contents() == Empties(board.slots.Length) && waste.cards == old(waste.cards) && Valid()
    {
      GenerateDeck();
      assert |deck.cards| == StandardSize * numDecks;
      ArrangeBoard();
    }

    /**
     * DealBoard: the deck is shuffled, each slot in index order takes the
     * deck's front card, the board's faces are updated, the next deck card
     * goes face up onto the waste, and the game is unpaused. Dealing reads a
     * card for every slot and one more, so the deck must hold more cards than
     * the board has slots.
     */
    method DealBoard(ghost faces: multiset<Face>) returns (ghost shuffled: seq<Card>)
      requires Valid() && undoHistory == [] && multiset(Faces(deck.cards)) == faces
      requires board.Contents() == Empties(board.slots.Length) && |deck.cards| > board.slots.Length
      modifies this`paused, deck`cards, waste`cards, board.SlotSet()`card
      modifies (set c | c in deck.cards)`depth, (set c | c in deck.cards)`revealed, (set c | c in waste.cards)`depth
      ensures multiset(shuffled) == old(multiset(deck.cards))
      ensures multiset(Faces(shuffled)) == faces
      ensures DealtOut(deck, waste, board, shuffled, old(waste.cards)) && waste.cards[0].revealed && !paused && Valid()
    {
      paused := false;
      shuffled := Deal(deck, waste, board);
    }

    /** GenerateDeck: the deck's cards are destroyed and numDecks standard decks of new face-down cards take their place. */
    method GenerateDeck()
      requires Valid()
      modifies deck`cards
      ensures Faces(deck.cards) == StandardFaces(numDecks)
      ensures forall c | c in deck.cards :: fresh(c) && !c.revealed && c.kind == Normal && !c.generated
      ensures waste.cards == old(waste.cards) && board.Contents() == old(board.Contents())
      ensures Valid()
    {
      ghost var rest := waste.cards + Present(board.Contents());
      assert Pool(deck, waste, board) == deck.cards + rest;
      PresentWithin(board.Contents());
      forall y | y in Present(board.Contents()) ensures allocated(y) {
        var i :| 0 <= i < board.slots.Length && board.Contents()[i] == y;
        assert board.slots[i].card == y;
      }
      NoDuplicatesSplit(deck.cards, rest);
      deck.GenerateDeck(numDecks);
      forall x, y | x in deck.cards && y in rest ensures x != y {
        assert fresh(x);
      }
      NoDuplicatesConcat(deck.cards, rest);
      assert Pool(deck, waste, board) == deck.cards + rest;
    }

    /**
     * ArrangeBoard: the board's slots are replaced by new, empty slots in the
     * layout of the level's shape. Fitting the camera is not modelled.
     */
    method ArrangeBoard()
      requires Valid() && undoHistory == []
      requires boardShape == Peaks ==> BottomRowCount(numPeaks, peakHeight) >= 0
      modifies board
      ensures board.slots.Length == SlotCount(boardShape, numPeaks, peakHeight, numColumns, columnHeight)
      ensures boardShape == Peaks ==> multiset(Positions(board.slots[..])) == multiset(PeaksLayout(numPeaks, peakHeight))
      ensures boardShape == Columns ==> multiset(Positions(board.slots[..])) == multiset(ColumnsLayout(numColumns, columnHeight))
      ensures fresh(board.slots) && forall i :: 0 <= i < board.slots.Length ==> fresh(board.slots[i])
      ensures board.Contents() == Empties(board.slots.Length) && board.Arranged()
      ensures deck.cards == old(deck.cards) && waste.cards == old(waste.cards)
      ensures Valid()
    {
      NoDuplicatesSplit(deck.cards + waste.cards, Present(board.Contents()));
      board.ArrangeSlots(boardShape, numPeaks, peakHeight, numColumns, columnHeight);
      EmptyBoardSettled(deck, waste, board);
    }

    // -------------------------------------------------------------------------
    // Round timing and scoring
    // -------------------------------------------------------------------------

    /**
     * One frame: unless paused, runs the round-end detection and, when the
     * round has ended, clears the flag and scores the round.
     */
    method Update(deltaMs: int) returns (report: Option<Report>)
      modifies this`timeRemaining, this`successfulRound, this`endGame, this`paused
      modifies this`lives, this`score, this`coinsCollected, this`highScore
      ensures old(paused) ==> report == None && timeRemaining == old(timeRemaining) && endGame == old(endGame)
      ensures !old(paused) ==> !endGame && timeRemaining == old(timeRemaining) - deltaMs
      ensures !old(paused) ==> (report.Some? <==> old(endGame) || Cleared(board.Contents()) || FloorSeconds(timeRemaining) <= 0)
      ensures report.Some? ==> paused && report.value.won == successfulRound && score == report.value.totalScore
      ensures !old(paused) && FloorSeconds(timeRemaining) <= 0 ==> report.Some? && !report.value.won
      ensures !old(paused) && FloorSeconds(timeRemaining) > 0 && Cleared(board.Contents()) ==> report.Some? && report.value.won
      ensures !old(paused) && FloorSeconds(timeRemaining) > 0 && !Cleared(board.Contents()) ==> successfulRound == old(successfulRound)
      ensures highScore >= old(highScore)
    {
      report := None;
      if !paused {
        UpdateGame(deltaMs);
        if endGame {
          endGame := false;
          var r := EndGame();
          report := Some(r);
        }
      }
    }

    /**
     * The timer runs down by the frame time. An empty board wins the round;
     * less than a full second left loses it, and this check comes second, so
     * running out of time overrides a board cleared in the same frame.
     */
    method UpdateGame(deltaMs: int)
      modifies this`timeRemaining, this`successfulRound, this`endGame
      ensures timeRemaining == old(timeRemaining) - deltaMs
      ensures endGame <==> old(endGame) || Cleared(board.Contents()) || FloorSeconds(timeRemaining) <= 0
      ensures FloorSeconds(timeRemaining) <= 0 ==> !successfulRound
      ensures FloorSeconds(timeRemaining) > 0 && Cleared(board.Contents()) ==> successfulRound
      ensures FloorSeconds(timeRemaining) > 0 && !Cleared(board.Contents()) ==> successfulRound == old(successfulRound)
    {
      timeRemaining := timeRemaining - deltaMs;
      var boardCleared := BoardCleared();
      if boardCleared {
        successfulRound := true;
        endGame := true;
      }
      if FloorSeconds(timeRemaining) <= 0 {
        successfulRound := false;
        endGame := true;
      }
    }

    /** The loop of UpdateGame: is every slot empty? */
    method BoardCleared() returns (boardCleared: bool)
      ensures boardCleared <==> Cleared(board.Contents())
    {
      boardCleared := true;
      var i, iMax := 0, board.Size();
      while i < iMax
        invariant 0 <= i <= iMax
        invariant boardCleared <==> Cleared(board.Contents()[..i])
      {
        if board.At(i).card != null {
          boardCleared := false;
        }
        i := i + 1;
      }
    }

    /**
     * Scores the round: a won round earns a bonus for each card left in the
     * deck and for each whole second left, and an extra life when enough cards
     * are left; a lost round earns neither. The score becomes the total, the
     * round's coin count restarts at zero, and the high score keeps the best.
     */
    method EndGame() returns (report: Report)
      modifies this`paused, this`lives, this`score, this`coinsCollected, this`highScore
      ensures paused && report.won == successfulRound && report.baseScore == old(score)
      ensures report.coinsCollected == old(coinsCollected)
      ensures successfulRound ==>
        report.deckScore == |deck.cards| * settings.pointsPerCardRemainingInDeck &&
        report.timeScore == FloorSeconds(timeRemaining) * settings.pointsPerSecondsRemaining &&
        report.deckCoins == |deck.cards| * settings.coinsPerCardRemainingInDeck &&
        report.timeCoins == FloorSeconds(timeRemaining) * settings.coinsPerSecondsRemaining
      ensures !successfulRound ==> report.deckScore == report.timeScore == report.deckCoins == report.timeCoins == 0
      ensures report.totalScore == report.baseScore + report.deckScore + report.timeScore
      ensures report.totalCoins == report.coinsCollected + report.deckCoins + report.timeCoins
      ensures lives == old(lives) + (if successfulRound && |deck.cards| >= settings.cardsForExtraLife then 1 else 0)
      ensures score == report.totalScore && coinsCollected == 0
      ensures highScore >= old(highScore) && highScore >= score && (highScore == old(highScore) || highScore == score)
    {
      paused := true;
      if successfulRound && deck.Size() >= settings.cardsForExtraLife {
        lives := lives + 1;
      }
      var deckScore := if successfulRound then deck.Size() * settings.pointsPerCardRemainingInDeck else 0;
      var timeScore := if successfulRound then FloorSeconds(timeRemaining) * settings.pointsPerSecondsRemaining else 0;
      var totalScore := score + deckScore + timeScore;
      var deckCoins := if successfulRound then deck.Size() * settings.coinsPerCardRemainingInDeck else 0;
      var timeCoins := if successfulRound then FloorSeconds(timeRemaining) * settings.coinsPerSecondsRemaining else 0;
      var totalCoins := coinsCollected + deckCoins + timeCoins;
      report := Report(successfulRound, score, deckScore, timeScore, totalScore, coinsCollected, deckCoins, timeCoins, totalCoins);
      score := totalScore;
      coinsCollected := 0;
      if score > highScore {
        highScore := score;
      }
    }
 
    // -------------------------------------------------------------------------
    // Undo list
    // -------------------------------------------------------------------------

    /** Records a move at the end of the undo list. */
    method AddToUndoHistory(move: Move, slot: Slot?)
      modifies this`undoHistory
      ensures undoHistory == old(undoHistory) + [Action(move, slot)]
    {
      undoHistory := undoHistory + [Action(move, slot)];
    }

    /** Undo is offered while the game runs and a move has been recorded. */
    predicate CanUndo()
      reads this
    {
      !paused && |undoHistory| > 0
    }

    /**
     * UndoLastMove. Without an entry to undo, while paused, or when the player
     * cannot pay, nothing happens. Otherwise the cost is paid, a Wild card on
     * top of the waste is destroyed, the last entry is popped, and the waste's
     * top card goes back where that entry's move took it from (the deck front,
     * face down, or the recorded slot, after which the board's faces are
     * updated). The score is not reverted.
     */
    method UndoLastMove()
      requires Valid()
      requires CanUndo() && coins >= settings.costForUndoLastMove ==> waste.cards != []
      modifies this`coins, this`undoHistory, deck`cards, waste`cards, board.SlotSet()`card
      modifies (set c | c in deck.cards)`depth, (set c | c in waste.cards)`depth, (set c | c in waste.cards)`revealed
      modifies HeldCards(board)`revealed
      ensures Valid()
      ensures !old(CanUndo()) || old(coins) < settings.costForUndoLastMove ==>
        coins == old(coins) && undoHistory == old(undoHistory) && Snapshot(deck, waste, board) == old(Snapshot(deck, waste, board))
      ensures old(CanUndo()) && old(coins) >= settings.costForUndoLastMove ==>
        var last := old(undoHistory[|undoHistory| - 1]);
        coins == old(coins) - settings.costForUndoLastMove && undoHistory == old(undoHistory[..|undoHistory| - 1]) &&
        Snapshot(deck, waste, board) ==
          Undone(Unwild(old(Snapshot(deck, waste, board)), old(waste.cards[0].kind) == Wild), last.move, old(EntryIndex(board, last))) &&
        (last.move == RevealNextCard && (old(waste.cards[0].kind) != Wild || old(|waste.cards|) > 1) ==>
          deck.cards != [] && !deck.cards[0].revealed)
    {
      if !CanUndo() || coins < settings.costForUndoLastMove {
        return;
      }
      ghost var history := undoHistory;
      var action := PopForUndo();
      Unwind(deck, waste, board, action, undoHistory);
    }

    /** The bookkeeping of an undo: the cost is paid and the last entry is popped and returned. */
    method PopForUndo() returns (action: Action)
      requires undoHistory != [] && Undoable(undoHistory, board)
      modifies this`coins, this`undoHistory
      ensures coins == old(coins) - settings.costForUndoLastMove
      ensures old(undoHistory) == undoHistory + [action]
      ensures Snapshot(deck, waste, board) == old(Snapshot(deck, waste, board))
      ensures action.move == RemoveCardFromSlot ==> action.slot in board.SlotSet()
    {
      assert undoHistory == undoHistory[..|undoHistory| - 1] + [undoHistory[|undoHistory| - 1]];
      UndoablePopped(undoHistory[..|undoHistory| - 1], undoHistory[|undoHistory| - 1], board);
      coins := coins - settings.costForUndoLastMove;
      action := undoHistory[|undoHistory| - 1];
      undoHistory := undoHistory[..|undoHistory| - 1];
    }

    // -------------------------------------------------------------------------
    // Taps
    // -------------------------------------------------------------------------

    /** A tap on this slot card takes it: it is face up and playable on the waste's top card. */
    ghost predicate Takes(card: Card)
      reads card, waste, set c | c in waste.cards
    {
      card.revealed && waste.cards != [] &&
      Playable(card.kind, card.rank, waste.cards[0].kind, waste.cards[0].rank)
    }

    /**
     * OnRecognizeTap. While paused nothing happens. A tap on a deck card turns
     * the deck's front card face up onto the waste and records the move. A tap
     * on a slot card that the rule takes moves it onto the waste, updates the
     * board's faces, records the move with its slot, and pays the card's
     * points and coins. Any other tap changes nothing.
     */
    method OnRecognizeTap(tap: Tap)
      requires Valid() && TapConsistent(tap, deck, waste, board)
      requires !paused && tap.SlotCard? && tap.card.revealed ==> waste.cards != []
      modifies this`undoHistory, this`score, this`coins, this`coinsCollected
      modifies deck`cards, waste`cards, board.SlotSet()`card
      modifies (set c | c in deck.cards)`depth, (set c | c in deck.cards)`revealed, (set c | c in waste.cards)`depth
      modifies HeldCards(board)`depth, HeldCards(board)`revealed
      ensures Valid()
      ensures !old(paused) && tap.DeckCard? ==>
        Snapshot(deck, waste, board) == Drawn(old(Snapshot(deck, waste, board))) && waste.cards[0].revealed &&
        undoHistory == old(undoHistory) + [Action(Move.RevealNextCard, null)] &&
        score == old(score) && coins == old(coins) && coinsCollected == old(coinsCollected)
      ensures !old(paused) && tap.SlotCard? && old(Takes(tap.card)) ==>
        Snapshot(deck, waste, board) == Taken(old(Snapshot(deck, waste, board)), old(SlotIndex(board, tap.slot))) &&
        undoHistory == old(undoHistory) + [Action(Move.RemoveCardFromSlot, tap.slot)] &&
        score == old(score) + settings.pointsPerCardTakenFromBoard &&
        coins == old(coins) + settings.coinsPerCardTakenFromBoard &&
        coinsCollected == old(coinsCollected) + settings.coinsPerCardTakenFromBoard
      ensures old(paused) || !(tap.DeckCard? || (tap.SlotCard? && old(Takes(tap.card)))) ==>
        Snapshot(deck, waste, board) == old(Snapshot(deck, waste, board)) &&
        undoHistory == old(undoHistory) && score == old(score) && coins == old(coins) && coinsCollected == old(coinsCollected)
    {
      if paused {
        return;
      }
      match tap
      case DeckCard(_) =>
        DrawFromDeck();
      case SlotCard(card, slot) =>
        if card.revealed && Playable(card.kind, card.rank, waste.At(0).kind, waste.At(0).rank) {
          TakeFromSlot(slot);
        }
      case _ =>
    }

    /** The deck branch of OnRecognizeTap: RevealNextCard, then the undo entry. */
    method DrawFromDeck()
      requires Valid() && deck.cards != []
      modifies this`undoHistory, deck`cards, waste`cards, (set c | c in deck.cards[..1])`revealed
      modifies (set c | c in deck.cards)`depth, (set c | c in waste.cards)`depth
      ensures Snapshot(deck, waste, board) == Drawn(old(Snapshot(deck, waste, board))) && waste.cards[0].revealed
      ensures undoHistory == old(undoHistory) + [Action(Move.RevealNextCard, null)]
      ensures Valid()
    {
      Draw(deck, waste, board, undoHistory);
      AddToUndoHistory(Move.RevealNextCard, null);
    }

    /**
     * The slot branch of OnRecognizeTap: RemoveCardFromSlot, RefreshBoard, the
     * undo entry naming the slot, and the card's points and coins.
     */
    method TakeFromSlot(slot: Slot)
      requires Valid() && slot in board.SlotSet() && slot.card != null
      modifies this`undoHistory, this`score, this`coins, this`coinsCollected
      modifies slot`card, waste`cards, slot.card`depth, (set c | c in waste.cards)`depth
      modifies HeldCards(board)`revealed
      ensures Snapshot(deck, waste, board) == Taken(old(Snapshot(deck, waste, board)), old(SlotIndex(board, slot)))
      ensures undoHistory == old(undoHistory) + [Action(Move.RemoveCardFromSlot, slot)]
      ensures score == old(score) + settings.pointsPerCardTakenFromBoard
      ensures coins == old(coins) + settings.coinsPerCardTakenFromBoard
      ensures coinsCollected == old(coinsCollected) + settings.coinsPerCardTakenFromBoard
      ensures Valid()
    {
      ghost var history := undoHistory;
      RecordCardTaken(slot);
      Take(deck, waste, board, slot, history);
    }

    /** The bookkeeping of a card taken from a slot: the undo entry, the points and the coins. */
    method RecordCardTaken(slot: Slot)
      modifies this`undoHistory, this`score, this`coins, this`coinsCollected
      ensures undoHistory == old(undoHistory) + [Action(Move.RemoveCardFromSlot, slot)]
      ensures score == old(score) + settings.pointsPerCardTakenFromBoard
      ensures coins == old(coins) + settings.coinsPerCardTakenFromBoard
      ensures coinsCollected == old(coinsCollected) + settings.coinsPerCardTakenFromBoard
      ensures Snapshot(deck, waste, board) == old(Snapshot(deck, waste, board))
    {
      AddToUndoHistory(Move.RemoveCardFromSlot, slot);
      score := score + settings.pointsPerCardTakenFromBoard;
      coins := coins + settings.coinsPerCardTakenFromBoard;
      coinsCollected := coinsCollected + settings.coinsPerCardTakenFromBoard;
    }

    // -------------------------------------------------------------------------
    // Power-ups
    // -------------------------------------------------------------------------

    /**
     * AddExtraTime: unless paused, and when the player can pay, the cost is
     * taken from the coins and the timer gains the power-up's time.
     */
    method AddExtraTime()
      modifies this`coins, this`timeRemaining
      ensures var paid := !old(paused) && old(coins) >= settings.costForAddExtraTime;
        coins == (if paid then old(coins) - settings.costForAddExtraTime else old(coins)) &&
        timeRemaining == (if paid then old(timeRemaining) + settings.extraTimePowerup else old(timeRemaining))
    {
      if paused {
        return;
      }
      if coins < settings.costForAddExtraTime {
        return;
      }
      coins := coins - settings.costForAddExtraTime;
      timeRemaining := timeRemaining + settings.extraTimePowerup;
    }

    /**
     * ShuffleBoard: unless paused, and when the player can pay, the cost is
     * taken from the coins, the board's cards go back into the deck, the deck
     * is shuffled, and the slots that held a card are dealt one again. The
     * undo list is kept.
     */
    method ShuffleBoard()
      requires Valid()
      modifies this`coins, deck`cards, board.SlotSet()`card
      modifies (set c | c in Pool(deck, waste, board))`depth, (set c | c in Pool(deck, waste, board))`revealed
      ensures var paid := !old(paused) && old(coins) >= settings.costForShuffleBoard;
        coins == (if paid then old(coins) - settings.costForShuffleBoard else old(coins)) &&
        if paid then Reshuffled(old(Snapshot(deck, waste, board)), Snapshot(deck, waste, board))
        else Snapshot(deck, waste, board) == old(Snapshot(deck, waste, board))
      ensures Valid()
    {
      if paused || coins < settings.costForShuffleBoard {
        return;
      }
      coins := coins - settings.costForShuffleBoard;
      Reshuffle(deck, waste, board, undoHistory);
    }

    /**
     * GenerateWildCard: unless paused, and when the player can pay, a new
     * generated Wild card goes face up on the waste's top.
     */
    method GenerateWildCard() returns (ghost added: seq<Card>)
      requires Valid()
      modifies this`coins, waste`cards, (set c | c in waste.cards)`depth
      ensures var paid := !old(paused) && old(coins) >= settings.costForGenerateWildCard;
        coins == (if paid then old(coins) - settings.costForGenerateWildCard else old(coins)) &&
        |added| == (if paid then 1 else 0)
      ensures waste.cards == added + old(waste.cards)
      ensures forall c | c in added :: fresh(c) && c.kind == Wild && c.revealed && c.generated
      ensures deck.cards == old(deck.cards) && board.Contents() == old(board.Contents())
      ensures Valid()
    {
      if paused || coins < settings.costForGenerateWildCard {
        return [];
      }
      var card := AddWildCard(deck, waste, board, undoHistory);
      coins := coins - settings.costForGenerateWildCard;
      added := [card];
    }

    /**
     * AddExtraCards: unless paused, and when the player can pay, as many new
     * generated cards as the power-up gives go one by one to the deck's front,
     * each with a rank and a suit drawn at random.
     */
    method AddExtraCards() returns (ghost added: seq<Card>)
      requires Valid()
      modifies this`coins, deck`cards, (set c | c in deck.cards)`depth
      ensures var paid := !old(paused) && old(coins) >= settings.costForAddExtraCards;
        coins == (if paid then old(coins) - settings.costForAddExtraCards else old(coins)) &&
        |added| == (if paid && settings.extraCardsPowerup > 0 then settings.extraCardsPowerup else 0)
      ensures deck.cards == added + old(deck.cards)
      ensures forall c | c in added :: fresh(c) && c.generated && c.kind == Normal && !c.revealed
      ensures waste.cards == old(waste.cards) && board.Contents() == old(board.Contents())
      ensures Valid()
    {
      if paused || coins < settings.costForAddExtraCards {
        return [];
      }
      coins := coins - settings.costForAddExtraCards;
      added := AddGeneratedCards(deck, waste, board, settings.extraCardsPowerup);
      assert Undoable(undoHistory, board);
    }
  }

  /**
   * GenerateWildCard on the table: a new Wild card joins the waste's top, so it
   * is now in play once, and nothing else moves.
   */
  method AddWildCard(deck: Deck, waste: Waste, board: Board, ghost history: seq<Action>) returns (card: Card)
    requires Settled(deck, waste, board) && Undoable(history, board)
    modifies waste`cards, (set c | c in waste.cards)`depth
    ensures fresh(card) && waste.cards == [card] + old(waste.cards)
    ensures card.kind == Wild && card.revealed && card.generated
    ensures deck.cards == old(deck.cards) && board.Contents() == old(board.Contents())
    ensures Settled(deck, waste, board) && Undoable(history, board)
  {
    ghost var onWaste, before := waste.cards, board.Contents();
    card := NewWildOnWaste(deck, waste, board);
    assert card !in before;
    JoinedWaste(deck, waste, board, onWaste, card);
  }

  /**
   * The card work of GenerateWildCard: a new card, made Wild, goes on the
   * waste's top, face up and marked as generated. The new card's fields are
   * set before it joins the waste (the source sets two of them after), which
   * changes nothing since the waste does not read them. The board is not
   * touched, so what it shows stays as it was.
   */
  method NewWildOnWaste(deck: Deck, waste: Waste, board: Board) returns (card: Card)
    requires waste.Valid() && board.Valid()
    modifies waste`cards, (set c | c in waste.cards)`depth
    ensures fresh(card) && waste.cards == [card] + old(waste.cards) && waste.Valid()
    ensures card.kind == Wild && card.revealed && card.generated
    ensures board.Contents() == old(board.Contents())
    ensures old(Visible(board)) ==> Visible(board)
  {
    card := MakeCard(deck, Ace, Spades, Wild, true);
    waste.AddCard(card);
  }

  /**
   * The loop of AddExtraCards: `count` rounds (none when `count` is not
   * positive), each putting one new generated card at the deck's front.
   */
  method AddGeneratedCards(deck: Deck, waste: Waste, board: Board, count: int) returns (ghost added: seq<Card>)
    requires Custody(deck, waste, board) && Visible(board)
    modifies deck`cards, (set c | c in deck.cards)`depth
    ensures |added| == (if count > 0 then count else 0) && deck.cards == added + old(deck.cards)
    ensures forall c | c in added :: fresh(c) && c.generated && c.kind == Normal && !c.revealed
    ensures waste.cards == old(waste.cards) && board.Contents() == old(board.Contents())
    ensures Custody(deck, waste, board) && Visible(board)
  {
    added := [];
    var i := 0;
    while i < count
      invariant 0 <= i && (i <= count || i == 0)
      invariant |added| == i && deck.cards == added + old(deck.cards)
      invariant forall c | c in added :: fresh(c) && c.generated && c.kind == Normal && !c.revealed
      invariant waste.cards == old(waste.cards) && board.Contents() == old(board.Contents())
      invariant Custody(deck, waste, board) && Visible(board)
    {
      added := AddGeneratedCard(deck, waste, board, added, old(deck.cards));
      i := i + 1;
    }
  }

  /**
   * One AddExtraCards round on the table: a new generated card joins the deck's
   * front, so it is now in play once, and nothing else moves. `added` is the
   * cards earlier rounds put in front of `onDeck`; they keep their fields.
   */
  method AddGeneratedCard(deck: Deck, waste: Waste, board: Board, ghost added: seq<Card>, ghost onDeck: seq<Card>)
    returns (ghost now: seq<Card>)
    requires Custody(deck, waste, board) && Visible(board) && deck.cards == added + onDeck
    requires forall c | c in added :: c.generated && c.kind == Normal && !c.revealed
    modifies deck`cards, (set c | c in deck.cards)`depth
    ensures |now| == |added| + 1 && now[1..] == added && fresh(now[0]) && deck.cards == now + onDeck
    ensures forall c | c in now :: c.generated && c.kind == Normal && !c.revealed
    ensures waste.cards == old(waste.cards) && board.Contents() == old(board.Contents())
    ensures InPlay(deck, waste, board) == old(InPlay(deck, waste, board)) + multiset{now[0]}
    ensures Custody(deck, waste, board)
    ensures Visible(board)
  {
    ghost var before := board.Contents();
    var card := NewCardOnDeck(deck, waste, board, added);
    assert card !in before;
    JoinedDeck(deck, waste, board, added + onDeck, card);
    now := [card] + added;
    PrependRegroup(card, added, onDeck);
  }

  /**
   * The card work of one AddExtraCards round: a new card with a face drawn at
   * random, marked as generated, goes to the deck's front. The board is not
   * touched, so what it shows stays as it was.
   */
  method NewCardOnDeck(deck: Deck, waste: Waste, board: Board, ghost added: seq<Card>) returns (card: Card)
    requires deck.Valid() && board.Valid()
    modifies deck`cards, (set c | c in deck.cards)`depth
    ensures fresh(card) && deck.cards == [card] + old(deck.cards) && deck.Valid()
    ensures card.kind == Normal && !card.revealed && card.generated
    ensures forall c | c in added :: c.revealed == old(c.revealed)
    ensures board.Contents() == old(board.Contents())
    ensures old(Visible(board)) ==> Visible(board)
  {
    card := MakeRandomCard(deck);
    deck.AddCardOnTop(card);
  }

  /** A new generated card with the given face and facing, made by the deck; no existing object changes. */
  method MakeCard(deck: Deck, rank: Rank, suit: Suit, kind: Kind, faceUp: bool) returns (card: Card)
    ensures fresh(card) && card.rank == rank && card.suit == suit && card.kind == kind
    ensures card.revealed == faceUp && card.generated
  {
    card := deck.CreateNewCard(rank, suit, kind, true);
    card.SetRevealed(faceUp);
  }

  /** A new generated, face-down Normal card with a face drawn at random; no existing object changes. */
  method MakeRandomCard(deck: Deck) returns (card: Card)
    ensures fresh(card) && card.kind == Normal && !card.revealed && card.generated
  {
    var rank: Rank :| true;
    var suit: Suit :| true;
    card := MakeCard(deck, rank, suit, Normal, false);
  }

  /**
   * RefreshBoard: every occupied slot's card is turned face up exactly when its
   * overlapping slots are all empty. Only the faces of the board's cards change.
   */
  method RefreshBoard(deck: Deck, waste: Waste, board: Board, ghost history: seq<Action>)
    requires Custody(deck, waste, board) && Undoable(history, board)
    modifies HeldCards(board)`revealed
    ensures deck.cards == old(deck.cards) && waste.cards == old(waste.cards) && board.Contents() == old(board.Contents())
    ensures Settled(deck, waste, board) && Undoable(history, board)
  {
    CustodySlotsDistinct(deck, waste, board);
    HeldInContents(board);
    ghost var before, pool := board.Contents(), Pool(deck, waste, board);
    RefreshVisibility(board);
    assert board.Contents() == before && Pool(deck, waste, board) == pool;
  }

  /** RevealNextCard, keeping the undo list's slots undoable once the move is recorded. */
  method Draw(deck: Deck, waste: Waste, board: Board, ghost history: seq<Action>)
    requires Settled(deck, waste, board) && Undoable(history, board) && deck.cards != []
    modifies deck`cards, waste`cards, (set c | c in deck.cards[..1])`revealed
    modifies (set c | c in deck.cards)`depth, (set c | c in waste.cards)`depth
    ensures Snapshot(deck, waste, board) == Drawn(old(Snapshot(deck, waste, board))) && waste.cards[0].revealed
    ensures Settled(deck, waste, board)
    ensures Undoable(history + [Action(Move.RevealNextCard, null)], board)
  {
    UndoableRecorded(history, Action(Move.RevealNextCard, null), board);
    Tables.RevealNextCard(deck, waste, board);
  }

  /**
   * RemoveCardFromSlot then RefreshBoard, keeping the undo list's slots
   * undoable once the move is recorded with its slot.
   */
  method Take(deck: Deck, waste: Waste, board: Board, slot: Slot, ghost history: seq<Action>)
    requires Settled(deck, waste, board) && Undoable(history, board)
    requires slot in board.SlotSet() && slot.card != null
    modifies slot`card, waste`cards, slot.card`depth, (set c | c in waste.cards)`depth
    modifies HeldCards(board)`revealed
    ensures Snapshot(deck, waste, board) == Taken(old(Snapshot(deck, waste, board)), old(SlotIndex(board, slot)))
    ensures Settled(deck, waste, board)
    ensures Undoable(history + [Action(Move.RemoveCardFromSlot, slot)], board)
  {
    Vacate(deck, waste, board, slot, history);
    RefreshBoard(deck, waste, board, history + [Action(Move.RemoveCardFromSlot, slot)]);
  }

  /** RemoveCardFromSlot: the emptied slot joins the undo list's slots once the move is recorded. */
  method Vacate(deck: Deck, waste: Waste, board: Board, slot: Slot, ghost history: seq<Action>)
    requires Custody(deck, waste, board) && Undoable(history, board)
    requires slot in board.SlotSet() && slot.card != null
    modifies slot`card, waste`cards, slot.card`depth, (set c | c in waste.cards)`depth
    ensures waste.cards == [old(slot.card)] + old(waste.cards) && deck.cards == old(deck.cards)
    ensures board.Contents() == old(board.Contents())[SlotIndex(board, slot) := null]
    ensures Custody(deck, waste, board)
    ensures Undoable(history + [Action(Move.RemoveCardFromSlot, slot)], board)
  {
    ghost var r := RemovedSlots(history);
    assert slot !in r;
    Tables.RemoveCardFromSlot(deck, waste, board, slot);
    assert forall k :: 0 <= k < |r| ==> r[k].card == null;
    UndoableRecorded(history, Action(RemoveCardFromSlot, slot), board);
  }

  /**
   * UndoLastMove after the entry is popped: a Wild card on top of the waste is
   * destroyed, then the popped move is inverted.
   */
  method Unwind(deck: Deck, waste: Waste, board: Board, action: Action, ghost history: seq<Action>)
    requires Settled(deck, waste, board) && Undoable(history + [action], board) && waste.cards != []
    requires action.move == RemoveCardFromSlot ==> action.slot in board.SlotSet()
    modifies deck`cards, waste`cards, board.SlotSet()`card
    modifies (set c | c in deck.cards)`depth, (set c | c in waste.cards)`depth, (set c | c in waste.cards)`revealed
    modifies HeldCards(board)`revealed
    ensures Snapshot(deck, waste, board) ==
      Undone(Unwild(old(Snapshot(deck, waste, board)), old(waste.cards[0].kind) == Wild), action.move, old(EntryIndex(board, action)))
    ensures action.move == RevealNextCard && (old(waste.cards[0].kind) != Wild || old(|waste.cards|) > 1) ==>
      deck.cards != [] && !deck.cards[0].revealed
    ensures Settled(deck, waste, board) && Undoable(history, board)
  {
    DiscardWild(deck, waste, board, history + [action]);
    if action.move == Move.RevealNextCard {
      UnwindReveal(deck, waste, board, action.slot, history);
    } else {
      UnwindRemove(deck, waste, board, action.slot, history);
    }
  }

  /** A Wild card on top of the waste is destroyed before an undo; any other top stays. */
  method DiscardWild(deck: Deck, waste: Waste, board: Board, ghost history: seq<Action>)
    requires Settled(deck, waste, board) && Undoable(history, board) && waste.cards != []
    modifies waste`cards, (set c | c in waste.cards)`depth
    ensures Snapshot(deck, waste, board) == Unwild(old(Snapshot(deck, waste, board)), old(waste.cards[0].kind) == Wild)
    ensures Settled(deck, waste, board) && Undoable(history, board)
  {
    if waste.At(0).kind == Wild {
      DiscardTop(deck, waste, board, history);
    }
  }

  /** Destroys the waste's top card; the board and the undo list are not touched. */
  method DiscardTop(deck: Deck, waste: Waste, board: Board, ghost history: seq<Action>)
    requires Settled(deck, waste, board) && Undoable(history, board) && waste.cards != []
    modifies waste`cards, (set c | c in waste.cards)`depth
    ensures deck.cards == old(deck.cards) && waste.cards == old(waste.cards[1..]) && board.Contents() == old(board.Contents())
    ensures Settled(deck, waste, board) && Undoable(history, board)
  {
    var _ := DestroyWasteTop(deck, waste, board);
  }

  /** Undoing a deck tap: the waste's top card, if any, goes back to the deck front face down. */
  method UnwindReveal(deck: Deck, waste: Waste, board: Board, ghost slot: Slot?, ghost history: seq<Action>)
    requires Settled(deck, waste, board) && Undoable(history + [Action(RevealNextCard, slot)], board)
    modifies deck`cards, waste`cards, (set c | c in waste.cards)`revealed
    modifies (set c | c in deck.cards)`depth, (set c | c in waste.cards)`depth
    ensures Snapshot(deck, waste, board) == Undone(old(Snapshot(deck, waste, board)), RevealNextCard, 0)
    ensures old(waste.cards) != [] ==> deck.cards != [] && !deck.cards[0].revealed
    ensures Settled(deck, waste, board) && Undoable(history, board)
  {
    UndoablePopped(history, Action(RevealNextCard, slot), board);
    if waste.Size() > 0 {
      Tables.ReturnCardFromWaste(deck, waste, board);
    }
  }

  /**
   * Undoing a take: the waste's top card, if any, goes back into the recorded
   * slot and the board's faces are updated.
   */
  method UnwindRemove(deck: Deck, waste: Waste, board: Board, slot: Slot, ghost history: seq<Action>)
    requires Settled(deck, waste, board) && Undoable(history + [Action(RemoveCardFromSlot, slot)], board)
    requires slot in board.SlotSet()
    modifies slot`card, waste`cards, (set c | c in waste.cards)`depth, (set c | c in waste.cards)`revealed
    modifies HeldCards(board)`revealed
    ensures Snapshot(deck, waste, board) == Undone(old(Snapshot(deck, waste, board)), RemoveCardFromSlot, old(SlotIndex(board, slot)))
    ensures Settled(deck, waste, board) && Undoable(history, board)
  {
    if waste.Size() > 0 {
      Restore(deck, waste, board, slot, history);
      RefreshBoard(deck, waste, board, history);
    } else {
      UndoablePopped(history, Action(RemoveCardFromSlot, slot), board);
    }
  }

  /** ReturnCardToSlot for an undone take: the refilled slot leaves the undo list's slots. */
  method Restore(deck: Deck, waste: Waste, board: Board, slot: Slot, ghost history: seq<Action>)
    requires Custody(deck, waste, board) && Undoable(history + [Action(RemoveCardFromSlot, slot)], board)
    requires waste.cards != []
    modifies slot`card, waste`cards, (set c | c in waste.cards)`depth
    ensures slot in board.SlotSet()
    ensures waste.cards == old(waste.cards[1..]) && deck.cards == old(deck.cards)
    ensures board.Contents() == old(board.Contents())[SlotIndex(board, slot) := old(waste.cards[0])]
    ensures Custody(deck, waste, board) && Undoable(history, board)
  {
    UndoablePopped(history, Action(RemoveCardFromSlot, slot), board);
    ghost var r := RemovedSlots(history);
    Tables.ReturnCardToSlot(deck, waste, board, slot);
    assert forall k :: 0 <= k < |r| ==> r[k] in board.SlotSet() && r[k].card == null;
  }

  /** A Wild card on top of the waste is destroyed: it leaves the waste and the game. */
  method DestroyWasteTop(deck: Deck, waste: Waste, board: Board) returns (card: Card)
    requires Custody(deck, waste, board) && waste.cards != []
    modifies waste`cards, (set c | c in waste.cards)`depth
    ensures card == old(waste.cards[0]) && waste.cards == old(waste.cards[1..])
    ensures deck.cards == old(deck.cards) && board.Contents() == old(board.Contents())
    ensures card !in Pool(deck, waste, board)
    ensures InPlay(deck, waste, board) + multiset{card} == old(InPlay(deck, waste, board))
    ensures Custody(deck, waste, board)
  {
    ghost var onWaste := waste.cards;
    var top := waste.TakeTopCard();
    card := top;
    LeftWaste(deck, waste, board, onWaste);
  }

  /**
   * The card work of ShuffleBoard: the occupied slots are emptied, their cards
   * go back into the deck, the deck is shuffled, and the same slots are dealt
   * again. The board's faces are then updated.
   */
  method Reshuffle(deck: Deck, waste: Waste, board: Board, ghost history: seq<Action>)
    requires Settled(deck, waste, board) && Undoable(history, board)
    modifies deck`cards, board.SlotSet()`card
    modifies (set c | c in Pool(deck, waste, board))`depth, (set c | c in Pool(deck, waste, board))`revealed
    ensures Reshuffled(old(Snapshot(deck, waste, board)), Snapshot(deck, waste, board))
    ensures Settled(deck, waste, board) && Undoable(history, board)
  {
    ghost var pool := Pool(deck, waste, board);
    ReshuffleCards(deck, waste, board, history);
    HeldWithin(deck, waste, board, pool);
    RefreshBoard(deck, waste, board, history);
  }

  /**
   * ShuffleBoard's moves, keeping the undo list undoable: the slots occupied
   * before are the ones occupied now, so the undo list's slots are still empty.
   */
  method ReshuffleCards(deck: Deck, waste: Waste, board: Board, ghost history: seq<Action>)
    requires Custody(deck, waste, board) && Undoable(history, board)
    modifies deck`cards, board.SlotSet()`card
    modifies (set c | c in Pool(deck, waste, board))`depth, (set c | c in Pool(deck, waste, board))`revealed
    ensures Reshuffled(old(Snapshot(deck, waste, board)), Snapshot(deck, waste, board))
    ensures InPlay(deck, waste, board) == old(InPlay(deck, waste, board))
    ensures Custody(deck, waste, board) && Undoable(history, board)
  {
    ghost var before := board.Contents();
    UndoableEmpty(history, board);
    Rearrange(deck, waste, board);
    UndoableSamePattern(history, board, before, RemovedSlots(history));
  }

  /** The slots of an undoable list are empty: their places in the board's contents hold nothing. */
  lemma UndoableEmpty(history: seq<Action>, board: Board)
    requires NoDuplicates(board.slots[..]) && Undoable(history, board)
    ensures var r := RemovedSlots(history);
      forall k :: 0 <= k < |r| ==> board.Contents()[SlotIndex(board, r[k])] == null
  {
  }

  /**
   * A board occupied at the same places as `before` still has the undo list's
   * slots empty when they were empty in `before`.
   */
  lemma UndoableSamePattern(history: seq<Action>, board: Board, before: seq<Card?>, r: seq<Slot?>)
    requires NoDuplicates(board.slots[..]) && SamePattern(before, board.Contents())
    requires r == RemovedSlots(history) && NamesBoardSlots(history, board) && NoDuplicates(r)
    requires forall k :: 0 <= k < |r| ==> r[k] in board.SlotSet() && before[SlotIndex(board, r[k])] == null
    ensures Undoable(history, board)
  {
    forall k | 0 <= k < |r| ensures r[k].card == null {
      var i := SlotIndex(board, r[k]);
      assert board.Contents()[i] == board.slots[i].card;
    }
  }

  /**
   * ShuffleBoard's moves: every card that was on the board or in the deck is
   * somewhere among them again, the waste is not touched, and the slots
   * occupied before are the ones occupied now.
   */
  method Rearrange(deck: Deck, waste: Waste, board: Board)
    requires Custody(deck, waste, board)
    modifies deck`cards, board.SlotSet()`card
    modifies (set c | c in Pool(deck, waste, board))`depth, (set c | c in Pool(deck, waste, board))`revealed
    ensures SamePattern(old(board.Contents()), board.Contents())
    ensures multiset(deck.cards) + Occupied(board.Contents()) == old(multiset(deck.cards) + Occupied(board.Contents()))
    ensures InPlay(deck, waste, board) == old(InPlay(deck, waste, board)) && Custody(deck, waste, board)
  {
    ghost var before, onDeck, pool := board.Contents(), deck.cards, Pool(deck, waste, board);
    var untouched := ClearAndShuffle(deck, waste, board);
    ghost var emptied := board.Contents();
    PoolWithin(deck, waste, board, pool);
    Redeal(deck, waste, board, untouched);
    PatternRestored(before, emptied, board.Contents(), board.slots[..], untouched);
    InPlayApart(onDeck, waste.cards, before, deck.cards, board.Contents());
  }

  /** The first loop of ShuffleBoard and the shuffle: the board is emptied into the deck, which is then shuffled. */
  method ClearAndShuffle(deck: Deck, waste: Waste, board: Board) returns (untouched: seq<Slot>)
    requires Custody(deck, waste, board)
    modifies deck`cards, board.SlotSet()`card
    modifies (set c | c in Pool(deck, waste, board))`depth, (set c | c in Pool(deck, waste, board))`revealed
    ensures board.Contents() == Empties(board.slots.Length)
    ensures |untouched| <= |deck.cards| && NoDuplicates(untouched)
    ensures forall s | s in untouched :: s in board.slots[..]
    ensures forall k :: 0 <= k < board.slots.Length ==> (board.slots[k] in untouched <==> old(board.Contents())[k] != null)
    ensures InPlay(deck, waste, board) == old(InPlay(deck, waste, board)) && Custody(deck, waste, board)
  {
    ghost var pool := Pool(deck, waste, board);
    untouched := ClearBoard(deck, waste, board);
    PoolWithin(deck, waste, board, pool);
    ShuffleDeck(deck, waste, board);
  }

  /**
   * Emptying the board, noting the slots that were occupied, and then filling
   * exactly the noted slots leaves the board occupied at the same places.
   */
  lemma PatternRestored(before: seq<Card?>, emptied: seq<Card?>, after: seq<Card?>, slots: seq<Slot>, untouched: seq<Slot>)
    requires |before| == |emptied| == |after| == |slots|
    requires forall k :: 0 <= k < |slots| ==> (slots[k] in untouched <==> before[k] != null)
    requires forall k :: 0 <= k < |slots| ==> emptied[k] == null
    requires forall k :: 0 <= k < |slots| ==> (after[k] != null <==> emptied[k] != null || slots[k] in untouched)
    ensures SamePattern(before, after)
  {
  }

  /**
   * The first loop of ShuffleBoard: from the last slot down to the first, each
   * occupied slot is noted and its card goes to the deck's front, face down.
   * The deck ends with the board's cards in slot order in front of its own.
   */
  method ClearBoard(deck: Deck, waste: Waste, board: Board) returns (untouched: seq<Slot>)
    requires Custody(deck, waste, board)
    modifies deck`cards, board.SlotSet()`card
    modifies (set c | c in Pool(deck, waste, board))`depth, (set c | c in Pool(deck, waste, board))`revealed
    ensures board.Contents() == Empties(board.slots.Length)
    ensures deck.cards == Present(old(board.Contents())) + old(deck.cards)
    ensures |untouched| == |Present(old(board.Contents()))| && NoDuplicates(untouched)
    ensures forall s | s in untouched :: s in board.slots[..]
    ensures forall k :: 0 <= k < board.slots.Length ==> (board.slots[k] in untouched <==> old(board.Contents())[k] != null)
    ensures InPlay(deck, waste, board) == old(InPlay(deck, waste, board)) && Custody(deck, waste, board)
  {
    ghost var before, pool := board.Contents(), Pool(deck, waste, board);
    untouched := [];
    var i := board.Size();
    while i > 0
      invariant 0 <= i <= board.slots.Length
      invariant Emptied(board.Contents(), deck.cards, board.slots[..], before, old(deck.cards), untouched, i)
      invariant InPlay(deck, waste, board) == multiset(pool) && Custody(deck, waste, board)
    {
      PoolWithin(deck, waste, board, pool);
      untouched := ClearNext(deck, waste, board, before, old(deck.cards), untouched, i - 1);
      i := i - 1;
    }
  }

  /**
   * Where ClearBoard stands with the slots from index i on handled: those slots
   * are empty, their cards are in front of the deck in slot order, and
   * `untouched` names the occupied ones among them.
   */
  ghost predicate Emptied(contents: seq<Card?>, cards: seq<Card>, slots: seq<Slot>, before: seq<Card?>, onDeck: seq<Card>,
    untouched: seq<Slot>, i: nat)
  {
    |before| == |slots| && i <= |before| &&
    contents == before[..i] + Empties(|slots| - i) &&
    cards == Present(before[i..]) + onDeck &&
    |untouched| == |Present(before[i..])| && NoDuplicates(untouched) &&
    (forall s | s in untouched :: s in slots) &&
    forall k :: 0 <= k < |slots| ==> (slots[k] in untouched <==> i <= k && before[k] != null)
  }

  /** Slot i handled: emptied into the deck's front, and noted, when it held a card. */
  lemma EmptiedStep(contents: seq<Card?>, cards: seq<Card>, contents': seq<Card?>, cards': seq<Card>, slots: seq<Slot>,
    before: seq<Card?>, onDeck: seq<Card>, untouched: seq<Slot>, more: seq<Slot>, i: nat)
    requires Emptied(contents, cards, slots, before, onDeck, untouched, i + 1) && NoDuplicates(slots)
    requires contents' == contents[i := null]
    requires cards' == (if before[i] == null then [] else [before[i]]) + cards
    requires more == if before[i] == null then untouched else untouched + [slots[i]]
    ensures Emptied(contents', cards', slots, before, onDeck, more, i)
  {
    PresentFrom(before, i);
    var cleared := before[..i] + Empties(|slots| - i);
    assert contents' == cleared by {
      forall k | 0 <= k < |slots| ensures contents'[k] == cleared[k] {
        if k < i {
          assert contents[k] == before[k];
        }
      }
    }
    if before[i] != null {
      assert slots[i] !in untouched;
      NoDuplicatesInsert(untouched, [], slots[i]);
      assert untouched + [slots[i]] + [] == more;
      forall k | 0 <= k < |slots| ensures slots[k] in more <==> i <= k && before[k] != null {
        assert slots[k] == slots[i] <==> k == i;
      }
    }
  }

  /** Everything in play is among the cards of `pool` when the same cards are in play. */
  lemma PoolWithin(deck: Deck, waste: Waste, board: Board, pool: seq<Card>)
    requires InPlay(deck, waste, board) <= multiset(pool)
    ensures forall c | c in Pool(deck, waste, board) :: c in pool
  {
    forall c | c in Pool(deck, waste, board) ensures c in pool {
      assert c in multiset(Pool(deck, waste, board));
    }
  }

  /** Every card held by the board is among the cards of `pool` when the same cards are in play. */
  lemma HeldWithin(deck: Deck, waste: Waste, board: Board, pool: seq<Card>)
    requires InPlay(deck, waste, board) == multiset(pool)
    ensures forall c | c in HeldCards(board) :: c in pool
  {
    forall c | c in HeldCards(board) ensures c in pool {
      HeldIffOccupied(board, c);
      assert c in multiset(Pool(deck, waste, board));
    }
  }

  /** One round of ClearBoard's loop: slot i is noted and emptied into the deck if it holds a card. */
  method ClearNext(deck: Deck, waste: Waste, board: Board, ghost before: seq<Card?>, ghost onDeck: seq<Card>,
    untouched: seq<Slot>, i: nat) returns (more: seq<Slot>)
    requires Custody(deck, waste, board)
    requires Emptied(board.Contents(), deck.cards, board.slots[..], before, onDeck, untouched, i + 1)
    modifies deck`cards, {board.slots[i]}`card
    modifies (set c | c in Pool(deck, waste, board))`depth, (set c | c in Pool(deck, waste, board))`revealed
    ensures Emptied(board.Contents(), deck.cards, board.slots[..], before, onDeck, more, i)
    ensures InPlay(deck, waste, board) == old(InPlay(deck, waste, board)) && Custody(deck, waste, board)
  {
    ghost var contents, cards := board.Contents(), deck.cards;
    var slot := board.At(i);
    more := untouched;
    if slot.card != null {
      more := untouched + [slot];
      ReturnHeld(deck, waste, board, i);
    }
    EmptiedStep(contents, cards, board.Contents(), deck.cards, board.slots[..], before, onDeck, untouched, more, i);
  }

  /** ReturnCardFromSlot on the occupied slot at index i. */
  method ReturnHeld(deck: Deck, waste: Waste, board: Board, i: nat)
    requires Custody(deck, waste, board) && i < board.slots.Length && board.slots[i].card != null
    modifies deck`cards, {board.slots[i]}`card
    modifies (set c | c in Pool(deck, waste, board))`depth, (set c | c in Pool(deck, waste, board))`revealed
    ensures deck.cards == [old(board.slots[i].card)] + old(deck.cards)
    ensures board.Contents() == old(board.Contents())[i := null]
    ensures InPlay(deck, waste, board) == old(InPlay(deck, waste, board)) && Custody(deck, waste, board)
  {
    HeldInPool(deck, waste, board, i);
    Tables.ReturnCardFromSlot(deck, waste, board, board.slots[i]);
  }

  /** The shuffle of ShuffleBoard: the deck is reordered, and every card stays in play once. */
  method ShuffleDeck(deck: Deck, waste: Waste, board: Board)
    requires Custody(deck, waste, board)
    modifies deck`cards, (set c | c in deck.cards)`depth
    ensures multiset(deck.cards) == old(multiset(deck.cards))
    ensures InPlay(deck, waste, board) == old(InPlay(deck, waste, board)) && Custody(deck, waste, board)
  {
    CustodyIffUnique(deck, waste, board);
    deck.Shuffle();
    CustodyIffUnique(deck, waste, board);
  }

  /**
   * The second loop of ShuffleBoard: the noted slots, from the last noted to
   * the first, each take the deck's front card.
   */
  method Redeal(deck: Deck, waste: Waste, board: Board, untouched: seq<Slot>)
    requires Custody(deck, waste, board) && |untouched| <= |deck.cards| && NoDuplicates(untouched)
    requires forall s | s in untouched :: s in board.slots[..]
    requires forall k :: 0 <= k < board.slots.Length && board.slots[k] in untouched ==> board.Contents()[k] == null
    modifies deck`cards, board.SlotSet()`card, (set c | c in Pool(deck, waste, board))`depth
    ensures deck.cards == old(deck.cards[|untouched|..])
    ensures forall k :: 0 <= k < board.slots.Length ==>
      (board.Contents()[k] != null <==> old(board.Contents())[k] != null || board.slots[k] in untouched)
    ensures InPlay(deck, waste, board) == old(InPlay(deck, waste, board)) && Custody(deck, waste, board)
  {
    ghost var before, dealt, pool := board.Contents(), deck.cards, Pool(deck, waste, board);
    var j := |untouched|;
    while j > 0
      invariant 0 <= j <= |untouched|
      invariant Redealt(board.Contents(), deck.cards, board.slots[..], before, dealt, untouched, j)
      invariant InPlay(deck, waste, board) == multiset(pool) && Custody(deck, waste, board)
    {
      PoolWithin(deck, waste, board, pool);
      RedealNext(deck, waste, board, before, dealt, untouched, j - 1);
      j := j - 1;
    }
  }

  /**
   * Where Redeal stands with the noted slots from index j on dealt: they took
   * the front cards of `dealt`; the other noted slots are still empty.
   */
  ghost predicate Redealt(contents: seq<Card?>, cards: seq<Card>, slots: seq<Slot>, before: seq<Card?>, dealt: seq<Card>,
    untouched: seq<Slot>, j: nat)
  {
    |contents| == |before| == |slots| && j <= |untouched| <= |dealt| && NoDuplicates(untouched) &&
    cards == dealt[|untouched| - j..] &&
    (forall s | s in untouched :: s in slots) &&
    (forall k :: 0 <= k < |slots| && slots[k] in untouched ==> before[k] == null) &&
    forall k :: 0 <= k < |slots| ==> (contents[k] != null <==> before[k] != null || slots[k] in untouched[j..])
  }

  /** The noted slot at index j, not yet dealt, is empty; filling it deals it. */
  lemma RedealtStep(contents: seq<Card?>, cards: seq<Card>, contents': seq<Card?>, cards': seq<Card>, slots: seq<Slot>,
    before: seq<Card?>, dealt: seq<Card>, untouched: seq<Slot>, j: nat, i: nat)
    requires Redealt(contents, cards, slots, before, dealt, untouched, j + 1) && NoDuplicates(slots)
    requires i < |slots| && slots[i] == untouched[j]
    ensures contents[i] == null
    ensures cards != [] && cards' == cards[1..] && contents' == contents[i := cards[0]] ==>
      Redealt(contents', cards', slots, before, dealt, untouched, j)
  {
    assert untouched[j..] == [untouched[j]] + untouched[j + 1..];
  }

  /** One round of Redeal's loop: the noted slot at index j takes the deck's front card. */
  method RedealNext(deck: Deck, waste: Waste, board: Board, ghost before: seq<Card?>, ghost dealt: seq<Card>,
    untouched: seq<Slot>, j: nat)
    requires Custody(deck, waste, board) && j < |untouched|
    requires Redealt(board.Contents(), deck.cards, board.slots[..], before, dealt, untouched, j + 1)
    modifies deck`cards, board.SlotSet()`card, (set c | c in Pool(deck, waste, board))`depth
    ensures Redealt(board.Contents(), deck.cards, board.slots[..], before, dealt, untouched, j)
    ensures InPlay(deck, waste, board) == old(InPlay(deck, waste, board)) && Custody(deck, waste, board)
  {
    ghost var contents, cards := board.Contents(), deck.cards;
    SlotAt(board, untouched[j]);
    ghost var i := SlotIndex(board, untouched[j]);
    RedealtStep(contents, cards, contents, cards, board.slots[..], before, dealt, untouched, j, i);
    Tables.DealCardToSlot(deck, waste, board, untouched[j]);
    RedealtStep(contents, cards, board.Contents(), deck.cards, board.slots[..], before, dealt, untouched, j, i);
  }

  /** A slot listed in the board's array is one of its slots, at some index. */
  lemma SlotAt(board: Board, s: Slot)
    requires s in board.slots[..]
    ensures s in board.SlotSet() && exists i :: 0 <= i < board.slots.Length && board.slots[i] == s
  {
    var i :| 0 <= i < board.slots.Length && board.slots[..][i] == s;
  }

  /**
   * AnimateDealBoard's card work: the deck is shuffled, each slot in index
   * order takes the deck's front card, the board's faces are updated, and the
   * next deck card goes face up onto the waste.
   */
  method Deal(deck: Deck, waste: Waste, board: Board) returns (ghost shuffled: seq<Card>)
    requires Settled(deck, waste, board) && board.Contents() == Empties(board.slots.Length)
    requires |deck.cards| > board.slots.Length
    modifies deck`cards, waste`cards, board.SlotSet()`card
    modifies (set c | c in deck.cards)`depth, (set c | c in deck.cards)`revealed, (set c | c in waste.cards)`depth
    ensures multiset(shuffled) == old(multiset(deck.cards))
    ensures forall c | c in shuffled :: c in old(deck.cards)
    ensures multiset(Faces(shuffled)) == multiset(Faces(old(deck.cards)))
    ensures DealtOut(deck, waste, board, shuffled, old(waste.cards)) && waste.cards[0].revealed
    ensures Settled(deck, waste, board) && Undoable([], board)
  {
    ghost var before := deck.cards;
    shuffled := ShuffleAndShow(deck, waste, board);
    PermutationMembers(shuffled, before);
    FacesPermutation(shuffled, before);
    Tables.RevealNextCard(deck, waste, board);
  }

  /** The shuffle and the dealing loop of AnimateDealBoard, then RefreshBoard. */
  method ShuffleAndShow(deck: Deck, waste: Waste, board: Board) returns (ghost shuffled: seq<Card>)
    requires Custody(deck, waste, board) && board.Contents() == Empties(board.slots.Length)
    requires |deck.cards| > board.slots.Length
    modifies deck`cards, board.SlotSet()`card
    modifies (set c | c in deck.cards)`depth, (set c | c in deck.cards)`revealed
    ensures multiset(shuffled) == old(multiset(deck.cards)) && |shuffled| > board.slots.Length
    ensures board.Contents() == shuffled[..board.slots.Length] && deck.cards == shuffled[board.slots.Length..]
    ensures waste.cards == old(waste.cards) && Settled(deck, waste, board)
  {
    shuffled := ShuffleAndDeal(deck, waste, board);
    PermutationMembers(shuffled, old(deck.cards));
    HeldInContents(board);
    RefreshBoard(deck, waste, board, []);
  }

  /** The shuffle and the dealing loop of AnimateDealBoard: the shuffled deck's first cards fill the slots in order. */
  method ShuffleAndDeal(deck: Deck, waste: Waste, board: Board) returns (ghost shuffled: seq<Card>)
    requires Custody(deck, waste, board) && board.Contents() == Empties(board.slots.Length)
    requires |deck.cards| > board.slots.Length
    modifies deck`cards, board.SlotSet()`card, (set c | c in deck.cards)`depth
    ensures multiset(shuffled) == old(multiset(deck.cards)) && |shuffled| > board.slots.Length
    ensures board.Contents() == shuffled[..board.slots.Length] && deck.cards == shuffled[board.slots.Length..]
    ensures Custody(deck, waste, board)
  {
    ShuffleDeck(deck, waste, board);
    shuffled := deck.cards;
    PermutationMembers(shuffled, old(deck.cards));
    DealToSlots(deck, waste, board);
    assert shuffled[..board.slots.Length] + Empties(0) == shuffled[..board.slots.Length];
  }

  /** An empty board shows nothing, and an empty undo list names no slot. */
  lemma EmptyBoardSettled(deck: Deck, waste: Waste, board: Board)
    requires deck.Valid() && waste.Valid() && board.Valid() && NoDuplicates(deck.cards + waste.cards)
    requires forall i :: 0 <= i < board.slots.Length ==> board.slots[i].card == null
    ensures board.Contents() == Empties(board.slots.Length)
    ensures Settled(deck, waste, board) && Undoable([], board)
  {
    OccupiedNone(board.Contents());
    assert |Present(board.Contents())| == 0;
    assert Pool(deck, waste, board) == deck.cards + waste.cards;
  }

  /**
   * The cards RestartGame's loops put on the deck when they visit `cs` in
   * order: each card that is not generated goes to the deck's front, so the
   * last one visited ends on top. Empty places and generated cards add nothing.
   */
  function Stacked(cs: seq<Card?>): seq<Card> {
    if cs == [] then []
    else
      var c := cs[|cs| - 1];
      (if c != null && !c.generated then [c] else []) + Stacked(cs[..|cs| - 1])
  }

  /** Visiting one more place puts its card, unless it is generated, on top of the others. */
  lemma StackedStep(cs: seq<Card?>, i: nat)
    requires i < |cs|
    ensures Stacked(cs[..i + 1]) == (if cs[i] != null && !cs[i].generated then [cs[i]] else []) + Stacked(cs[..i])
  {
    assert cs[..i + 1][..i] == cs[..i];
  }

  /** A deck holding the stacked cards of the first i places takes place i's card, if stacked, on top. */
  lemma StackedPush(cards: seq<Card>, cards': seq<Card>, cs: seq<Card?>, onDeck: seq<Card>, i: nat)
    requires i < |cs| && cards == Stacked(cs[..i]) + onDeck
    requires cards' == (if cs[i] != null && !cs[i].generated then [cs[i]] else []) + cards
    ensures cards' == Stacked(cs[..i + 1]) + onDeck
  {
    StackedStep(cs, i);
  }

  /** The stacked cards are exactly the visited cards that are not generated. */
  lemma {:induction false} StackedMembers(cs: seq<Card?>, c: Card)
    ensures c in Stacked(cs) <==> c in cs && !c.generated
  {
    if cs != [] {
      var init := cs[..|cs| - 1];
      StackedMembers(init, c);
      assert cs == init + [cs[|cs| - 1]];
    }
  }

  /**
   * The two loops of RestartGame: every slot is emptied in index order, then
   * the waste from its top; a generated card is destroyed and any other card
   * goes face down to the deck's front.
   */
  method ClearTable(deck: Deck, waste: Waste, board: Board)
    requires Custody(deck, waste, board)
    modifies deck`cards, waste`cards, board.SlotSet()`card
    modifies (set c | c in Pool(deck, waste, board))`depth, (set c | c in Pool(deck, waste, board))`revealed
    ensures board.Contents() == Empties(board.slots.Length) && waste.cards == []
    ensures deck.cards == Stacked(old(waste.cards)) + Stacked(old(board.Contents())) + old(deck.cards)
    ensures Settled(deck, waste, board)
  {
    ghost var pool, onDeck, inWaste := Pool(deck, waste, board), deck.cards, waste.cards;
    EmptySlots(deck, waste, board);
    assert waste.cards == inWaste;
    PoolWithin(deck, waste, board, pool);
    DrainWaste(deck, waste, board);
    ConcatRegroup(Stacked(inWaste), Stacked(old(board.Contents())), onDeck);
    ClearedSettled(deck, waste, board);
  }

  /** With every slot empty, whatever custody holds is settled: there is nothing to show. */
  lemma ClearedSettled(deck: Deck, waste: Waste, board: Board)
    requires Custody(deck, waste, board) && board.Contents() == Empties(board.slots.Length)
    ensures Settled(deck, waste, board)
  {
    forall i | 0 <= i < board.slots.Length ensures board.slots[i].card == null {
      assert board.Contents()[i] == null;
    }
    OccupiedNone(board.Contents());
    assert |Present(board.Contents())| == 0;
    assert Pool(deck, waste, board) == deck.cards + waste.cards;
    EmptyBoardSettled(deck, waste, board);
  }

  /** The first loop of RestartGame: slot by slot in index order, each card leaves the board. */
  method EmptySlots(deck: Deck, waste: Waste, board: Board)
    requires Custody(deck, waste, board)
    modifies deck`cards, board.SlotSet()`card
    modifies (set c | c in Pool(deck, waste, board))`depth, (set c | c in Pool(deck, waste, board))`revealed
    ensures board.Contents() == Empties(board.slots.Length)
    ensures deck.cards == Stacked(old(board.Contents())) + old(deck.cards)
    ensures InPlay(deck, waste, board) <= old(InPlay(deck, waste, board)) && Custody(deck, waste, board)
  {
    ghost var before, pool := board.Contents(), Pool(deck, waste, board);
    var i, iMax := 0, board.Size();
    EmptiedNone(deck, waste, board);
    while i < iMax
      invariant iMax == board.slots.Length
      invariant EmptiedTo(deck, waste, board, before, old(deck.cards), pool, i)
    {
      EmptyNext(deck, waste, board, before, old(deck.cards), pool, i);
      i := i + 1;
    }
    EmptiedAll(deck, waste, board, before, old(deck.cards), pool, i);
  }

  /**
   * Where RestartGame's first loop stands before visiting slot i, over the
   * cards `pool` that were in play when it began: the slots before i are
   * empty, the others untouched, and the deck holds the stacked cards of the
   * visited slots in front of its own.
   */
  ghost predicate EmptiedTo(deck: Deck, waste: Waste, board: Board, before: seq<Card?>, onDeck: seq<Card>, pool: seq<Card>, i: nat)
    reads deck, waste, board, board.slots, board.SlotSet()`card, board.SlotSet()`overlapping
  {
    i <= board.slots.Length && i <= |before| &&
    board.Contents() == Empties(i) + before[i..] && deck.cards == Stacked(before[..i]) + onDeck &&
    InPlay(deck, waste, board) <= multiset(pool) && Custody(deck, waste, board)
  }

  /** When the first loop of RestartGame begins, no slot has been visited. */
  lemma EmptiedNone(deck: Deck, waste: Waste, board: Board)
    requires Custody(deck, waste, board)
    ensures EmptiedTo(deck, waste, board, board.Contents(), deck.cards, Pool(deck, waste, board), 0)
  {
    assert board.Contents() == Empties(0) + board.Contents()[0..];
  }

  /** When the first loop of RestartGame ends, every slot has been visited and emptied. */
  lemma EmptiedAll(deck: Deck, waste: Waste, board: Board, before: seq<Card?>, onDeck: seq<Card>, pool: seq<Card>, i: nat)
    requires EmptiedTo(deck, waste, board, before, onDeck, pool, i) && i >= board.slots.Length
    ensures board.Contents() == Empties(board.slots.Length) && deck.cards == Stacked(before) + onDeck
    ensures InPlay(deck, waste, board) <= multiset(pool) && Custody(deck, waste, board)
  {
    assert before[..i] == before;
  }

  /** One round of RestartGame's first loop, in terms of where the loop stands. */
  method EmptyNext(deck: Deck, waste: Waste, board: Board, ghost before: seq<Card?>, ghost onDeck: seq<Card>, ghost pool: seq<Card>, i: nat)
    requires i < board.slots.Length && EmptiedTo(deck, waste, board, before, onDeck, pool, i)
    modifies deck`cards, {board.slots[i]}`card, (set c | c in pool)`depth, (set c | c in pool)`revealed
    ensures EmptiedTo(deck, waste, board, before, onDeck, pool, i + 1)
  {
    PoolWithin(deck, waste, board, pool);
    ghost var contents, cards := board.Contents(), deck.cards;
    assert contents[i] == before[i];
    EmptySlot(deck, waste, board, i);
    StackedPush(cards, deck.cards, before, onDeck, i);
    EmptiedPrefix(before, i);
  }

  lemma EmptiedPrefix(before: seq<Card?>, i: nat)
    requires i < |before|
    ensures (Empties(i) + before[i..])[i := null] == Empties(i + 1) + before[i + 1..]
  {
  }

  /** One round of RestartGame's first loop: slot i's card, if any, is destroyed when generated and returned to the deck otherwise. */
  method EmptySlot(deck: Deck, waste: Waste, board: Board, i: nat)
    requires Custody(deck, waste, board) && i < board.slots.Length
    modifies deck`cards, {board.slots[i]}`card
    modifies (set c | c in Pool(deck, waste, board))`depth, (set c | c in Pool(deck, waste, board))`revealed
    ensures var c := old(board.Contents())[i];
      deck.cards == (if c != null && !c.generated then [c] else []) + old(deck.cards)
    ensures board.Contents() == old(board.Contents())[i := null]
    ensures InPlay(deck, waste, board) <= old(InPlay(deck, waste, board)) && Custody(deck, waste, board)
  {
    var slot := board.At(i);
    if slot.card != null {
      if slot.card.generated {
        DestroySlotCard(deck, waste, board, i);
      } else {
        ReturnHeld(deck, waste, board, i);
      }
    } else {
      assert board.Contents() == old(board.Contents())[i := null];
    }
  }

  /** A generated card taken from slot i is destroyed: it leaves the board and the game. */
  method DestroySlotCard(deck: Deck, waste: Waste, board: Board, i: nat)
    requires Custody(deck, waste, board) && i < board.slots.Length && board.slots[i].card != null
    modifies {board.slots[i]}`card
    ensures deck.cards == old(deck.cards) && board.Contents() == old(board.Contents())[i := null]
    ensures InPlay(deck, waste, board) + multiset{old(board.slots[i].card)} == old(InPlay(deck, waste, board))
    ensures Custody(deck, waste, board)
  {
    ghost var before := board.Contents();
    var _ := board.slots[i].TakeCard();
    LeftSlot(deck, waste, board, i, before);
  }

  /** The second loop of RestartGame: while the waste has cards, its top card leaves it. */
  method DrainWaste(deck: Deck, waste: Waste, board: Board)
    requires Custody(deck, waste, board)
    modifies deck`cards, waste`cards
    modifies (set c | c in Pool(deck, waste, board))`depth, (set c | c in Pool(deck, waste, board))`revealed
    ensures waste.cards == [] && deck.cards == Stacked(old(waste.cards)) + old(deck.cards)
    ensures board.Contents() == old(board.Contents())
    ensures InPlay(deck, waste, board) <= old(InPlay(deck, waste, board)) && Custody(deck, waste, board)
  {
    ghost var before, contents, pool := waste.cards, board.Contents(), Pool(deck, waste, board);
    ghost var k := 0;
    DrainedNone(deck, waste, board);
    while waste.Size() > 0
      invariant DrainedTo(deck, waste, board, before, old(deck.cards), contents, pool, k)
      decreases |before| - k
    {
      DrainNext(deck, waste, board, before, old(deck.cards), contents, pool, k);
      k := k + 1;
    }
    DrainedAll(deck, waste, board, before, old(deck.cards), contents, pool, k);
  }

  /**
   * Where RestartGame's second loop stands after k waste cards have left: the
   * waste holds the rest, the deck holds the stacked cards of the first k in
   * front of its own, and the board is untouched.
   */
  ghost predicate DrainedTo(deck: Deck, waste: Waste, board: Board, before: seq<Card>, onDeck: seq<Card>,
    contents: seq<Card?>, pool: seq<Card>, k: nat)
    reads deck, waste, board, board.slots, board.SlotSet()`card, board.SlotSet()`overlapping
  {
    k <= |before| && waste.cards == before[k..] && deck.cards == Stacked(before[..k]) + onDeck &&
    board.Contents() == contents && InPlay(deck, waste, board) <= multiset(pool) && Custody(deck, waste, board)
  }

  /** When the second loop of RestartGame begins, no waste card has left. */
  lemma DrainedNone(deck: Deck, waste: Waste, board: Board)
    requires Custody(deck, waste, board)
    ensures DrainedTo(deck, waste, board, waste.cards, deck.cards, board.Contents(), Pool(deck, waste, board), 0)
  {
    assert waste.cards[0..] == waste.cards;
  }

  /** When the second loop of RestartGame ends, every waste card has left. */
  lemma DrainedAll(deck: Deck, waste: Waste, board: Board, before: seq<Card>, onDeck: seq<Card>,
    contents: seq<Card?>, pool: seq<Card>, k: nat)
    requires DrainedTo(deck, waste, board, before, onDeck, contents, pool, k) && waste.cards == []
    ensures deck.cards == Stacked(before) + onDeck && board.Contents() == contents
    ensures InPlay(deck, waste, board) <= multiset(pool) && Custody(deck, waste, board)
  {
    assert before[..k] == before;
  }

  /** One round of RestartGame's second loop, in terms of where the loop stands. */
  method DrainNext(deck: Deck, waste: Waste, board: Board, ghost before: seq<Card>, ghost onDeck: seq<Card>,
    ghost contents: seq<Card?>, ghost pool: seq<Card>, ghost k: nat)
    requires DrainedTo(deck, waste, board, before, onDeck, contents, pool, k) && waste.cards != []
    modifies deck`cards, waste`cards, (set c | c in pool)`depth, (set c | c in pool)`revealed
    ensures k < |before| && DrainedTo(deck, waste, board, before, onDeck, contents, pool, k + 1)
  {
    PoolWithin(deck, waste, board, pool);
    ghost var cards := deck.cards;
    assert waste.cards[0] == before[k];
    DrainTop(deck, waste, board);
    StackedPush(cards, deck.cards, before, onDeck, k);
    assert waste.cards == before[k + 1..];
  }

  /** One round of RestartGame's second loop: the waste's top card is destroyed when generated and returned to the deck otherwise. */
  method DrainTop(deck: Deck, waste: Waste, board: Board)
    requires Custody(deck, waste, board) && waste.cards != []
    modifies deck`cards, waste`cards
    modifies (set c | c in Pool(deck, waste, board))`depth, (set c | c in Pool(deck, waste, board))`revealed
    ensures var c := old(waste.cards[0]);
      deck.cards == (if !c.generated then [c] else []) + old(deck.cards) && waste.cards == old(waste.cards[1..])
    ensures board.Contents() == old(board.Contents())
    ensures InPlay(deck, waste, board) <= old(InPlay(deck, waste, board)) && Custody(deck, waste, board)
  {
    if waste.At(0).generated {
      var _ := DestroyWasteTop(deck, waste, board);
    } else {
      Tables.ReturnCardFromWaste(deck, waste, board);
    }
  }

}
