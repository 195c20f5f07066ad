# TriPeaks solitaire engine in Dafny

This project models the card-game core of a Unity solitaire game of the
TriPeaks family. It covers:

- the card objects and their rank/suit enumerations;
- the deck, the waste pile and the board of slots that cards are dealt into;
- the two board layouts (overlapping peaks, or straight columns) and the
  "covers" relation between slots that decides which board cards are face up;
- the older `TriPeaksGame` engine (deal, reveal, take by rank ±1);
- the round engine `SolitaireLevelPlayer`: dealing a level, taking cards
  (with Wild cards), the undo list, the coin-paid power-ups, the round clock,
  end-of-round scoring and restarting;
- the level record and the level list editor helpers (add, delete, sort).

Cards, slots, the deck, the waste, the board and both engines are objects
whose fields the methods update, as in the source. The deck and the waste
keep their cards in `seq<Card>` fields. The board keeps its slots in an
`array<Slot>` that is sorted in place. The level list is an
`array<SolitaireLevelData>`.

## Module layout

| file | module | models |
|---|---|---|
| `collections.dfy` | `Collections` | sequence and multiset facts used throughout |
| `cards.dfy` | `Cards` | `Card.cs`: ranks, suits, colours, the match rule on ranks, the card object |
| `slots.dfy` | `Slots` | `Slot.cs`: a slot, its held card and the slots that cover it |
| `sorting.dfy` | `Sorting` | the in-place sort used by `Board.RefreshSlots` and `SolitaireLevelList.Sort` |
| `boards.dfy` | `Boards` | `Board.cs`: the two layouts, the slot order and the overlap relation |
| `decks.dfy` | `Decks` | `Deck.cs`: generating standard decks, shuffling, dealing, returning cards |
| `wastes.dfy` | `Wastes` | `Waste.cs`: the waste pile and its depth bookkeeping |
| `tables.dfy` | `Tables` | the deck, waste and board together: custody, the visibility rule, the one-card moves |
| `level_data.dfy` | `LevelData` | `SolitaireLevelData.cs` |
| `level_list.dfy` | `LevelList` | `SolitaireLevelList.cs` |
| `tripeaks.dfy` | `TriPeaks` | `TriPeaksGame.cs` |
| `level_player.dfy` | `LevelPlayer` | `SolitaireLevelPlayer.cs` |

## Invariants

- **Custody** (`Tables.Custody`): every card object lies in at most one
  place, counting the deck, the waste and the slots. `Tables.CustodyIffUnique`
  shows that this is the same as "the multiset of cards in play has no
  repeats".
- **Visibility** (`Tables.Visible`): a held card is face up exactly when no
  slot covering its slot holds a card.
- **Undoable history** (`LevelPlayer.Undoable`): every RemoveCardFromSlot
  entry of the undo list names a distinct board slot, and that slot is empty.
  Undoing the entry can therefore put the card back.

The engines' `Valid()` predicates are these invariants together. Every
public operation keeps them.

Each one-card move keeps the multiset of cards in play
(`InPlay(deck, waste, board) == old(InPlay(...))`). Destroying a card removes
exactly that card.

The level player's moves are also stated on a value view of the table,
`Tableau(deck, waste, slots)`:

- a deck tap yields `Drawn(t)`;
- a slot take yields `Taken(t, i)`;
- an undo yields `Undone(Unwild(t, wildTop), move, i)`.

`LevelPlayer.UndoInverts` proves that undo inverts both moves and the Wild
card's addition.

## Conventions

- Board positions are integers: x and y in the source's units (cards are 90
  apart horizontally and 80 vertically), plus an integer `layer` for the row.
  The source stores the row as z = 0.1 · row.
- The overlap test is done in doubled coordinates, so half a card's width
  stays an integer.
- Time is counted in whole milliseconds. `FloorSeconds` is `Mathf.Floor` of
  the seconds.
- The card prefab's face (rank, suit), its type (`Normal`/`Wild`) and its
  generated mark are set right after creation and never changed again, so
  they are constructor arguments and `const` fields of `Cards.Card`. The
  `Type` and `IsGeneratedCard` properties the level player reads are not in
  `Card.cs`; they are modelled as these two fields.
- `depth` on a card is the z coordinate of its local position. The deck and
  the waste use it for stacking order: the card at index i has depth i.
- The coin store and the high score (kept by a persistent singleton in the
  source) are two fields of the level player, `coins` and `highScore`.

## Model

| member | source | states |
|---|---|---|
| Cards.RankIndex | Unity/Assets/Scripts/Components/Card.cs:3-18 | a rank's value is below 13 |
| Cards.RankOf | Unity/Assets/Scripts/Components/Card.cs:3-18 | the rank cast from value i has value i |
| Cards.SuitIndex | Unity/Assets/Scripts/Components/Card.cs:20-26 | a suit's value is below 4 |
| Cards.SuitOf | Unity/Assets/Scripts/Components/Card.cs:20-26 | the suit cast from value j has value j |
| Cards.EnumRoundTrips | Unity/Assets/Scripts/Components/Card.cs:3-26 | the casts between enum and int are inverse: there are exactly 13 ranks and 4 suits |
| Cards.ColourAlternates | Unity/Assets/Scripts/Components/Card.cs:86 | Spades and Clubs are black, Hearts and Diamonds red: colour alternates with the suit's value |
| Cards.AdjacentIffDistance | Unity/Assets/Scripts/Games/TriPeaksGame.cs:110-114 | the ±1 modulo 13 match rule holds exactly when the rank values differ by 1 or by 12 (Ace next to King) |
| Cards.AdjacentProperties | Unity/Assets/Scripts/Games/TriPeaksGame.cs:110-114 | the match rule is symmetric and irreflexive, and Ace and King match |
| Cards.Card.constructor | Unity/Assets/Scripts/Components/Card.cs:45-47 | a new card has the given face, type and mark; it is face down at depth 0 |
| Cards.Card.SetRevealed | Unity/Assets/Scripts/Components/Card.cs:127-131 | the Revealed setter stores the flag and changes no other field |
| Slots.Slot.constructor | Unity/Assets/Scripts/Components/Slot.cs:10-14 | a new slot is at the given position, holds nothing and is covered by nothing |
| Slots.Slot.PlaceCard | Unity/Assets/Scripts/Components/Slot.cs:23-28 | the slot holds c (any previous card is overwritten) and c is at depth 0; the covering slots are unchanged |
| Slots.Slot.TakeCard | Unity/Assets/Scripts/Components/Slot.cs:30-35 | returns the held card, or null, and leaves the slot empty; the covering slots are unchanged |
| Sorting.KeyLeTotalOrder | Unity/Assets/Scripts/Components/Board.cs:18-22 | the lexicographic comparison on three keys is a total order |
| Sorting.SortByKey | Unity/Assets/Scripts/Components/Board.cs:18-22 | the array ends sorted by the key and is a permutation of its old contents |
| Sorting.InsertIntoPrefix | Unity/Assets/Scripts/Components/Board.cs:18-22 | one insertion step: a sorted prefix grows by one, and the array stays a permutation |
| Boards.PeakRow | Unity/Assets/Scripts/Components/Board.cs:93-103 | row r of a peak has peakHeight − r slots |
| Boards.PeaksCount | Unity/Assets/Scripts/Components/Board.cs:73-105 | a peaks board has (h − 1) · n + 1 bottom slots plus n · h(h − 1)/2 upper slots |
| Boards.PeakAdds | Unity/Assets/Scripts/Components/Board.cs:91-105 | each peak adds peakHeight · (peakHeight − 1)/2 slots |
| Boards.ThreePeaksOfThree | Unity/Assets/Scripts/Components/Board.cs:73-105 | three peaks of height 3 have a bottom row of 7 and 16 slots in all: each peak adds rows of 2 and 1 above the shared bottom row |
| Boards.BottomRowCentred | Unity/Assets/Scripts/Components/Board.cs:71-79 | the bottom row runs from −boundsX to +boundsX, 90 apart, at y = −boundsY and layer 0 |
| Boards.NeighbouringPeaksShareOneSlot | Unity/Assets/Scripts/Components/Board.cs:82-89 | peaks p and p + 1 share exactly one bottom slot, index (p + 1)(h − 1) |
| Boards.BaseIndexInRange | Unity/Assets/Scripts/Components/Board.cs:87 | the bottom-row index a peak reads is within the row |
| Boards.PeakSlotAboveTwo | Unity/Assets/Scripts/Components/Board.cs:97-101 | a new slot is +45 x, +80 y and one layer above its left support, centred over the two slots below it |
| Boards.SlotAbove | Unity/Assets/Scripts/Components/Board.cs:97-101 | the slot at index size − rowSize − 1 is the left support of the next new slot |
| Boards.PeaksHeights | Unity/Assets/Scripts/Components/Board.cs:78-101 | every peaks slot has y = −boundsY + 80 · layer and a layer of at least 0 |
| Boards.ColumnBottoms | Unity/Assets/Scripts/Components/Board.cs:120-127 | the column bottoms are one slot per column |
| Boards.ColumnUpper | Unity/Assets/Scripts/Components/Board.cs:131-139 | a column of height h has h − 1 slots above its bottom |
| Boards.ColumnsCount | Unity/Assets/Scripts/Components/Board.cs:118-140 | a columns board has exactly numColumns · columnHeight slots |
| Boards.ColumnStacks | Unity/Assets/Scripts/Components/Board.cs:131-138 | column i is a stack at x = −boundsX + 90i, each slot 80 above and one layer over the one below |
| Boards.ColumnsHeights | Unity/Assets/Scripts/Components/Board.cs:125-137 | every columns slot has y = −boundsY + 80 · layer and a layer of at least 0 |
| Boards.CoversIffBoxesOverlap | Unity/Assets/Scripts/Components/Board.cs:35-53 | a slot is hit by a corner ray of another exactly when it lies on a lower layer and the two card boxes overlap |
| Boards.Board.constructor | Unity/Assets/Scripts/Components/Board.cs:12-13 | a new board has no slots and zero bounds |
| Boards.Board.Size | Unity/Assets/Scripts/Components/Board.cs:153-159 | Size is the number of slots |
| Boards.Board.At | Unity/Assets/Scripts/Components/Board.cs:145-151 | the indexer returns the i-th slot of the sorted array |
| Boards.Board.BottomLayerUncovered | Unity/Assets/Scripts/Components/Board.cs:50 | a bottom-layer slot is covered by no slot |
| Boards.Board.ArrangeSlotsAsPeaks | Unity/Assets/Scripts/Components/Board.cs:65-108 | fresh empty slots whose positions are exactly the peaks layout, sorted top row first, with the overlap relation computed |
| Boards.Board.CreateBottomRow | Unity/Assets/Scripts/Components/Board.cs:73-79 | fresh distinct empty slots at the bottom-row positions |
| Boards.GroupByPeak | Unity/Assets/Scripts/Components/Board.cs:81-89 | peak p's list starts with bottom slots p(h − 1) … p(h − 1) + h − 1 |
| Boards.StackPeaks | Unity/Assets/Scripts/Components/Board.cs:91-105 | the created slots are the bottom row and then each peak's upper rows, in creation order |
| Boards.AddPeakRows | Unity/Assets/Scripts/Components/Board.cs:93-104 | the upper rows of one peak, rows of size h − 1 down to 1 |
| Boards.AddPeakRow | Unity/Assets/Scripts/Components/Board.cs:95-103 | one row of a peak, each slot placed from the slot at index size − rowSize − 1 |
| Boards.Board.ArrangeSlotsAsColumns | Unity/Assets/Scripts/Components/Board.cs:110-143 | fresh empty slots whose positions are exactly the columns layout, sorted, with the overlap relation computed |
| Boards.Board.CreateColumnBottoms | Unity/Assets/Scripts/Components/Board.cs:118-127 | one list per column holding its bottom slot, at −boundsX + 90i |
| Boards.StackColumns | Unity/Assets/Scripts/Components/Board.cs:129-140 | the created slots are the bottoms and then every column's upper slots |
| Boards.StackColumn | Unity/Assets/Scripts/Components/Board.cs:131-139 | the slots above one column's bottom, each stacked on the one below |
| Boards.Board.ArrangeSlots | Unity/Assets/Scripts/Games/Solitaire/SolitaireLevelPlayer.cs:322-329 | the board of the requested shape: its size is the shape's slot count and its positions are the shape's layout |
| Boards.Board.RefreshSlots | Unity/Assets/Scripts/Components/Board.cs:15-63 | the slots are the created ones, sorted by layer descending, y descending, x ascending, with the overlap relation computed |
| Boards.Board.PlaceCreated | Unity/Assets/Scripts/Components/Board.cs:107 | the created slots become the board's array, empty, sorted, with their positions kept as a multiset and the overlap relation computed |
| Boards.Board.ComputeOverlaps | Unity/Assets/Scripts/Components/Board.cs:30-56 | every slot's covering set is the set of slots its four corner rays hit |
| Boards.Board.FindOverlapping | Unity/Assets/Scripts/Components/Board.cs:41-55 | one slot's covering set: the other slots on lower layers whose box holds one of its corners |
| Boards.Board.CastRay | Unity/Assets/Scripts/Components/Board.cs:45-54 | one corner ray adds exactly the lower-layer slots it hits |
| Boards.Board.AllCorners | Unity/Assets/Scripts/Components/Board.cs:43-55 | the four corners' hits together are the covering set |
| Decks.StandardFace | Unity/Assets/Scripts/Components/Deck.cs:24-31 | the k-th card generated has rank k / 4 and suit k mod 4 |
| Decks.StandardDeck | Unity/Assets/Scripts/Components/Deck.cs:22-34 | one standard deck has 52 faces |
| Decks.StandardDeckAt | Unity/Assets/Scripts/Components/Deck.cs:24-31 | the face at 4i + j is rank i of suit j (rank-major, suit-minor) |
| Decks.StandardFaces | Unity/Assets/Scripts/Components/Deck.cs:14-17 | n decks have 52n faces, none for n ≤ 0 |
| Decks.StandardDeckHasEveryFaceOnce | Unity/Assets/Scripts/Components/Deck.cs:22-34 | every face occurs exactly once in a standard deck |
| Decks.StandardFacesCount | Unity/Assets/Scripts/Components/Deck.cs:10-20 | n decks hold every face exactly n times |
| Decks.FacesPermutation | Unity/Assets/Scripts/Components/Deck.cs:54-65 | a reordered deck shows the same faces as often as before |
| Decks.Deck.constructor | Unity/Assets/Scripts/Components/Deck.cs:8 | a new deck is empty |
| Decks.Deck.At | Unity/Assets/Scripts/Components/Deck.cs:88-94 | the indexer returns a deck card |
| Decks.Deck.GenerateDeck | Unity/Assets/Scripts/Components/Deck.cs:10-20 | the deck becomes size standard decks of fresh, face-down Normal cards in generation order |
| Decks.Deck.AppendStandardCards | Unity/Assets/Scripts/Components/Deck.cs:14-17 | one more standard deck is appended |
| Decks.Deck.GenerateStandardCards | Unity/Assets/Scripts/Components/Deck.cs:22-34 | 52 distinct fresh face-down cards showing the standard deck |
| Decks.Deck.GenerateRank | Unity/Assets/Scripts/Components/Deck.cs:24-33 | the four cards of rank i, one per suit, extend the generated prefix |
| Decks.Deck.NewStandardCard | Unity/Assets/Scripts/Components/Deck.cs:28-31 | a fresh face-down card of rank i and suit j |
| Decks.Deck.CreateNewCard | Unity/Assets/Scripts/Components/Deck.cs:67-71 | a fresh card with the given face; the deck's sequence is unchanged |
| Decks.Deck.SetCardDepth | Unity/Assets/Scripts/Components/Deck.cs:73-78 | the card's depth is set |
| Decks.Deck.SetAllCardsDepth | Unity/Assets/Scripts/Components/Deck.cs:80-86 | the card at index i gets depth i |
| Decks.Deck.Shuffle | Unity/Assets/Scripts/Components/Deck.cs:54-65 | the deck is a permutation of itself and depths follow indices |
| Decks.Deck.DealCard | Unity/Assets/Scripts/Components/Deck.cs:104-110 | returns the front card; the rest stay in order and depths follow indices |
| Decks.Deck.AddCardOnTop | Unity/Assets/Scripts/Components/Deck.cs:112-118 | the card is inserted at index 0 (so DealCard returns it and restores the deck); depths follow indices |
| Wastes.Waste.constructor | Unity/Assets/Scripts/Components/Waste.cs:7 | a new waste is empty |
| Wastes.Waste.At | Unity/Assets/Scripts/Components/Waste.cs:14-20 | the indexer returns a waste card |
| Wastes.Waste.AddCard | Unity/Assets/Scripts/Components/Waste.cs:30-36 | the card becomes index 0 at depth 0, the others keep their order and go one deeper |
| Wastes.Waste.TakeTopCard | Unity/Assets/Scripts/Components/Waste.cs:38-47 | empty: null and nothing changes; otherwise index 0 is returned and removed and the rest rise by one (undoing AddCard) |
| Wastes.Waste.ShiftCardDepths | Unity/Assets/Scripts/Components/Waste.cs:49-57 | every waste card's depth moves by direction |
| Tables.CustodyIffUnique | Unity/Assets/Scripts/Games/Solitaire/SolitaireLevelPlayer.cs:637-689 | no card in two places is the same as no repeat in the multiset of cards in play |
| Tables.RefreshVisibility | Unity/Assets/Scripts/Games/Solitaire/SolitaireLevelPlayer.cs:292-313 | every held card is face up exactly when all its covering slots are empty; empty slots are untouched |
| Tables.RevealRule | Unity/Assets/Scripts/Games/Solitaire/SolitaireLevelPlayer.cs:299-310 | the loop over the covering slots answers "no covering slot holds a card" |
| Tables.DealCardToSlot | Unity/Assets/Scripts/Games/Solitaire/SolitaireLevelPlayer.cs:637-641 | the deck's front card moves into the slot; the cards in play are conserved |
| Tables.RevealNextCard | Unity/Assets/Scripts/Games/Solitaire/SolitaireLevelPlayer.cs:646-651 | the deck's front card moves face up onto the waste; the cards in play are conserved |
| Tables.DeckFrontToWaste | Unity/Assets/Scripts/Games/Solitaire/SolitaireLevelPlayer.cs:648-649 | the deck's front card becomes the waste's top |
| Tables.RemoveCardFromSlot | Unity/Assets/Scripts/Games/Solitaire/SolitaireLevelPlayer.cs:656-660 | the slot's card moves onto the waste; the cards in play are conserved |
| Tables.ReturnCardFromSlot | Unity/Assets/Scripts/Games/Solitaire/SolitaireLevelPlayer.cs:665-670 | the slot's card goes face down to the deck's front; the cards in play are conserved |
| Tables.ReturnCardFromWaste | Unity/Assets/Scripts/Games/Solitaire/SolitaireLevelPlayer.cs:675-680 | the waste's top goes face down to the deck's front; the cards in play are conserved |
| Tables.WasteTopToDeck | Unity/Assets/Scripts/Games/Solitaire/SolitaireLevelPlayer.cs:677-678 | the waste's top becomes the deck's front |
| Tables.ReturnCardToSlot | Unity/Assets/Scripts/Games/Solitaire/SolitaireLevelPlayer.cs:685-689 | the waste's top goes into the slot; the cards in play are conserved |
| Tables.DealToSlots | Unity/Assets/Scripts/Games/Solitaire/SolitaireLevelPlayer.cs:280-284 | slots are filled in index order from the deck's front until slots or deck run out |
| Tables.DealNext | Unity/Assets/Scripts/Games/Solitaire/SolitaireLevelPlayer.cs:282 | one step of the deal keeps the loop invariant |
| TriPeaks.TriPeaksGame.constructor | Unity/Assets/Scripts/Games/TriPeaksGame.cs:7-9 | the game's deck, board and waste |
| TriPeaks.TriPeaksGame.DealInitialBoard | Unity/Assets/Scripts/Games/TriPeaksGame.cs:21-31 | the first n deck cards fill the n slots in index order, visibility is updated, and the next card goes face up onto the waste |
| TriPeaks.TriPeaksGame.DealAndShow | Unity/Assets/Scripts/Games/TriPeaksGame.cs:23-28 | the deal into the slots followed by the visibility update |
| TriPeaks.TriPeaksGame.UpdateBoard | Unity/Assets/Scripts/Games/TriPeaksGame.cs:33-53 | a held card is face up exactly when its covering slots are empty |
| TriPeaks.TriPeaksGame.RemoveCardFromSlot | Unity/Assets/Scripts/Games/TriPeaksGame.cs:79-85 | the slot's card moves onto the waste, then visibility is updated |
| TriPeaks.TriPeaksGame.OnRecognizeTap | Unity/Assets/Scripts/Games/TriPeaksGame.cs:87-120 | a deck tap draws face up; a revealed slot card ±1 modulo 13 from the waste top is taken (no Wild case); any other tap changes nothing |
| LevelData.NewLevelData | Unity/Assets/Scripts/Games/Solitaire/SolitaireLevelData.cs:6-14 | a new record is level 1, round 1, 60 s, one peak of height 2, one column of height 2, one deck |
| LevelData.DefaultLevelDealable | Unity/Assets/Scripts/Games/Solitaire/SolitaireLevelData.cs:9-14 | the default level has 3 slots and one deck deals it |
| LevelList.LevelKey | Unity/Assets/Scripts/Games/Solitaire/SolitaireLevelList.cs:37-40 | the sort key is (level, round) |
| LevelList.LevelKeyOrder | Unity/Assets/Scripts/Games/Solitaire/SolitaireLevelList.cs:37-40 | entries compare by level, then by round within a level |
| LevelList.Sort | Unity/Assets/Scripts/Games/Solitaire/SolitaireLevelList.cs:35-41 | the list ends ordered by level, then round, and is a permutation of itself |
| LevelList.AddLevelData | Unity/Assets/Scripts/Games/Solitaire/SolitaireLevelList.cs:18-23 | the new list is one longer, holds the old entries plus the new one, and is sorted |
| LevelList.DeleteLevelDataAt | Unity/Assets/Scripts/Games/Solitaire/SolitaireLevelList.cs:25-33 | entry index is removed, later entries shift down in order, and the list is one shorter (past the end, the last entry goes) |
| LevelPlayer.FloorSeconds | Unity/Assets/Scripts/Games/Solitaire/SolitaireLevelPlayer.cs:262 | the largest whole number of seconds not above the time |
| LevelPlayer.FloorSecondsPositive | Unity/Assets/Scripts/Games/Solitaire/SolitaireLevelPlayer.cs:262 | the time-out test fires exactly when less than one second remains |
| LevelPlayer.PlayableIff | Unity/Assets/Scripts/Games/Solitaire/SolitaireLevelPlayer.cs:720-723 | under a Wild top any card is taken; under a Normal top exactly Normal cards whose rank differs by 1 or 12 |
| LevelPlayer.PlayableNormalTop | Unity/Assets/Scripts/Games/Solitaire/SolitaireLevelPlayer.cs:720-723 | under a Normal top a Wild card and a card of the same rank are never taken, and the rule is symmetric |
| LevelPlayer.Drawn | Unity/Assets/Scripts/Games/Solitaire/SolitaireLevelPlayer.cs:646-651 | a draw moves one card from the deck to the waste and leaves the slots |
| LevelPlayer.Taken | Unity/Assets/Scripts/Games/Solitaire/SolitaireLevelPlayer.cs:656-660 | a take empties slot i, adds one card to the waste and leaves the deck |
| LevelPlayer.Undone | Unity/Assets/Scripts/Games/Solitaire/SolitaireLevelPlayer.cs:517-531 | undoing removes the waste top (to the deck or the slot); an empty waste is left as it is |
| LevelPlayer.Unwild | Unity/Assets/Scripts/Games/Solitaire/SolitaireLevelPlayer.cs:508-512 | a Wild waste top is dropped before undoing; nothing else changes |
| LevelPlayer.UndoInverts | Unity/Assets/Scripts/Games/Solitaire/SolitaireLevelPlayer.cs:517-531 | undoing a draw or a take restores the table exactly, and so does dropping an added Wild |
| LevelPlayer.RecordedMove | Unity/Assets/Scripts/Games/Solitaire/SolitaireLevelPlayer.cs:476-481 | appending an entry adds its slot to the list of removed slots exactly when it is a RemoveCardFromSlot entry |
| LevelPlayer.UndoableRecorded | Unity/Assets/Scripts/Games/Solitaire/SolitaireLevelPlayer.cs:476-481 | recording a move keeps every slot entry undoable |
| LevelPlayer.UndoablePopped | Unity/Assets/Scripts/Games/Solitaire/SolitaireLevelPlayer.cs:514-515 | popping the last entry keeps the rest undoable, and a popped slot entry names an empty board slot |
| LevelPlayer.ReshuffledKeepsCounts | Unity/Assets/Scripts/Games/Solitaire/SolitaireLevelPlayer.cs:549-576 | a shuffle keeps the number of deck cards and of held cards |
| LevelPlayer.UndoableSamePattern | Unity/Assets/Scripts/Games/Solitaire/SolitaireLevelPlayer.cs:555-571 | a board occupied at the same places as before keeps every recorded slot empty, so the undo list stays undoable across a shuffle |
| LevelPlayer.StackedMembers | Unity/Assets/Scripts/Games/Solitaire/SolitaireLevelPlayer.cs:423-450 | the cards the restart returns to the deck are exactly the non-generated ones |
| LevelPlayer.SolitaireLevelPlayer.constructor | Unity/Assets/Scripts/Games/Solitaire/SolitaireLevelPlayer.cs:18-119 | Awake: the containers, and every counter at its initial value |
| LevelPlayer.SolitaireLevelPlayer.LoadGame | Unity/Assets/Scripts/Games/Solitaire/SolitaireLevelPlayer.cs:203-230 | the level's settings are taken, the round time is on the clock, and a new deck of numDecks standard decks is dealt into the board with one card face up on the waste |
| LevelPlayer.SolitaireLevelPlayer.TakeLevel | Unity/Assets/Scripts/Games/Solitaire/SolitaireLevelPlayer.cs:205-219 | the level's fields are copied, seconds become milliseconds, the clock is full |
| LevelPlayer.SolitaireLevelPlayer.RestartGame | Unity/Assets/Scripts/Games/Solitaire/SolitaireLevelPlayer.cs:421-474 | round +1 on a win, else a life lost if any, else score 0 and round 1; history cleared, clock full, and a new deal of numDecks standard decks |
| LevelPlayer.SolitaireLevelPlayer.EndRound | Unity/Assets/Scripts/Games/Solitaire/SolitaireLevelPlayer.cs:423-470 | the table is cleared (waste and slots empty) and the round's outcome booked |
| LevelPlayer.SolitaireLevelPlayer.NextRound | Unity/Assets/Scripts/Games/Solitaire/SolitaireLevelPlayer.cs:452-470 | round, lives and score follow the win / life / reset rule; history, pause and win flag reset |
| LevelPlayer.SolitaireLevelPlayer.GenerateAndDeal | Unity/Assets/Scripts/Games/Solitaire/SolitaireLevelPlayer.cs:471-473 | a fresh deck of numDecks standard decks is dealt into the new board, one card face up on the waste |
| LevelPlayer.SolitaireLevelPlayer.PrepareTable | Unity/Assets/Scripts/Games/Solitaire/SolitaireLevelPlayer.cs:471-472 | a fresh standard deck and an empty fresh board with fewer slots than cards |
| LevelPlayer.SolitaireLevelPlayer.DealBoard | Unity/Assets/Scripts/Games/Solitaire/SolitaireLevelPlayer.cs:269-290 | the deck is shuffled, the slots take its first cards in index order, visibility is updated, the next card goes face up to the waste, and the game is unpaused |
| LevelPlayer.SolitaireLevelPlayer.GenerateDeck | Unity/Assets/Scripts/Games/Solitaire/SolitaireLevelPlayer.cs:315-318 | the deck becomes numDecks standard decks of fresh face-down cards |
| LevelPlayer.SolitaireLevelPlayer.ArrangeBoard | Unity/Assets/Scripts/Games/Solitaire/SolitaireLevelPlayer.cs:320-335 | the board gets the level's shape: its slot count and layout positions, all empty |
| LevelPlayer.SolitaireLevelPlayer.Update | Unity/Assets/Scripts/Games/Solitaire/SolitaireLevelPlayer.cs:135-150 | paused: nothing; otherwise the clock runs and a round end (flag, clear board or time out) is reported once: a time-out reports a loss, a clear board with time left a win |
| LevelPlayer.SolitaireLevelPlayer.UpdateGame | Unity/Assets/Scripts/Games/Solitaire/SolitaireLevelPlayer.cs:242-267 | a clear board wins and a time-out loses, the time-out overriding a simultaneous clear |
| LevelPlayer.SolitaireLevelPlayer.BoardCleared | Unity/Assets/Scripts/Games/Solitaire/SolitaireLevelPlayer.cs:246-254 | true exactly when no slot holds a card |
| LevelPlayer.SolitaireLevelPlayer.EndGame | Unity/Assets/Scripts/Games/Solitaire/SolitaireLevelPlayer.cs:397-419 | deck and time bonuses only on a win; a life iff won with enough deck cards; score becomes the total, collected coins reset, the high score never drops |
| LevelPlayer.SolitaireLevelPlayer.AddToUndoHistory | Unity/Assets/Scripts/Games/Solitaire/SolitaireLevelPlayer.cs:476-482 | one entry is appended |
| LevelPlayer.SolitaireLevelPlayer.UndoLastMove | Unity/Assets/Scripts/Games/Solitaire/SolitaireLevelPlayer.cs:496-532 | paused, empty history or too few coins: nothing; otherwise the cost is paid, a Wild top dropped, the last entry popped and inverted (a card sent back to the deck is face down); score unchanged |
| LevelPlayer.SolitaireLevelPlayer.PopForUndo | Unity/Assets/Scripts/Games/Solitaire/SolitaireLevelPlayer.cs:506-515 | the cost is paid and the last entry removed and returned |
| LevelPlayer.SolitaireLevelPlayer.OnRecognizeTap | Unity/Assets/Scripts/Games/Solitaire/SolitaireLevelPlayer.cs:691-734 | unpaused: a deck tap draws and records; a revealed slot card that matches (or any under a Wild top) is taken, recorded and paid; anything else changes nothing |
| LevelPlayer.SolitaireLevelPlayer.DrawFromDeck | Unity/Assets/Scripts/Games/Solitaire/SolitaireLevelPlayer.cs:704-709 | the table becomes Drawn of itself and a RevealNextCard entry is recorded |
| LevelPlayer.SolitaireLevelPlayer.TakeFromSlot | Unity/Assets/Scripts/Games/Solitaire/SolitaireLevelPlayer.cs:725-731 | the table becomes Taken at the slot, the entry names the slot, score and both coin counts rise by their settings |
| LevelPlayer.SolitaireLevelPlayer.RecordCardTaken | Unity/Assets/Scripts/Games/Solitaire/SolitaireLevelPlayer.cs:727-730 | the entry and the three counters of a take; the table is unchanged |
| LevelPlayer.SolitaireLevelPlayer.AddExtraTime | Unity/Assets/Scripts/Games/Solitaire/SolitaireLevelPlayer.cs:619-632 | unless paused or short of coins, the cost is paid and extraTimePowerup added |
| LevelPlayer.SolitaireLevelPlayer.ShuffleBoard | Unity/Assets/Scripts/Games/Solitaire/SolitaireLevelPlayer.cs:534-576 | unless paused or short of coins, the cost is paid and the board's and deck's cards reshuffled into exactly the previously occupied slots |
| LevelPlayer.SolitaireLevelPlayer.GenerateWildCard | Unity/Assets/Scripts/Games/Solitaire/SolitaireLevelPlayer.cs:578-595 | unless paused or short of coins, the cost is paid and one fresh revealed generated Wild goes onto the waste |
| LevelPlayer.SolitaireLevelPlayer.AddExtraCards | Unity/Assets/Scripts/Games/Solitaire/SolitaireLevelPlayer.cs:597-617 | unless paused or short of coins, the cost is paid and extraCardsPowerup fresh generated cards go onto the deck front |
| LevelPlayer.AddWildCard | Unity/Assets/Scripts/Games/Solitaire/SolitaireLevelPlayer.cs:590-594 | a fresh revealed generated Wild on the waste; the invariants hold |
| LevelPlayer.NewWildOnWaste | Unity/Assets/Scripts/Games/Solitaire/SolitaireLevelPlayer.cs:590-594 | a fresh Wild becomes the waste's top |
| LevelPlayer.AddGeneratedCards | Unity/Assets/Scripts/Games/Solitaire/SolitaireLevelPlayer.cs:609-616 | count fresh generated face-down cards are put on the deck front |
| LevelPlayer.AddGeneratedCard | Unity/Assets/Scripts/Games/Solitaire/SolitaireLevelPlayer.cs:611-615 | one more generated card on the deck front; the cards in play gain exactly it |
| LevelPlayer.NewCardOnDeck | Unity/Assets/Scripts/Games/Solitaire/SolitaireLevelPlayer.cs:611-615 | a fresh generated face-down card becomes the deck's front |
| LevelPlayer.MakeCard | Unity/Assets/Scripts/Games/Solitaire/SolitaireLevelPlayer.cs:590-594 | a fresh generated card with the given face, type and side |
| LevelPlayer.MakeRandomCard | Unity/Assets/Scripts/Games/Solitaire/SolitaireLevelPlayer.cs:611-613 | a fresh generated face-down Normal card of some rank and suit |
| LevelPlayer.RefreshBoard | Unity/Assets/Scripts/Games/Solitaire/SolitaireLevelPlayer.cs:292-313 | the containers are unchanged and the visibility rule holds |
| LevelPlayer.Draw | Unity/Assets/Scripts/Games/Solitaire/SolitaireLevelPlayer.cs:704-707 | the table becomes Drawn of itself and the waste top is face up |
| LevelPlayer.Take | Unity/Assets/Scripts/Games/Solitaire/SolitaireLevelPlayer.cs:725-726 | the table becomes Taken at the slot, and visibility is updated |
| LevelPlayer.Vacate | Unity/Assets/Scripts/Games/Solitaire/SolitaireLevelPlayer.cs:656-660 | the slot's card goes to the waste and the new entry is undoable |
| LevelPlayer.Unwind | Unity/Assets/Scripts/Games/Solitaire/SolitaireLevelPlayer.cs:508-531 | the table becomes Undone(Unwild(...)) for the popped entry; a card sent back to the deck front is face down |
| LevelPlayer.DiscardWild | Unity/Assets/Scripts/Games/Solitaire/SolitaireLevelPlayer.cs:508-512 | a Wild waste top is destroyed; the table becomes Unwild of itself |
| LevelPlayer.DiscardTop | Unity/Assets/Scripts/Games/Solitaire/SolitaireLevelPlayer.cs:511 | the waste top is destroyed and nothing else changes |
| LevelPlayer.UnwindReveal | Unity/Assets/Scripts/Games/Solitaire/SolitaireLevelPlayer.cs:517-523 | the waste top goes back face down to the deck front |
| LevelPlayer.UnwindRemove | Unity/Assets/Scripts/Games/Solitaire/SolitaireLevelPlayer.cs:524-531 | the waste top goes back into the recorded slot, then visibility is updated |
| LevelPlayer.Restore | Unity/Assets/Scripts/Games/Solitaire/SolitaireLevelPlayer.cs:685-689 | the waste top fills the recorded slot, which the history shows empty |
| LevelPlayer.DestroyWasteTop | Unity/Assets/Scripts/Games/Solitaire/SolitaireLevelPlayer.cs:443-444 | the waste top leaves play and nothing else changes |
| LevelPlayer.Reshuffle | Unity/Assets/Scripts/Games/Solitaire/SolitaireLevelPlayer.cs:549-576 | the table is a reshuffle of itself and the invariants hold |
| LevelPlayer.ReshuffleCards | Unity/Assets/Scripts/Games/Solitaire/SolitaireLevelPlayer.cs:553-571 | the cards of deck and board are redealt into the same slots; the cards in play are conserved |
| LevelPlayer.Rearrange | Unity/Assets/Scripts/Games/Solitaire/SolitaireLevelPlayer.cs:553-571 | the same slots stay occupied and deck plus board hold the same cards |
| LevelPlayer.ClearAndShuffle | Unity/Assets/Scripts/Games/Solitaire/SolitaireLevelPlayer.cs:553-565 | the board is emptied into the deck, the deck shuffled, and the occupied slots listed |
| LevelPlayer.ClearBoard | Unity/Assets/Scripts/Games/Solitaire/SolitaireLevelPlayer.cs:553-563 | the held cards go face down to the deck front, last slot first; the list names exactly the slots that held a card |
| LevelPlayer.ClearNext | Unity/Assets/Scripts/Games/Solitaire/SolitaireLevelPlayer.cs:557-561 | one step of the clearing loop keeps its invariant |
| LevelPlayer.ReturnHeld | Unity/Assets/Scripts/Games/Solitaire/SolitaireLevelPlayer.cs:665-670 | the slot's card goes to the deck's front |
| LevelPlayer.ShuffleDeck | Unity/Assets/Scripts/Games/Solitaire/SolitaireLevelPlayer.cs:565 | the deck is a permutation of itself |
| LevelPlayer.Redeal | Unity/Assets/Scripts/Games/Solitaire/SolitaireLevelPlayer.cs:567-571 | the listed slots are refilled from the deck front, the others keep their state |
| LevelPlayer.RedealNext | Unity/Assets/Scripts/Games/Solitaire/SolitaireLevelPlayer.cs:569 | one step of the refilling loop keeps its invariant |
| LevelPlayer.PatternRestored | Unity/Assets/Scripts/Games/Solitaire/SolitaireLevelPlayer.cs:555-571 | emptying and then refilling the listed slots leaves the same slots occupied |
| LevelPlayer.Deal | Unity/Assets/Scripts/Games/Solitaire/SolitaireLevelPlayer.cs:274-290 | the dealt cards are a permutation of the deck: the first fill the slots, the next is face up on the waste, the rest stay in the deck |
| LevelPlayer.ShuffleAndShow | Unity/Assets/Scripts/Games/Solitaire/SolitaireLevelPlayer.cs:278-286 | shuffle, deal into the slots and update visibility |
| LevelPlayer.ShuffleAndDeal | Unity/Assets/Scripts/Games/Solitaire/SolitaireLevelPlayer.cs:278-284 | shuffle, then the slots take the deck's first cards |
| LevelPlayer.ClearTable | Unity/Assets/Scripts/Games/Solitaire/SolitaireLevelPlayer.cs:423-450 | slots and waste end empty; the non-generated cards go to the deck front (waste cards, then board cards from the last slot back), the generated ones leave play |
| LevelPlayer.EmptySlots | Unity/Assets/Scripts/Games/Solitaire/SolitaireLevelPlayer.cs:423-437 | every slot ends empty; its non-generated card goes to the deck front, a generated one leaves play |
| LevelPlayer.EmptyNext | Unity/Assets/Scripts/Games/Solitaire/SolitaireLevelPlayer.cs:425-436 | one step of the board loop keeps its invariant |
| LevelPlayer.EmptySlot | Unity/Assets/Scripts/Games/Solitaire/SolitaireLevelPlayer.cs:425-436 | one slot: a generated card is destroyed, another goes to the deck front |
| LevelPlayer.DestroySlotCard | Unity/Assets/Scripts/Games/Solitaire/SolitaireLevelPlayer.cs:429-430 | the slot's card leaves play and nothing else changes |
| LevelPlayer.DrainWaste | Unity/Assets/Scripts/Games/Solitaire/SolitaireLevelPlayer.cs:439-450 | the waste ends empty; its non-generated cards go to the deck front, top first |
| LevelPlayer.DrainNext | Unity/Assets/Scripts/Games/Solitaire/SolitaireLevelPlayer.cs:441-449 | one step of the waste loop keeps its invariant |
| LevelPlayer.DrainTop | Unity/Assets/Scripts/Games/Solitaire/SolitaireLevelPlayer.cs:441-449 | the waste top is destroyed if generated, else returned to the deck front |

## Left out

- Rendering: sprites, colours, `Card.UpdateCard`, `MoveToPosition` beyond the card's depth, the camera zoom and background scaling in `ArrangeBoard`, and `Board.Bounds` beyond the `boundsX`/`boundsY` fields.
- Coroutines: `AnimateDealBoard` and `AnimateShuffleBoard` run as one atomic step each. The `paused` flag they set only blocks input meanwhile.
- LevelPlayer.SolitaireLevelPlayer.ShuffleBoard: leaves `paused` unchanged, because the coroutine sets it and clears it again within the step.
- Physics: the ray casts and box colliders of `Board.RefreshSlots` are replaced by a corner-in-box test on integer positions. Whether a corner lying exactly on another box's edge counts as a hit is the board's `edgeHits` constant. The covering slots form a set, so a slot hit by two corners counts once.
- Boards.Board.RefreshSlots: sorts by the integer layer first. The source compares `RoundToInt` of the z difference, which is 0 for adjacent rows (0.1 apart); its y comparison then orders rows the same way in both layouts.
- Randomness: `Random.Range` in `Deck.Shuffle` and `AddExtraCards` becomes a nondeterministic choice.
- Decks.Deck.Shuffle: states only that the result is a permutation. The source's draw from the whole index range makes the shuffle non-uniform, and the model says nothing about the distribution.
- LevelPlayer.SolitaireLevelPlayer.ShuffleBoard: states the outcome up to the shuffle. The waste stays, the same slots are occupied, and the deck and board cards are permuted among themselves. Which card lands where depends on `Random.Range`.
- Floats: the clock is integer milliseconds. `roundTime` in the level record stays in seconds and is multiplied by 1000 when loaded. `extraTimePowerup` and the frame step are milliseconds.
- Persistence and events: `DataManager`'s coins and high score are the fields `coins` and `highScore`. The `OnEndOfGame` event is the `Report` that `EndGame` and `Update` return. `SolitaireLevelList.Data` (a resource load) is not modelled.
- Destruction: `GameObject.Destroy` is modelled as the card leaving every container.
- Sorting: `Array.Sort` (an unstable sort) is modelled by an insertion sort. Both promise only a sorted permutation, so entries with equal keys may end in a different order.
- Editor-only code: `Start`, the inspector trigger flags in `Update`, `NumSlots`, the `Application.isPlaying` guards (the model takes the playing branch), and both level editor windows.
- Card's `Rank` and `Suit` setters: a card's face is fixed when the card is made, since every caller sets it right after creation.
- TriPeaks.TriPeaksGame.OnRecognizeTap: requires a non-empty waste when a revealed slot card is tapped. The source reads `waste[0]` there and would throw on an empty waste.
- LevelPlayer.SolitaireLevelPlayer.OnRecognizeTap: requires a non-empty waste when a revealed slot card is tapped, for the same reason.
- LevelPlayer.SolitaireLevelPlayer.UndoLastMove: requires a non-empty waste when the undo goes ahead. The source reads `waste[0]` before popping.
- TriPeaks.TriPeaksGame.DealInitialBoard: requires an empty board and more deck cards than slots. With fewer cards the source's final draw reads an empty deck and throws.
- LevelPlayer.SolitaireLevelPlayer.DealBoard: requires an empty board and more deck cards than slots, for the same reason.
- LevelPlayer.SolitaireLevelPlayer.LoadGame: requires an empty undo history and a level whose decks can deal its board. Loading over a game in progress is not modelled.
- LevelPlayer.SolitaireLevelPlayer.LoadGame: does not restate the board's layout. `ArrangeBoard`'s contract states it.
- LevelPlayer.SolitaireLevelPlayer.RestartGame: does not restate the board's layout, for the same reason. Like `GenerateAndDeal` and `PrepareTable`, it requires `CanDeal()`: a Peaks shape has a non-negative bottom-row count (otherwise the source's allocation throws), and the decks hold more cards than the board has slots (otherwise the source's final draw reads an empty deck). It books the round before clearing the table, while the source clears first; the two steps touch disjoint state.
- LevelList.DeleteLevelDataAt: requires a non-negative index and a non-empty list. Otherwise the source indexes at −1 or resizes to length −1, and throws.
- Boards.Board.ArrangeSlotsAsPeaks: requires a non-negative bottom-row count, (peakHeight − 1) · numPeaks + 1. For a negative count, such as numPeaks = 3 with peakHeight = 0, the source's array allocation throws. `Boards.Board.ArrangeSlots` and `LevelPlayer.SolitaireLevelPlayer.ArrangeBoard` inherit this precondition for the Peaks shape.
- LevelPlayer.NewCardOnDeck: a card made by `AddExtraCards` is face down and of type Normal. The source sets only its rank and suit after `CreateNewCard`, so these two flags come from the card prefab, which is not part of this model. `LevelPlayer.MakeRandomCard` and `LevelPlayer.SolitaireLevelPlayer.AddExtraCards` make the same assumption.
- Boards.Board.ArrangeSlots: requires the same non-negative bottom-row count when the shape is Peaks, for the same reason.
- LevelPlayer.SolitaireLevelPlayer.ArrangeBoard: requires the same non-negative bottom-row count when the level's shape is Peaks, for the same reason.
