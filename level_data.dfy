/** The record describing one level of the solitaire game, with its defaults. */
module LevelData {
  import opened Boards
  import opened Decks

  datatype SolitaireLevelData = SolitaireLevelData(
    level: int,
    round: int,
    /** Seconds the round lasts. */
    roundTime: int,
    boardShape: Shape,
    numPeaks: int,
    peakHeight: int,
    numColumns: int,
    columnHeight: int,
    numDecks: int)

  /** A new record: the field initialisers. */
  function NewLevelData(): (d: SolitaireLevelData)
    ensures d.level == 1 && d.round == 1 && d.roundTime == 60
    ensures d.boardShape == Peaks && d.numPeaks == 1 && d.peakHeight == 2
    ensures d.numColumns == 1 && d.columnHeight == 2 && d.numDecks == 1
  {
    SolitaireLevelData(1, 1, 60, Peaks, 1, 2, 1, 2, 1)
  }

  /** The number of slots a level's board has. */
  function LevelSlots(d: SolitaireLevelData): int
    requires d.boardShape == Peaks ==> BottomRowCount(d.numPeaks, d.peakHeight) >= 0
  {
    SlotCount(d.boardShape, d.numPeaks, d.peakHeight, d.numColumns, d.columnHeight)
  }

  /**
   * A board of this shape can be built, and the decks hold more cards than it
   * has slots: one card per slot and one more for the waste.
   */
  predicate Deals(shape: Shape, numPeaks: int, peakHeight: int, numColumns: int, columnHeight: int, numDecks: int) {
    (shape == Peaks ==> BottomRowCount(numPeaks, peakHeight) >= 0) &&
    StandardSize * numDecks > SlotCount(shape, numPeaks, peakHeight, numColumns, columnHeight)
  }

  /** A level can be dealt when its shape and decks can. */
  predicate Dealable(d: SolitaireLevelData) {
    Deals(d.boardShape, d.numPeaks, d.peakHeight, d.numColumns, d.columnHeight, d.numDecks)
  }

  /**
   * The default level is a single peak of height 2: a bottom row of two slots
   * and one slot above them, three slots in all, which one deck deals with
   * cards to spare.
   */
  lemma DefaultLevelDealable()
    ensures BottomRowCount(NewLevelData().numPeaks, NewLevelData().peakHeight) == 2
    ensures LevelSlots(NewLevelData()) == 3
    ensures Dealable(NewLevelData())
  {
    PeaksCount(1, 2);
  }
}
