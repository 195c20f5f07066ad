/**
 * Playing cards: the rank and suit enumerations, the suit colour rule, the
 * rank-adjacency rule both games match cards by, and the card object itself.
 */
module Cards {

  /** The thirteen ranks, Ace = 0 through King = 12 in declaration order. */
  datatype Rank = Ace | Two | Three | Four | Five | Six | Seven | Eight | Nine | Ten | Jack | Queen | King

  /** The four suits, Spades = 0 through Diamonds = 3 in declaration order. */
  datatype Suit = Spades | Hearts | Clubs | Diamonds

  /** A Normal card matches by rank; a Wild card (made by a power-up) matches anything. */
  datatype Kind = Normal | Wild

  datatype SuitColour = Black | Red

  /** The face of a card: what the deck generator assigns and what matching reads. */
  datatype Face = Face(rank: Rank, suit: Suit)

  const NumRanks: nat := 13
  const NumSuits: nat := 4

  /** The integer value of a rank, as the enum cast `(int)rank` gives it. */
  function RankIndex(r: Rank): (i: nat)
    ensures i < NumRanks
  {
    match r
    case Ace => 0 case Two => 1 case Three => 2 case Four => 3 case Five => 4
    case Six => 5 case Seven => 6 case Eight => 7 case Nine => 8 case Ten => 9
    case Jack => 10 case Queen => 11 case King => 12
  }

  /** The rank with a given integer value, as the cast `(CardRank)i` gives it. */
  function RankOf(i: nat): (r: Rank)
    requires i < NumRanks
    ensures RankIndex(r) == i
  {
    if i == 0 then Ace else if i == 1 then Two else if i == 2 then Three
    else if i == 3 then Four else if i == 4 then Five else if i == 5 then Six
    else if i == 6 then Seven else if i == 7 then Eight else if i == 8 then Nine
    else if i == 9 then Ten else if i == 10 then Jack else if i == 11 then Queen
    else King
  }

  /** The integer value of a suit, as the enum cast `(int)suit` gives it. */
  function SuitIndex(s: Suit): (i: nat)
    ensures i < NumSuits
  {
    match s
    case Spades => 0 case Hearts => 1 case Clubs => 2 case Diamonds => 3
  }

  /** The suit with a given integer value, as the cast `(CardSuit)j` gives it. */
  function SuitOf(j: nat): (s: Suit)
    requires j < NumSuits
    ensures SuitIndex(s) == j
  {
    if j == 0 then Spades else if j == 1 then Hearts else if j == 2 then Clubs else Diamonds
  }

  /** The enum casts are mutually inverse: there are exactly 13 ranks and 4 suits. */
  lemma EnumRoundTrips(r: Rank, s: Suit)
    ensures RankOf(RankIndex(r)) == r
    ensures SuitOf(SuitIndex(s)) == s
  {
  }

  /** Spades and Clubs are drawn in the black colour, Hearts and Diamonds in the red one. */
  function Colour(s: Suit): SuitColour {
    if s == Spades || s == Clubs then Black else Red
  }

  /** Colours alternate with the suit's declaration index, so each colour has two suits. */
  lemma {:induction false} ColourAlternates(j: nat)
    requires j < NumSuits
    ensures Colour(SuitOf(j)) == (if j % 2 == 0 then Black else Red)
  {
  }

  /**
   * The match rule on ranks: `rank` is one above or one below `top`, counting
   * modulo 13, exactly as the tap handlers compute it.
   */
  predicate Adjacent(rank: Rank, top: Rank) {
    RankIndex(rank) == (RankIndex(top) + NumRanks - 1) % NumRanks ||
    RankIndex(rank) == (RankIndex(top) + 1) % NumRanks
  }

  /**
   * An independent description of the match rule: the two rank values differ
   * by one, or they are Ace and King (which differ by twelve).
   */
  lemma AdjacentIffDistance(rank: Rank, top: Rank)
    ensures Adjacent(rank, top) <==>
      (var d := RankIndex(rank) - RankIndex(top); d == 1 || d == -1 || d == 12 || d == -12)
  {
    var a, b := RankIndex(rank), RankIndex(top);
    if b == 0 {
      assert (b + 12) % 13 == 12 && (b + 1) % 13 == 1;
    } else if b == 12 {
      assert (b + 12) % 13 == 11 && (b + 1) % 13 == 0;
    } else {
      assert (b + 12) % 13 == b - 1 && (b + 1) % 13 == b + 1;
    }
  }

  /** Adjacency is symmetric, irreflexive, and wraps between Ace and King. */
  lemma AdjacentProperties(a: Rank, b: Rank)
    ensures Adjacent(a, b) <==> Adjacent(b, a)
    ensures !Adjacent(a, a)
    ensures Adjacent(Ace, King) && Adjacent(King, Ace)
  {
    AdjacentIffDistance(a, b);
    AdjacentIffDistance(b, a);
    AdjacentIffDistance(a, a);
    AdjacentIffDistance(Ace, King);
    AdjacentIffDistance(King, Ace);
  }

  /**
   * A card object. The game code gives a card its face (rank, suit, kind) and
   * its generated mark right after creating it and never changes them again,
   * so they are fixed at construction here; a card left at the prefab's
   * serialized defaults is made with Ace of Spades, Normal. The revealed flag
   * changes during play; `depth` is the z coordinate of the card's local
   * position, which the deck and the waste use for stacking order.
   */
  class Card {
    var revealed: bool
    const rank: Rank
    const suit: Suit
    const kind: Kind
    const generated: bool
    var depth: int

    /** Instantiating the card prefab and giving it its face and mark. */
    constructor (rank: Rank, suit: Suit, kind: Kind, generated: bool)
      ensures this.rank == rank && this.suit == suit && this.kind == kind && this.generated == generated
      ensures !revealed && depth == 0
    {
      revealed := false;
      this.rank := rank;
      this.suit := suit;
      this.kind := kind;
      this.generated := generated;
      depth := 0;
    }

    /** The `Revealed` setter: stores the flag and touches no other field. */
    method SetRevealed(value: bool)
      modifies this`revealed
      ensures revealed == value
    {
      revealed := value;
    }
  }

  /** The faces of a sequence of cards, in order. */
  ghost function Faces(cs: seq<Card>): (fs: seq<Face>)
    ensures |fs| == |cs| && forall i :: 0 <= i < |cs| ==> fs[i] == Face(cs[i].rank, cs[i].suit)
  {
    if cs == [] then [] else [Face(cs[0].rank, cs[0].suit)] + Faces(cs[1..])
  }

  lemma FacesConcat(a: seq<Card>, b: seq<Card>)
    ensures Faces(a + b) == Faces(a) + Faces(b)
  {
    var fs, gs := Faces(a + b), Faces(a) + Faces(b);
    assert |fs| == |gs|;
    forall i | 0 <= i < |fs|
      ensures fs[i] == gs[i]
    {
      if i < |a| {
        assert (a + b)[i] == a[i];
      } else {
        assert (a + b)[i] == b[i - |a|];
      }
    }
  }

  /**
   * The stacking rule of the deck and the waste: the card at index i lies at
   * depth i, so index 0 is the top card.
   */
  ghost predicate DepthsIndexed(cs: seq<Card>)
    reads (set c | c in cs)`depth
  {
    forall i :: 0 <= i < |cs| ==> cs[i].depth == i
  }
}
