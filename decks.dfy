/**
 * The deck: a front-indexed list of card objects. Index 0 is the card dealt
 * next; every card's depth is its index, so the front card lies on top.
 */
module Decks {
  import opened Cards
  import opened Collections

  /** Cards in one standard deck: thirteen ranks times four suits. */
  const StandardSize: nat := NumRanks * NumSuits

  /** The k-th card the generator makes for one deck: rank-major, suit-minor. */
  function StandardFace(k: nat): (f: Face)
    requires k < StandardSize
    ensures 4 * RankIndex(f.rank) + SuitIndex(f.suit) == k
  {
    Face(RankOf(k / NumSuits), SuitOf(k % NumSuits))
  }

  /** The faces of one standard deck in creation order. */
  function StandardDeck(): (fs: seq<Face>)
    ensures |fs| == StandardSize
  {
    seq(StandardSize, k requires 0 <= k < StandardSize => StandardFace(k))
  }

  /** Card 4·i + j of a standard deck has rank i and suit j. */
  lemma StandardDeckAt(i: nat, j: nat)
    requires i < NumRanks && j < NumSuits
    ensures NumSuits * i + j < StandardSize && StandardDeck()[NumSuits * i + j] == Face(RankOf(i), SuitOf(j))
  {
    var k := NumSuits * i + j;
    assert k / NumSuits == i && k % NumSuits == j;
  }

  /** The faces GenerateDeck(n) makes: n standard decks one after another (none when n <= 0). */
  function StandardFaces(n: int): (fs: seq<Face>)
    ensures |fs| == (if n <= 0 then 0 else StandardSize * n)
    decreases n
  {
    if n <= 0 then [] else StandardFaces(n - 1) + StandardDeck()
  }

  /** One standard deck holds each of the 52 faces exactly once. */
  lemma StandardDeckHasEveryFaceOnce(f: Face)
    ensures multiset(StandardDeck())[f] == 1
  {
    var d := StandardDeck();
    forall i, j | 0 <= i < j < |d|
      ensures d[i] != d[j]
    {
      assert 4 * RankIndex(d[i].rank) + SuitIndex(d[i].suit) == i;
      assert 4 * RankIndex(d[j].rank) + SuitIndex(d[j].suit) == j;
    }
    UniqueOfNoDuplicates(d);
    var k := 4 * RankIndex(f.rank) + SuitIndex(f.suit);
    assert StandardFace(k) == f by {
      EnumRoundTrips(f.rank, f.suit);
    }
    assert d[k] == f;
  }

  /** n decks hold 52·n cards and each (rank, suit) pair exactly n times. */
  lemma {:induction false} StandardFacesCount(n: nat, f: Face)
    ensures |StandardFaces(n)| == StandardSize * n
    ensures multiset(StandardFaces(n))[f] == n
  {
    if n > 0 {
      var earlier, last := StandardFaces(n - 1), StandardDeck();
      StandardFacesCount(n - 1, f);
      StandardDeckHasEveryFaceOnce(f);
      assert StandardFaces(n) == earlier + last;
      assert StandardSize * n == StandardSize * (n - 1) + StandardSize;
      assert multiset(earlier + last) == multiset(earlier) + multiset(last);
    }
  }

  /** Reordering cards reorders their faces: a shuffled deck shows the same faces, as many times each. */
  lemma FacesPermutation(s: seq<Card>, t: seq<Card>)
    requires multiset(s) == multiset(t)
    ensures multiset(Faces(s)) == multiset(Faces(t))
  {
    var faceOf := map c | c in s + t :: Face(c.rank, c.suit);
    FacesByLookup(s, faceOf);
    FacesByLookup(t, faceOf);
    MapPermutation(s, t, Lookup(faceOf));
  }

  /** Looking a card up in a table of faces. */
  function Lookup(faceOf: map<Card, Face>): (Card -> Face) {
    c => if c in faceOf then faceOf[c] else Face(Ace, Spades)
  }

  lemma FacesByLookup(s: seq<Card>, faceOf: map<Card, Face>)
    requires forall c | c in s :: c in faceOf && faceOf[c] == Face(c.rank, c.suit)
    ensures Faces(s) == Map(s, Lookup(faceOf))
  {
    var fs, gs := Faces(s), Map(s, Lookup(faceOf));
    forall i | 0 <= i < |s| ensures fs[i] == gs[i] {
      assert s[i] in s;
    }
  }

  class Deck {
    var cards: seq<Card>

    constructor ()
      ensures cards == []
    {
      cards := [];
    }

    /** Each card object is in the list once. */
    ghost predicate Valid()
      reads this
    {
      NoDuplicates(cards)
    }

    function Size(): nat
      reads this
    {
      |cards|
    }

    /** The indexer: the card at position `index`, 0 being the next one dealt. */
    function At(index: int): (card: Card)
      reads this
      requires 0 <= index < |cards|
      ensures card in cards
    {
      cards[index]
    }

    /**
     * Destroys the deck's cards and makes `size` standard decks of new face-down
     * Normal cards, in creation order.
     */
    method GenerateDeck(size: int)
      modifies this`cards
      ensures Faces(cards) == StandardFaces(size)
      ensures Valid() && forall c | c in cards :: fresh(c) && !c.revealed && c.kind == Normal && !c.generated && c.depth == 0
    {
      // ClearAllCards: the old cards are destroyed, so they leave the deck.
      cards := [];
      var generated: seq<Card> := [];
      var i := 0;
      while i < size
        invariant 0 <= i && (size >= 0 ==> i <= size) && (size < 0 ==> i == 0)
        invariant Generating(generated, i) && forall c | c in generated :: fresh(c)
      {
        generated := AppendStandardCards(generated, i);
        i := i + 1;
      }
      // RefreshDeck: the deck's children, in creation order.
      cards := generated;
    }

    /** Where the generator's outer loop stands after i decks: their faces, in order, on new face-down Normal cards. */
    ghost predicate Generating(generated: seq<Card>, i: int)
      reads set c | c in generated
    {
      Faces(generated) == StandardFaces(i) && NoDuplicates(generated) &&
      forall c | c in generated :: !c.revealed && c.kind == Normal && !c.generated && c.depth == 0
    }

    /** One round of the generator's outer loop: one more standard deck after the cards made so far. */
    method AppendStandardCards(generated: seq<Card>, i: nat) returns (more: seq<Card>)
      requires Generating(generated, i)
      ensures Generating(more, i + 1) && forall c | c in more :: c in generated || fresh(c)
    {
      var made := GenerateStandardCards();
      NoDuplicatesConcat(generated, made);
      FacesConcat(generated, made);
      more := generated + made;
    }

    /** One standard deck of new face-down cards, rank by rank, each rank in the four suits. */
    method GenerateStandardCards() returns (made: seq<Card>)
      ensures Faces(made) == StandardDeck()
      ensures NoDuplicates(made)
      ensures forall c | c in made :: fresh(c) && !c.revealed && c.kind == Normal && !c.generated && c.depth == 0
    {
      made := [];
      var i := 0;
      while i < NumRanks
        invariant 0 <= i <= NumRanks
        invariant Faces(made) == StandardDeck()[..NumSuits * i]
        invariant NoDuplicates(made)
        invariant forall c | c in made :: fresh(c) && !c.revealed && c.kind == Normal && !c.generated && c.depth == 0
      {
        made := GenerateRank(made, i);
        i := i + 1;
      }
    }

    /** The generator's inner loop: rank i in each of the four suits, after the cards `made` so far. */
    method GenerateRank(made: seq<Card>, i: nat) returns (more: seq<Card>)
      requires i < NumRanks && Faces(made) == StandardDeck()[..NumSuits * i] && NoDuplicates(made)
      ensures Faces(more) == StandardDeck()[..NumSuits * (i + 1)] && NoDuplicates(more)
      ensures forall c | c in more :: c in made || (fresh(c) && !c.revealed && c.kind == Normal && !c.generated && c.depth == 0)
    {
      more := made;
      var j := 0;
      while j < NumSuits
        invariant 0 <= j <= NumSuits
        invariant Faces(more) == StandardDeck()[..NumSuits * i + j]
        invariant NoDuplicates(more)
        invariant forall c | c in more :: c in made || (fresh(c) && !c.revealed && c.kind == Normal && !c.generated && c.depth == 0)
      {
        ghost var k, d := NumSuits * i + j, StandardDeck();
        var card := NewStandardCard(i, j);
        assert Faces(more) == d[..k];
        StandardDeckAt(i, j);
        assert Faces([card]) == [d[k]];
        FacesConcat(more, [card]);
        PrefixExtend(d, k);
        assert Faces(more + [card]) == d[..k + 1];
        more := more + [card];
        j := j + 1;
      }
    }

    /** The body of the generator's inner loop: a new face-down card of rank i and suit j. */
    method NewStandardCard(i: nat, j: nat) returns (card: Card)
      requires i < NumRanks && j < NumSuits
      ensures fresh(card) && card.rank == RankOf(i) && card.suit == SuitOf(j)
      ensures !card.revealed && card.kind == Normal && !card.generated && card.depth == 0
    {
      card := CreateNewCard(RankOf(i), SuitOf(j), Normal, false);
      card.SetRevealed(false);
    }

    /**
     * Instantiates a new card as a child of the deck. It is not added to the
     * dealable list, which is left as it was. The face and the generated mark
     * are what the caller gives the card straight after creating it.
     */
    method CreateNewCard(rank: Rank, suit: Suit, kind: Kind, generated: bool) returns (card: Card)
      ensures fresh(card) && card.rank == rank && card.suit == suit && card.kind == kind && card.generated == generated
      ensures !card.revealed && card.depth == 0
    {
      card := new Card(rank, suit, kind, generated);
    }

    /** Places a card at depth `depth`. */
    method SetCardDepth(card: Card, depth: int)
      modifies card`depth
      ensures card.depth == depth
    {
      card.depth := depth;
    }

    /** Gives every card its index as depth. */
    method SetAllCardsDepth()
      requires Valid()
      modifies (set c | c in cards)`depth
      ensures DepthsIndexed(cards)
    {
      var i := 0;
      while i < |cards|
        invariant 0 <= i <= |cards|
        invariant forall j :: 0 <= j < i ==> cards[j].depth == j
      {
        SetCardDepth(cards[i], i);
        i := i + 1;
      }
    }

    /**
     * For each index i, swaps card i with a card at an index drawn from the
     * whole deck, re-stacking both. The draw is a free choice here.
     */
    method Shuffle()
      requires Valid()
      modifies this`cards, (set c | c in cards)`depth
      ensures multiset(cards) == old(multiset(cards))
      ensures Valid() && DepthsIndexed(cards)
    {
      var i, iMax := 0, |cards|;
      while i < iMax
        invariant 0 <= i <= iMax == |cards|
        invariant multiset(cards) == old(multiset(cards))
        invariant Valid()
        invariant forall j :: 0 <= j < i ==> cards[j].depth == j
      {
        var randomIndex :| 0 <= randomIndex < iMax;
        ghost var before := cards;
        SwapNoDuplicates(before, i, randomIndex);
        assert cards[randomIndex] in multiset(cards) && cards[i] in multiset(cards);
        var randomCard := cards[randomIndex];
        cards := cards[randomIndex := cards[i]];
        SetCardDepth(cards[randomIndex], randomIndex);
        cards := cards[i := randomCard];
        SetCardDepth(cards[i], i);
        assert cards == before[randomIndex := before[i]][i := before[randomIndex]];
        SwapMultiset(before, i, randomIndex);
        i := i + 1;
      }
    }

    /** Removes and returns the front card; the rest move up one place and are re-stacked. */
    method DealCard() returns (card: Card)
      requires Valid() && cards != []
      modifies this`cards, (set c | c in cards)`depth
      ensures card == old(cards[0]) && cards == old(cards[1..])
      ensures card.depth == old(card.depth)
      ensures Valid() && DepthsIndexed(cards)
    {
      card := cards[0];
      cards := cards[1..];
      SetAllCardsDepth();
    }

    /** Inserts a card at the front (it is dealt next) and re-stacks the deck. */
    method AddCardOnTop(card: Card)
      requires Valid() && card !in cards
      modifies this`cards, card`depth, (set c | c in cards)`depth
      ensures cards == [card] + old(cards)
      ensures Valid() && DepthsIndexed(cards)
    {
      cards := [card] + cards;
      // MoveToPosition(Vector3.zero)
      card.depth := 0;
      SetAllCardsDepth();
    }
  }

  lemma PrefixExtend<T>(s: seq<T>, k: nat)
    requires k < |s|
    ensures s[..k + 1] == s[..k] + [s[k]]
  {
  }

  /** Exchanging two positions keeps the multiset of a sequence. */
  lemma SwapMultiset<T>(s: seq<T>, i: nat, r: nat)
    requires i < |s| && r < |s|
    ensures multiset(s[r := s[i]][i := s[r]]) == multiset(s)
  {
    var u := s[r := s[i]];
    assert multiset(u) == multiset(s) - multiset{s[r]} + multiset{s[i]};
    assert multiset(u[i := s[r]]) == multiset(u) - multiset{u[i]} + multiset{s[r]};
  }
}
