/**
 * A board slot: a position, at most one card, and the set of slots whose cards
 * lie on top of it (its overlapping slots).
 */
module Slots {
  import opened Cards

  /**
   * A slot's local position in layout units: x and y as in the scene (the card
   * spacing is 90 × 80), and the stacking layer as the row number (the scene
   * uses z = 0.1 · row). A lower layer lies nearer the viewer, on top.
   */
  datatype Pos = Pos(x: int, y: int, layer: int)

  class Slot {
    const pos: Pos
    var card: Card?
    var overlapping: set<Slot>

    /** Slot.Create followed by setting the local position. */
    constructor (pos: Pos)
      ensures this.pos == pos && card == null && overlapping == {}
    {
      this.pos := pos;
      card := null;
      overlapping := {};
    }

    /**
     * Puts `c` in the slot and moves it to the slot's origin (depth 0). There is
     * no emptiness check: a card already held is overwritten.
     */
    method PlaceCard(c: Card)
      modifies this`card, c`depth
      ensures card == c && c.depth == 0
    {
      card := c;
      c.depth := 0;
    }

    /** Hands back the held card (null when empty) and leaves the slot empty. */
    method TakeCard() returns (c: Card?)
      modifies this`card
      ensures c == old(card) && card == null
    {
      c := card;
      card := null;
    }

    /** No overlapping slot holds a card: the rule for showing this slot's card face up. */
    ghost predicate Uncovered()
      reads this`overlapping, overlapping`card
    {
      forall t :: t in overlapping ==> t.card == null
    }
  }

  /** The card field of each slot of `ss`, in order. */
  ghost function Holdings(ss: seq<Slot>): (cs: seq<Card?>)
    reads (set s | s in ss)`card
    ensures |cs| == |ss|
    ensures forall i :: 0 <= i < |ss| ==> cs[i] == ss[i].card
  {
    if ss == [] then [] else [ss[0].card] + Holdings(ss[1..])
  }

  /** The cards held by a row of slots, in slot order, empty slots skipped. */
  ghost function Present(cs: seq<Card?>): seq<Card> {
    if cs == [] then []
    else (if cs[0] == null then [] else [cs[0]]) + Present(cs[1..])
  }

  /** Every held card comes from some slot of the row. */
  lemma {:induction false} PresentWithin(cs: seq<Card?>)
    ensures forall c | c in Present(cs) :: c in cs
  {
    if cs != [] {
      PresentWithin(cs[1..]);
    }
  }

  /** The cards held by a row of slots, counted once per slot that holds them. */
  ghost function Occupied(cs: seq<Card?>): multiset<Card> {
    multiset(Present(cs))
  }

  /** Taking the card out of slot i removes exactly that card from the held cards. */
  lemma {:induction false} OccupiedClear(cs: seq<Card?>, i: nat)
    requires i < |cs| && cs[i] != null
    ensures Occupied(cs[i := null]) + multiset{cs[i]} == Occupied(cs)
  {
    if i > 0 {
      OccupiedClear(cs[1..], i - 1);
      assert cs[i := null][1..] == cs[1..][i - 1 := null];
    }
  }

  /** Placing a card into an empty slot i adds exactly that card to the held cards. */
  lemma {:induction false} OccupiedFill(cs: seq<Card?>, i: nat, c: Card)
    requires i < |cs| && cs[i] == null
    ensures Occupied(cs[i := c]) == Occupied(cs) + multiset{c}
  {
    if i > 0 {
      OccupiedFill(cs[1..], i - 1, c);
      assert cs[i := c][1..] == cs[1..][i - 1 := c];
    }
  }

  /** A card held by some slot is among the held cards, and nothing else is. */
  lemma {:induction false} OccupiedMembers(cs: seq<Card?>, c: Card)
    ensures c in Occupied(cs) <==> exists i :: 0 <= i < |cs| && cs[i] == c
  {
    if cs != [] {
      OccupiedMembers(cs[1..], c);
      if c in Occupied(cs[1..]) {
        var i :| 0 <= i < |cs[1..]| && cs[1..][i] == c;
        assert cs[i + 1] == c;
      }
      if exists i :: 0 <= i < |cs| && cs[i] == c {
        var i :| 0 <= i < |cs| && cs[i] == c;
        if i > 0 { assert cs[1..][i - 1] == c; }
      }
    }
  }

  /** When every slot is empty, no card is held. */
  lemma {:induction false} OccupiedNone(cs: seq<Card?>)
    requires forall i :: 0 <= i < |cs| ==> cs[i] == null
    ensures Occupied(cs) == multiset{}
  {
    if cs != [] {
      OccupiedNone(cs[1..]);
    }
  }

  /** The held cards from index i on: slot i's card, if any, then those after it. */
  lemma PresentFrom(cs: seq<Card?>, i: nat)
    requires i < |cs|
    ensures Present(cs[i..]) == (if cs[i] == null then [] else [cs[i]]) + Present(cs[i + 1..])
  {
    assert cs[i..][1..] == cs[i + 1..];
  }

  /** Two rows of slots are occupied at the same places. */
  predicate SamePattern(a: seq<Card?>, b: seq<Card?>) {
    |a| == |b| && forall i :: 0 <= i < |a| ==> (a[i] == null <==> b[i] == null)
  }

  /** Rows occupied at the same places hold the same number of cards. */
  lemma {:induction false} SamePatternSize(a: seq<Card?>, b: seq<Card?>)
    requires SamePattern(a, b)
    ensures |Present(a)| == |Present(b)|
  {
    if a != [] {
      SamePatternSize(a[1..], b[1..]);
    }
  }

  /** Held cards are counted once per slot that holds them. */
  lemma {:induction false} OccupiedSize(cs: seq<Card?>)
    ensures |Occupied(cs)| <= |cs|
    ensures (forall i :: 0 <= i < |cs| ==> cs[i] != null) ==> |Occupied(cs)| == |cs|
  {
    if cs != [] {
      OccupiedSize(cs[1..]);
    }
  }

  /** When no card is held twice, two different slots never hold the same card. */
  lemma OccupiedDistinct(cs: seq<Card?>, i: nat, j: nat)
    requires forall x | x in Occupied(cs) :: Occupied(cs)[x] == 1
    requires i < |cs| && j < |cs| && i != j && cs[i] != null
    ensures cs[i] != cs[j]
  {
    if cs[i] == cs[j] {
      OccupiedRepeat(cs, i, j);
    }
  }

  /** A card held by two slots is counted twice. */
  lemma OccupiedRepeat(cs: seq<Card?>, i: nat, j: nat)
    requires i < |cs| && j < |cs| && i != j && cs[i] != null && cs[i] == cs[j]
    ensures Occupied(cs)[cs[i]] >= 2
  {
    OccupiedClear(cs, i);
    OccupiedMembers(cs[i := null], cs[i]);
    assert cs[i := null][j] == cs[i];
  }
}
