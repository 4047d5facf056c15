/** Cards of one deck, and the "goes under" relation of FreeCell columns. */
module Cards {

  datatype Option<+T> = None | Some(value: T) {
    function GetOr(default: T): T {
      if Some? then value else default
    }
  }

  const KING := 13

  type Rank = r: nat | 1 <= r <= 13 witness 1
  type Suit = u: nat | u < 4

  datatype Card = Card(rank: Rank, suit: Suit)

  // Suits of the same colour have the same low bit.
  predicate SameColour(a: Suit, b: Suit) {
    a % 2 == b % 2
  }

  // parent is one rank higher and of the other colour.
  predicate IsParent(child: Card, parent: Card) {
    child.rank + 1 == parent.rank && !SameColour(child.suit, parent.suit)
  }

  // By rank, and by suit within a rank.
  predicate Lower(a: Card, b: Card) {
    a.rank < b.rank || (a.rank == b.rank && a.suit < b.suit)
  }
}
