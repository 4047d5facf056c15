/** Where the cards are that another card can go on, found by looking over the columns once. */
module PositionsByRank {
  import opened Cards
  import opened Positions

  datatype Spot = Spot(col: nat, height: nat)

  const TABLE_SIZE := 52

  function Slot(c: Card): (k: nat)
    ensures k < TABLE_SIZE
  {
    (c.rank - 1) * 4 + c.suit
  }

  lemma SlotsDiffer(a: Card, b: Card)
    requires a != b
    ensures Slot(a) != Slot(b)
  {
  }

  // No child of the card lies on it.
  predicate IsOpen(col: Column, k: nat)
    requires k < |col|
  {
    k + 1 == |col| || !IsParent(col[k + 1], col[k])
  }

  // The places looked at so far: the first n columns, and m cards of the next.
  predicate IsSeen(s: Position, n: nat, m: nat, spot: Spot) {
    && spot.col < |s.cols| && spot.height < |s.cols[spot.col]|
    && (spot.col < n || (spot.col == n && spot.height < m))
  }

  // The table has the place of a card exactly if it was seen and is open.
  ghost predicate HasSpot(table: seq<Option<Spot>>, s: Position, n: nat, m: nat, spot: Spot)
    requires |table| == TABLE_SIZE && spot.col < |s.cols| && spot.height < |s.cols[spot.col]|
  {
    table[Slot(s.cols[spot.col][spot.height])] == Some(spot) <==>
    IsSeen(s, n, m, spot) && IsOpen(s.cols[spot.col], spot.height)
  }

  // Whatever the table has is the place of that card.
  ghost predicate IsItsSpot(table: seq<Option<Spot>>, s: Position, c: Card)
    requires |table| == TABLE_SIZE
  {
    table[Slot(c)].Some? ==>
      var spot := table[Slot(c)].value;
      spot.col < |s.cols| && spot.height < |s.cols[spot.col]| && s.cols[spot.col][spot.height] == c
  }

  ghost predicate TableIs(table: seq<Option<Spot>>, s: Position, n: nat, m: nat) {
    && |table| == TABLE_SIZE
    && (forall spot: Spot {:trigger HasSpot(table, s, n, m, spot)} ::
          spot.col < |s.cols| && spot.height < |s.cols[spot.col]| ==> HasSpot(table, s, n, m, spot))
    && (forall c: Card {:trigger IsItsSpot(table, s, c)} :: IsItsSpot(table, s, c))
  }

  // The finished table.
  ghost predicate IsPositionsByRank(table: seq<Option<Spot>>, s: Position) {
    TableIs(table, s, |s.cols|, 0)
  }

  lemma SeesNothing(table: seq<Option<Spot>>, s: Position)
    requires |table| == TABLE_SIZE && forall k :: 0 <= k < TABLE_SIZE ==> table[k] == None
    ensures TableIs(table, s, 0, 0)
  {
  }

  lemma ColumnSeen(table: seq<Option<Spot>>, s: Position, n: nat)
    requires n < |s.cols| && TableIs(table, s, n, |s.cols[n]|)
    ensures TableIs(table, s, n + 1, 0)
  {
    forall spot: Spot | spot.col < |s.cols| && spot.height < |s.cols[spot.col]|
      ensures HasSpot(table, s, n + 1, 0, spot)
    {
      assert HasSpot(table, s, n, |s.cols[n]|, spot);
    }
  }

  // A card with its child on it is passed over.
  lemma PassedOver(table: seq<Option<Spot>>, s: Position, n: nat, m: nat)
    requires TableIs(table, s, n, m) && n < |s.cols| && m < |s.cols[n]| && !IsOpen(s.cols[n], m)
    ensures TableIs(table, s, n, m + 1)
  {
    forall spot: Spot | spot.col < |s.cols| && spot.height < |s.cols[spot.col]|
      ensures HasSpot(table, s, n, m + 1, spot)
    {
      assert HasSpot(table, s, n, m, spot);
    }
  }

  // An open card is entered; a deck has no second card like it.
  lemma Entered(table: seq<Option<Spot>>, s: Position, n: nat, m: nat)
    requires FullDeck(s) && TableIs(table, s, n, m) && n < |s.cols| && m < |s.cols[n]| && IsOpen(s.cols[n], m)
    ensures TableIs(table[Slot(s.cols[n][m]) := Some(Spot(n, m))], s, n, m + 1)
  {
    var card, here := s.cols[n][m], Spot(n, m);
    var table' := table[Slot(card) := Some(here)];
    forall spot: Spot | spot.col < |s.cols| && spot.height < |s.cols[spot.col]|
      ensures HasSpot(table', s, n, m + 1, spot)
    {
      assert HasSpot(table, s, n, m, spot);
      var other := s.cols[spot.col][spot.height];
      if other == card { UniqueInColumns(s, spot.col, spot.height, n, m); } else { SlotsDiffer(other, card); }
    }
    forall c: Card ensures IsItsSpot(table', s, c) {
      assert IsItsSpot(table, s, c);
      if c != card { SlotsDiffer(c, card); }
    }
  }

  method CalcPositionsByRank(s: Position) returns (table: array<Option<Spot>>)
    requires FullDeck(s)
    ensures fresh(table) && IsPositionsByRank(table[..], s)
  {
    table := new Option<Spot>[TABLE_SIZE](_ => None);
    SeesNothing(table[..], s);
    for ds := 0 to |s.cols|
      invariant TableIs(table[..], s, ds, 0)
    {
      AddColumn(s, ds, table);
      ColumnSeen(table[..], s, ds);
    }
  }

  method AddColumn(s: Position, ds: nat, table: array<Option<Spot>>)
    requires FullDeck(s) && ds < |s.cols| && TableIs(table[..], s, ds, 0)
    modifies table
    ensures TableIs(table[..], s, ds, |s.cols[ds]|)
  {
    var col := s.cols[ds];
    if col == [] { return; }
    var card := col[0];
    for dc := 0 to |col| - 1
      invariant TableIs(table[..], s, ds, dc) && card == col[dc]
    {
      var below := col[dc + 1];
      if !IsParent(below, card) {
        Entered(table[..], s, ds, dc);
        Enter(table, card, Spot(ds, dc));
      } else {
        PassedOver(table[..], s, ds, dc);
      }
      card := below;
    }
    Entered(table[..], s, ds, |col| - 1);
    Enter(table, card, Spot(ds, |col| - 1));
  }

  method Enter(table: array<Option<Spot>>, card: Card, spot: Spot)
    requires table.Length == TABLE_SIZE
    modifies table
    ensures table[..] == old(table[..])[Slot(card) := Some(spot)]
  {
    table[Slot(card)] := Some(spot);
  }

  // The open places of a card that is the parent of another are those in the table.
  lemma SpotOfParent(table: seq<Option<Spot>>, s: Position, parent: Card, ds: nat, dc: nat)
    requires IsPositionsByRank(table, s) && ds < |s.cols| && dc < |s.cols[ds]|
    requires s.cols[ds][dc] == parent && IsOpen(s.cols[ds], dc)
    ensures table[Slot(parent)] == Some(Spot(ds, dc))
  {
    assert HasSpot(table, s, |s.cols|, 0, Spot(ds, dc));
  }

  lemma SpotIsOpen(table: seq<Option<Spot>>, s: Position, card: Card)
    requires IsPositionsByRank(table, s) && table[Slot(card)].Some?
    ensures var spot := table[Slot(card)].value;
            && spot.col < |s.cols| && spot.height < |s.cols[spot.col]| && s.cols[spot.col][spot.height] == card
            && IsOpen(s.cols[spot.col], spot.height)
  {
    assert IsItsSpot(table, s, card);
    assert HasSpot(table, s, |s.cols|, 0, table[Slot(card)].value);
  }
}
