/**
 The bit-packed codec: the freecells, then for each column how many cards of the deal it still starts
 with, how many were placed after them, and the high suit bit of each placed card.
 */
module DeltaBits {
  import opened Cards
  import opened Positions
  import opened Numbers
  import opened BitPacked
  import opened Arranging

  // ---- The cards of the deal that a column still starts with ----

  // The count of cards up to the last one that does not lie on a parent.
  function OrigNumCards(col: Column): (n: nat)
    ensures n <= |col| && n != 1
  {
    if |col| < 2 then 0
    else if !IsParent(col[|col| - 1], col[|col| - 2]) then |col|
    else OrigNumCards(col[..|col| - 1])
  }

  predicate HasOrig(col: Column) {
    OrigNumCards(col) > 0
  }

  predicate Runs(col: Column, k: nat, l: nat) {
    forall j :: k < j < l <= |col| ==> IsParent(col[j], col[j - 1])
  }

  lemma {:induction false} OrigIsLastBreak(col: Column)
    ensures var n := OrigNumCards(col);
            && (n > 0 ==> !IsParent(col[n - 1], col[n - 2]))
            && Runs(col, if n > 0 then n - 1 else 0, |col|)
  {
    if |col| >= 2 && IsParent(col[|col| - 1], col[|col| - 2]) {
      var up := col[..|col| - 1];
      OrigIsLastBreak(up);
      var n := OrigNumCards(up);
      forall j | (if n > 0 then n - 1 else 0) < j < |col| ensures IsParent(col[j], col[j - 1]) {
        if j < |up| { assert up[j] == col[j] && up[j - 1] == col[j - 1]; }
      }
    }
  }

  ghost predicate KeepsColumn(orig: Column, col: Column) {
    var n := OrigNumCards(col);
    n <= |orig| && col[..n] == orig[..n]
  }

  // Each column starts with cards of the deal and goes on with placed cards only.
  ghost predicate KeepsDeal(init: Position, s: Position) {
    && FullDeck(s) && |s.cols| == |init.cols| && |s.cells| == |init.cells|
    && forall i :: 0 <= i < |s.cols| ==> KeepsColumn(init.cols[i], s.cols[i])
  }

  lemma {:induction false} ShorterKeeps(orig: Column, col: Column, k: nat)
    requires KeepsColumn(orig, col) && k <= |col|
    ensures KeepsColumn(orig, col[..k])
  {
    OrigIsLastBreak(col);
    OrigIsLastBreak(col[..k]);
    var n, m := OrigNumCards(col), OrigNumCards(col[..k]);
    if m > n {
      assert false;
    }
    assert col[..k][..m] == col[..n][..m] == orig[..n][..m] == orig[..m];
  }

  lemma PlacedKeeps(orig: Column, col: Column, c: Card)
    requires KeepsColumn(orig, col) && (col == [] || IsParent(c, Last(col)))
    ensures KeepsColumn(orig, col + [c])
  {
    assert (col + [c])[..|col|] == col;
    var n := OrigNumCards(col);
    assert OrigNumCards(col + [c]) == n;
    assert (col + [c])[..n] == col[..n];
  }

  lemma MoveKeepsDeal(init: Position, s: Position, m: Move)
    requires KeepsDeal(init, s) && Legal(s, m)
    ensures KeepsDeal(init, Apply(s, m))
  {
    MoveKeepsDeck(s, m);
    var u, t := Take(s, m.src), Apply(s, m);
    StillAccepts(s, m);
    forall i | 0 <= i < |t.cols| ensures KeepsColumn(init.cols[i], t.cols[i]) {
      assert KeepsColumn(init.cols[i], s.cols[i]);
      ShorterKeeps(init.cols[i], s.cols[i], |u.cols[i]|);
      assert u.cols[i] == s.cols[i][..|u.cols[i]|];
      if m.dst == Col(i) { PlacedKeeps(init.cols[i], u.cols[i], Exposed(s, m.src).value); }
    }
  }

  lemma {:induction false} RunKeepsDeal(init: Position, s: Position, moves: seq<Move>, t: Position)
    requires KeepsDeal(init, s) && Reaches(s, moves, t)
    ensures KeepsDeal(init, t)
    decreases |moves|
  {
    if moves == [] {
    } else {
      MoveKeepsDeal(init, s, moves[0]);
      RunKeepsDeal(init, Apply(s, moves[0]), moves[1..], t);
    }
  }

  // Every position reachable from the deal is one the codec can store.
  lemma ReachableKeepsDeal(init: Position, moves: seq<Move>, t: Position)
    requires FullDeck(init) && Reaches(init, moves, t)
    ensures KeepsDeal(init, t)
  {
    RunKeepsDeal(init, init, moves, t);
  }

  // ---- The width of the count of original cards ----

  function MaxOrig(cols: seq<Column>): nat {
    if cols == [] then 0
    else
      var n, m := OrigNumCards(cols[0]), MaxOrig(cols[1..]);
      if n > m then n else m
  }

  function BitsFor(n: nat): (width: nat)
    ensures n < Pow2(width)
  {
    if n == 0 then 0 else 1 + BitsFor(n / 2)
  }

  function Width(init: Position): nat {
    BitsFor(MaxOrig(init.cols))
  }

  lemma {:induction false} MaxOrigIsMax(cols: seq<Column>, i: nat)
    requires i < |cols|
    ensures OrigNumCards(cols[i]) <= MaxOrig(cols)
  {
    if i == 0 {
    } else {
      MaxOrigIsMax(cols[1..], i - 1);
    }
  }

  lemma OrigFitsWidth(init: Position, s: Position, i: nat)
    requires KeepsDeal(init, s) && i < |s.cols|
    ensures OrigNumCards(s.cols[i]) <= MaxOrig(init.cols) && OrigNumCards(s.cols[i]) < Pow2(Width(init))
  {
    var col, orig := s.cols[i], init.cols[i];
    var n := OrigNumCards(col);
    assert KeepsColumn(orig, col);
    OrigIsLastBreak(col);
    OrigIsLastBreak(orig);
    if n > OrigNumCards(orig) {
      assert false;
    }
    MaxOrigIsMax(init.cols, i);
  }

  // ---- Encoding ----

  function CharOf(c: Card): (n: nat)
    ensures 4 <= n < 64
  {
    c.rank * 4 + c.suit
  }

  function CellChar(x: Option<Card>): (n: nat)
    ensures n < 64
  {
    if x.None? then 0 else CharOf(x.value)
  }

  // The character of the bottom card; zero for an empty column.
  function BaseChar(col: Column): nat {
    if col == [] then 0 else CharOf(col[0])
  }

  function SuitBits(cards: seq<Card>): (bits: Bits)
    ensures |bits| == |cards|
  {
    if cards == [] then [] else [cards[0].suit >= 2] + SuitBits(cards[1..])
  }

  function PlacedBits(col: Column): Bits {
    var orig := OrigNumCards(col);
    if orig == 0 && col != [] then ToBits(CharOf(col[0]), 6) + SuitBits(col[1..]) else SuitBits(col[orig..])
  }

  function ColumnBits(width: nat, col: Column): Bits {
    var orig := OrigNumCards(col);
    ToBits(orig, width) + ToBits(|col| - orig, 4) + PlacedBits(col)
  }

  function CellsBits(cells: seq<Option<Card>>): Bits {
    if cells == [] then [] else ToBits(CellChar(cells[0]), 6) + CellsBits(cells[1..])
  }

  function ColsBits(width: nat, cols: seq<Column>): Bits {
    if cols == [] then [] else ColumnBits(width, cols[0]) + ColsBits(width, cols[1..])
  }

  // ---- The order in which columns are written ----

  // The columns that start with cards of the deal are the same ones; the others are the same in some order.
  ghost predicate PlacedAlike(a: seq<Column>, b: seq<Column>) {
    Alike(a, b, HasOrig)
  }


  lemma BasesDiffer(s: Position)
    requires FullDeck(s)
    ensures TellsApart(s.cols, BaseChar)
  {
    forall x, y | x in s.cols && y in s.cols && BaseChar(x) == BaseChar(y) ensures x == y {
      var i, j :| 0 <= i < |s.cols| && 0 <= j < |s.cols| && s.cols[i] == x && s.cols[j] == y;
      if x != [] && y != [] { UniqueInColumns(s, i, 0, j, 0); }
    }
  }

  // Free columns go, empty ones first and then by their bottom card, to the places of free columns.
  function Arrange(cols: seq<Column>): (out: seq<Column>)
    ensures IsArranged(cols, out, HasOrig, BaseChar)
  {
    Arranged(cols, HasOrig, BaseChar)
  }

  function Encode(width: nat, s: Position): Bits {
    CellsBits(Sort(s.cells, CellChar)) + ColsBits(width, Arrange(s.cols))
  }

  // ---- Decoding ----

  datatype Parsed<+T> = Parsed(value: T, rest: Bits)

  // None where the bits hold no card.
  function CardOf(n: nat): Option<Card> {
    if 4 <= n < 56 then Some(Card(n / 4, n % 4)) else None
  }

  // The placed card of the other colour, one rank below, with this high suit bit.
  function ChildWith(parent: Card, bit: bool): Card
    requires parent.rank > 1
  {
    Card(parent.rank - 1, (if bit then 2 else 0) + 1 - parent.suit % 2)
  }

  function DecodeRun(last: Card, n: nat, bits: Bits): Option<Parsed<seq<Card>>>
    decreases n
  {
    if n == 0 then Some(Parsed([], bits))
    else if bits == [] || last.rank == 1 then None
    else
      var c := ChildWith(last, bits[0]);
      match DecodeRun(c, n - 1, bits[1..])
      case None => None
      case Some(run) => Some(Parsed([c] + run.value, run.rest))
  }

  function After(start: seq<Card>, run: Option<Parsed<seq<Card>>>): Option<Parsed<Column>> {
    if run.None? then None else Some(Parsed(start + run.value.value, run.value.rest))
  }

  function DecodeCards(orig: Column, n: nat, m: nat, bits: Bits): Option<Parsed<Column>>
    requires n <= |orig|
  {
    if m == 0 then Some(Parsed(orig[..n], bits))
    else if n > 0 then After(orig[..n], DecodeRun(orig[n - 1], m, bits))
    else if |bits| < 6 || CardOf(FromBits(bits[..6])).None? then None
    else
      var c := CardOf(FromBits(bits[..6])).value;
      After([c], DecodeRun(c, m - 1, bits[6..]))
  }

  function DecodeColumn(width: nat, orig: Column, bits: Bits): Option<Parsed<Column>> {
    if |bits| < width + 4 || FromBits(bits[..width]) > |orig| then None
    else DecodeCards(orig, FromBits(bits[..width]), FromBits(bits[width..][..4]), bits[width..][4..])
  }

  function DecodeCols(width: nat, orig: seq<Column>, bits: Bits): (r: Option<Parsed<seq<Column>>>)
    ensures r.Some? ==> |r.value.value| == |orig|
  {
    if orig == [] then Some(Parsed([], bits))
    else
      match DecodeColumn(width, orig[0], bits)
      case None => None
      case Some(col) =>
        match DecodeCols(width, orig[1..], col.rest)
        case None => None
        case Some(cols) => Some(Parsed([col.value] + cols.value, cols.rest))
  }

  function DecodeCells(n: nat, bits: Bits): (r: Option<Parsed<seq<Option<Card>>>>)
    ensures r.Some? ==> |r.value.value| == n
  {
    if n == 0 then Some(Parsed([], bits))
    else if |bits| < 6 || (FromBits(bits[..6]) != 0 && CardOf(FromBits(bits[..6])).None?) then None
    else
      match DecodeCells(n - 1, bits[6..])
      case None => None
      case Some(cells) => Some(Parsed([CardOf(FromBits(bits[..6]))] + cells.value, cells.rest))
  }

  // The lowest rank of the suit among the cards; one above the king when there is none.
  function LowestIn(col: seq<Card>, u: Suit): (n: nat)
    ensures 1 <= n <= KING + 1
  {
    if col == [] then KING + 1 else Min(if col[0].suit == u then col[0].rank else KING + 1, LowestIn(col[1..], u))
  }

  function LowestInCols(cols: seq<Column>, u: Suit): (n: nat)
    ensures 1 <= n <= KING + 1
  {
    if cols == [] then KING + 1 else Min(LowestIn(cols[0], u), LowestInCols(cols[1..], u))
  }

  function LowestInCells(cells: seq<Option<Card>>, u: Suit): (n: nat)
    ensures 1 <= n <= KING + 1
  {
    if cells == [] then KING + 1
    else Min(if cells[0].Some? && cells[0].value.suit == u then cells[0].value.rank else KING + 1,
               LowestInCells(cells[1..], u))
  }

  // A suit is home up to the card below its lowest one in play.
  function HomeBelow(cols: seq<Column>, cells: seq<Option<Card>>): Foundations {
    seq(4, u requires 0 <= u < 4 => Min(LowestInCells(cells, u), LowestInCols(cols, u)) - 1)
  }

  function Decode(init: Position, bits: Bits): Option<Position> {
    match DecodeCells(|init.cells|, bits)
    case None => None
    case Some(cells) =>
      match DecodeCols(Width(init), init.cols, cells.rest)
      case None => None
      case Some(cols) => Some(Position(cols.value, cells.value, HomeBelow(cols.value, cells.value)))
  }
}
