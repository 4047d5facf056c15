/**
 The Debondt codec: a position as the foundations and one option for each card of rank two and up,
 relative to the initial deal.
 */
module Debondt {
  import opened Cards
  import opened Positions

  const OPT_TOPMOST := 0
  const OPT_FREECELL := 1
  const OPT_ORIG_POS := 2
  const NUM_KING_OPTS := 3
  const OPT_PARENT_SUIT_MOD_IS_0 := 3
  const OPT_PARENT_SUIT_MOD_IS_1 := 4
  const NUM_OPTS := 5
  const OPT_IN_FOUNDATION := 5
  const FOUNDATION_BASE := KING + 1

  function WantedSuitBitOpt(parent: Card): nat {
    if parent.suit >= 2 then OPT_PARENT_SUIT_MOD_IS_1 else OPT_PARENT_SUIT_MOD_IS_0
  }

  function CalcChildCardOption(parent: Card, child: Card): nat {
    if child.rank != 1 && IsParent(child, parent) then WantedSuitBitOpt(parent) else OPT_ORIG_POS
  }

  function ColumnOpt(col: Column, k: nat): nat
    requires k < |col|
  {
    if k == 0 then OPT_TOPMOST else CalcChildCardOption(col[k - 1], col[k])
  }

  // ---- Encoding ----

  // The option of a card of rank two and up.
  ghost predicate HasOpt(s: Position, c: Card, opt: nat) {
    || (c.rank <= s.found[c.suit] && opt == OPT_TOPMOST)
    || (Some(c) in s.cells && opt == OPT_FREECELL)
    || (exists i, k :: 0 <= i < |s.cols| && 0 <= k < |s.cols[i]| && s.cols[i][k] == c && opt == ColumnOpt(s.cols[i], k))
  }

  lemma OptExists(s: Position, c: Card)
    requires FullDeck(s)
    ensures exists opt :: HasOpt(s, c, opt)
  {
    if s.found[c.suit] < c.rank {
      var inCell, i, k := Locate(s, c);
      assert HasOpt(s, c, if inCell then OPT_FREECELL else ColumnOpt(s.cols[i], k));
    } else {
      assert HasOpt(s, c, OPT_TOPMOST);
    }
  }

  ghost function Opt(s: Position, c: Card): (opt: nat)
    requires FullDeck(s)
    ensures HasOpt(s, c, opt)
  {
    OptExists(s, c);
    var opt :| HasOpt(s, c, opt);
    opt
  }

  lemma OptUnique(s: Position, c: Card, opt: nat)
    requires FullDeck(s) && HasOpt(s, c, opt)
    ensures Opt(s, c) == opt
  {
    var other := Opt(s, c);
    if exists i, k :: 0 <= i < |s.cols| && 0 <= k < |s.cols[i]| && s.cols[i][k] == c {
      var i, k :| 0 <= i < |s.cols| && 0 <= k < |s.cols[i]| && s.cols[i][k] == c;
      InPlayNotHome(s, i, k);
      forall j, l | 0 <= j < |s.cols| && 0 <= l < |s.cols[j]| && s.cols[j][l] == c ensures i == j && k == l {
        UniqueInColumns(s, i, k, j, l);
      }
    } else if Some(c) in s.cells {
      var j :| 0 <= j < |s.cells| && s.cells[j] == Some(c);
      CellNotHome(s, j);
    }
  }

  // Cards of rank two and up in the order they are written.
  function CardAt(n: nat): Card
    requires n < 48
  {
    Card(2 + n / 4, n % 4)
  }

  function IndexOf(c: Card): (n: nat)
    requires c.rank >= 2
    ensures n < 48 && CardAt(n) == c
  {
    (c.rank - 2) * 4 + c.suit
  }

  function BaseAt(n: nat): nat {
    if n < 4 then FOUNDATION_BASE else if n < 48 then NUM_OPTS else NUM_KING_OPTS
  }

  function Bases(): seq<nat> {
    seq(52, n requires 0 <= n < 52 => BaseAt(n))
  }

  ghost function Digits(s: Position): (d: seq<nat>)
    requires FullDeck(s)
    ensures |d| == 52
  {
    s.found + seq(48, n requires 0 <= n < 48 => Opt(s, CardAt(n)))
  }

  lemma TakeNext<T>(a: seq<T>, n: nat)
    requires n < |a|
    ensures a[..n + 1] == a[..n] + [a[n]]
  {
  }

  // ---- Decoding ----

  // The state of a card once the digits have been read.
  function State(d: seq<nat>, c: Card): nat
    requires |d| == 52
  {
    if c.rank <= d[c.suit] then OPT_IN_FOUNDATION
    else if c.rank == 1 then OPT_ORIG_POS
    else d[4 + IndexOf(c)]
  }

  // Among the first n cards of rank two and up, those wanted.
  function Pick(n: nat, wanted: Card -> bool): seq<Card>
    requires n <= 48
  {
    if n == 0 then [] else Pick(n - 1, wanted) + if wanted(CardAt(n - 1)) then [CardAt(n - 1)] else []
  }

  function IsFreecellCard(d: seq<nat>): Card -> bool
    requires |d| == 52
  {
    (c: Card) => State(d, c) == OPT_FREECELL
  }

  predicate IsOrigTop(init: Position, c: Card) {
    exists i :: 0 <= i < |init.cols| && init.cols[i] != [] && init.cols[i][0] == c
  }

  function IsNewTop(init: Position, d: seq<nat>): Card -> bool
    requires |d| == 52
  {
    (c: Card) => State(d, c) == OPT_TOPMOST && !IsOrigTop(init, c)
  }

  function FreecellCards(d: seq<nat>): seq<Card>
    requires |d| == 52
  {
    Pick(|d| - 4, IsFreecellCard(d))
  }

  function NewTops(init: Position, d: seq<nat>): seq<Card>
    requires |d| == 52
  {
    Pick(|d| - 4, IsNewTop(init, d))
  }

  // The card that continues a column below the given one.
  function ChildOf(d: seq<nat>, parent: Card): Option<Card>
    requires |d| == 52
  {
    if parent.rank == 1 then None
    else
      var low := Card(parent.rank - 1, 1 - parent.suit % 2);
      var high := Card(parent.rank - 1, 3 - parent.suit % 2);
      if State(d, low) == WantedSuitBitOpt(parent) then Some(low)
      else if State(d, high) == WantedSuitBitOpt(parent) then Some(high)
      else None
  }

  function Descendants(d: seq<nat>, parent: Card): Column
    requires |d| == 52
    decreases parent.rank
  {
    match ChildOf(d, parent)
    case None => []
    case Some(c) => [c] + Descendants(d, c)
  }

  // How far the column of the initial deal is still in place.
  function KeptLen(d: seq<nat>, orig: Column, pos: nat): (m: nat)
    requires |d| == 52 && 0 < pos <= |orig|
    ensures pos <= m <= |orig|
    decreases |orig| - pos
  {
    if pos < |orig| && State(d, orig[pos]) != OPT_IN_FOUNDATION
       && State(d, orig[pos]) == CalcChildCardOption(orig[pos - 1], orig[pos])
    then KeptLen(d, orig, pos + 1)
    else pos
  }

  predicate TopKept(d: seq<nat>, orig: Column)
    requires |d| == 52
  {
    orig != [] && (State(d, orig[0]) == OPT_TOPMOST || State(d, orig[0]) == OPT_ORIG_POS)
  }

  function KeptColumn(d: seq<nat>, orig: Column): Column
    requires |d| == 52 && orig != []
  {
    var m := KeptLen(d, orig, 1);
    orig[..m] + Descendants(d, orig[m - 1])
  }

  // A column whose top card has gone takes the last of the new top cards.
  function FirstColumn(d: seq<nat>, orig: Column, tops: seq<Card>): Column
    requires |d| == 52
  {
    if TopKept(d, orig) then KeptColumn(d, orig)
    else if tops == [] then []
    else [tops[|tops| - 1]] + Descendants(d, tops[|tops| - 1])
  }

  function LeftTops(d: seq<nat>, orig: Column, tops: seq<Card>): seq<Card>
    requires |d| == 52
  {
    if TopKept(d, orig) || tops == [] then tops else tops[..|tops| - 1]
  }

  function DecodeCols(d: seq<nat>, orig: seq<Column>, tops: seq<Card>): (cols: seq<Column>)
    requires |d| == 52
    ensures |cols| == |orig|
  {
    if orig == [] then []
    else [FirstColumn(d, orig[0], tops)] + DecodeCols(d, orig[1..], LeftTops(d, orig[0], tops))
  }

  function Wrap(cards: seq<Card>): seq<Option<Card>> {
    if cards == [] then [] else Wrap(cards[..|cards| - 1]) + [Some(cards[|cards| - 1])]
  }

  function PadCells(filled: seq<Option<Card>>, n: nat): seq<Option<Card>> {
    filled + seq(if n > |filled| then n - |filled| else 0, k => None)
  }

  function Decode(init: Position, d: seq<nat>): Position
    requires |d| == 52
  {
    Position(DecodeCols(d, init.cols, NewTops(init, d)), PadCells(Wrap(FreecellCards(d)), |init.cells|), d[..4])
  }
}
