/**
 The layout of the Debondt codec, card by card: which digit stands for which card and what it says, and
 where decoding puts the cards that have left their places in the deal.
 */
module DebondtLayout {
  import opened Cards
  import opened Positions
  import opened Debondt
  import opened DebondtRoundTrip

  // ---- The digits ----

  ghost predicate IsBottom(s: Position, c: Card) {
    exists i :: 0 <= i < |s.cols| && s.cols[i] != [] && s.cols[i][0] == c
  }

  ghost predicate LiesOn(s: Position, c: Card, p: Card) {
    exists i, k :: 0 <= i < |s.cols| && 0 < k < |s.cols[i]| && s.cols[i][k] == c && s.cols[i][k - 1] == p
  }

  // The foundations come first, then the cards from rank two on, suit by suit. A digit is 0 for a card
  // that is home or at the bottom of a column, 1 in a freecell, 2 on a card that is not its parent, and 3
  // or 4 on one of its two parents.
  lemma DigitOf(s: Position, c: Card)
    requires FullDeck(s) && c.rank >= 2
    ensures |Digits(s)| == 52 && Digits(s)[..4] == s.found
    ensures var digit := Digits(s)[4 * (c.rank - 1) + c.suit];
            && (digit == 0 <==> c.rank <= s.found[c.suit] || IsBottom(s, c))
            && (digit == 1 <==> Some(c) in s.cells)
            && (digit == 2 <==> exists p :: LiesOn(s, c, p) && !IsParent(c, p))
            && (digit == 3 <==> exists p :: LiesOn(s, c, p) && IsParent(c, p) && p.suit < 2)
            && (digit == 4 <==> exists p :: LiesOn(s, c, p) && IsParent(c, p) && p.suit >= 2)
  {
    assert Digits(s)[4 + IndexOf(c)] == Opt(s, CardAt(IndexOf(c)));
    HomeDigit(s, c);
    LiesOnDigit(s, c);
  }

  lemma HomeDigit(s: Position, c: Card)
    requires FullDeck(s) && c.rank >= 2
    ensures c.rank <= s.found[c.suit] || IsBottom(s, c) ==> Opt(s, c) == 0
    ensures Some(c) in s.cells ==> Opt(s, c) == 1
    ensures Opt(s, c) == 0 ==> c.rank <= s.found[c.suit] || IsBottom(s, c)
    ensures Opt(s, c) == 1 ==> Some(c) in s.cells
  {
    if c.rank <= s.found[c.suit] || IsBottom(s, c) { OptUnique(s, c, 0) by { BottomHasOpt(s, c); } }
    if Some(c) in s.cells { OptUnique(s, c, 1); }
  }

  lemma BottomHasOpt(s: Position, c: Card)
    requires FullDeck(s) && (c.rank <= s.found[c.suit] || IsBottom(s, c))
    ensures HasOpt(s, c, 0)
  {
    if IsBottom(s, c) {
      var i :| 0 <= i < |s.cols| && s.cols[i] != [] && s.cols[i][0] == c;
      assert ColumnOpt(s.cols[i], 0) == 0;
    }
  }

  // What the digit says of a card that lies on p.
  function OnDigit(c: Card, p: Card): nat {
    if !IsParent(c, p) then 2 else if p.suit < 2 then 3 else 4
  }

  lemma LiesOnDigit(s: Position, c: Card)
    requires FullDeck(s) && c.rank >= 2
    ensures forall p :: LiesOn(s, c, p) ==> Opt(s, c) == OnDigit(c, p)
    ensures 2 <= Opt(s, c) ==> exists p :: LiesOn(s, c, p) && Opt(s, c) == OnDigit(c, p)
  {
    forall p | LiesOn(s, c, p) ensures Opt(s, c) == OnDigit(c, p) {
      var i, k :| 0 <= i < |s.cols| && 0 < k < |s.cols[i]| && s.cols[i][k] == c && s.cols[i][k - 1] == p;
      assert OnDigit(c, p) == ColumnOpt(s.cols[i], k);
      OptUnique(s, c, OnDigit(c, p));
    }
    if 2 <= Opt(s, c) {
      var o := Opt(s, c);
      assert HasOpt(s, c, o);
      var i, k :| 0 <= i < |s.cols| && 0 <= k < |s.cols[i]| && s.cols[i][k] == c && o == ColumnOpt(s.cols[i], k);
      assert LiesOn(s, c, s.cols[i][k - 1]);
    }
  }

  // ---- Where decoding puts the cards ----

  predicate Ascending(cards: seq<Card>) {
    forall a, b :: 0 <= a < b < |cards| ==> Lower(cards[a], cards[b])
  }

  lemma {:induction false} PickAscends(n: nat, wanted: Card -> bool)
    requires n <= 48
    ensures Ascending(Pick(n, wanted))
    ensures forall k :: 0 <= k < |Pick(n, wanted)| ==> n < 48 ==> Lower(Pick(n, wanted)[k], CardAt(n))
  {
    if n == 0 {
    } else {
      PickAscends(n - 1, wanted);
      assert n < 48 ==> Lower(CardAt(n - 1), CardAt(n));
    }
  }

  lemma {:induction false} WrapAt(cards: seq<Card>)
    ensures |Wrap(cards)| == |cards| && forall k :: 0 <= k < |cards| ==> Wrap(cards)[k] == Some(cards[k])
  {
    if cards != [] { WrapAt(cards[..|cards| - 1]); }
  }

  lemma {:induction false} KeptStays(d: seq<nat>, orig: seq<Column>, tops: seq<Card>, i: nat)
    requires |d| == 52 && i < |orig| && TopKept(d, orig[i])
    ensures DecodeCols(d, orig, tops)[i] != [] && DecodeCols(d, orig, tops)[i][0] == orig[i][0]
  {
    if i == 0 {
    } else {
      KeptStays(d, orig[1..], LeftTops(d, orig[0], tops), i - 1);
    }
  }

  // The columns that are free are filled from the first one on, the highest card first.
  ghost predicate FilledDownwards(cols: seq<Column>, free: nat -> bool) {
    forall i: nat, j: nat :: i < j < |cols| && free(i) && free(j) && cols[j] != [] ==>
      cols[i] != [] && Lower(cols[j][0], cols[i][0])
  }

  // The freecells are filled from the first one on, the lowest card first.
  predicate FilledUpwards(cells: seq<Option<Card>>) {
    forall j, k :: 0 <= j < k < |cells| && cells[k].Some? ==> cells[j].Some? && Lower(cells[j].value, cells[k].value)
  }

  function HasLeft(d: seq<nat>, orig: seq<Column>): nat -> bool
    requires |d| == 52
  {
    (i: nat) => i < |orig| && !TopKept(d, orig[i])
  }

  ghost predicate FilledFrom(d: seq<nat>, orig: seq<Column>, tops: seq<Card>, cols: seq<Column>)
    requires |d| == 52
  {
    && |cols| == |orig| && FilledDownwards(cols, HasLeft(d, orig))
    && forall i :: 0 <= i < |orig| && !TopKept(d, orig[i]) && cols[i] != [] ==> cols[i][0] in tops
  }

  lemma {:induction false} TopsPlaced(d: seq<nat>, orig: seq<Column>, tops: seq<Card>)
    requires |d| == 52 && Ascending(tops)
    ensures FilledFrom(d, orig, tops, DecodeCols(d, orig, tops))
  {
    if orig != [] {
      TopsPlaced(d, orig[1..], LeftTops(d, orig[0], tops));
      FirstPlaced(d, orig, tops, FirstColumn(d, orig[0], tops), DecodeCols(d, orig[1..], LeftTops(d, orig[0], tops)));
    }
  }

  lemma FirstPlaced(d: seq<nat>, orig: seq<Column>, tops: seq<Card>, first: Column, rest: seq<Column>)
    requires |d| == 52 && Ascending(tops) && orig != [] && first == FirstColumn(d, orig[0], tops)
    requires FilledFrom(d, orig[1..], LeftTops(d, orig[0], tops), rest)
    ensures FilledFrom(d, orig, tops, [first] + rest)
  {
    var cols := [first] + rest;
    forall i: nat, j: nat | i < j < |cols| && HasLeft(d, orig)(i) && HasLeft(d, orig)(j) && cols[j] != []
      ensures cols[i] != [] && Lower(cols[j][0], cols[i][0])
    {
      FirstIsHighest(d, orig, tops, first, rest, i, j);
    }
    forall i | 0 <= i < |orig| && !TopKept(d, orig[i]) && cols[i] != [] ensures cols[i][0] in tops {
      if i > 0 { assert cols[i] == rest[i - 1] && orig[i] == orig[1..][i - 1]; }
    }
  }

  lemma FirstIsHighest(d: seq<nat>, orig: seq<Column>, tops: seq<Card>, first: Column, rest: seq<Column>, i: nat,
                       j: nat)
    requires |d| == 52 && Ascending(tops) && orig != [] && first == FirstColumn(d, orig[0], tops)
    requires FilledFrom(d, orig[1..], LeftTops(d, orig[0], tops), rest) && i < j < |orig|
    requires !TopKept(d, orig[i]) && !TopKept(d, orig[j]) && rest[j - 1] != []
    ensures ([first] + rest)[i] != [] && Lower(rest[j - 1][0], ([first] + rest)[i][0])
  {
    assert orig[j] == orig[1..][j - 1];
    if i > 0 {
      assert HasLeft(d, orig[1..])(i - 1) && HasLeft(d, orig[1..])(j - 1);
    } else {
      HighestFirst(d, orig[0], tops, rest[j - 1][0]);
    }
  }

  lemma HighestFirst(d: seq<nat>, orig: Column, tops: seq<Card>, c: Card)
    requires |d| == 52 && Ascending(tops) && !TopKept(d, orig) && c in LeftTops(d, orig, tops)
    ensures FirstColumn(d, orig, tops) != [] && Lower(c, FirstColumn(d, orig, tops)[0])
  {
    var k :| 0 <= k < |LeftTops(d, orig, tops)| && LeftTops(d, orig, tops)[k] == c;
    assert tops[k] == c;
  }

  // The column has not kept the card it started with in the deal.
  function HasNewBottom(init: Position, t: Position): nat -> bool {
    (i: nat) =>
      i < |init.cols| == |t.cols| && (init.cols[i] == [] || t.cols[i] == [] || t.cols[i][0] != init.cols[i][0])
  }

  // Each column whose first card in the deal still is at the bottom of one starts with it.
  ghost predicate IsLaidOut(init: Position, s: Position, t: Position) {
    && |t.cols| == |init.cols| && FilledDownwards(t.cols, HasNewBottom(init, t))
    && (forall i :: 0 <= i < |init.cols| && init.cols[i] != [] && IsBottom(s, init.cols[i][0]) ==>
          t.cols[i] != [] && t.cols[i][0] == init.cols[i][0])
    && FilledUpwards(t.cells)
  }

  lemma DecodedPlaces(init: Position, s: Position)
    requires Descends(init, s)
    ensures IsLaidOut(init, s, Decode(init, Digits(s)))
  {
    forall i: nat | i < |init.cols| && init.cols[i] != [] && IsBottom(s, init.cols[i][0])
      ensures TopKept(Digits(s), init.cols[i])
    {
      BottomKept(init, s, i);
    }
    LaidOutBy(init, s, Digits(s));
  }

  lemma BottomKept(init: Position, s: Position, i: nat)
    requires FullDeck(s) && i < |init.cols| && init.cols[i] != [] && IsBottom(s, init.cols[i][0])
    ensures TopKept(Digits(s), init.cols[i])
  {
    var k :| 0 <= k < |s.cols| && s.cols[k] != [] && s.cols[k][0] == init.cols[i][0];
    StateInColumn(s, k, 0);
  }

  lemma LaidOutBy(init: Position, s: Position, d: seq<nat>)
    requires |d| == 52
    requires forall i :: 0 <= i < |init.cols| && init.cols[i] != [] && IsBottom(s, init.cols[i][0]) ==>
               TopKept(d, init.cols[i])
    ensures IsLaidOut(init, s, Decode(init, d))
  {
    CellsAscend(init, d);
    ColumnsPlaced(init, d);
  }

  lemma ColumnsPlaced(init: Position, d: seq<nat>)
    requires |d| == 52
    ensures var t := Decode(init, d);
            && |t.cols| == |init.cols| && FilledDownwards(t.cols, HasNewBottom(init, t))
            && forall i :: 0 <= i < |init.cols| && TopKept(d, init.cols[i]) ==>
                 t.cols[i] != [] && t.cols[i][0] == init.cols[i][0]
  {
    var t := Decode(init, d);
    PickAscends(|d| - 4, IsNewTop(init, d));
    TopsPlaced(d, init.cols, NewTops(init, d));
    forall i: nat | i < |init.cols| && TopKept(d, init.cols[i])
      ensures t.cols[i] != [] && t.cols[i][0] == init.cols[i][0]
    {
      KeptStays(d, init.cols, NewTops(init, d), i);
    }
    forall i: nat, j: nat |
      i < j < |t.cols| && HasNewBottom(init, t)(i) && HasNewBottom(init, t)(j) && t.cols[j] != []
      ensures t.cols[i] != [] && Lower(t.cols[j][0], t.cols[i][0])
    {
      assert HasLeft(d, init.cols)(i) && HasLeft(d, init.cols)(j);
    }
  }

  lemma CellsAscend(init: Position, d: seq<nat>)
    requires |d| == 52
    ensures FilledUpwards(Decode(init, d).cells)
  {
    PickAscends(|d| - 4, IsFreecellCard(d));
    PaddedAscends(FreecellCards(d), |init.cells|);
  }

  lemma PaddedAscends(cards: seq<Card>, n: nat)
    requires Ascending(cards)
    ensures FilledUpwards(PadCells(Wrap(cards), n))
  {
    WrapAt(cards);
  }
}
