/** The bit-packed codec is exact up to the order of freecells and of columns without cards of the deal. */
module DeltaBitsRoundTrip {
  import opened Cards
  import opened Positions
  import opened Numbers
  import opened BitPacked
  import opened Arranging
  import opened DeltaBits

  lemma Appended(a: Bits, b: Bits)
    ensures (a + b)[..|a|] == a && (a + b)[|a|..] == b
  {
  }

  lemma SixBits(n: nat, width: nat)
    requires n < 64 && width == 6
    ensures FromBits(ToBits(n, width)) == n
  {
    assert Pow2(6) == 64;
    BitsRoundTrip(n, width);
  }

  lemma CardRoundTrip(c: Card)
    ensures CardOf(CharOf(c)) == Some(c) && FromBits(ToBits(CharOf(c), 6)) == CharOf(c)
  {
    SixBits(CharOf(c), 6);
  }

  // ---- Columns ----

  lemma ChildOfParent(c: Card, parent: Card)
    requires IsParent(c, parent)
    ensures ChildWith(parent, c.suit >= 2) == c
  {
  }

  lemma RunTail(last: Card, cards: seq<Card>)
    requires cards != [] && Runs([last] + cards, 0, |cards| + 1)
    ensures IsParent(cards[0], last) && Runs([cards[0]] + cards[1..], 0, |cards|)
  {
    var all, rest := [last] + cards, [cards[0]] + cards[1..];
    assert IsParent(all[1], all[0]) && all[1] == cards[0];
    forall j | 0 < j < |cards| ensures IsParent(rest[j], rest[j - 1]) {
      assert IsParent(all[j + 1], all[j]);
    }
  }

  lemma {:induction false} RunRoundTrip(last: Card, cards: seq<Card>, rest: Bits)
    requires Runs([last] + cards, 0, |cards| + 1)
    ensures DecodeRun(last, |cards|, SuitBits(cards) + rest) == Some(Parsed(cards, rest))
    decreases |cards|
  {
    if cards == [] {
      assert SuitBits(cards) + rest == rest;
    } else {
      RunTail(last, cards);
      RunRoundTrip(cards[0], cards[1..], rest);
      RunStep(last, cards[0], cards[1..], SuitBits(cards[1..]), rest);
      assert cards == [cards[0]] + cards[1..];
      assert SuitBits(cards) == [cards[0].suit >= 2] + SuitBits(cards[1..]);
    }
  }

  lemma RunStep(last: Card, c: Card, cards: seq<Card>, bits: Bits, rest: Bits)
    requires IsParent(c, last) && DecodeRun(c, |cards|, bits + rest) == Some(Parsed(cards, rest))
    ensures DecodeRun(last, |cards| + 1, ([c.suit >= 2] + bits) + rest) == Some(Parsed([c] + cards, rest))
  {
    ChildOfParent(c, last);
    assert (([c.suit >= 2] + bits) + rest)[1..] == bits + rest;
  }

  // Ranks go down along a run.
  lemma {:induction false} RunRanks(col: Column, k: nat, l: nat)
    requires k <= l < |col| && Runs(col, k, |col|)
    ensures col[l].rank + (l - k) == col[k].rank
  {
    if k < l { RunRanks(col, k, l - 1); }
  }

  lemma DerivedFewCards(col: Column)
    ensures |col| - OrigNumCards(col) <= KING
  {
    OrigIsLastBreak(col);
    var n := OrigNumCards(col);
    if n < |col| { RunRanks(col, if n > 0 then n - 1 else 0, |col| - 1); }
  }

  lemma RunAfter(orig: Column, col: Column, n: nat, rest: Bits)
    requires 0 < n < |col| && n <= |orig| && orig[n - 1] == col[n - 1] && Runs(col, n - 1, |col|)
    ensures DecodeRun(orig[n - 1], |col| - n, SuitBits(col[n..]) + rest) == Some(Parsed(col[n..], rest))
  {
    var run := [orig[n - 1]] + col[n..];
    forall j | 0 < j < |run| ensures IsParent(run[j], run[j - 1]) {
      assert run[j] == col[n - 1 + j] && run[j - 1] == col[n - 2 + j];
    }
    RunRoundTrip(orig[n - 1], col[n..], rest);
  }

  lemma KeptCardsRoundTrip(orig: Column, col: Column, n: nat, rest: Bits)
    requires 0 < n <= |col| && n <= |orig| && col[..n] == orig[..n] && Runs(col, n - 1, |col|)
    ensures DecodeCards(orig, n, |col| - n, SuitBits(col[n..]) + rest) == Some(Parsed(col, rest))
  {
    assert orig[n - 1] == orig[..n][n - 1] == col[..n][n - 1] == col[n - 1];
    assert col == orig[..n] + col[n..];
    if n == |col| {
      assert SuitBits(col[n..]) + rest == rest && orig[..n] == col;
    } else {
      RunAfter(orig, col, n, rest);
    }
  }

  lemma BaseDecodes(orig: Column, base: Bits, c: Card, cards: seq<Card>, more: Bits, rest: Bits)
    requires |base| == 6 && CardOf(FromBits(base)) == Some(c)
    requires DecodeRun(c, |cards|, more) == Some(Parsed(cards, rest))
    ensures DecodeCards(orig, 0, |cards| + 1, base + more) == Some(Parsed([c] + cards, rest))
  {
    Appended(base, more);
  }

  lemma FreeCardsRoundTrip(orig: Column, base: Bits, col: Column, rest: Bits)
    requires col != [] && OrigNumCards(col) == 0 && |base| == 6 && CardOf(FromBits(base)) == Some(col[0])
    ensures DecodeCards(orig, 0, |col|, base + (SuitBits(col[1..]) + rest)) == Some(Parsed(col, rest))
  {
    OrigIsLastBreak(col);
    assert [col[0]] + col[1..] == col;
    RunRoundTrip(col[0], col[1..], rest);
    BaseDecodes(orig, base, col[0], col[1..], SuitBits(col[1..]) + rest, rest);
  }

  lemma BaseCardsRoundTrip(orig: Column, col: Column, rest: Bits)
    requires col != [] && OrigNumCards(col) == 0
    ensures DecodeCards(orig, 0, |col|, PlacedBits(col) + rest) == Some(Parsed(col, rest))
  {
    var base := ToBits(CharOf(col[0]), 6);
    CardRoundTrip(col[0]);
    MoveBracket(base, SuitBits(col[1..]), rest);
    FreeCardsRoundTrip(orig, base, col, rest);
  }

  lemma NothingPlaced(orig: Column, rest: Bits)
    ensures DecodeCards(orig, 0, 0, PlacedBits([]) + rest) == Some(Parsed([], rest))
  {
    assert PlacedBits([]) + rest == rest;
  }

  lemma CardsRoundTrip(orig: Column, col: Column, rest: Bits)
    requires KeepsColumn(orig, col)
    ensures var n := OrigNumCards(col);
            DecodeCards(orig, n, |col| - n, PlacedBits(col) + rest) == Some(Parsed(col, rest))
  {
    if OrigNumCards(col) > 0 {
      OrigIsLastBreak(col);
      KeptCardsRoundTrip(orig, col, OrigNumCards(col), rest);
    } else if col == [] {
      NothingPlaced(orig, rest);
    } else {
      BaseCardsRoundTrip(orig, col, rest);
    }
  }

  lemma CountsDecode(width: nat, orig: Column, a: Bits, b: Bits, tail: Bits)
    requires |a| == width && |b| == 4 && FromBits(a) <= |orig|
    ensures DecodeColumn(width, orig, a + (b + tail)) == DecodeCards(orig, FromBits(a), FromBits(b), tail)
  {
    Appended(a, b + tail);
    Appended(b, tail);
  }

  lemma SmallRoundTrip(m: nat)
    requires m <= KING
    ensures FromBits(ToBits(m, 4)) == m
  {
    assert Pow2(4) == 16;
    BitsRoundTrip(m, 4);
  }

  lemma ColumnRoundTrip(width: nat, orig: Column, col: Column, rest: Bits)
    requires KeepsColumn(orig, col) && OrigNumCards(col) < Pow2(width)
    ensures DecodeColumn(width, orig, ColumnBits(width, col) + rest) == Some(Parsed(col, rest))
  {
    var n := OrigNumCards(col);
    BitsRoundTrip(n, width);
    DerivedFewCards(col);
    SmallRoundTrip(|col| - n);
    ColumnParts(width, col, rest);
    CountsDecode(width, orig, ToBits(n, width), ToBits(|col| - n, 4), PlacedBits(col) + rest);
    CardsRoundTrip(orig, col, rest);
  }

  lemma ColumnParts(width: nat, col: Column, rest: Bits)
    ensures var n := OrigNumCards(col);
            ColumnBits(width, col) + rest == ToBits(n, width) + (ToBits(|col| - n, 4) + (PlacedBits(col) + rest))
  {
    var a, b := ToBits(OrigNumCards(col), width), ToBits(|col| - OrigNumCards(col), 4);
    MoveBracket(a + b, PlacedBits(col), rest);
    MoveBracket(a, b, PlacedBits(col) + rest);
  }

  ghost predicate ColsKept(width: nat, orig: seq<Column>, cols: seq<Column>) {
    |cols| == |orig| && forall i :: 0 <= i < |cols| ==>
        KeepsColumn(orig[i], cols[i]) && OrigNumCards(cols[i]) < Pow2(width)
  }

  lemma {:induction false} ColsRoundTrip(width: nat, orig: seq<Column>, cols: seq<Column>, rest: Bits)
    requires ColsKept(width, orig, cols)
    ensures DecodeCols(width, orig, ColsBits(width, cols) + rest) == Some(Parsed(cols, rest))
  {
    if orig == [] {
      assert ColsBits(width, cols) + rest == rest;
    } else {
      var more := ColsBits(width, cols[1..]) + rest;
      assert ColsBits(width, cols) + rest == ColumnBits(width, cols[0]) + more;
      ColumnRoundTrip(width, orig[0], cols[0], more);
      ColsRoundTrip(width, orig[1..], cols[1..], rest);
      assert cols == [cols[0]] + cols[1..];
    }
  }

  // ---- Freecells ----

  lemma CellRoundTrip(x: Option<Card>)
    ensures FromBits(ToBits(CellChar(x), 6)) == CellChar(x) && CardOf(CellChar(x)) == x
  {
    if x.Some? { CardRoundTrip(x.value); } else { BitsRoundTrip(0, 6); }
  }

  lemma {:induction false} CellsRoundTrip(cells: seq<Option<Card>>, rest: Bits)
    ensures DecodeCells(|cells|, CellsBits(cells) + rest) == Some(Parsed(cells, rest))
  {
    if cells == [] {
      assert CellsBits(cells) + rest == rest;
    } else {
      var more := CellsBits(cells[1..]) + rest;
      assert CellsBits(cells) + rest == ToBits(CellChar(cells[0]), 6) + more;
      Appended(ToBits(CellChar(cells[0]), 6), more);
      CellRoundTrip(cells[0]);
      CellsRoundTrip(cells[1..], rest);
      assert cells == [cells[0]] + cells[1..];
    }
  }

  lemma CellCharsDiffer(cells: seq<Option<Card>>)
    ensures TellsApart(cells, CellChar)
  {
    forall x, y | x in cells && y in cells && CellChar(x) == CellChar(y) ensures x == y {
      CellRoundTrip(x);
      CellRoundTrip(y);
    }
  }

  // ---- Foundations ----

  lemma {:induction false} LowestInColumn(col: seq<Card>, u: Suit)
    ensures forall k :: 0 <= k < |col| && col[k].suit == u ==> LowestIn(col, u) <= col[k].rank
    ensures LowestIn(col, u) <= KING ==> Card(LowestIn(col, u), u) in col
  {
    if col == [] {
    } else {
      LowestInColumn(col[1..], u);
      forall k | 0 <= k < |col| && col[k].suit == u ensures LowestIn(col, u) <= col[k].rank {
        if k > 0 { assert col[k] == col[1..][k - 1]; }
      }
    }
  }

  lemma {:induction false} LowestInTableau(cols: seq<Column>, u: Suit)
    ensures forall i, k :: 0 <= i < |cols| && 0 <= k < |cols[i]| && cols[i][k].suit == u
                           ==> LowestInCols(cols, u) <= cols[i][k].rank
    ensures LowestInCols(cols, u) <= KING ==>
            exists i :: 0 <= i < |cols| && Card(LowestInCols(cols, u), u) in cols[i]
  {
    if cols == [] {
    } else {
      LowestInColumn(cols[0], u);
      LowestInTableau(cols[1..], u);
      forall i, k | 0 <= i < |cols| && 0 <= k < |cols[i]| && cols[i][k].suit == u
        ensures LowestInCols(cols, u) <= cols[i][k].rank
      {
        if i > 0 { assert cols[i] == cols[1..][i - 1]; }
      }
      var n := LowestInCols(cols, u);
      if n <= KING && n != LowestIn(cols[0], u) {
        var i :| 0 <= i < |cols[1..]| && Card(n, u) in cols[1..][i];
        assert cols[i + 1] == cols[1..][i];
      }
    }
  }

  lemma {:induction false} LowestInFreecells(cells: seq<Option<Card>>, u: Suit)
    ensures forall j :: 0 <= j < |cells| && cells[j].Some? && cells[j].value.suit == u
                        ==> LowestInCells(cells, u) <= cells[j].value.rank
    ensures LowestInCells(cells, u) <= KING ==> Some(Card(LowestInCells(cells, u), u)) in cells
  {
    if cells == [] {
    } else {
      LowestInFreecells(cells[1..], u);
      forall j | 0 <= j < |cells| && cells[j].Some? && cells[j].value.suit == u
        ensures LowestInCells(cells, u) <= cells[j].value.rank
      {
        if j > 0 { assert cells[j] == cells[1..][j - 1]; }
      }
    }
  }

  // The missing cards tell the foundations.
  lemma HomeIsMissing(s: Position, u: Suit)
    requires FullDeck(s)
    ensures HomeBelow(s.cols, s.cells)[u] == s.found[u]
  {
    LowestInTableau(s.cols, u);
    LowestInFreecells(s.cells, u);
    var n := Min(LowestInCells(s.cells, u), LowestInCols(s.cols, u));
    if n <= KING {
      if Some(Card(n, u)) in s.cells {
        var j :| 0 <= j < |s.cells| && s.cells[j] == Some(Card(n, u));
        CellNotHome(s, j);
      } else {
        var i :| 0 <= i < |s.cols| && Card(n, u) in s.cols[i];
        var k :| 0 <= k < |s.cols[i]| && s.cols[i][k] == Card(n, u);
        InPlayNotHome(s, i, k);
      }
    }
    if s.found[u] < KING {
      var inCell, i, k := Locate(s, Card(s.found[u] + 1, u));
      assert n <= s.found[u] + 1;
    }
  }

  // ---- Whole positions ----

  // Equal but for the order of the freecells and of the columns without cards of the deal.
  ghost predicate SamePlaces(s: Position, t: Position) {
    s.found == t.found && multiset(s.cells) == multiset(t.cells) && PlacedAlike(s.cols, t.cols)
  }

  function Written(s: Position): Position {
    Position(Arrange(s.cols), Sort(s.cells, CellChar), s.found)
  }

  lemma WrittenIsAlike(s: Position)
    requires FullDeck(s)
    ensures SamePlaces(s, Written(s)) && FullDeck(Written(s))
  {
    SameTableau(s.cols, Written(s).cols);
    var t := Written(s);
    forall c: Card ensures Copies(t, c) == if t.found[c.suit] < c.rank then 1 else 0 {
      assert Copies(t, c) == Copies(s, c);
    }
  }

  // A free column keeps nothing of the deal, so it may stand anywhere.
  lemma WrittenKept(init: Position, s: Position)
    requires KeepsDeal(init, s)
    ensures ColsKept(Width(init), init.cols, Written(s).cols)
  {
    var out := Written(s).cols;
    forall i | 0 <= i < |out| ensures KeepsColumn(init.cols[i], out[i]) && OrigNumCards(out[i]) < Pow2(Width(init)) {
      if HasOrig(out[i]) {
        assert out[i] == s.cols[i];
        assert KeepsColumn(init.cols[i], s.cols[i]);
        OrigFitsWidth(init, s, i);
      }
    }
  }

  lemma HomeOfWritten(s: Position)
    requires FullDeck(s)
    ensures HomeBelow(Written(s).cols, Written(s).cells) == s.found
  {
    WrittenIsAlike(s);
    var t := Written(s);
    forall u: Suit ensures HomeBelow(t.cols, t.cells)[u] == s.found[u] {
      HomeIsMissing(t, u);
    }
  }

  lemma PartsDecode(init: Position, cells: seq<Option<Card>>, cols: seq<Column>, rest: Bits)
    requires |cells| == |init.cells| && ColsKept(Width(init), init.cols, cols)
    ensures Decode(init, CellsBits(cells) + (ColsBits(Width(init), cols) + rest)) ==
            Some(Position(cols, cells, HomeBelow(cols, cells)))
  {
    CellsRoundTrip(cells, ColsBits(Width(init), cols) + rest);
    ColsRoundTrip(Width(init), init.cols, cols, rest);
  }

  // Decoding gives back the written position, whatever follows its bits.
  lemma RoundTrip(init: Position, s: Position, rest: Bits)
    requires KeepsDeal(init, s)
    ensures Decode(init, Encode(Width(init), s) + rest) == Some(Written(s)) && SamePlaces(s, Written(s))
  {
    WrittenIsAlike(s);
    WrittenKept(init, s);
    HomeOfWritten(s);
    var t := Written(s);
    assert |t.cells| == |multiset(t.cells)| == |multiset(s.cells)|;
    MoveBracket(CellsBits(t.cells), ColsBits(Width(init), t.cols), rest);
    PartsDecode(init, t.cells, t.cols, rest);
  }

  lemma AlikeWrittenSame(s: Position, t: Position)
    requires FullDeck(s) && SamePlaces(s, t)
    ensures Written(s) == Written(t)
  {
    CellCharsDiffer(Sort(s.cells, CellChar));
    SortedIsUnique(Sort(s.cells, CellChar), Sort(t.cells, CellChar), CellChar);
    BasesDiffer(s);
    ArrangedIsUnique(s.cols, t.cols, Arrange(s.cols), Arrange(t.cols), HasOrig, BaseChar);
  }

  // The bits are the same exactly when the positions differ only by placement.
  lemma SameBitsIffSamePlaces(init: Position, s: Position, t: Position)
    requires KeepsDeal(init, s) && KeepsDeal(init, t)
    ensures Encode(Width(init), s) == Encode(Width(init), t) <==> SamePlaces(s, t)
  {
    if SamePlaces(s, t) { AlikeWrittenSame(s, t); }
    if Encode(Width(init), s) == Encode(Width(init), t) {
      RoundTrip(init, s, []);
      RoundTrip(init, t, []);
      PlacesMeet(s, t, Written(s));
    }
  }

  lemma PlacesMeet(s: Position, t: Position, w: Position)
    requires SamePlaces(s, w) && SamePlaces(t, w)
    ensures SamePlaces(s, t)
  {
  }

  // ---- The bits fit the buffer ----

  ghost function CardCount(cols: seq<Column>): nat {
    if cols == [] then 0 else |cols[0]| + CardCount(cols[1..])
  }

  lemma ColumnLength(width: nat, col: Column)
    ensures |ColumnBits(width, col)| <= width + 9 + |col|
  {
  }

  lemma {:induction false} ColsLength(width: nat, cols: seq<Column>)
    ensures |ColsBits(width, cols)| <= CardCount(cols) + Times(|cols|, width + 9)
  {
    if cols == [] {
    } else {
      ColsLength(width, cols[1..]);
      ColumnLength(width, cols[0]);
    }
  }

  function Times(n: nat, m: nat): nat {
    if n == 0 then 0 else m + Times(n - 1, m)
  }

  lemma {:induction false} TimesMonotone(n: nat, k: nat, m: nat, l: nat)
    requires n <= k && m <= l
    ensures Times(n, m) <= Times(k, l)
    decreases k
  {
    if n == 0 {
    } else {
      TimesMonotone(n - 1, k - 1, m, l);
    }
  }

  lemma {:induction false} CellsLength(cells: seq<Option<Card>>)
    ensures |CellsBits(cells)| == 6 * |cells|
  {
    if cells == [] {
    } else {
      CellsLength(cells[1..]);
    }
  }

  lemma {:induction false} CountIsSize(cols: seq<Column>)
    ensures CardCount(cols) == |Tableau(cols)|
  {
    if cols == [] {
    } else {
      CountIsSize(cols[1..]);
    }
  }

  // The length byte and the bits of a FreeCell position fit the 24 bytes of a record's key:
  // four freecells, eight columns, and at most seven cards of the deal in a column.
  lemma BitsFitBuffer(init: Position, s: Position)
    requires FullDeck(init) && KeepsDeal(init, s) && |init.cells| <= 4 && |init.cols| <= 8
    requires forall i :: 0 <= i < |init.cols| ==> |init.cols[i]| <= 7
    ensures |Encode(Width(init), s)| <= 8 * 23
  {
    WidthAtMost(init);
    BitsAtMost(Width(init), s);
  }

  lemma BitsAtMost(width: nat, s: Position)
    requires FullDeck(s) && width <= 3 && |s.cells| <= 4 && |s.cols| <= 8
    ensures |Encode(width, s)| <= 8 * 23
  {
    WrittenIsAlike(s);
    var t := Written(s);
    assert |t.cells| == |multiset(t.cells)| == |multiset(s.cells)|;
    EncodedLength(width, s, t);
    EightColumns(|t.cols|, width);
  }

  lemma EncodedLength(width: nat, s: Position, t: Position)
    requires t == Written(s) && FullDeck(t)
    ensures |Encode(width, s)| <= 6 * |t.cells| + 52 + Times(|t.cols|, width + 9)
  {
    CellsLength(t.cells);
    ColsLength(width, t.cols);
    CountIsSize(t.cols);
    TableauFitsDeck(t);
    JoinedLength(CellsBits(t.cells), ColsBits(width, t.cols));
  }

  lemma JoinedLength(a: Bits, b: Bits)
    ensures |a + b| == |a| + |b|
  {
  }

  lemma EightColumns(n: nat, width: nat)
    requires n <= 8 && width <= 3
    ensures Times(n, width + 9) <= 96
  {
    TimesMonotone(n, 8, width + 9, 12);
    assert Times(8, 12) == 96;
  }

  lemma {:induction false} MaxOrigBound(cols: seq<Column>, bound: nat)
    requires forall i :: 0 <= i < |cols| ==> |cols[i]| <= bound
    ensures MaxOrig(cols) <= bound
  {
    if cols == [] {
    } else {
      MaxOrigBound(cols[1..], bound);
    }
  }

  lemma WidthAtMost(init: Position)
    requires forall i :: 0 <= i < |init.cols| ==> |init.cols[i]| <= 7
    ensures Width(init) <= 3
  {
    MaxOrigBound(init.cols, 7);
    var n := MaxOrig(init.cols);
    assert BitsFor(n) <= 1 + BitsFor(n / 2) <= 2 + BitsFor(n / 2 / 2);
  }
}
