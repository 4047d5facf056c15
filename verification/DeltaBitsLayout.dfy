/**
 The layout of the bit-packed codec, bit by bit: what the bits of a column say, where they are, and in
 which order freecells and columns are written.
 */
module DeltaBitsLayout {
  import opened Cards
  import opened Positions
  import opened Numbers
  import opened BitPacked
  import opened Arranging
  import opened DeltaBits
  import opened DeltaBitsRoundTrip

  ghost predicate IsPart(bits: Bits, at: nat, part: Bits) {
    at + |part| <= |bits| && bits[at..at + |part|] == part
  }

  // The number in some of the bits.
  ghost predicate NumberAt(bits: Bits, at: nat, width: nat, number: nat) {
    at + width <= |bits| && FromBits(bits[at..at + width]) == number
  }

  lemma PartEarlier(a: Bits, b: Bits, at: nat, part: Bits)
    requires IsPart(a, at, part)
    ensures IsPart(a + b, at, part)
  {
    assert (a + b)[at..at + |part|] == a[at..at + |part|];
  }

  lemma PartLater(a: Bits, b: Bits, at: nat, part: Bits)
    requires IsPart(b, at, part)
    ensures IsPart(a + b, |a| + at, part)
  {
    assert (a + b)[|a| + at..|a| + at + |part|] == b[at..at + |part|];
  }

  lemma PartIsNumber(bits: Bits, at: nat, n: nat, width: nat)
    requires IsPart(bits, at, ToBits(n, width)) && n < Pow2(width)
    ensures NumberAt(bits, at, width, n)
  {
    BitsRoundTrip(n, width);
  }

  lemma {:induction false} SuitBitsAt(cards: seq<Card>, k: nat)
    requires k < |cards|
    ensures SuitBits(cards)[k] == (cards[k].suit >= 2)
  {
    if k > 0 { SuitBitsAt(cards[1..], k - 1); }
  }

  // The first n cards are those of the deal: the last of them lies on no parent, and each later card does.
  ghost predicate StartsWithDeal(col: Column, n: nat) {
    && n <= |col| && n != 1 && (n > 0 ==> !IsParent(col[n - 1], col[n - 2]))
    && forall k :: 0 < k < |col| && n <= k ==> IsParent(col[k], col[k - 1])
  }

  // The bits from `at` on say of the cards from the n-th on whether they are of the two higher suits.
  ghost predicate SuitsFrom(bits: Bits, at: nat, col: Column, n: nat) {
    n <= |col| && |bits| == at + |col| - n && forall k :: n <= k < |col| ==> bits[at + k - n] == (col[k].suit >= 2)
  }

  lemma SuitsAtEnd(before: Bits, col: Column, n: nat)
    requires n <= |col|
    ensures SuitsFrom(before + SuitBits(col[n..]), |before|, col, n)
  {
    forall k | n <= k < |col| ensures SuitBits(col[n..])[k - n] == (col[k].suit >= 2) { SuitBitsAt(col[n..], k - n); }
  }

  // How many cards are of the deal, how many are not, the bottom card if none is of the deal, and for each
  // further card whether it is one of the two higher suits.
  ghost predicate IsColumn(width: nat, col: Column, n: nat, bits: Bits) {
    && StartsWithDeal(col, n) && NumberAt(bits, 0, width, n) && NumberAt(bits, width, 4, |col| - n)
    && if n == 0 && col != [] then
         NumberAt(bits, width + 4, 6, 4 * col[0].rank + col[0].suit) && SuitsFrom(bits, width + 10, col, 1)
       else
         SuitsFrom(bits, width + 4, col, n)
  }

  lemma ColumnLayout(width: nat, col: Column)
    requires OrigNumCards(col) < Pow2(width)
    ensures IsColumn(width, col, OrigNumCards(col), ColumnBits(width, col))
  {
    var n := OrigNumCards(col);
    DerivedFewCards(col);
    CountsAt(width, n, |col| - n, PlacedBits(col));
    PlacedAfter(width, col, n, ToBits(n, width) + ToBits(|col| - n, 4));
  }

  lemma PlacedAfter(width: nat, col: Column, n: nat, counts: Bits)
    requires n == OrigNumCards(col) && |counts| == width + 4
    requires NumberAt(counts + PlacedBits(col), 0, width, n) && NumberAt(counts + PlacedBits(col), width, 4, |col| - n)
    ensures IsColumn(width, col, n, counts + PlacedBits(col))
  {
    OrigIsLastBreak(col);
    if n == 0 && col != [] { BottomAt(width, counts, col); } else { SuitsAtEnd(counts, col, n); }
  }

  lemma CountsAt(width: nat, n: nat, m: nat, rest: Bits)
    requires n < Pow2(width) && m <= KING
    ensures NumberAt(ToBits(n, width) + ToBits(m, 4) + rest, 0, width, n)
    ensures NumberAt(ToBits(n, width) + ToBits(m, 4) + rest, width, 4, m)
  {
    var a, b := ToBits(n, width), ToBits(m, 4);
    assert IsPart(a + b + rest, 0, a) && IsPart(a + b + rest, |a|, b);
    assert Pow2(4) == 16;
    PartIsNumber(a + b + rest, 0, n, width);
    PartIsNumber(a + b + rest, width, m, 4);
  }

  lemma BottomAt(width: nat, counts: Bits, col: Column)
    requires |counts| == width + 4 && col != []
    ensures var bits := counts + (ToBits(CharOf(col[0]), 6) + SuitBits(col[1..]));
            NumberAt(bits, width + 4, 6, 4 * col[0].rank + col[0].suit) && SuitsFrom(bits, width + 10, col, 1)
  {
    var c, d := ToBits(CharOf(col[0]), 6), SuitBits(col[1..]);
    assert counts + (c + d) == (counts + c) + d;
    assert IsPart(counts + (c + d), width + 4, c);
    assert Pow2(6) == 64;
    PartIsNumber(counts + (c + d), width + 4, CharOf(col[0]), 6);
    SuitsAtEnd(counts + c, col, 1);
  }

  lemma {:induction false} BitsForIsLeast(n: nat)
    ensures n < Pow2(BitsFor(n)) && (BitsFor(n) > 0 ==> Pow2(BitsFor(n) - 1) <= n)
  {
    if n > 1 { BitsForIsLeast(n / 2); }
  }

  lemma {:induction false} MaxOrigIsTaken(cols: seq<Column>)
    ensures MaxOrig(cols) > 0 ==> exists i :: 0 <= i < |cols| && OrigNumCards(cols[i]) == MaxOrig(cols)
  {
    if cols != [] && MaxOrig(cols) > 0 {
      if OrigNumCards(cols[0]) == MaxOrig(cols) { return; }
      MaxOrigIsTaken(cols[1..]);
      var i :| 0 <= i < |cols[1..]| && OrigNumCards(cols[1..][i]) == MaxOrig(cols[1..]);
      assert cols[i + 1] == cols[1..][i];
    }
  }

  // The width is the least one that holds the count of every column of the deal.
  lemma WidthIsLeast(init: Position)
    ensures forall i :: 0 <= i < |init.cols| ==> OrigNumCards(init.cols[i]) < Pow2(Width(init))
    ensures Width(init) > 0 ==>
              exists i :: 0 <= i < |init.cols| && Pow2(Width(init) - 1) <= OrigNumCards(init.cols[i])
  {
    var n := MaxOrig(init.cols);
    BitsForIsLeast(n);
    MaxOrigIsTaken(init.cols);
    forall i | 0 <= i < |init.cols| ensures OrigNumCards(init.cols[i]) < Pow2(Width(init)) {
      MaxOrigIsMax(init.cols, i);
    }
    if n == 0 { assert BitsFor(n) == 0; }
  }

  // ---- The whole position ----

  // Six bits for a freecell; zero stands for a vacant one.
  function CellNumber(x: Option<Card>): (n: nat)
    ensures n < 64
  {
    match x
    case None => 0
    case Some(c) => 4 * c.rank + c.suit
  }

  lemma {:induction false} CellBitsAt(cells: seq<Option<Card>>, j: nat, width: nat)
    requires j < |cells| && width == 6
    ensures IsPart(CellsBits(cells), 6 * j, ToBits(CellNumber(cells[j]), width))
  {
    var first, rest := ToBits(CellChar(cells[0]), width), CellsBits(cells[1..]);
    if j == 0 {
      FirstPart(first, rest);
    } else {
      CellBitsAt(cells[1..], j - 1, width);
      PartLater(first, rest, 6 * (j - 1), ToBits(CellNumber(cells[j]), width));
    }
  }

  // ---- Runs of bits one after the other ----

  function Joined(parts: seq<Bits>): Bits {
    if parts == [] then [] else parts[0] + Joined(parts[1..])
  }

  // Where part i starts.
  function StartOf(parts: seq<Bits>, i: nat): nat
    requires i <= |parts|
  {
    if i == 0 then 0 else |parts[0]| + StartOf(parts[1..], i - 1)
  }

  lemma {:induction false} PartIn(parts: seq<Bits>, i: nat)
    requires i < |parts|
    ensures IsPart(Joined(parts), StartOf(parts, i), parts[i])
  {
    if i == 0 {
      FirstPart(parts[0], Joined(parts[1..]));
    } else {
      PartIn(parts[1..], i - 1);
      PartLater(parts[0], Joined(parts[1..]), StartOf(parts[1..], i - 1), parts[i]);
    }
  }

  // The bits of each column.
  function ColumnParts(width: nat, cols: seq<Column>): (parts: seq<Bits>)
    ensures |parts| == |cols|
  {
    if cols == [] then [] else [ColumnBits(width, cols[0])] + ColumnParts(width, cols[1..])
  }

  lemma {:induction false} ColumnPartsAre(width: nat, cols: seq<Column>)
    ensures Joined(ColumnParts(width, cols)) == ColsBits(width, cols)
  {
    if cols != [] {
      ColumnPartsAre(width, cols[1..]);
      assert ColumnParts(width, cols)[1..] == ColumnParts(width, cols[1..]);
    }
  }

  lemma {:induction false} ColumnPartAt(width: nat, cols: seq<Column>, i: nat)
    requires i < |cols|
    ensures ColumnParts(width, cols)[i] == ColumnBits(width, cols[i])
  {
    if i > 0 { ColumnPartAt(width, cols[1..], i - 1); }
  }

  lemma FirstPart(a: Bits, b: Bits)
    ensures IsPart(a + b, 0, a)
  {
  }

  predicate CellWritten(cells: seq<Option<Card>>, j: nat, bits: Bits)
    requires j < |cells|
  {
    6 * j + 6 <= |bits| && FromBits(bits[6 * j..6 * j + 6]) == CellNumber(cells[j])
  }

  ghost predicate ColumnWritten(width: nat, before: nat, cols: seq<Column>, i: nat, bits: Bits)
    requires i < |cols|
  {
    IsPart(bits, before + StartOf(ColumnParts(width, cols), i), ColumnBits(width, cols[i]))
  }

  // The freecells are written first, then the columns one after the other.
  ghost predicate IsWritten(width: nat, cells: seq<Option<Card>>, cols: seq<Column>, bits: Bits) {
    && (forall j {:trigger CellWritten(cells, j, bits)} :: 0 <= j < |cells| ==> CellWritten(cells, j, bits))
    && forall i {:trigger ColumnWritten(width, 6 * |cells|, cols, i, bits)} :: 0 <= i < |cols| ==>
         ColumnWritten(width, 6 * |cells|, cols, i, bits)
  }

  lemma EncodedLayout(width: nat, s: Position)
    ensures IsWritten(width, Written(s).cells, Written(s).cols, Encode(width, s))
  {
    var cells, cols := Written(s).cells, Written(s).cols;
    CellsLength(cells);
    PartsAt(width, cells, cols, CellsBits(cells), ColsBits(width, cols));
  }

  lemma PartsAt(width: nat, cells: seq<Option<Card>>, cols: seq<Column>, a: Bits, b: Bits)
    requires a == CellsBits(cells) && b == ColsBits(width, cols) && |a| == 6 * |cells|
    ensures IsWritten(width, cells, cols, a + b)
  {
    forall j {:trigger CellWritten(cells, j, a + b)} | 0 <= j < |cells| ensures CellWritten(cells, j, a + b) {
      CellAt(cells, j, b);
    }
    forall i {:trigger ColumnWritten(width, |a|, cols, i, a + b)} | 0 <= i < |cols|
      ensures ColumnWritten(width, |a|, cols, i, a + b)
    {
      ColumnAt(width, cols, i, a);
    }
  }

  lemma ColumnAt(width: nat, cols: seq<Column>, i: nat, before: Bits)
    requires i < |cols|
    ensures ColumnWritten(width, |before|, cols, i, before + ColsBits(width, cols))
  {
    ColumnPartsAre(width, cols);
    ColumnPartAt(width, cols, i);
    PartAfter(before, ColumnParts(width, cols), i, ColumnBits(width, cols[i]));
  }

  lemma PartAfter(before: Bits, parts: seq<Bits>, i: nat, part: Bits)
    requires i < |parts| && parts[i] == part
    ensures IsPart(before + Joined(parts), |before| + StartOf(parts, i), part)
  {
    PartIn(parts, i);
    PartLater(before, Joined(parts), StartOf(parts, i), part);
  }

  lemma CellAt(cells: seq<Option<Card>>, j: nat, rest: Bits)
    requires j < |cells|
    ensures CellWritten(cells, j, CellsBits(cells) + rest)
  {
    CellNumberAt(cells, j, rest, 6);
  }

  lemma CellNumberAt(cells: seq<Option<Card>>, j: nat, rest: Bits, width: nat)
    requires j < |cells| && width == 6
    ensures NumberAt(CellsBits(cells) + rest, 6 * j, width, CellNumber(cells[j]))
  {
    CellBitsAt(cells, j, width);
    SixAt(CellsBits(cells), rest, 6 * j, CellNumber(cells[j]), width);
  }

  lemma SixAt(a: Bits, b: Bits, at: nat, n: nat, width: nat)
    requires IsPart(a, at, ToBits(n, width)) && n < 64 && width == 6
    ensures NumberAt(a + b, at, width, n)
  {
    PartEarlier(a, b, at, ToBits(n, width));
    assert Pow2(6) == 64;
    PartIsNumber(a + b, at, n, width);
  }

  // Vacant freecells come first and then the cards from the lowest rank and suit on.
  ghost predicate CellsAscend(cells: seq<Option<Card>>) {
    forall j, k :: 0 <= j < k < |cells| && cells[j].Some? ==>
      cells[k].Some? && !Lower(cells[k].value, cells[j].value)
  }

  // Of the columns without cards of the deal come the empty ones first, and then the rest by bottom card.
  ghost predicate NewColumnsAscend(cols: seq<Column>) {
    forall i, k :: 0 <= i < k < |cols| && StartsWithDeal(cols[i], 0) && StartsWithDeal(cols[k], 0) && cols[i] != [] ==>
      cols[k] != [] && !Lower(cols[k][0], cols[i][0])
  }

  // Columns that start with cards of the deal stay; the others and the freecells are sorted.
  lemma WrittenOrder(s: Position)
    ensures var t := Written(s);
            && multiset(t.cells) == multiset(s.cells) && CellsAscend(t.cells)
            && multiset(t.cols) == multiset(s.cols) && NewColumnsAscend(t.cols)
            && |t.cols| == |s.cols|
            && forall i :: 0 <= i < |s.cols| && !StartsWithDeal(s.cols[i], 0) ==> t.cols[i] == s.cols[i]
  {
    SortedAscend(Sort(s.cells, CellChar));
    ArrangedAscend(s.cols, Arrange(s.cols));
  }

  lemma SortedAscend(cells: seq<Option<Card>>)
    requires IsSorted(cells, CellChar)
    ensures CellsAscend(cells)
  {
    forall j, k | 0 <= j < k < |cells| && cells[j].Some?
      ensures cells[k].Some? && !Lower(cells[k].value, cells[j].value)
    {
      assert CellChar(cells[j]) <= CellChar(cells[k]);
    }
  }

  lemma ArrangedAscend(cols: seq<Column>, out: seq<Column>)
    requires IsArranged(cols, out, HasOrig, BaseChar)
    ensures NewColumnsAscend(out) && |out| == |cols| && multiset(out) == multiset(cols)
    ensures forall i :: 0 <= i < |cols| && !StartsWithDeal(cols[i], 0) ==> out[i] == cols[i]
  {
    forall i | 0 <= i < |cols| ensures HasOrig(cols[i]) <==> !StartsWithDeal(cols[i], 0) { OrigIsLastBreak(cols[i]); }
    forall i, k |
      0 <= i < k < |out| && StartsWithDeal(out[i], 0) && StartsWithDeal(out[k], 0) && out[i] != []
      ensures out[k] != [] && !Lower(out[k][0], out[i][0])
    {
      OrigIsLastBreak(out[i]);
      OrigIsLastBreak(out[k]);
      assert BaseChar(out[i]) <= BaseChar(out[k]);
    }
  }
}
