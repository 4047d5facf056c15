/** The encoder and decoder of the bit-packed codec. */
module BitStater {
  import opened Cards
  import opened Positions
  import opened Shuffles
  import opened Boards
  import opened Numbers
  import opened BitPacked
  import opened Arranging
  import opened DeltaBits
  import opened DeltaBitsRoundTrip

  datatype ColType = Empty | EntirelyNonOrig | HasOrigCards

  function TypeOf(col: Column): ColType {
    if col == [] then Empty else if HasOrig(col) then HasOrigCards else EntirelyNonOrig
  }

  // ---- Initialisation ----

  method GetColumnOrigNumCards(col: Column) returns (numCards: nat)
    ensures numCards == OrigNumCards(col)
  {
    numCards := |col|;
    assert col[..numCards] == col;
    while numCards >= 2
      invariant numCards <= |col| && OrigNumCards(col) == OrigNumCards(col[..numCards])
    {
      if !IsParent(col[numCards - 1], col[numCards - 2]) { return; }
      assert col[..numCards][..numCards - 1] == col[..numCards - 1];
      numCards := numCards - 1;
    }
    numCards := 0;
  }

  lemma {:induction false} LeastWidth(n: nat, width: nat)
    requires n < Pow2(width) && (width > 0 ==> Pow2(width - 1) <= n)
    ensures width == BitsFor(n)
  {
    if width > 1 {
      LeastWidth(n / 2, width - 1);
    }
  }

  lemma {:induction false} MaxOrigPrefix(cols: seq<Column>, i: nat)
    requires i < |cols|
    ensures MaxOrig(cols[..i + 1]) ==
            var n, m := OrigNumCards(cols[i]), MaxOrig(cols[..i]); if n > m then n else m
  {
    assert cols[..i + 1][0] == cols[0] && cols[..i + 1][1..] == cols[1..][..i];
    if i > 0 {
      MaxOrigPrefix(cols[1..], i - 1);
      assert cols[..i][0] == cols[0] && cols[..i][1..] == cols[1..][..i - 1];
    }
  }

  // ---- Columns ----

  lemma OneSuitBit(c: Card)
    ensures ToBits(if c.suit >= 2 then 1 else 0, 1) == [c.suit >= 2]
  {
    assert ToBits(0, 0) == [];
  }

  method WriteSuitBits(col: Column, first: nat, bitW: BitWriter)
    requires first <= |col|
    modifies bitW
    ensures bitW.bits == old(bitW.bits) + SuitBits(col[first..])
  {
    for i := first to |col|
      invariant bitW.bits + SuitBits(col[i..]) == old(bitW.bits) + SuitBits(col[first..])
    {
      assert col[i..][1..] == col[i + 1..];
      OneSuitBit(col[i]);
      bitW.Write(1, if col[i].suit >= 2 then 1 else 0);
    }
  }

  lemma PlacedAfter(start: Bits, first: Bits, col: Column, from: nat)
    requires PlacedFrom(first, col, from)
    ensures (start + first) + SuitBits(col[from..]) == start + PlacedBits(col)
  {
    if first == [] {
      StartOnly(start, first);
    } else {
      MoveBracket(start, first, SuitBits(col[from..]));
    }
  }

  // The bits of the cards are those written first and the suit bits from there on.
  predicate PlacedFrom(first: Bits, col: Column, from: nat) {
    && from <= |col|
    && if first == [] then PlacedBits(col) == SuitBits(col[from..])
       else PlacedBits(col) == first + SuitBits(col[from..])
  }

  lemma StartOnly(start: Bits, first: Bits)
    requires first == []
    ensures start + first == start
  {
  }

  // What is written after the two counts.
  method WritePlaced(numOrigCards: nat, col: Column, bitW: BitWriter)
    requires numOrigCards == OrigNumCards(col)
    modifies bitW
    ensures bitW.bits == old(bitW.bits) + PlacedBits(col)
  {
    var numCardsInSeq := |col| - numOrigCards;
    ghost var start, first := bitW.bits, [];
    if numOrigCards == 0 && numCardsInSeq != 0 {
      bitW.Write(6, CharOf(col[0]));
      first := ToBits(CharOf(col[0]), 6);
      numCardsInSeq := numCardsInSeq - 1;
    }
    PlacedAfter(start, first, col, |col| - numCardsInSeq);
    WriteSuitBits(col, |col| - numCardsInSeq, bitW);
  }

  lemma StartedParts(width: nat, col: Column, start: Bits)
    requires start == []
    ensures var n := OrigNumCards(col);
            ((start + ToBits(n, width)) + ToBits(|col| - n, 4)) + PlacedBits(col) == ColumnBits(width, col)
  {
    var a := ToBits(OrigNumCards(col), width);
    assert start + a == a;
  }

  // The type and the bits of one column.
  method GetColumnEncoding(width: nat, col: Column) returns (colType: ColType, enc: Bits)
    ensures colType == TypeOf(col) && enc == ColumnBits(width, col)
  {
    var numOrigCards := GetColumnOrigNumCards(col);
    StartedParts(width, col, []);
    var bitW := new BitWriter();
    bitW.Write(width, numOrigCards);
    bitW.Write(4, |col| - numOrigCards);
    WritePlaced(numOrigCards, col, bitW);
    enc := bitW.bits;
    colType := if |col| == 0 then Empty else if numOrigCards > 0 then HasOrigCards else EntirelyNonOrig;
  }

  // ---- Freecells ----

  method LowestFrom(freecells: array<Option<Card>>, i: nat) returns (minIdx: nat)
    requires i < freecells.Length
    ensures i <= minIdx < freecells.Length
    ensures forall k :: i <= k < freecells.Length ==> CellChar(freecells[minIdx]) <= CellChar(freecells[k])
  {
    minIdx := i;
    for j := i + 1 to freecells.Length
      invariant i <= minIdx < j
      invariant forall k :: i <= k < j ==> CellChar(freecells[minIdx]) <= CellChar(freecells[k])
    {
      if CellChar(freecells[j]) < CellChar(freecells[minIdx]) { minIdx := j; }
    }
  }

  // What was written is sorted, nothing left is lower, and nothing is lost.
  ghost predicate Selected(cells: seq<Option<Card>>, out: seq<Option<Card>>, left: seq<Option<Card>>) {
    && multiset(out) + multiset(left) == multiset(cells) && IsSorted(out, CellChar)
    && forall x, y :: x in out && y in left ==> CellChar(x) <= CellChar(y)
  }

  // Takes the lowest of the remaining freecells; the one at i goes to its place.
  method SelectOne(freecells: array<Option<Card>>, i: nat, ghost cells: seq<Option<Card>>, ghost out: seq<Option<Card>>)
      returns (card: Option<Card>)
    requires i < freecells.Length && Selected(cells, out, freecells[i..])
    modifies freecells
    ensures Selected(cells, out + [card], freecells[i + 1..])
  {
    var minIdx := LowestFrom(freecells, i);
    ghost var left := freecells[i..];
    card := freecells[minIdx];
    var iCard := freecells[i];
    if minIdx != i { freecells[minIdx] := iCard; }
    TakeLeast(cells, out, left, minIdx - i, freecells[i + 1..]);
  }

  method WriteCell(bitW: BitWriter, card: Option<Card>, ghost start: Bits, ghost out: seq<Option<Card>>)
    requires bitW.bits == start + CellsBits(out)
    modifies bitW
    ensures bitW.bits == start + CellsBits(out + [card])
  {
    CellsBitsAppend(out, card);
    MoveBracket(start, CellsBits(out), ToBits(CellChar(card), 6));
    bitW.Write(6, CellChar(card));
  }

  method CopyFreecells(cells: seq<Option<Card>>) returns (freecells: array<Option<Card>>)
    ensures fresh(freecells) && freecells.Length == |cells| && freecells[0..] == cells
  {
    freecells := new Option<Card>[|cells|](i requires 0 <= i < |cells| => cells[i]);
  }

  // Selection sort: each turn writes the lowest of the remaining freecells.
  method GetFreecellsEncoding(cells: seq<Option<Card>>, bitW: BitWriter)
    modifies bitW
    ensures bitW.bits == old(bitW.bits) + CellsBits(Sort(cells, CellChar))
  {
    var freecells := CopyFreecells(cells);
    ghost var out: seq<Option<Card>> := [];
    for i := 0 to |cells|
      invariant Selected(cells, out, freecells[i..]) && bitW.bits == old(bitW.bits) + CellsBits(out)
    {
      var card := SelectOne(freecells, i, cells, out);
      WriteCell(bitW, card, old(bitW.bits), out);
      out := out + [card];
    }
    SelectedAll(cells, out, freecells[|cells|..]);
  }

  lemma SelectedAll(cells: seq<Option<Card>>, out: seq<Option<Card>>, left: seq<Option<Card>>)
    requires Selected(cells, out, left) && left == []
    ensures out == Sort(cells, CellChar)
  {
    CellCharsDiffer(out);
    SortedIsUnique(out, Sort(cells, CellChar), CellChar);
  }

  lemma LeftCounts(left: seq<Option<Card>>, m: nat, rest: seq<Option<Card>>)
    requires m < |left| && |rest| + 1 == |left|
    requires forall k :: 0 <= k < |rest| ==> rest[k] == if k + 1 == m then left[0] else left[k + 1]
    ensures multiset(left) == multiset{left[m]} + multiset(rest)
    ensures forall y :: y in rest ==> y in left
  {
    var swapped := [left[m]] + rest;
    assert left[m := left[0]][0 := left[m]] == swapped;
    assert multiset(left[m := left[0]][0 := left[m]]) == multiset(left);
  }

  lemma TakeLeast(cells: seq<Option<Card>>, out: seq<Option<Card>>, left: seq<Option<Card>>, m: nat,
                  rest: seq<Option<Card>>)
    requires m < |left| && |rest| + 1 == |left| && Selected(cells, out, left)
    requires forall k :: 0 <= k < |rest| ==> rest[k] == if k + 1 == m then left[0] else left[k + 1]
    requires forall k :: 0 <= k < |left| ==> CellChar(left[m]) <= CellChar(left[k])
    ensures Selected(cells, out + [left[m]], rest)
  {
    LeftCounts(left, m, rest);
    assert forall y :: y in rest ==> CellChar(left[m]) <= CellChar(y);
    SelectedMore(cells, out, multiset(left), left[m], rest);
  }

  lemma SelectedMore(cells: seq<Option<Card>>, out: seq<Option<Card>>, left: multiset<Option<Card>>, x: Option<Card>,
                     rest: seq<Option<Card>>)
    requires multiset(out) + left == multiset(cells) && left == multiset{x} + multiset(rest)
    requires IsSorted(out, CellChar) && forall u, y :: u in out && y in left ==> CellChar(u) <= CellChar(y)
    requires forall y :: y in rest ==> CellChar(x) <= CellChar(y)
    ensures Selected(cells, out + [x], rest)
  {
    assert multiset(out + [x]) == multiset(out) + multiset{x};
    assert x in left && forall y :: y in rest ==> y in left;
  }

  lemma {:induction false} CellsBitsAppend(cells: seq<Option<Card>>, x: Option<Card>)
    ensures CellsBits(cells + [x]) == CellsBits(cells) + ToBits(CellChar(x), 6)
  {
    if cells == [] {
    } else {
      CellsBitsAppend(cells[1..], x);
      CellsBitsHead(cells, x);
      MoveBracket(ToBits(CellChar(cells[0]), 6), CellsBits(cells[1..]), ToBits(CellChar(x), 6));
    }
  }

  lemma CellsBitsHead(cells: seq<Option<Card>>, x: Option<Card>)
    requires cells != []
    ensures CellsBits(cells + [x]) == ToBits(CellChar(cells[0]), 6) + CellsBits(cells[1..] + [x])
  {
    assert (cells + [x])[1..] == cells[1..] + [x];
  }

  // ---- The order of the columns ----

  type Indexes = seq<nat>

  ghost function Identity(n: nat): Indexes {
    seq(n, i => i)
  }

  // The indexes are those of the columns, and columns with cards of the deal are in their own place.
  ghost predicate Shuffled(cols: seq<Column>, idx: Indexes) {
    && |idx| == |cols| && multiset(idx) == multiset(Identity(|cols|))
    && (forall i :: 0 <= i < |idx| ==> idx[i] < |cols|)
    && forall i :: 0 <= i < |idx| ==>
         (HasOrig(cols[idx[i]]) <==> HasOrig(cols[i])) && (HasOrig(cols[i]) ==> idx[i] == i)
  }

  ghost function View(cols: seq<Column>, idx: Indexes): seq<Column>
    requires forall i :: 0 <= i < |idx| ==> idx[i] < |cols|
  {
    seq(|idx|, i requires 0 <= i < |idx| => cols[idx[i]])
  }

  ghost predicate TypesOf(types: seq<ColType>, cols: seq<Column>) {
    |types| == |cols| && forall i :: 0 <= i < |cols| ==> types[i] == TypeOf(cols[i])
  }

  lemma IdentityIsShuffled(cols: seq<Column>)
    ensures Shuffled(cols, Identity(|cols|))
  {
  }

  lemma SwapCounts(idx: Indexes, p: nat, q: nat)
    requires p < q < |idx|
    ensures multiset(idx[p := idx[q]][q := idx[p]]) == multiset(idx)
  {
  }

  lemma SwapShuffled(cols: seq<Column>, idx: Indexes, p: nat, q: nat)
    requires Shuffled(cols, idx) && p < q < |idx| && idx[p] == p && idx[q] == q
    requires !HasOrig(cols[p]) && !HasOrig(cols[q])
    ensures Shuffled(cols, idx[p := q][q := p])
  {
    SwapCounts(idx, p, q);
    SwapInPlace(cols, idx, p, q);
  }

  lemma SwapInPlace(cols: seq<Column>, idx: Indexes, p: nat, q: nat)
    requires Shuffled(cols, idx) && p < q < |idx| && idx[p] == p && idx[q] == q
    requires !HasOrig(cols[p]) && !HasOrig(cols[q])
    ensures var t := idx[p := q][q := p];
            forall i :: 0 <= i < |t| ==>
              t[i] < |cols| && (HasOrig(cols[t[i]]) <==> HasOrig(cols[i])) && (HasOrig(cols[i]) ==> t[i] == i)
  {
  }

  // Before p no wholly rebuilt column, after q no empty one, and nothing moved between.
  ghost predicate Promoted(types: seq<ColType>, idx: Indexes, p: nat, q: int) {
    && p <= |idx| == |types| && -1 <= q < |idx| && (forall i :: 0 <= i < |idx| ==> idx[i] < |types|)
    && (forall i :: p <= i <= q ==> idx[i] == i)
    && (forall i :: 0 <= i < p && i <= q ==> types[idx[i]] != EntirelyNonOrig)
    && (forall i :: q < i < |idx| ==> types[idx[i]] != Empty)
  }

  ghost predicate EmptiesFirst(types: seq<ColType>, idx: Indexes) {
    && |idx| == |types| && (forall i :: 0 <= i < |idx| ==> idx[i] < |types|)
    && forall i, j :: 0 <= i < j < |idx| ==> types[idx[i]] != EntirelyNonOrig || types[idx[j]] != Empty
  }

  method NextRebuilt(types: seq<ColType>, start: nat, ghost idx: Indexes, ghost q: int) returns (p: nat)
    requires Promoted(types, idx, start, q)
    ensures start <= p && Promoted(types, idx, p, q)
    ensures p < |types| ==> types[p] == EntirelyNonOrig
  {
    p := start;
    while p < |types|
      invariant start <= p && Promoted(types, idx, p, q)
    {
      if types[p] == EntirelyNonOrig { break; }
      p := p + 1;
    }
  }

  method LastEmpty(types: seq<ColType>, start: int) returns (q: int)
    requires -1 <= start < |types|
    ensures -1 <= q <= start && (q >= 0 ==> types[q] == Empty)
    ensures forall i :: q < i <= start ==> types[i] != Empty
  {
    q := start;
    while q >= 0
      invariant -1 <= q <= start && forall i :: q < i <= start ==> types[i] != Empty
    {
      if types[q] == Empty { break; }
      q := q - 1;
    }
  }

  method SwapIndexes(idx: array<nat>, p: nat, q: nat)
    requires p < q < idx.Length
    modifies idx
    ensures idx[..] == old(idx[..])[p := old(idx[q])][q := old(idx[p])]
  {
    idx[p], idx[q] := idx[q], idx[p];
  }

  // Swaps the first wholly rebuilt column with the last empty one until they cross.
  method PromoteEmptyCols(types: seq<ColType>, idx: array<nat>, ghost cols: seq<Column>)
    requires TypesOf(types, cols) && idx[..] == Identity(|cols|)
    modifies idx
    ensures Shuffled(cols, idx[..]) && EmptiesFirst(types, idx[..])
  {
    var nonOrigIdx: nat, emptyColIdx := 0, |types| - 1;
    IdentityIsShuffled(cols);
    ghost var now := idx[..];
    while true
      invariant now == idx[..] && Shuffled(cols, now) && Promoted(types, now, nonOrigIdx, emptyColIdx)
      decreases |types| - nonOrigIdx
    {
      nonOrigIdx := NextRebuilt(types, nonOrigIdx, now, emptyColIdx);
      if nonOrigIdx == |types| {
        NoneLeft(types, now, emptyColIdx);
        return;
      }
      ghost var last := emptyColIdx;
      emptyColIdx := LastEmpty(types, emptyColIdx);
      if emptyColIdx < 0 || emptyColIdx < nonOrigIdx {
        Crossed(types, now, nonOrigIdx, last);
        return;
      }
      PromotedSwap(types, now, nonOrigIdx, last, emptyColIdx);
      SwapShuffled(cols, now, nonOrigIdx, emptyColIdx);
      SwapIndexes(idx, nonOrigIdx, emptyColIdx);
      now := idx[..];
      nonOrigIdx, emptyColIdx := nonOrigIdx + 1, emptyColIdx - 1;
    }
  }

  lemma NoneLeft(types: seq<ColType>, idx: Indexes, q: int)
    requires Promoted(types, idx, |types|, q)
    ensures EmptiesFirst(types, idx)
  {
  }

  lemma Crossed(types: seq<ColType>, idx: Indexes, p: nat, last: int)
    requires Promoted(types, idx, p, last) && forall i :: p <= i <= last ==> types[i] != Empty
    ensures EmptiesFirst(types, idx)
  {
    forall i, j | 0 <= i < j < |idx| ensures types[idx[i]] != EntirelyNonOrig || types[idx[j]] != Empty {
      if j <= last && i >= p { assert idx[j] == j; }
    }
  }

  lemma PromotedSwap(types: seq<ColType>, idx: Indexes, p: nat, last: int, q: int)
    requires Promoted(types, idx, p, last) && p < q <= last
    requires types[p] == EntirelyNonOrig && types[q] == Empty && forall i :: q < i <= last ==> types[i] != Empty
    ensures idx[p] == p && idx[q] == q && Promoted(types, idx[p := q][q := p], p + 1, q - 1)
  {
    forall i | q < i < |idx| ensures types[idx[i]] != Empty {
      if i <= last { assert idx[i] == i; }
    }
  }

  // ---- Sorting the wholly rebuilt columns ----

  function BaseOf(cols: seq<Column>): nat -> nat {
    (i: nat) => if i < |cols| then BaseChar(cols[i]) else 0
  }

  function NotRebuilt(types: seq<ColType>): nat -> bool {
    (i: nat) => i < |types| ==> types[i] != EntirelyNonOrig
  }

  ghost predicate IndexesOf(s: Indexes, cols: seq<Column>) {
    forall k :: 0 <= k < |s| ==> s[k] < |cols|
  }

  // The item at c is below the one before it.
  predicate OutOfOrder(s: Indexes, c: nat, cols: seq<Column>)
    requires 0 < c < |s| && s[c - 1] < |cols| && s[c] < |cols|
  {
    BaseChar(cols[s[c - 1]]) > BaseChar(cols[s[c]])
  }

  // An arrangement of the items that were there, the one at c still sinking.
  ghost predicate Sinking(s: Indexes, was: Indexes, cols: seq<Column>, b: nat, c: nat) {
    forall i {:trigger SortedBut(s, BaseOf(cols), b, i)} :: i == c ==>
      IndexesOf(s, cols) && SortedBut(s, BaseOf(cols), b, i) && multiset(s) == multiset(was)
  }

  // The item has sunk: the first b + 1 are sorted.
  ghost predicate Sunk(s: Indexes, was: Indexes, cols: seq<Column>, b: nat) {
    b < |s| && IsSorted(s[..b + 1], BaseOf(cols)) && multiset(s) == multiset(was) && IndexesOf(s, cols)
  }

  lemma SinkStart(s: Indexes, cols: seq<Column>, b: nat)
    requires b < |s| && IsSorted(s[..b], BaseOf(cols)) && IndexesOf(s, cols)
    ensures Sinking(s, s, cols, b, b)
  {
    forall i, j | 0 <= i < j < b ensures BaseOf(cols)(s[i]) <= BaseOf(cols)(s[j]) {
      assert s[..b][i] == s[i] && s[..b][j] == s[j];
    }
    assert SortedBut(s, BaseOf(cols), b, b);
  }

  lemma SinkStep(s: Indexes, was: Indexes, cols: seq<Column>, b: nat, c: nat)
    requires Sinking(s, was, cols, b, c) && 0 < c < |s|
    ensures s[c - 1] < |cols| && s[c] < |cols|
    ensures if OutOfOrder(s, c, cols) then Sinking(s[c - 1 := s[c]][c := s[c - 1]], was, cols, b, c - 1)
            else Sunk(s, was, cols, b)
  {
    assert SortedBut(s, BaseOf(cols), b, c);
    assert BaseOf(cols)(s[c - 1]) == BaseChar(cols[s[c - 1]]) && BaseOf(cols)(s[c]) == BaseChar(cols[s[c]]);
    if OutOfOrder(s, c, cols) { SwapDown(s, BaseOf(cols), b, c); } else { SortedSoFar(s, BaseOf(cols), b, c); }
  }

  lemma SinkEnd(s: Indexes, was: Indexes, cols: seq<Column>, b: nat)
    requires Sinking(s, was, cols, b, 0)
    ensures Sunk(s, was, cols, b)
  {
    assert SortedBut(s, BaseOf(cols), b, 0);
    SortedSoFar(s, BaseOf(cols), b, 0);
  }

  method SinkItem(items: array<nat>, b: nat, cols: seq<Column>)
    requires b < items.Length && IsSorted(items[..b], BaseOf(cols)) && IndexesOf(items[..], cols)
    modifies items
    ensures Sunk(items[..], old(items[..]), cols, b)
  {
    var c: nat := b;
    ghost var was := items[..];
    ghost var s := was;
    assert s[..b] == items[..b];
    SinkStart(s, cols, b);
    while c > 0
      invariant c <= b && s == items[..] && Sinking(s, was, cols, b, c)
    {
      SinkStep(s, was, cols, b, c);
      if !OutOfOrder(items[..], c, cols) { return; }
      SwapIndexes(items, c - 1, c);
      s := s[c - 1 := s[c]][c := s[c - 1]];
      c := c - 1;
    }
    SinkEnd(s, was, cols, b);
  }

  // Insertion sort by the bottom card.
  method SortByBase(items: array<nat>, cols: seq<Column>)
    requires IndexesOf(items[..], cols)
    modifies items
    ensures IsSorted(items[..], BaseOf(cols)) && multiset(items[..]) == multiset(old(items[..]))
  {
    if items.Length == 0 { return; }
    for b := 1 to items.Length
      invariant IsSorted(items[..b], BaseOf(cols)) && multiset(items[..]) == multiset(old(items[..]))
      invariant IndexesOf(items[..], cols)
    {
      SinkItem(items, b, cols);
      assert items[..][..b + 1] == items[..b + 1];
    }
    assert items[..items.Length] == items[..];
  }

  lemma FreeFirst(was: seq<nat>, i: nat, fixed: nat -> bool)
    requires i < |was|
    ensures Free(was[i..], fixed) == FreeHead(was[i], fixed) + Free(was[i + 1..], fixed)
  {
    assert was[i..][1..] == was[i + 1..] && was[i..][0] == was[i];
  }

  method FilterRebuilt(types: seq<ColType>, idx: array<nat>) returns (found: seq<nat>)
    requires forall i :: 0 <= i < idx.Length ==> idx[i] < |types|
    ensures found == Free(idx[..], NotRebuilt(types))
  {
    found := [];
    ghost var was, fixed := idx[..], NotRebuilt(types);
    assert was[0..] == was;
    for i := 0 to idx.Length
      invariant Filtering(found, was, i, fixed)
    {
      FilterNext(found, was, i, fixed);
      if types[idx[i]] == EntirelyNonOrig { found := found + [idx[i]]; }
    }
    assert was[|was|..] == [];
  }

  ghost predicate Filtering(found: seq<nat>, was: Indexes, i: nat, fixed: nat -> bool) {
    i <= |was| && found + Free(was[i..], fixed) == Free(was, fixed)
  }

  lemma FilterNext(found: seq<nat>, was: Indexes, i: nat, fixed: nat -> bool)
    requires Filtering(found, was, i, fixed) && i < |was|
    ensures Filtering(if fixed(was[i]) then found else found + [was[i]], was, i + 1, fixed)
  {
    FreeFirst(was, i, fixed);
    FilterJoin(found, was[i], Free(was[i + 1..], fixed));
  }

  lemma FilterJoin(found: seq<nat>, x: nat, rest: seq<nat>)
    ensures found + ([x] + rest) == (found + [x]) + rest && found + ([] + rest) == found + rest
  {
  }

  // The places before i are done; the rest will take the items from k on.
  ghost predicate PuttingBack(now: Indexes, was: Indexes, items: seq<nat>, i: nat, k: nat, fixed: nat -> bool) {
    && i <= |now| == |was| && k <= |items| == |Free(was, fixed)| && now[i..] == was[i..]
    && |items[k..]| == |Free(was[i..], fixed)|
    && now[..i] + Fill(was[i..], items[k..], fixed) == Fill(was, items, fixed)
  }

  lemma PutNext(now: Indexes, was: Indexes, items: seq<nat>, i: nat, k: nat, fixed: nat -> bool)
    requires PuttingBack(now, was, items, i, k, fixed) && i < |now|
    ensures now[i] == was[i]
    ensures if fixed(now[i]) then PuttingBack(now, was, items, i + 1, k, fixed)
            else k < |items| && PuttingBack(now[i := items[k]], was, items, i + 1, k + 1, fixed)
  {
    assert now[i] == now[i..][0] == was[i..][0] == was[i];
    FillFirst(was, i, items[k..], fixed);
    if fixed(now[i]) {
      PutStep(now, was, i, now[i], Fill(was[i + 1..], items[k..], fixed));
    } else {
      assert items[k..][1..] == items[k + 1..];
      PutStep(now, was, i, items[k], Fill(was[i + 1..], items[k + 1..], fixed));
    }
  }

  lemma PutStep(now: Indexes, was: Indexes, i: nat, x: nat, rest: Indexes)
    requires i < |now| == |was| && now[i..] == was[i..]
    ensures now[i := x][i + 1..] == was[i + 1..]
    ensures now[i := x][..i + 1] + rest == now[..i] + ([x] + rest)
    ensures now[i] == x ==> now[..i + 1] + rest == now[..i] + ([x] + rest) && now[i + 1..] == was[i + 1..]
  {
    assert now[i := x][i + 1..] == now[i..][1..] == was[i..][1..] == was[i + 1..];
    assert now[i + 1..] == now[i..][1..];
  }

  method PutBack(types: seq<ColType>, idx: array<nat>, items: array<nat>)
    requires forall i :: 0 <= i < idx.Length ==> idx[i] < |types|
    requires items != idx && items.Length == |Free(idx[..], NotRebuilt(types))|
    modifies idx
    ensures items.Length == |Free(old(idx[..]), NotRebuilt(types))|
    ensures idx[..] == Fill(old(idx[..]), items[..], NotRebuilt(types))
  {
    ghost var was, fixed := idx[..], NotRebuilt(types);
    var sortedIdx: nat := 0;
    StartPutting(was, items[..], fixed);
    for i := 0 to idx.Length
      invariant PuttingBack(idx[..], was, items[..], i, sortedIdx, fixed)
    {
      PutNext(idx[..], was, items[..], i, sortedIdx, fixed);
      if types[idx[i]] == EntirelyNonOrig {
        ghost var now := idx[..];
        idx[i] := items[sortedIdx];
        assert idx[..] == now[i := items[sortedIdx]];
        sortedIdx := sortedIdx + 1;
      }
    }
    DonePutting(idx[..], was, items[..], sortedIdx, fixed);
  }

  lemma StartPutting(was: Indexes, items: seq<nat>, fixed: nat -> bool)
    requires |items| == |Free(was, fixed)|
    ensures PuttingBack(was, was, items, 0, 0, fixed)
  {
    assert was[0..] == was && items[0..] == items && was[..0] + Fill(was, items, fixed) == Fill(was, items, fixed);
  }

  lemma DonePutting(now: Indexes, was: Indexes, items: seq<nat>, k: nat, fixed: nat -> bool)
    requires PuttingBack(now, was, items, |now|, k, fixed)
    ensures now == Fill(was, items, fixed)
  {
    assert was[|now|..] == [] && now[..|now|] == now;
    assert now + [] == now;
  }

  lemma FillFirst(was: seq<nat>, i: nat, items: seq<nat>, fixed: nat -> bool)
    requires i < |was| && |items| == |Free(was[i..], fixed)|
    ensures if fixed(was[i]) then
              |items| == |Free(was[i + 1..], fixed)|
                && Fill(was[i..], items, fixed) == [was[i]] + Fill(was[i + 1..], items, fixed)
            else
              |items| == |Free(was[i + 1..], fixed)| + 1 &&
              Fill(was[i..], items, fixed) == [items[0]] + Fill(was[i + 1..], items[1..], fixed)
  {
    assert was[i..][1..] == was[i + 1..] && was[i..][0] == was[i];
  }

  // ---- The whole order ----

  lemma {:induction false} ViewCounts(cols: seq<Column>, a: Indexes, b: Indexes)
    requires multiset(a) == multiset(b) && IndexesOf(a, cols) && IndexesOf(b, cols)
    ensures multiset(View(cols, a)) == multiset(View(cols, b))
  {
    assert |a| == |multiset(a)| == |multiset(b)| == |b|;
    if a == [] {
      assert View(cols, a) == View(cols, b);
    } else {
      var i, rest := FindIndex(a, b, cols);
      ViewCounts(cols, a[1..], rest);
      ViewFirst(cols, a);
      ViewWithout(cols, b, i, rest);
    }
  }

  lemma FindIndex(a: Indexes, b: Indexes, cols: seq<Column>) returns (i: nat, rest: Indexes)
    requires multiset(a) == multiset(b) && a != [] && IndexesOf(a, cols) && IndexesOf(b, cols)
    ensures i < |b| && b[i] == a[0] && rest == b[..i] + b[i + 1..] && multiset(a[1..]) == multiset(rest)
    ensures IndexesOf(a[1..], cols) && IndexesOf(rest, cols)
  {
    i := FirstIn(a, b);
    rest := b[..i] + b[i + 1..];
  }

  lemma ViewFirst(cols: seq<Column>, a: Indexes)
    requires a != [] && IndexesOf(a, cols) && IndexesOf(a[1..], cols)
    ensures multiset(View(cols, a)) == multiset{cols[a[0]]} + multiset(View(cols, a[1..]))
  {
    assert View(cols, a) == [cols[a[0]]] + View(cols, a[1..]);
  }

  lemma ViewWithout(cols: seq<Column>, b: Indexes, i: nat, rest: Indexes)
    requires i < |b| && IndexesOf(b, cols) && rest == b[..i] + b[i + 1..] && IndexesOf(rest, cols)
    ensures multiset(View(cols, b)) == multiset{cols[b[i]]} + multiset(View(cols, rest))
  {
    var v := View(cols, b);
    assert View(cols, rest) == v[..i] + v[i + 1..];
    assert v == v[..i] + [v[i]] + v[i + 1..];
  }

  lemma ShuffledAlike(cols: seq<Column>, idx: Indexes)
    requires Shuffled(cols, idx)
    ensures Alike(cols, View(cols, idx), HasOrig)
  {
    ViewCounts(cols, Identity(|cols|), idx);
    assert View(cols, Identity(|cols|)) == cols;
  }

  lemma ViewInOrder(types: seq<ColType>, cols: seq<Column>, idx: Indexes)
    requires TypesOf(types, cols) && |idx| == |cols| && IndexesOf(idx, cols) && EmptiesFirst(types, idx)
    requires FreeInOrder(idx, NotRebuilt(types), BaseOf(cols))
    ensures FreeInOrder(View(cols, idx), HasOrig, BaseChar)
  {
    var v, fixed, key := View(cols, idx), NotRebuilt(types), BaseOf(cols);
    forall i, j | 0 <= i < j < |v| && !HasOrig(v[i]) && !HasOrig(v[j]) ensures BaseChar(v[i]) <= BaseChar(v[j]) {
      if types[idx[i]] == EntirelyNonOrig {
        assert types[idx[j]] == EntirelyNonOrig;
        assert !fixed(idx[i]) && !fixed(idx[j]) && key(idx[i]) <= key(idx[j]);
      }
    }
  }

  lemma PutBackShuffled(types: seq<ColType>, cols: seq<Column>, was: Indexes, idx: Indexes)
    requires TypesOf(types, cols) && Shuffled(cols, was) && EmptiesFirst(types, was)
    requires FixedAlike(was, idx, NotRebuilt(types)) && multiset(idx) == multiset(was)
    ensures Shuffled(cols, idx) && EmptiesFirst(types, idx)
  {
    var fixed := NotRebuilt(types);
    forall i | 0 <= i < |idx| ensures idx[i] < |cols| {
      assert idx[i] in multiset(idx) && idx[i] in Identity(|cols|);
    }
    forall i | 0 <= i < |idx|
      ensures types[idx[i]] == types[was[i]] && (types[was[i]] != EntirelyNonOrig ==> idx[i] == was[i])
    {
      assert fixed(was[i]) <==> fixed(idx[i]);
    }
  }

  lemma OrderIsArranged(types: seq<ColType>, cols: seq<Column>, was: Indexes, items: Indexes, idx: Indexes)
    requires TypesOf(types, cols) && Shuffled(cols, was) && EmptiesFirst(types, was) && TellsApart(cols, BaseChar)
    requires multiset(items) == multiset(Free(was, NotRebuilt(types))) && |items| == |Free(was, NotRebuilt(types))|
    requires IsSorted(items, BaseOf(cols)) && idx == Fill(was, items, NotRebuilt(types))
    ensures Shuffled(cols, idx) && View(cols, idx) == Arrange(cols)
  {
    ArrangedIs(was, items, NotRebuilt(types), BaseOf(cols));
    PutBackShuffled(types, cols, was, idx);
    ViewInOrder(types, cols, idx);
    ShuffledAlike(cols, idx);
    assert Alike(cols, cols, HasOrig);
    ArrangedIsUnique(cols, cols, View(cols, idx), Arrange(cols), HasOrig, BaseChar);
  }

  method OrderColumns(types: seq<ColType>, cols: seq<Column>) returns (idx: array<nat>)
    requires TypesOf(types, cols) && TellsApart(cols, BaseChar)
    ensures fresh(idx) && Shuffled(cols, idx[..]) && View(cols, idx[..]) == Arrange(cols)
  {
    idx := new nat[|cols|](i => i);
    assert idx[..] == Identity(|cols|);
    PromoteEmptyCols(types, idx, cols);
    ghost var promoted := idx[..];
    var found := FilterRebuilt(types, idx);
    var items := new nat[|found|](i requires 0 <= i < |found| => found[i]);
    assert items[..] == found;
    FoundIndexes(promoted, found, types, cols);
    SortByBase(items, cols);
    assert |items[..]| == |found|;
    PutBack(types, idx, items);
    OrderIsArranged(types, cols, promoted, items[..], idx[..]);
  }

  lemma FoundIndexes(was: Indexes, found: Indexes, types: seq<ColType>, cols: seq<Column>)
    requires Shuffled(cols, was) && found == Free(was, NotRebuilt(types))
    ensures IndexesOf(found, cols)
  {
    forall k | 0 <= k < |found| ensures found[k] < |cols| {
      FreeMember(was, NotRebuilt(types), found[k]);
    }
  }

  // ---- Encoding a position ----

  lemma BytePart(enc: Bits, k: nat, n: nat)
    requires k + n <= |enc|
    ensures ToBits(FromBits(enc[k..k + n]), n) == enc[k..k + n]
    ensures enc[..k] + enc[k..k + n] == enc[..k + n]
  {
    NumberRoundTrip(enc[k..k + n]);
  }

  // Copies the whole bytes of a column's encoding, then its last bits.
  method CopyEncoding(enc: Bits, bitW: BitWriter)
    modifies bitW
    ensures bitW.bits == old(bitW.bits) + enc
  {
    var k: nat := 0;
    ghost var start := bitW.bits;
    while k + 8 <= |enc|
      invariant k <= |enc| && bitW.bits == start + enc[..k]
    {
      CopyPart(enc, k, 8, bitW, start);
      k := k + 8;
    }
    CopyPart(enc, k, |enc| - k, bitW, start);
    assert enc[..|enc|] == enc;
  }

  method CopyPart(enc: Bits, k: nat, n: nat, bitW: BitWriter, ghost start: Bits)
    requires k + n <= |enc| && bitW.bits == start + enc[..k]
    modifies bitW
    ensures bitW.bits == start + enc[..k + n]
  {
    BytePart(enc, k, n);
    bitW.Write(n, FromBits(enc[k..k + n]));
  }

  // The first columns are encoded.
  ghost predicate Encoded(width: nat, cols: seq<Column>, types: seq<ColType>, encs: seq<Bits>) {
    && |types| == |encs| <= |cols|
    && forall k :: 0 <= k < |types| ==> types[k] == TypeOf(cols[k]) && encs[k] == ColumnBits(width, cols[k])
  }

  lemma EncodedNext(width: nat, cols: seq<Column>, types: seq<ColType>, encs: seq<Bits>, colType: ColType, enc: Bits)
    requires Encoded(width, cols, types, encs) && |types| < |cols|
    requires colType == TypeOf(cols[|types|]) && enc == ColumnBits(width, cols[|types|])
    ensures Encoded(width, cols, types + [colType], encs + [enc])
  {
    var allTypes, allEncs := types + [colType], encs + [enc];
    forall k | 0 <= k < |allTypes| ensures allTypes[k] == TypeOf(cols[k]) && allEncs[k] == ColumnBits(width, cols[k]) {
      if k < |types| { assert allTypes[k] == types[k] && allEncs[k] == encs[k]; }
    }
  }

  method EncodeEach(width: nat, cols: seq<Column>) returns (types: seq<ColType>, encs: seq<Bits>)
    ensures |types| == |cols| && Encoded(width, cols, types, encs)
  {
    types, encs := [], [];
    for i := 0 to |cols|
      invariant |types| == i && Encoded(width, cols, types, encs)
    {
      var colType, enc := GetColumnEncoding(width, cols[i]);
      EncodedNext(width, cols, types, encs, colType, enc);
      types, encs := types + [colType], encs + [enc];
    }
  }

  lemma ColsBitsNext(width: nat, out: seq<Column>, i: nat, enc: Bits)
    requires i < |out| && enc == ColumnBits(width, out[i])
    ensures ColsBits(width, out[i..]) == enc + ColsBits(width, out[i + 1..])
  {
    assert out[i..][1..] == out[i + 1..];
  }

  method WriteInOrder(encs: seq<Bits>, idx: array<nat>, bitW: BitWriter, ghost width: nat, ghost out: seq<Column>)
    requires |out| == idx.Length
    requires forall i :: 0 <= i < idx.Length ==> idx[i] < |encs| && encs[idx[i]] == ColumnBits(width, out[i])
    modifies bitW
    ensures bitW.bits == old(bitW.bits) + ColsBits(width, out)
  {
    ghost var start, all := bitW.bits, ColsBits(width, out);
    assert out[0..] == out;
    for i := 0 to idx.Length
      invariant bitW.bits + ColsBits(width, out[i..]) == start + all
    {
      ColsBitsNext(width, out, i, encs[idx[i]]);
      MoveBracket(bitW.bits, encs[idx[i]], ColsBits(width, out[i + 1..]));
      CopyEncoding(encs[idx[i]], bitW);
    }
    assert out[|out|..] == [];
  }

  method EncodeColumns(width: nat, cols: seq<Column>, bitW: BitWriter)
    requires TellsApart(cols, BaseChar)
    modifies bitW
    ensures bitW.bits == old(bitW.bits) + ColsBits(width, Arrange(cols))
  {
    var types, encs := EncodeEach(width, cols);
    var idx := OrderColumns(types, cols);
    ghost var out := View(cols, idx[..]);
    WriteInOrder(encs, idx, bitW, width, out);
  }

  lemma EncodedParts(width: nat, s: Position, cellsBits: Bits, colsBits: Bits, start: Bits)
    requires cellsBits == CellsBits(Sort(s.cells, CellChar)) && colsBits == ColsBits(width, Arrange(s.cols))
    ensures (start + cellsBits) + colsBits == start + Encode(width, s)
  {
    MoveBracket(start, cellsBits, colsBits);
  }

  // ---- Decoding ----

  // The lowest rank of the suit among the freecells, the finished columns and the current one.
  function LowestSeen(cells: seq<Option<Card>>, done: seq<Column>, cur: Column, u: Suit): nat {
    Min(Min(LowestInCells(cells, u), LowestInCols(done, u)), LowestIn(cur, u))
  }

  ghost predicate Seen(f: seq<nat>, cells: seq<Option<Card>>, done: seq<Column>, cur: Column) {
    |f| == 4 && forall u: Suit :: f[u] == LowestSeen(cells, done, cur, u)
  }

  lemma {:induction false} LowestAppend(col: Column, c: Card, u: Suit)
    ensures LowestIn(col + [c], u) == Min(LowestIn(col, u), if c.suit == u then c.rank else KING + 1)
  {
    if col == [] {
      assert [c][1..] == [];
    } else {
      LowestAppend(col[1..], c, u);
      assert (col + [c])[1..] == col[1..] + [c];
    }
  }

  lemma {:induction false} LowestColsAppend(cols: seq<Column>, x: Column, u: Suit)
    ensures LowestInCols(cols + [x], u) == Min(LowestInCols(cols, u), LowestIn(x, u))
  {
    if cols == [] {
      assert [x][1..] == [];
    } else {
      LowestColsAppend(cols[1..], x, u);
      assert (cols + [x])[1..] == cols[1..] + [x];
    }
  }

  function CellRank(x: Option<Card>, u: Suit): nat {
    if x.Some? && x.value.suit == u then x.value.rank else KING + 1
  }

  lemma {:induction false} LowestCellsAppend(cells: seq<Option<Card>>, x: Option<Card>, u: Suit)
    ensures LowestInCells(cells + [x], u) == Min(LowestInCells(cells, u), CellRank(x, u))
  {
    if cells == [] {
      assert [x][1..] == [];
    } else {
      LowestCellsAppend(cells[1..], x, u);
      assert (cells + [x])[1..] == cells[1..] + [x];
    }
  }

  lemma SeenColumn(f: seq<nat>, cells: seq<Option<Card>>, done: seq<Column>, cur: Column)
    requires Seen(f, cells, done, cur)
    ensures Seen(f, cells, done + [cur], [])
  {
    forall u: Suit ensures f[u] == LowestSeen(cells, done + [cur], [], u) {
      LowestColsAppend(done, cur, u);
    }
  }

  function Lowered(f: seq<nat>, c: Card): (g: seq<nat>)
    requires |f| == 4
    ensures |g| == 4
  {
    if c.rank < f[c.suit] then f[c.suit := c.rank] else f
  }

  lemma SeenCard(f: seq<nat>, cells: seq<Option<Card>>, done: seq<Column>, cur: Column, c: Card)
    requires Seen(f, cells, done, cur)
    ensures Seen(Lowered(f, c), cells, done, cur + [c])
  {
    forall u: Suit ensures Lowered(f, c)[u] == LowestSeen(cells, done, cur + [c], u) {
      LowestAppend(cur, c, u);
    }
  }

  lemma SeenCell(f: seq<nat>, cells: seq<Option<Card>>, x: Option<Card>)
    requires Seen(f, cells, [], [])
    ensures Seen(if x.Some? then Lowered(f, x.value) else f, cells + [x], [], [])
  {
    forall u: Suit
      ensures (if x.Some? then Lowered(f, x.value) else f)[u] == LowestSeen(cells + [x], [], [], u)
    {
      LowestCellsAppend(cells, x, u);
    }
  }

  method ProcessCard(foundations: array<nat>, card: Card)
    requires foundations.Length == 4
    modifies foundations
    ensures foundations[..] == Lowered(old(foundations[..]), card)
  {
    if card.rank < foundations[card.suit] { foundations[card.suit] := card.rank; }
  }

  // The cards of the deal at the start of the column.
  method PushOrig(orig: Column, numOrigCards: nat, foundations: array<nat>, ghost cells: seq<Option<Card>>,
                  ghost done: seq<Column>)
      returns (col: Column)
    requires foundations.Length == 4 && numOrigCards <= |orig| && Seen(foundations[..], cells, done, [])
    modifies foundations
    ensures col == orig[..numOrigCards] && Seen(foundations[..], cells, done, col)
  {
    col := [];
    for i := 0 to numOrigCards
      invariant col == orig[..i] && Seen(foundations[..], cells, done, col)
    {
      SeenCard(foundations[..], cells, done, col, orig[i]);
      ProcessCard(foundations, orig[i]);
      col := col + [orig[i]];
    }
  }

  lemma OneBit(bits: Bits)
    requires bits != []
    ensures FromBits(bits[..1]) == if bits[0] then 1 else 0
  {
    assert bits[..1][1..] == [];
    assert FromBits([]) == 0;
  }

  // The placed cards, each told from the one above it by one bit.
  method PushRun(start: Column, n: nat, reader: BitReader, foundations: array<nat>,
                 ghost cells: seq<Option<Card>>, ghost done: seq<Column>) returns (col: Column)
    requires foundations.Length == 4 && start != [] && DecodeRun(Last(start), n, reader.rest).Some?
    requires Seen(foundations[..], cells, done, start)
    modifies reader, foundations
    ensures var run := DecodeRun(Last(start), n, old(reader.rest)).value;
            col == start + run.value && reader.rest == run.rest
    ensures Seen(foundations[..], cells, done, col)
  {
    col := start;
    ghost var goal := DecodeRun(Last(start), n, reader.rest).value;
    for i := 0 to n
      invariant col != [] && Seen(foundations[..], cells, done, col)
      invariant Running(start, col, n - i, reader.rest, goal)
    {
      RunNext(start, col, n - i, reader.rest, goal);
      OneBit(reader.rest);
      var lastCard := Last(col);
      var suitBit := reader.Read(1);
      var newCard := ChildWith(lastCard, suitBit == 1);
      SeenCard(foundations[..], cells, done, col, newCard);
      ProcessCard(foundations, newCard);
      col := col + [newCard];
    }
  }

  // What is left to read completes the column.
  ghost predicate Running(start: Column, col: Column, left: nat, bits: Bits, goal: Parsed<seq<Card>>) {
    && col != [] && DecodeRun(Last(col), left, bits).Some?
    && col + DecodeRun(Last(col), left, bits).value.value == start + goal.value
    && DecodeRun(Last(col), left, bits).value.rest == goal.rest
  }

  lemma RunNext(start: Column, col: Column, left: nat, bits: Bits, goal: Parsed<seq<Card>>)
    requires left > 0 && Running(start, col, left, bits, goal)
    ensures bits != [] && Last(col).rank > 1
    ensures Running(start, col + [ChildWith(Last(col), bits[0])], left - 1, bits[1..], goal)
  {
    var c := ChildWith(Last(col), bits[0]);
    var rest := DecodeRun(c, left - 1, bits[1..]).value.value;
    assert (col + [c]) + rest == col + ([c] + rest);
  }

  // A column that keeps no card of the deal starts with a card of its own.
  method ReadBase(reader: BitReader, foundations: array<nat>, ghost cells: seq<Option<Card>>, ghost done: seq<Column>)
      returns (col: Column)
    requires foundations.Length == 4 && |reader.rest| >= 6 && CardOf(FromBits(reader.rest[..6])).Some?
    requires Seen(foundations[..], cells, done, [])
    modifies reader, foundations
    ensures col == [CardOf(FromBits(old(reader.rest)[..6])).value] && reader.rest == old(reader.rest)[6..]
    ensures Seen(foundations[..], cells, done, col)
  {
    var card := reader.Read(6);
    SeenCard(foundations[..], cells, done, [], CardOf(card).value);
    ProcessCard(foundations, CardOf(card).value);
    col := [] + [CardOf(card).value];
  }

  lemma PlacedParts(orig: Column, n: nat, m: nat, bits: Bits)
    requires n <= |orig| && DecodeCards(orig, n, m, bits).Some?
    ensures n > 0 && m > 0 ==> DecodeRun(Last(orig[..n]), m, bits).Some?
    ensures n == 0 && m > 0 ==> |bits| >= 6 && CardOf(FromBits(bits[..6])).Some? &&
                                DecodeRun(CardOf(FromBits(bits[..6])).value, m - 1, bits[6..]).Some?
  {
  }

  method ReadPlaced(orig: Column, numOrigCards: nat, numDerivedCards: nat, reader: BitReader, foundations: array<nat>,
                    ghost cells: seq<Option<Card>>, ghost done: seq<Column>) returns (col: Column)
    requires foundations.Length == 4 && numOrigCards <= |orig|
    requires DecodeCards(orig, numOrigCards, numDerivedCards, reader.rest).Some?
    requires Seen(foundations[..], cells, done, orig[..numOrigCards])
    modifies reader, foundations
    ensures DecodeCards(orig, numOrigCards, numDerivedCards, old(reader.rest)) == Some(Parsed(col, reader.rest))
    ensures Seen(foundations[..], cells, done, col)
  {
    PlacedParts(orig, numOrigCards, numDerivedCards, reader.rest);
    col := orig[..numOrigCards];
    var numCardsInSeq := numDerivedCards;
    if numOrigCards == 0 && numDerivedCards > 0 {
      assert col == [];
      col := ReadBase(reader, foundations, cells, done);
      numCardsInSeq := numCardsInSeq - 1;
      assert col + [] == col;
    }
    if numCardsInSeq > 0 {
      col := PushRun(col, numCardsInSeq, reader, foundations, cells, done);
    }
  }

  method ReadColumn(width: nat, orig: Column, reader: BitReader, foundations: array<nat>,
                    ghost cells: seq<Option<Card>>, ghost done: seq<Column>) returns (col: Column)
    requires foundations.Length == 4 && DecodeColumn(width, orig, reader.rest).Some?
    requires Seen(foundations[..], cells, done, [])
    modifies reader, foundations
    ensures DecodeColumn(width, orig, old(reader.rest)) == Some(Parsed(col, reader.rest))
    ensures Seen(foundations[..], cells, done, col)
  {
    var numOrigCards := reader.Read(width);
    col := PushOrig(orig, numOrigCards, foundations, cells, done);
    var numDerivedCards := reader.Read(4);
    col := ReadPlaced(orig, numOrigCards, numDerivedCards, reader, foundations, cells, done);
  }

  // What is left to read completes the columns.
  ghost predicate ReadingCols(width: nat, orig: seq<Column>, i: nat, done: seq<Column>, bits: Bits,
                              goal: Parsed<seq<Column>>) {
    && i <= |orig| && DecodeCols(width, orig[i..], bits).Some?
    && done + DecodeCols(width, orig[i..], bits).value.value == goal.value
    && DecodeCols(width, orig[i..], bits).value.rest == goal.rest
  }

  lemma NextColumn(width: nat, orig: seq<Column>, i: nat, done: seq<Column>, bits: Bits, goal: Parsed<seq<Column>>)
    requires i < |orig| && ReadingCols(width, orig, i, done, bits, goal)
    ensures DecodeColumn(width, orig[i], bits).Some?
    ensures var col := DecodeColumn(width, orig[i], bits).value;
            ReadingCols(width, orig, i + 1, done + [col.value], col.rest, goal)
  {
    assert orig[i..][0] == orig[i] && orig[i..][1..] == orig[i + 1..];
    var col := DecodeColumn(width, orig[i], bits).value;
    var rest := DecodeCols(width, orig[i + 1..], col.rest).value.value;
    assert (done + [col.value]) + rest == done + ([col.value] + rest);
  }

  method ReadColumns(width: nat, orig: seq<Column>, reader: BitReader, foundations: array<nat>, ret: Board,
                     ghost cells: seq<Option<Card>>)
    requires foundations.Length == 4 && DecodeCols(width, orig, reader.rest).Some? && |ret.cols| == |orig|
    requires Seen(foundations[..], cells, [], [])
    modifies reader, foundations, ret
    ensures DecodeCols(width, orig, old(reader.rest)) == Some(Parsed(ret.cols, reader.rest))
    ensures Seen(foundations[..], cells, ret.cols, []) && ret.cells == old(ret.cells)
  {
    ghost var goal := DecodeCols(width, orig, reader.rest).value;
    assert orig[0..] == orig;
    for colIdx := 0 to |orig|
      invariant |ret.cols| == |orig| && ret.cells == old(ret.cells)
      invariant ReadingCols(width, orig, colIdx, ret.cols[..colIdx], reader.rest, goal)
      invariant Seen(foundations[..], cells, ret.cols[..colIdx], [])
    {
      ghost var done := ret.cols[..colIdx];
      NextColumn(width, orig, colIdx, done, reader.rest, goal);
      var col := ReadColumn(width, orig[colIdx], reader, foundations, cells, done);
      SeenColumn(foundations[..], cells, done, col);
      ret.cols := ret.cols[colIdx := col];
      assert ret.cols[..colIdx + 1] == done + [col];
    }
    assert ret.cols[..|orig|] == ret.cols && orig[|orig|..] == [];
    assert ret.cols + [] == ret.cols;
  }

  ghost predicate ReadingCells(left: nat, done: seq<Option<Card>>, bits: Bits, goal: Parsed<seq<Option<Card>>>) {
    && DecodeCells(left, bits).Some?
    && done + DecodeCells(left, bits).value.value == goal.value && DecodeCells(left, bits).value.rest == goal.rest
  }

  lemma NextCell(left: nat, done: seq<Option<Card>>, bits: Bits, goal: Parsed<seq<Option<Card>>>)
    requires left > 0 && ReadingCells(left, done, bits, goal)
    ensures |bits| >= 6 && ReadingCells(left - 1, done + [CardOf(FromBits(bits[..6]))], bits[6..], goal)
  {
    var x := CardOf(FromBits(bits[..6]));
    var rest := DecodeCells(left - 1, bits[6..]).value.value;
    assert (done + [x]) + rest == done + ([x] + rest);
  }

  method ReadCell(reader: BitReader, foundations: array<nat>, ghost done: seq<Option<Card>>)
    returns (card: Option<Card>)
    requires foundations.Length == 4 && |reader.rest| >= 6 && Seen(foundations[..], done, [], [])
    modifies reader, foundations
    ensures card == CardOf(FromBits(old(reader.rest)[..6])) && reader.rest == old(reader.rest)[6..]
    ensures Seen(foundations[..], done + [card], [], [])
  {
    var number := reader.Read(6);
    card := CardOf(number);
    SeenCell(foundations[..], done, card);
    if card.Some? { ProcessCard(foundations, card.value); }
  }

  method ReadCells(reader: BitReader, foundations: array<nat>, ret: Board)
    requires foundations.Length == 4 && DecodeCells(|ret.cells|, reader.rest).Some?
    requires Seen(foundations[..], [], [], [])
    modifies reader, foundations, ret
    ensures DecodeCells(|old(ret.cells)|, old(reader.rest)) == Some(Parsed(ret.cells, reader.rest))
    ensures Seen(foundations[..], ret.cells, [], []) && ret.cols == old(ret.cols)
  {
    ghost var goal := DecodeCells(|ret.cells|, reader.rest).value;
    for i := 0 to |ret.cells|
      invariant |ret.cells| == |old(ret.cells)| && ret.cols == old(ret.cols)
      invariant ReadingCells(|ret.cells| - i, ret.cells[..i], reader.rest, goal)
      invariant Seen(foundations[..], ret.cells[..i], [], [])
    {
      ghost var done := ret.cells[..i];
      NextCell(|ret.cells| - i, done, reader.rest, goal);
      var card := ReadCell(reader, foundations, done);
      ret.cells := ret.cells[i := card];
      assert ret.cells[..i + 1] == done + [card];
    }
    assert ret.cells[..|ret.cells|] == ret.cells && ret.cells + [] == ret.cells;
  }

  class Stater {
    const init: Position
    var width: nat

    // The width that holds the greatest count of original cards.
    constructor (init: Position)
      ensures this.init == init && width == Width(init)
    {
      this.init := init;
      width := 0;
      new;
      var maxNumCards: nat := 0;
      for i := 0 to |init.cols|
        invariant this.init == init && width == 0 && maxNumCards == MaxOrig(init.cols[..i])
      {
        var numCards := GetColumnOrigNumCards(init.cols[i]);
        MaxOrigPrefix(init.cols, i);
        if numCards > maxNumCards { maxNumCards := numCards; }
      }
      assert init.cols[..|init.cols|] == init.cols;
      var bitmask: nat := 1;
      while bitmask <= maxNumCards
        invariant this.init == init && bitmask == Pow2(width) && (width > 0 ==> Pow2(width - 1) <= maxNumCards)
        decreases maxNumCards - bitmask
      {
        width := width + 1;
        bitmask := bitmask * 2;
      }
      LeastWidth(maxNumCards, width);
    }

    method EncodeComposite(s: Position, bitW: BitWriter)
      requires FullDeck(s)
      modifies bitW
      ensures bitW.bits == old(bitW.bits) + Encode(width, s)
    {
      BasesDiffer(s);
      EncodedParts(width, s, CellsBits(Sort(s.cells, CellChar)), ColsBits(width, Arrange(s.cols)), bitW.bits);
      GetFreecellsEncoding(s.cells, bitW);
      EncodeColumns(width, s.cols, bitW);
    }

    // Rebuilds a position into a board of the deal's size.
    method DecodeInto(reader: BitReader, ret: Board)
      requires width == Width(init) && Decode(init, reader.rest).Some?
      requires |ret.cols| == |init.cols| && |ret.cells| == |init.cells|
      modifies reader, ret
      ensures Decode(init, old(reader.rest)) == Some(ret.Pos())
    {
      var foundations := new nat[4](_ => KING + 1);
      assert Seen(foundations[..], [], [], []);
      ReadCells(reader, foundations, ret);
      ReadColumns(width, init.cols, reader, foundations, ret, ret.cells);
      SetHome(foundations, ret);
    }
  }

  method SetHome(foundations: array<nat>, ret: Board)
    requires foundations.Length == 4 && Seen(foundations[..], ret.cells, ret.cols, [])
    modifies ret
    ensures ret.found == HomeBelow(ret.cols, ret.cells) && ret.cols == old(ret.cols) && ret.cells == old(ret.cells)
  {
    SeenHome(foundations[..], ret.cells, ret.cols);
    ret.found := [foundations[0] - 1, foundations[1] - 1, foundations[2] - 1, foundations[3] - 1];
  }

  lemma SeenHome(f: seq<nat>, cells: seq<Option<Card>>, cols: seq<Column>)
    requires Seen(f, cells, cols, [])
    ensures forall u: Suit :: f[u] > 0
    ensures [f[0] - 1, f[1] - 1, f[2] - 1, f[3] - 1] == HomeBelow(cols, cells)
  {
    forall u: Suit ensures f[u] > 0 && f[u] - 1 == HomeBelow(cols, cells)[u] {
      assert LowestIn([], u) == KING + 1;
    }
  }
}
