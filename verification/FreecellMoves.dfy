/**
 The moves of the general solver that take several cards: cards in the way are parked on vacant
 freecells and columns, then a sequence moves. Each new state comes with the moves that build it.
 */
module FreecellMoves {
  import opened Cards
  import opened Numbers
  import opened Shuffles
  import opened Positions
  import opened Arranging
  import opened PositionsByRank
  import opened Sequences

  // ---- Replaying recorded moves ----

  ghost function PlayAll(s: Position, moves: seq<SolverMove>): Option<Position> {
    if moves == [] then Some(s)
    else
      match PlayAll(s, moves[..|moves| - 1])
      case None => None
      case Some(t) =>
        var m := moves[|moves| - 1];
        if CanPlay(t, m) then Some(Play(t, m)) else None
  }

  lemma PlayOneMore(s: Position, moves: seq<SolverMove>, t: Position, m: SolverMove)
    requires PlayAll(s, moves) == Some(t) && CanPlay(t, m)
    ensures PlayAll(s, moves + [m]) == Some(Play(t, m))
  {
    assert (moves + [m])[..|moves|] == moves;
  }

  // Taking the block off one column and putting it on the other.
  lemma SequencePlayed(s: Position, src: nat, dst: nat, num: nat)
    requires CanPlay(s, ColToCol(src, dst, num))
    ensures src < |s.cols| && dst < |s.cols| && src != dst && num <= |s.cols[src]|
    ensures var n := |s.cols[src]| - num;
            var off := s.(cols := s.cols[src := s.cols[src][..n]]);
            Play(s, ColToCol(src, dst, num)) == off.(cols := off.cols[dst := off.cols[dst] + s.cols[src][n..]])
  {
  }

  // The replay keeps every card, and single-card moves can carry it out.
  lemma {:induction false} PlayAllIsPlay(s: Position, moves: seq<SolverMove>, t: Position) returns (steps: seq<Move>)
    requires FullDeck(s) && PlayAll(s, moves) == Some(t)
    ensures FullDeck(t) && Reaches(s, steps, t)
    decreases |moves|
  {
    steps := [];
    if moves != [] {
      var before, m := PlayAll(s, moves[..|moves| - 1]).value, moves[|moves| - 1];
      steps := PlayAllIsPlay(s, moves[..|moves| - 1], before);
      PlayKeepsDeck(before, m);
      var last := PlayIsPlay(before, m);
      ReachesJoin(s, steps, before, last, t);
      steps := steps + last;
    }
  }

  // ---- Vacant places ----

  function VacantFreecells(s: Position): nat {
    VacantCells(s.cells, |s.cells|)
  }

  function VacantStacks(s: Position): nat {
    VacantCols(s.cols, |s.cols|, |s.cols|)
  }

  lemma VacantPlacesAre(s: Position)
    ensures VacantFreecells(s) == |VacantCellSet(s)| && VacantStacks(s) == |EmptyColumnSet(s)|
  {
    VacantCellsCounts(s.cells, |s.cells|);
    VacantColsCounts(s.cols, |s.cols|, |s.cols|);
    assert VacantCellSet(s) == Below(|s.cells|, IsVacantCell(s.cells));
    assert EmptyColumnSet(s) == Below(|s.cols|, IsVacantCol(s.cols, |s.cols|));
  }

  lemma CapacityOf(s: Position, dst: nat)
    requires dst < |s.cols|
    ensures s.cols[dst] != [] ==> Capacity(s, dst) == CalcMaxSequenceMove(VacantFreecells(s), VacantStacks(s))
    ensures s.cols[dst] == [] ==>
              VacantStacks(s) > 0 && Capacity(s, dst) == CalcMaxSequenceMove(VacantFreecells(s), VacantStacks(s) - 1)
  {
    OtherDestination(s.cols, |s.cols|, dst, |s.cols|);
  }

  // How many cards can move as a sequence.
  function CalcMaxSequenceMove(freecells: nat, emptyCols: nat): (max: nat)
    ensures max > 0
  {
    (freecells + 1) * Pow2(emptyCols)
  }

  // Whether `start` cards can be parked such that `len` cards can still move as a sequence.
  function CheckIfCanRelocate(start: nat, freecells: nat, stacks: nat, len: nat): bool {
    var freecellsToFill := Min(start, freecells);
    var rest := start - freecellsToFill;
    var stacksToFill := Min(rest, stacks);
    rest - stacksToFill == 0 && CalcMaxSequenceMove(freecells - freecellsToFill, stacks - stacksToFill) >= len
  }

  function Sum(left: seq<nat>): nat {
    if left == [] then 0 else Sum(left[..|left| - 1]) + left[|left| - 1]
  }

  lemma {:induction false} SumUpdate(left: seq<nat>, k: nat, x: nat)
    requires k < |left|
    ensures Sum(left[k := x]) == Sum(left) - left[k] + x
    ensures left[k] <= Sum(left)
  {
    var n := |left| - 1;
    if k == n { assert left[k := x][..n] == left[..n]; }
    else {
      SumUpdate(left[..n], k, x);
      assert left[k := x][..n] == left[..n][k := x];
    }
  }

  lemma OneLess(left: seq<nat>, k: nat)
    requires k < |left| && left[k] > 0
    ensures Sum(left[k := left[k] - 1]) + 1 == Sum(left)
  {
    SumUpdate(left, k, left[k] - 1);
  }

  lemma {:induction false} SumZero(left: seq<nat>)
    requires forall k :: 0 <= k < |left| ==> left[k] == 0
    ensures Sum(left) == 0
  {
    if left == [] {
    } else {
      SumZero(left[..|left| - 1]);
    }
  }

  lemma {:induction false} NoVacantCell(cells: seq<Option<Card>>, n: nat)
    requires n <= |cells| && forall j :: 0 <= j < n ==> cells[j].Some?
    ensures VacantCells(cells, n) == 0
  {
    if n == 0 {
    } else {
      NoVacantCell(cells, n - 1);
    }
  }

  lemma {:induction false} NoVacantCol(cols: seq<Column>, n: nat)
    requires n <= |cols| && forall i :: 0 <= i < n ==> cols[i] != []
    ensures VacantCols(cols, |cols|, n) == 0
  {
    if n == 0 {
    } else {
      NoVacantCol(cols, n - 1);
    }
  }

  // ---- Parking the cards in the way ----

  // The columns named have lost their last cards, except for those still left to park.
  ghost predicate Emptying(s: Position, t: Position, idx: seq<nat>, nums: seq<nat>, left: seq<nat>) {
    && |t.cols| == |s.cols| && |t.cells| == |s.cells| && t.found == s.found
    && |nums| == |idx| && |left| == |idx|
    && (forall k {:trigger ColumnEmptying(s, t, idx, nums, left, k)} :: 0 <= k < |idx| ==>
         ColumnEmptying(s, t, idx, nums, left, k))
    && (forall i {:trigger ColumnKept(s, t, idx, i)} :: 0 <= i < |s.cols| ==> ColumnKept(s, t, idx, i))
  }

  ghost predicate ColumnEmptying(s: Position, t: Position, idx: seq<nat>, nums: seq<nat>, left: seq<nat>, k: nat)
    requires |t.cols| == |s.cols| && |nums| == |idx| && |left| == |idx| && k < |idx|
  {
    && idx[k] < |s.cols| && left[k] <= nums[k] < |s.cols[idx[k]]|
    && t.cols[idx[k]] == s.cols[idx[k]][..|s.cols[idx[k]]| - nums[k] + left[k]]
  }

  ghost predicate ColumnKept(s: Position, t: Position, idx: seq<nat>, i: nat)
    requires |t.cols| == |s.cols| && i < |s.cols|
  {
    i !in idx && s.cols[i] != [] ==> t.cols[i] == s.cols[i]
  }

  // `num` cards are parked, `inStacks` of them in columns, which happens only when the freecells are
  // full; `to` is past the last of these columns, and `last` is the place used last.
  ghost predicate Parked(s: Position, t: Position, num: nat, inStacks: nat, to: nat, last: Option<Place>) {
    && |t.cols| == |s.cols| && inStacks <= num
    && VacantFreecells(t) + (num - inStacks) == VacantFreecells(s) && VacantStacks(t) + inStacks == VacantStacks(s)
    && (inStacks > 0 ==> VacantFreecells(t) == 0 && last.Some? && last.value.Col? && last.value.i + 1 == to)
    && (inStacks == 0 ==> to == 0 && (last.Some? ==> last.value.Cell?) && (num == 0 <==> last == None))
    && (forall i :: to <= i < |s.cols| && s.cols[i] == [] ==> t.cols[i] == [])
    && to <= |t.cols| && forall i :: 0 <= i < to ==> t.cols[i] != []
  }

  // The freecells are used first.
  ghost predicate ParkedAll(s: Position, t: Position, num: nat, last: Option<Place>) {
    var inStacks := num - Min(num, VacantFreecells(s));
    exists to :: Parked(s, t, num, inStacks, to, last)
  }

  lemma AllParked(s: Position, t: Position, num: nat, inStacks: nat, to: nat, last: Option<Place>)
    requires Parked(s, t, num, inStacks, to, last)
    ensures ParkedAll(s, t, num, last)
  {
    assert Parked(s, t, num, num - Min(num, VacantFreecells(s)), to, last);
  }

  lemma ToFreecellKeeps(s: Position, t: Position, idx: seq<nat>, nums: seq<nat>, left: seq<nat>, k: nat, fc: nat,
                        num: nat, last: Option<Place>)
    requires Distinct(idx) && Emptying(s, t, idx, nums, left) && k < |left| && left[k] > 0
    requires fc < |t.cells| && t.cells[fc] == None && Parked(s, t, num, 0, 0, last)
    ensures idx[k] < |t.cols| && t.cols[idx[k]] != []
    ensures var t' := Apply(t, Move(Col(idx[k]), Cell(fc)));
            && Emptying(s, t', idx, nums, left[k := left[k] - 1])
            && Parked(s, t', num + 1, 0, 0, Some(Cell(fc)))
  {
    assert ColumnEmptying(s, t, idx, nums, left, k);
    var t' := Apply(t, Move(Col(idx[k]), Cell(fc)));
    PoppedKeeps(s, t, t', idx, nums, left, k);
    VacantCellsUpdate(t.cells, |t.cells|, fc, t'.cells[fc]);
    VacantColsUpdate(t.cols, |t.cols|, |t.cols|, idx[k], t'.cols[idx[k]]);
  }

  lemma ToStackKeeps(s: Position, t: Position, idx: seq<nat>, nums: seq<nat>, left: seq<nat>, k: nat, from: nat,
                     to: nat,
                     num: nat, inStacks: nat, last: Option<Place>)
    requires Distinct(idx) && Emptying(s, t, idx, nums, left) && k < |left| && left[k] > 0
    requires from <= to < |t.cols| && t.cols[to] == [] && forall i :: from <= i < to ==> t.cols[i] != []
    requires VacantFreecells(t) == 0 && Parked(s, t, num, inStacks, from, last)
    ensures idx[k] < |t.cols| && t.cols[idx[k]] != []
    ensures var t' := Apply(t, Move(Col(idx[k]), Col(to)));
            && Emptying(s, t', idx, nums, left[k := left[k] - 1])
            && Parked(s, t', num + 1, inStacks + 1, to + 1, Some(Col(to)))
            && t'.cols[idx[k]] != []
  {
    assert ColumnEmptying(s, t, idx, nums, left, k);
    var t' := Apply(t, Move(Col(idx[k]), Col(to)));
    var popped := t.cols[idx[k] := t.cols[idx[k]][..|t.cols[idx[k]]| - 1]];
    PoppedKeeps(s, t, t', idx, nums, left, k);
    VacantColsUpdate(t.cols, |t.cols|, |t.cols|, idx[k], popped[idx[k]]);
    VacantColsUpdate(popped, |t.cols|, |t.cols|, to, t'.cols[to]);
  }

  // Taking the last card of a named column.
  lemma PoppedKeeps(s: Position, t: Position, t': Position, idx: seq<nat>, nums: seq<nat>, left: seq<nat>, k: nat)
    requires Distinct(idx) && Emptying(s, t, idx, nums, left) && k < |left| && left[k] > 0 && idx[k] < |t.cols|
    requires |t'.cols| == |t.cols| && |t'.cells| == |t.cells| && t'.found == t.found
    requires t.cols[idx[k]] != [] ==> t'.cols[idx[k]] == t.cols[idx[k]][..|t.cols[idx[k]]| - 1]
    requires forall i :: 0 <= i < |t.cols| && i != idx[k] && t.cols[i] != [] ==> t'.cols[i] == t.cols[i]
    ensures Emptying(s, t', idx, nums, left[k := left[k] - 1]) && t'.cols[idx[k]] != []
  {
    assert ColumnEmptying(s, t, idx, nums, left, k);
    var left' := left[k := left[k] - 1];
    forall l | 0 <= l < |idx| ensures ColumnEmptying(s, t', idx, nums, left', l) {
      assert ColumnEmptying(s, t, idx, nums, left, l);
      assert l != k ==> idx[l] != idx[k];
    }
    forall i | 0 <= i < |s.cols| ensures ColumnKept(s, t', idx, i) {
      assert ColumnKept(s, t, idx, i);
      assert idx[k] in idx;
    }
  }

  lemma VacantFrom(cols: seq<Column>, to: nat)
    requires to <= |cols| && VacantCols(cols, |cols|, |cols|) > 0 && forall j :: 0 <= j < to ==> cols[j] != []
    ensures exists k :: to <= k < |cols| && cols[k] == []
  {
    var w := FindVacantCol(cols, |cols|, |cols|);
  }

  // Wherever the search for places starts, every card left is parked when there are as many vacant places.
  lemma {:induction false} ParkRest(s: Position, t: Position, idx: seq<nat>, nums: seq<nat>, left: seq<nat>, num: nat,
                                    inStacks: nat, to: nat, last: Option<Place>)
    returns (u: Position, last': Option<Place>)
    requires Distinct(idx) && Emptying(s, t, idx, nums, left) && Parked(s, t, num, inStacks, to, last)
    requires Sum(left) <= VacantFreecells(t) + VacantStacks(t)
    ensures Emptying(s, u, idx, nums, seq(|idx|, _ => 0)) && ParkedAll(s, u, num + Sum(left), last')
    decreases Sum(left)
  {
    if k: nat :| k < |left| && left[k] > 0 {
      OneLess(left, k);
      var t', inStacks', to', here := ParkNext(s, t, idx, nums, left, num, inStacks, to, last, k);
      u, last' := ParkRest(s, t', idx, nums, left[k := left[k] - 1], num + 1, inStacks', to', here);
    } else {
      SumZero(left);
      AllParked(s, t, num, inStacks, to, last);
      assert left == seq(|idx|, _ => 0);
      u, last' := t, last;
    }
  }

  lemma ParkNext(s: Position, t: Position, idx: seq<nat>, nums: seq<nat>, left: seq<nat>, num: nat, inStacks: nat,
                 to: nat, last: Option<Place>, k: nat)
    returns (t': Position, inStacks': nat, to': nat, here: Option<Place>)
    requires Distinct(idx) && Emptying(s, t, idx, nums, left) && Parked(s, t, num, inStacks, to, last)
    requires k < |left| && left[k] > 0 && VacantFreecells(t) + VacantStacks(t) > 0
    ensures Emptying(s, t', idx, nums, left[k := left[k] - 1]) && Parked(s, t', num + 1, inStacks', to', here)
    ensures VacantFreecells(t') + VacantStacks(t') + 1 == VacantFreecells(t) + VacantStacks(t)
  {
    if VacantFreecells(t) > 0 {
      var fc := FindVacantCell(t.cells, |t.cells|);
      ToFreecellKeeps(s, t, idx, nums, left, k, fc, num, last);
      t', inStacks', to', here := Apply(t, Move(Col(idx[k]), Cell(fc))), 0, 0, Some(Cell(fc));
    } else {
      var w := FirstVacantFrom(t.cols, to);
      ToStackKeeps(s, t, idx, nums, left, k, to, w, num, inStacks, last);
      t', inStacks', to', here := Apply(t, Move(Col(idx[k]), Col(w))), inStacks + 1, w + 1, Some(Col(w));
    }
  }

  lemma FirstVacantFrom(cols: seq<Column>, from: nat) returns (w: nat)
    requires from <= |cols| && VacantCols(cols, |cols|, |cols|) > 0 && forall j :: 0 <= j < from ==> cols[j] != []
    ensures from <= w < |cols| && cols[w] == [] && forall j :: from <= j < w ==> cols[j] != []
  {
    VacantFrom(cols, from);
    w := from;
    while cols[w] != []
      invariant from <= w && exists k :: w <= k < |cols| && cols[k] == []
      invariant forall j :: from <= j < w ==> cols[j] != []
      decreases |cols| - w
    {
      w := w + 1;
    }
  }

  // ---- Which card is parked where ----

  // The last n cards of the column, from the last one back.
  function Backwards(col: Column, n: nat): seq<Card>
    requires n <= |col|
  {
    if n == 0 then [] else Backwards(col, n - 1) + [col[|col| - n]]
  }

  ghost predicate CanTake(s: Position, idx: seq<nat>, nums: seq<nat>, left: seq<nat>) {
    && |nums| == |idx| && |left| == |idx|
    && forall l :: 0 <= l < |idx| ==> idx[l] < |s.cols| && left[l] <= nums[l] < |s.cols[idx[l]]|
  }

  // The cards taken so far, one column after the other.
  ghost function TakenCards(s: Position, idx: seq<nat>, nums: seq<nat>, left: seq<nat>): seq<Card>
    requires CanTake(s, idx, nums, left)
  {
    if idx == [] then []
    else Backwards(s.cols[idx[0]], nums[0] - left[0]) + TakenCards(s, idx[1..], nums[1..], left[1..])
  }

  // The columns after the k-th have not been touched.
  ghost predicate Untouched(nums: seq<nat>, left: seq<nat>, k: nat) {
    |nums| == |left| && forall l :: k < l < |left| ==> left[l] == nums[l]
  }

  lemma {:induction false} NothingTaken(s: Position, idx: seq<nat>, nums: seq<nat>)
    requires CanTake(s, idx, nums, nums)
    ensures TakenCards(s, idx, nums, nums) == []
  {
    if idx != [] { NothingTaken(s, idx[1..], nums[1..]); }
  }

  lemma {:induction false} TakesNext(s: Position, idx: seq<nat>, nums: seq<nat>, left: seq<nat>, k: nat)
    requires CanTake(s, idx, nums, left) && k < |left| && left[k] > 0 && Untouched(nums, left, k)
    ensures CanTake(s, idx, nums, left[k := left[k] - 1])
    ensures TakenCards(s, idx, nums, left[k := left[k] - 1]) == TakenCards(s, idx, nums, left)
              + [s.cols[idx[k]][|s.cols[idx[k]]| - nums[k] + left[k] - 1]]
  {
    if k == 0 {
      TakesFirst(s, idx, nums, left);
    } else {
      var first := Backwards(s.cols[idx[0]], nums[0] - left[0]);
      assert left[k := left[k] - 1][1..] == left[1..][k - 1 := left[k] - 1];
      TakesNext(s, idx[1..], nums[1..], left[1..], k - 1);
      Bracketed(first, TakenCards(s, idx[1..], nums[1..], left[1..]),
                s.cols[idx[k]][|s.cols[idx[k]]| - nums[k] + left[k] - 1]);
    }
  }

  lemma TakesFirst(s: Position, idx: seq<nat>, nums: seq<nat>, left: seq<nat>)
    requires CanTake(s, idx, nums, left) && left != [] && left[0] > 0 && Untouched(nums, left, 0)
    ensures CanTake(s, idx, nums, left[0 := left[0] - 1])
    ensures TakenCards(s, idx, nums, left[0 := left[0] - 1]) == TakenCards(s, idx, nums, left)
              + [s.cols[idx[0]][|s.cols[idx[0]]| - nums[0] + left[0] - 1]]
  {
    assert left[1..] == nums[1..] && left[0 := left[0] - 1][1..] == nums[1..];
    NothingTaken(s, idx[1..], nums[1..]);
    Bracketed(Backwards(s.cols[idx[0]], nums[0] - left[0]), [],
              s.cols[idx[0]][|s.cols[idx[0]]| - nums[0] + left[0] - 1]);
  }

  lemma Bracketed(a: seq<Card>, b: seq<Card>, c: Card)
    ensures (a + b) + [c] == a + (b + [c])
  {
  }

  // The r-th vacant freecell takes the r-th card, and when they are full the empty columns go on.
  ghost predicate InTurn(s: Position, t: Position, taken: seq<Card>) {
    && |t.cells| == |s.cells| && |t.cols| == |s.cols|
    && (forall j {:trigger t.cells[j]} :: 0 <= j < |s.cells| ==> t.cells[j] == CellAfter(s, taken, j))
    && forall i {:trigger t.cols[i]} :: 0 <= i < |s.cols| && s.cols[i] == [] ==> t.cols[i] == ColumnAfter(s, taken, i)
  }

  ghost function CellAfter(s: Position, taken: seq<Card>, j: nat): Option<Card>
    requires j < |s.cells|
  {
    var r := VacantCells(s.cells, j);
    if s.cells[j] == None && r < |taken| then Some(taken[r]) else s.cells[j]
  }

  ghost function ColumnAfter(s: Position, taken: seq<Card>, i: nat): Column
    requires i < |s.cols|
  {
    var r := VacantFreecells(s) + VacantCols(s.cols, |s.cols|, i);
    if r < |taken| then [taken[r]] else []
  }

  lemma {:induction false} NthVacantCell(cells: seq<Option<Card>>, n: nat, r: nat) returns (j: nat)
    requires n <= |cells| && r < VacantCells(cells, n)
    ensures j < n && cells[j] == None && VacantCells(cells, j) == r
  {
    if cells[n - 1] == None && VacantCells(cells, n - 1) == r {
      j := n - 1;
    } else {
      j := NthVacantCell(cells, n - 1, r);
    }
  }

  lemma {:induction false} NthVacantCol(cols: seq<Column>, n: nat, r: nat) returns (i: nat)
    requires n <= |cols| && r < VacantCols(cols, |cols|, n)
    ensures i < n && cols[i] == [] && VacantCols(cols, |cols|, i) == r
  {
    if cols[n - 1] == [] && VacantCols(cols, |cols|, n - 1) == r {
      i := n - 1;
    } else {
      i := NthVacantCol(cols, n - 1, r);
    }
  }

  lemma {:induction false} CellsCountUp(cells: seq<Option<Card>>, j: nat, n: nat)
    requires j < n <= |cells|
    ensures VacantCells(cells, j) + (if cells[j] == None then 1 else 0) <= VacantCells(cells, n)
  {
    if j < n - 1 { CellsCountUp(cells, j, n - 1); }
  }

  lemma {:induction false} ColsCountUp(cols: seq<Column>, i: nat, n: nat)
    requires i < n <= |cols|
    ensures VacantCols(cols, |cols|, i) + (if cols[i] == [] then 1 else 0) <= VacantCols(cols, |cols|, n)
  {
    if i < n - 1 { ColsCountUp(cols, i, n - 1); }
  }

  lemma NotTakenYet(s: Position, t: Position, taken: seq<Card>, j: nat)
    requires InTurn(s, t, taken) && j < |s.cells| && s.cells[j] == None && VacantCells(s.cells, j) == |taken|
    ensures t.cells[j] == None && VacantFreecells(t) > 0
  {
    assert t.cells[j] == CellAfter(s, taken, j);
    CellsCountUp(t.cells, j, |t.cells|);
  }

  lemma NotFilledYet(s: Position, t: Position, taken: seq<Card>, i: nat)
    requires InTurn(s, t, taken) && i < |s.cols| && s.cols[i] == []
    requires VacantFreecells(s) + VacantCols(s.cols, |s.cols|, i) == |taken|
    ensures t.cols[i] == []
  {
    assert t.cols[i] == ColumnAfter(s, taken, i);
  }

  lemma CellIsNext(s: Position, t: Position, taken: seq<Card>, fc: nat)
    requires InTurn(s, t, taken) && fc < |t.cells| && t.cells[fc] == None && FullUpTo(t.cells, fc)
    ensures s.cells[fc] == None && VacantCells(s.cells, fc) == |taken| < VacantFreecells(s)
  {
    assert t.cells[fc] == CellAfter(s, taken, fc);
    if VacantCells(s.cells, fc) > |taken| {
      var j := NthVacantCell(s.cells, fc, |taken|);
      NotTakenYet(s, t, taken, j);
      assert false;
    }
    CellsCountUp(s.cells, fc, |s.cells|);
  }

  lemma ToCellInTurn(s: Position, t: Position, taken: seq<Card>, fc: nat, c: Card, t': Position)
    requires InTurn(s, t, taken) && fc < |t.cells| && t.cells[fc] == None && FullUpTo(t.cells, fc)
    requires t'.cells == t.cells[fc := Some(c)] && |t'.cols| == |t.cols|
    requires forall i :: 0 <= i < |s.cols| && s.cols[i] == [] ==> t'.cols[i] == t.cols[i]
    ensures InTurn(s, t', taken + [c])
  {
    CellIsNext(s, t, taken, fc);
    forall j {:trigger t'.cells[j]} | 0 <= j < |s.cells| ensures t'.cells[j] == CellAfter(s, taken + [c], j) {
      assert t.cells[j] == CellAfter(s, taken, j);
      if j < fc { CellsCountUp(s.cells, j, fc); }
      if j > fc { CellsCountUp(s.cells, fc, j); }
    }
    forall i {:trigger t'.cols[i]} | 0 <= i < |s.cols| && s.cols[i] == []
      ensures t'.cols[i] == ColumnAfter(s, taken + [c], i)
    {
      assert t.cols[i] == ColumnAfter(s, taken, i);
    }
  }

  lemma ColumnIsNext(s: Position, t: Position, taken: seq<Card>, to: nat)
    requires InTurn(s, t, taken) && VacantFreecells(t) == 0 && to < |s.cols| && s.cols[to] == [] && t.cols[to] == []
    requires forall i :: 0 <= i < to ==> t.cols[i] != []
    ensures VacantFreecells(s) + VacantCols(s.cols, |s.cols|, to) == |taken|
  {
    assert t.cols[to] == ColumnAfter(s, taken, to);
    if VacantFreecells(s) > |taken| {
      var j := NthVacantCell(s.cells, |s.cells|, |taken|);
      NotTakenYet(s, t, taken, j);
      assert false;
    }
    if VacantFreecells(s) + VacantCols(s.cols, |s.cols|, to) > |taken| {
      var i := NthVacantCol(s.cols, to, |taken| - VacantFreecells(s));
      NotFilledYet(s, t, taken, i);
      assert false;
    }
  }

  lemma ToColumnInTurn(s: Position, t: Position, taken: seq<Card>, to: nat, c: Card, t': Position)
    requires InTurn(s, t, taken) && VacantFreecells(t) == 0 && to < |s.cols| && s.cols[to] == [] && t.cols[to] == []
    requires forall i :: 0 <= i < to ==> t.cols[i] != []
    requires t'.cells == t.cells && |t'.cols| == |t.cols|
    requires forall i :: 0 <= i < |s.cols| && s.cols[i] == [] ==> t'.cols[i] == if i == to then [c] else t.cols[i]
    ensures InTurn(s, t', taken + [c])
  {
    ColumnIsNext(s, t, taken, to);
    forall j {:trigger t'.cells[j]} | 0 <= j < |s.cells| ensures t'.cells[j] == CellAfter(s, taken + [c], j) {
      assert t.cells[j] == CellAfter(s, taken, j);
      CellsCountUp(s.cells, j, |s.cells|);
    }
    forall i {:trigger t'.cols[i]} | 0 <= i < |s.cols| && s.cols[i] == []
      ensures t'.cols[i] == ColumnAfter(s, taken + [c], i)
    {
      assert t.cols[i] == ColumnAfter(s, taken, i);
      if i < to { ColsCountUp(s.cols, i, to); }
      if i > to { ColsCountUp(s.cols, to, i); }
    }
  }

  predicate FullUpTo(cells: seq<Option<Card>>, n: nat) {
    n <= |cells| && forall j :: 0 <= j < n ==> cells[j].Some?
  }

  // All cards taken so far, from the column looked at and those before it, are parked in turn.
  ghost predicate ParkingInTurn(s: Position, t: Position, idx: seq<nat>, nums: seq<nat>, left: seq<nat>, k: nat) {
    forall n {:trigger TakenUpTo(s, t, idx, nums, left, n)} :: n == k ==> TakenUpTo(s, t, idx, nums, left, n)
  }

  ghost predicate TakenUpTo(s: Position, t: Position, idx: seq<nat>, nums: seq<nat>, left: seq<nat>, k: nat) {
    CanTake(s, idx, nums, left) && Untouched(nums, left, k) && InTurn(s, t, TakenCards(s, idx, nums, left))
  }

  lemma ParkingStarts(s: Position, idx: seq<nat>, nums: seq<nat>)
    requires Emptying(s, s, idx, nums, nums)
    ensures ParkingInTurn(s, s, idx, nums, nums, 0)
  {
    forall l | 0 <= l < |idx| ensures idx[l] < |s.cols| && nums[l] < |s.cols[idx[l]]| {
      assert ColumnEmptying(s, s, idx, nums, nums, l);
    }
    NothingTaken(s, idx, nums);
  }

  lemma ParkingGoesOn(s: Position, t: Position, idx: seq<nat>, nums: seq<nat>, left: seq<nat>, k: nat, k': nat)
    requires ParkingInTurn(s, t, idx, nums, left, k) && k <= k'
    ensures ParkingInTurn(s, t, idx, nums, left, k')
  {
    assert TakenUpTo(s, t, idx, nums, left, k);
  }

  lemma AllInTurn(s: Position, t: Position, idx: seq<nat>, nums: seq<nat>, left: seq<nat>, k: nat)
    requires ParkingInTurn(s, t, idx, nums, left, k)
    ensures CanTake(s, idx, nums, left) && InTurn(s, t, TakenCards(s, idx, nums, left))
  {
    assert TakenUpTo(s, t, idx, nums, left, k);
  }

  // The last card of the column looked at is the next one taken.
  lemma LastIsTaken(s: Position, t: Position, idx: seq<nat>, nums: seq<nat>, left: seq<nat>, k: nat) returns (c: Card)
    requires Emptying(s, t, idx, nums, left) && TakenUpTo(s, t, idx, nums, left, k) && k < |left| && left[k] > 0
    ensures idx[k] < |t.cols| && t.cols[idx[k]] != [] && c == Last(t.cols[idx[k]]) && s.cols[idx[k]] != []
    ensures var left' := left[k := left[k] - 1];
            && CanTake(s, idx, nums, left') && Untouched(nums, left', k)
            && TakenCards(s, idx, nums, left') == TakenCards(s, idx, nums, left) + [c]
  {
    assert ColumnEmptying(s, t, idx, nums, left, k);
    TakesNext(s, idx, nums, left, k);
    c := Last(t.cols[idx[k]]);
  }

  lemma CellParked(s: Position, t: Position, idx: seq<nat>, nums: seq<nat>, left: seq<nat>, k: nat, fc: nat)
    requires Emptying(s, t, idx, nums, left) && ParkingInTurn(s, t, idx, nums, left, k) && k < |left| && left[k] > 0
    requires fc < |t.cells| && t.cells[fc] == None && FullUpTo(t.cells, fc)
    ensures idx[k] < |t.cols| && t.cols[idx[k]] != []
    ensures ParkingInTurn(s, Apply(t, Move(Col(idx[k]), Cell(fc))), idx, nums, left[k := left[k] - 1], k)
  {
    assert TakenUpTo(s, t, idx, nums, left, k);
    var c := LastIsTaken(s, t, idx, nums, left, k);
    ToCellInTurn(s, t, TakenCards(s, idx, nums, left), fc, c, Apply(t, Move(Col(idx[k]), Cell(fc))));
  }

  lemma WasEmpty(s: Position, t: Position, idx: seq<nat>, nums: seq<nat>, left: seq<nat>, to: nat)
    requires Emptying(s, t, idx, nums, left) && to < |t.cols| && t.cols[to] == []
    ensures to < |s.cols| && s.cols[to] == []
  {
    assert ColumnKept(s, t, idx, to);
    if to in idx {
      var k :| 0 <= k < |idx| && idx[k] == to;
      NeverEmptied(s, t, idx, nums, left, k);
      assert false;
    }
  }

  lemma NeverEmptied(s: Position, t: Position, idx: seq<nat>, nums: seq<nat>, left: seq<nat>, k: nat)
    requires Emptying(s, t, idx, nums, left) && k < |idx|
    ensures idx[k] < |t.cols| && t.cols[idx[k]] != []
  {
    assert ColumnEmptying(s, t, idx, nums, left, k);
  }

  lemma ColumnParked(s: Position, t: Position, idx: seq<nat>, nums: seq<nat>, left: seq<nat>, k: nat, to: nat)
    requires Emptying(s, t, idx, nums, left) && ParkingInTurn(s, t, idx, nums, left, k) && k < |left| && left[k] > 0
    requires VacantFreecells(t) == 0 && to < |t.cols| && t.cols[to] == [] && forall i :: 0 <= i < to ==> t.cols[i] != []
    ensures idx[k] < |t.cols| && t.cols[idx[k]] != []
    ensures ParkingInTurn(s, Apply(t, Move(Col(idx[k]), Col(to))), idx, nums, left[k := left[k] - 1], k)
  {
    assert TakenUpTo(s, t, idx, nums, left, k);
    var c := LastIsTaken(s, t, idx, nums, left, k);
    WasEmpty(s, t, idx, nums, left, to);
    ToColumnInTurn(s, t, TakenCards(s, idx, nums, left), to, c, Apply(t, Move(Col(idx[k]), Col(to))));
  }

  // With the freecells full, some of the cards are on columns that were vacant, and there is one for each left.
  ghost predicate Stacked(s: Position, t: Position, idx: seq<nat>, nums: seq<nat>, start: seq<nat>, left: seq<nat>,
                          to: nat, last: Option<Place>) {
    && Emptying(s, t, idx, nums, left) && Sum(left) <= Sum(start) <= Sum(nums)
    && Parked(s, t, Sum(nums) - Sum(left), Sum(start) - Sum(left), to, last)
    && Sum(left) <= VacantStacks(t) && (Sum(left) == 0 || VacantFreecells(t) == 0)
  }

  lemma AllStacked(s: Position, t: Position, idx: seq<nat>, nums: seq<nat>, start: seq<nat>, left: seq<nat>,
                   to: nat, last: Option<Place>)
    requires Stacked(s, t, idx, nums, start, left, to, last) && forall l :: 0 <= l < |left| ==> left[l] == 0
    ensures left == seq(|idx|, _ => 0) && ParkedAll(s, t, Sum(nums), last)
  {
    SumZero(left);
    AllParked(s, t, Sum(nums), Sum(start), to, last);
  }

  class NewState {
    var pos: Position
    var moves: seq<SolverMove>

    ghost predicate Replays(orig: Position)
      reads this
    {
      PlayAll(orig, moves) == Some(pos)
    }

    constructor (s: Position)
      ensures pos == s && moves == [] && Replays(s)
    {
      pos, moves := s, [];
    }

    method PopToFreecell(col: nat, fc: nat, ghost orig: Position)
      requires col < |pos.cols| && pos.cols[col] != [] && fc < |pos.cells| && pos.cells[fc] == None && Replays(orig)
      modifies this
      ensures Replays(orig) && pos == Apply(old(pos), Move(Col(col), Cell(fc)))
    {
      PlayOneMore(orig, moves, pos, ColToCell(col, fc));
      var topCard := Last(pos.cols[col]);
      pos := pos.(cols := pos.cols[col := pos.cols[col][..|pos.cols[col]| - 1]]);
      pos := pos.(cells := pos.cells[fc := Some(topCard)]);
      moves := moves + [ColToCell(col, fc)];
    }

    method PopToStack(col: nat, to: nat, ghost orig: Position)
      requires col < |pos.cols| && pos.cols[col] != [] && to < |pos.cols| && pos.cols[to] == [] && Replays(orig)
      modifies this
      ensures Replays(orig) && pos == Apply(old(pos), Move(Col(col), Col(to)))
    {
      OneCardSequence(pos, col, to);
      PlayOneMore(orig, moves, pos, ColToCol(col, to, 1));
      var topCard := Last(pos.cols[col]);
      pos := pos.(cols := pos.cols[col := pos.cols[col][..|pos.cols[col]| - 1]]);
      pos := pos.(cols := pos.cols[to := pos.cols[to] + [topCard]]);
      moves := moves + [ColToCol(col, to, 1)];
    }

    // `after` is the position that playing the move leaves.
    method MoveSequence(dst: nat, src: nat, num: nat, ghost orig: Position, ghost after: Position)
      requires Becomes(pos, src, dst, num, after) && Replays(orig)
      modifies this
      ensures Replays(orig) && pos == after
    {
      ghost var m := ColToCol(src, dst, num);
      Become(pos, src, dst, num, after);
      PlayOneMore(orig, moves, pos, m);
      SequencePlayed(pos, src, dst, num);
      var n := |pos.cols[src]| - num;
      var block := pos.cols[src][n..];
      pos := pos.(cols := pos.cols[src := pos.cols[src][..n]]);
      pos := pos.(cols := pos.cols[dst := pos.cols[dst] + block]);
      moves := moves + [ColToCol(src, dst, num)];
    }

    // Parks the last card of a named column on the next vacant freecell if there is one.
    method ParkInFreecell(idx: seq<nat>, ghost nums: seq<nat>, ghost left: seq<nat>, k: nat, from: nat,
                          ghost num: nat, ghost last: Option<Place>, ghost s: Position,
                              ghost orig: Position) returns (fc: nat)
      requires Replays(orig) && Distinct(idx) && Emptying(s, pos, idx, nums, left) && k < |left| && left[k] > 0
      requires FullUpTo(pos.cells, from) && Parked(s, pos, num, 0, 0, last)
      requires ParkingInTurn(s, pos, idx, nums, left, k)
      modifies this
      ensures fc < |pos.cells| ==> ParkingInTurn(s, pos, idx, nums, left[k := left[k] - 1], k)
      ensures Replays(orig) && fc <= |pos.cells| && FullUpTo(pos.cells, if fc < |pos.cells| then fc + 1 else fc)
      ensures fc < |pos.cells| ==>
                Emptying(s, pos, idx, nums, left[k := left[k] - 1]) && Parked(s, pos, num + 1, 0, 0, Some(Cell(fc)))
      ensures fc == |pos.cells| ==> pos == old(pos) && VacantFreecells(pos) == 0
    {
      fc := FindVacantFreecell(from);
      if fc == |pos.cells| {
        NoVacantCell(pos.cells, fc);
        return;
      }
      ToFreecellKeeps(s, pos, idx, nums, left, k, fc, num, last);
      CellParked(s, pos, idx, nums, left, k, fc);
      PopToFreecell(idx[k], fc, orig);
    }

    // Parks the last card of a named column on the next vacant column.
    method ParkInStack(idx: seq<nat>, ghost nums: seq<nat>, ghost start: seq<nat>, ghost left: seq<nat>, k: nat,
                       from: nat, ghost last: Option<Place>, ghost s: Position, ghost orig: Position)
      returns (to: nat)
      requires Replays(orig) && Distinct(idx) && Stacked(s, pos, idx, nums, start, left, from, last)
      requires k < |left| && left[k] > 0 && ParkingInTurn(s, pos, idx, nums, left, k)
      modifies this
      ensures Replays(orig) && Stacked(s, pos, idx, nums, start, left[k := left[k] - 1], to + 1, Some(Col(to)))
      ensures ParkingInTurn(s, pos, idx, nums, left[k := left[k] - 1], k)
    {
      OneLess(left, k);
      VacantFrom(pos.cols, from);
      to := FindEmptyStack(pos.cols, from);
      ToStackKeeps(s, pos, idx, nums, left, k, from, to, Sum(nums) - Sum(left), Sum(start) - Sum(left), last);
      ColumnParked(s, pos, idx, nums, left, k, to);
      PopToStack(idx[k], to, orig);
    }

    // Parks cards of the named columns on the vacant freecells while there are any.
    method EmptyIntoFreecells(idx: seq<nat>, nums: seq<nat>, ghost orig: Position)
      returns (left: seq<nat>, k: nat, last: Option<Place>)
      requires Replays(orig) && Distinct(idx) && Emptying(pos, pos, idx, nums, nums)
      modifies this
      ensures Replays(orig) && Emptying(old(pos), pos, idx, nums, left) && k <= |left| && forall l :: 0 <= l < k ==>
                left[l] == 0
      ensures Sum(left) <= Sum(nums) && Parked(old(pos), pos, Sum(nums) - Sum(left), 0, 0, last)
      ensures Sum(left) == 0 || VacantFreecells(pos) == 0
      ensures ParkingInTurn(old(pos), pos, idx, nums, left, k)
    {
      ghost var s := pos;
      ParkingStarts(s, idx, nums);
      left, k, last := nums, 0, None;
      var fc := 0;
      while true
        invariant Replays(orig) && Emptying(s, pos, idx, nums, left) && k <= |left| && forall l :: 0 <= l < k ==>
                    left[l] == 0
        invariant FullUpTo(pos.cells, fc) && ParkingInTurn(s, pos, idx, nums, left, k)
        invariant Sum(left) <= Sum(nums) && Parked(s, pos, Sum(nums) - Sum(left), 0, 0, last)
        decreases Sum(left)
      {
        ghost var was := k;
        k := NextColumn(left, k);
        ParkingGoesOn(s, pos, idx, nums, left, was, k);
        if k == |left| {
          SumZero(left);
          break;
        }
        OneLess(left, k);
        fc := ParkInFreecell(idx, nums, left, k, fc, Sum(nums) - Sum(left), last, s, orig);
        if fc == |pos.cells| { break; }
        last := Some(Cell(fc));
        left := left[k := left[k] - 1];
        fc := fc + 1;
      }
    }

    method FindVacantFreecell(start: nat) returns (fc: nat)
      requires FullUpTo(pos.cells, start)
      ensures start <= fc && FullUpTo(pos.cells, fc) && (fc < |pos.cells| ==> pos.cells[fc] == None)
    {
      fc := start;
      while fc < |pos.cells| && pos.cells[fc].Some?
        invariant start <= fc && FullUpTo(pos.cells, fc)
      {
        fc := fc + 1;
      }
    }

    // Parks the cards still left on the vacant columns.
    method EmptyIntoStacks(idx: seq<nat>, nums: seq<nat>, start: seq<nat>, from: nat, before: Option<Place>,
                           ghost orig: Position,
                           ghost s: Position)
      returns (last: Option<Place>)
      requires Replays(orig) && Distinct(idx) && Emptying(s, pos, idx, nums, start)
      requires from <= |start| && forall l :: 0 <= l < from ==> start[l] == 0
      requires Sum(start) <= Sum(nums) && Parked(s, pos, Sum(nums) - Sum(start), 0, 0, before)
      requires Sum(start) == 0 || VacantFreecells(pos) == 0
      requires Sum(start) <= VacantStacks(pos) && ParkingInTurn(s, pos, idx, nums, start, from)
      modifies this
      ensures ParkingInTurn(s, pos, idx, nums, seq(|idx|, _ => 0), |idx|)
      ensures Replays(orig) && Emptying(s, pos, idx, nums, seq(|idx|, _ => 0))
      ensures ParkedAll(s, pos, Sum(nums), last)
    {
      var left: seq<nat>, k: nat, to: nat := start, from, 0;
      last := before;
      while true
        invariant Replays(orig) && Stacked(s, pos, idx, nums, start, left, to, last)
        invariant k <= |left| && (forall l :: 0 <= l < k ==> left[l] == 0) && ParkingInTurn(s, pos, idx, nums, left, k)
        decreases Sum(left)
      {
        ghost var was := k;
        k := NextColumn(left, k);
        ParkingGoesOn(s, pos, idx, nums, left, was, k);
        if k == |left| { break; }
        OneLess(left, k);
        to := ParkInStack(idx, nums, start, left, k, to, last, s, orig);
        last := Some(Col(to));
        left := left[k := left[k] - 1];
        to := to + 1;
      }
      AllStacked(s, pos, idx, nums, start, left, to, last);
    }

    // Parks nums[k] cards of each column idx[k] on the vacant freecells, then on the vacant columns,
    // and returns the place used last. There is a place for every card.
    method EmptyTwoCols(idx: seq<nat>, nums: seq<nat>, ghost orig: Position) returns (last: Option<Place>)
      requires Replays(orig) && Distinct(idx) && Emptying(pos, pos, idx, nums, nums)
      requires Sum(nums) <= VacantFreecells(pos) + VacantStacks(pos)
      modifies this
      ensures Replays(orig) && Emptying(old(pos), pos, idx, nums, seq(|idx|, _ => 0))
      ensures ParkedAll(old(pos), pos, Sum(nums), last)
      ensures CanTake(old(pos), idx, nums, seq(|idx|, _ => 0))
      ensures InTurn(old(pos), pos, TakenCards(old(pos), idx, nums, seq(|idx|, _ => 0)))
    {
      ghost var s := pos;
      var left, k, before := EmptyIntoFreecells(idx, nums, orig);
      last := EmptyIntoStacks(idx, nums, left, k, before, orig, s);
      AllInTurn(s, pos, idx, nums, seq(|idx|, _ => 0), |idx|);
    }
  }

  method FindEmptyStack(cols: seq<Column>, start: nat) returns (i: nat)
    requires exists k :: start <= k < |cols| && cols[k] == []
    ensures start <= i < |cols| && cols[i] == [] && forall k :: start <= k < i ==> cols[k] != []
  {
    i := start;
    while cols[i] != []
      invariant start <= i && exists k :: i <= k < |cols| && cols[k] == []
      invariant forall k :: start <= k < i ==> cols[k] != []
      decreases |cols| - i
    {
      i := i + 1;
    }
  }

  method NextColumn(left: seq<nat>, k: nat) returns (k': nat)
    requires k <= |left| && forall l :: 0 <= l < k ==> left[l] == 0
    ensures k <= k' <= |left| && (forall l :: 0 <= l < k' ==> left[l] == 0) && (k' < |left| ==> left[k'] > 0)
  {
    k' := k;
    while k' < |left| && left[k'] == 0
      invariant k <= k' <= |left| && forall l :: 0 <= l < k' ==> left[l] == 0
    {
      k' := k' + 1;
    }
  }

  lemma OneCardSequence(s: Position, col: nat, to: nat)
    requires col < |s.cols| && s.cols[col] != [] && to < |s.cols| && s.cols[to] == []
    ensures CanPlay(s, ColToCol(col, to, 1)) && Play(s, ColToCol(col, to, 1)) == Apply(s, Move(Col(col), Col(to)))
  {
    var c := s.cols[col];
    assert c == c[..|c| - 1] + [Last(c)];
    BlockIs(s, col, to, c[..|c| - 1], [Last(c)]);
    SameAs(Play(s, ColToCol(col, to, 1)), Apply(s, Move(Col(col), Col(to))));
    CapacityOf(s, to);
  }

  // ---- Sequences in a column ----

  // The last card of the sequence that starts at c.
  function SeqEnd(col: Column, c: nat): (e: nat)
    requires c < |col|
    ensures c <= e < |col|
    decreases |col| - c
  {
    if c + 1 < |col| && IsParent(col[c + 1], col[c]) then SeqEnd(col, c + 1) else c
  }

  predicate IsSeqStart(col: Column, c: nat)
    requires c < |col|
  {
    c == 0 || !IsParent(col[c], col[c - 1])
  }

  lemma {:induction false} SeqEndIsMaximal(col: Column, c: nat)
    requires c < |col|
    ensures var e := SeqEnd(col, c);
            && (forall k :: c < k <= e ==> IsParent(col[k], col[k - 1]) && !IsSeqStart(col, k))
            && (e + 1 < |col| ==> IsSeqStart(col, e + 1))
    decreases |col| - c
  {
    if c + 1 < |col| && IsParent(col[c + 1], col[c]) { SeqEndIsMaximal(col, c + 1); }
  }

  method CalcEnd(col: Column, c: nat) returns (e: nat)
    requires c < |col|
    ensures e == SeqEnd(col, c)
  {
    e := c;
    while e < |col| - 1
      invariant c <= e < |col| && SeqEnd(col, e) == SeqEnd(col, c)
    {
      if !IsParent(col[e + 1], col[e]) { break; }
      e := e + 1;
    }
  }

  // ---- Moving a sequence onto a parent ----

  // Cards c..e of column src go onto card dc of column dst.
  datatype Relocation = Relocation(src: nat, c: nat, e: nat, dst: nat, dc: nat)

  // A derived state, the moves that lead to it, and the number it is sorted by.
  datatype DerivedState = DerivedState(pos: Position, moves: seq<SolverMove>, context: nat)

  // Eight bits for each index.
  function Context(r: Relocation): nat {
    ((r.src * 256 + r.c) * 256 + r.dst) * 256 + r.dc
  }

  predicate InColumns(s: Position, r: Relocation) {
    && r.src < |s.cols| && r.c <= r.e < |s.cols[r.src]| && r.dst < |s.cols| && r.dst != r.src && r.dc < |s.cols[r.dst]|
    && forall k :: r.c < k <= r.e ==> IsParent(s.cols[r.src][k], s.cols[r.src][k - 1])
  }

  function InTheWay(s: Position, r: Relocation): seq<nat>
    requires InColumns(s, r)
  {
    [|s.cols[r.dst]| - r.dc - 1, |s.cols[r.src]| - 1 - r.e]
  }

  predicate CanRelocate(s: Position, r: Relocation) {
    && InColumns(s, r) && IsParent(s.cols[r.src][r.c], s.cols[r.dst][r.dc])
    && IsOpen(s.cols[r.dst], r.dc)
    && CheckIfCanRelocate(|s.cols[r.dst]| - r.dc - 1 + (|s.cols[r.src]| - 1 - r.e),
                          VacantFreecells(s), VacantStacks(s), r.e - r.c + 1)
  }

  // The sequence is on its new parent, the cards over it and over the parent are parked, and all other
  // columns with cards are as before.
  ghost predicate IsRelocated(s: Position, r: Relocation, t: Position)
    requires InColumns(s, r)
  {
    && |t.cols| == |s.cols| && |t.cells| == |s.cells| && t.found == s.found
    && t.cols[r.dst] == s.cols[r.dst][..r.dc + 1] + s.cols[r.src][r.c..r.e + 1]
    && t.cols[r.src] == s.cols[r.src][..r.c]
    && forall i :: 0 <= i < |s.cols| && i != r.src && i != r.dst && s.cols[i] != [] ==> t.cols[i] == s.cols[i]
  }

  lemma CheckMeans(start: nat, freecells: nat, stacks: nat, len: nat)
    ensures CheckIfCanRelocate(start, freecells, stacks, len) <==>
            start <= freecells + stacks
            && len <= CalcMaxSequenceMove(freecells - Min(start, freecells),
                                          stacks - Min(start - Min(start, freecells), stacks))
  {
  }

  lemma SumOfTwo(a: nat, b: nat)
    ensures Sum([a, b]) == a + b
  {
    assert [a, b][..1] == [a] && [a][..0] == [];
    assert Sum([a]) == Sum([]) + a;
  }

  lemma StartEmptying(s: Position, r: Relocation)
    requires InColumns(s, r)
    ensures Distinct([r.dst, r.src]) && Emptying(s, s, [r.dst, r.src], InTheWay(s, r), InTheWay(s, r))
    ensures Sum(InTheWay(s, r)) == |s.cols[r.dst]| - r.dc - 1 + (|s.cols[r.src]| - 1 - r.e)
  {
    SumOfTwo(|s.cols[r.dst]| - r.dc - 1, |s.cols[r.src]| - 1 - r.e);
    var idx, nums := [r.dst, r.src], InTheWay(s, r);
    forall k | 0 <= k < 2 ensures ColumnEmptying(s, s, idx, nums, nums, k) {
      assert s.cols[idx[k]][..|s.cols[idx[k]]|] == s.cols[idx[k]];
    }
    forall i | 0 <= i < |s.cols| ensures ColumnKept(s, s, idx, i) {}
  }

  // With the cards in the way parked, the sequence can go.
  lemma ReadyToRelocate(s: Position, r: Relocation, t: Position, last: Option<Place>) returns (u: Position)
    requires CanRelocate(s, r) && Emptying(s, t, [r.dst, r.src], InTheWay(s, r), [0, 0])
    requires ParkedAll(s, t, Sum(InTheWay(s, r)), last)
    ensures Becomes(t, r.src, r.dst, r.e - r.c + 1, u) && IsRelocated(s, r, u)
  {
    WayIsClear(s, r, t);
    var kept, block := s.cols[r.src][..r.c], s.cols[r.src][r.c..r.e + 1];
    TopIsParent(s, r);
    u := BlockTo(t, r.src, r.dst, kept, block);
    CheckMeans(|s.cols[r.dst]| - r.dc - 1 + (|s.cols[r.src]| - 1 - r.e), VacantFreecells(s), VacantStacks(s), |block|);
    RoomWhenCleared(s, r, t, last);
    BecomesIt(t, r.src, r.dst, |block|, u);
    RelocatedIs(s, r, t, u);
  }

  lemma TopIsParent(s: Position, r: Relocation)
    requires CanRelocate(s, r)
    ensures IsParent(s.cols[r.src][r.c..r.e + 1][0], Last(s.cols[r.dst][..r.dc + 1]))
  {
  }

  lemma RelocatedIs(s: Position, r: Relocation, t: Position, u: Position)
    requires InColumns(s, r) && |t.cols| == |s.cols| && |t.cells| == |s.cells| && t.found == s.found
    requires t.cols[r.dst] == s.cols[r.dst][..r.dc + 1]
    requires forall i :: 0 <= i < |s.cols| && i != r.src && i != r.dst && s.cols[i] != [] ==> t.cols[i] == s.cols[i]
    requires Shifted(t, u, r.src, r.dst, s.cols[r.src][..r.c], s.cols[r.src][r.c..r.e + 1])
    ensures IsRelocated(s, r, u)
  {
  }

  lemma WayIsClear(s: Position, r: Relocation, t: Position)
    requires InColumns(s, r) && Emptying(s, t, [r.dst, r.src], InTheWay(s, r), [0, 0])
    ensures |t.cols| == |s.cols| && |t.cells| == |s.cells| && t.found == s.found
    ensures var kept, block := s.cols[r.src][..r.c], s.cols[r.src][r.c..r.e + 1];
            t.cols[r.src] == kept + block && IsRunOfCards(block)
    ensures t.cols[r.dst] == s.cols[r.dst][..r.dc + 1]
    ensures forall i :: 0 <= i < |s.cols| && i != r.src && i != r.dst && s.cols[i] != [] ==> t.cols[i] == s.cols[i]
  {
    var idx, nums := [r.dst, r.src], InTheWay(s, r);
    assert ColumnEmptying(s, t, idx, nums, [0, 0], 0) && ColumnEmptying(s, t, idx, nums, [0, 0], 1);
    var kept, block := s.cols[r.src][..r.c], s.cols[r.src][r.c..r.e + 1];
    assert s.cols[r.src][..r.e + 1] == kept + block;
    forall k | 0 < k < |block| ensures IsParent(block[k], block[k - 1]) {
      assert IsParent(s.cols[r.src][r.c + k], s.cols[r.src][r.c + k - 1]);
    }
    forall i | 0 <= i < |s.cols| && i != r.src && i != r.dst && s.cols[i] != [] ensures t.cols[i] == s.cols[i] {
      assert ColumnKept(s, t, idx, i);
    }
  }

  // ---- Which sequences can go onto a parent ----

  // The cards over the sequence and over its new parent are parked, on freecells first.
  ghost predicate IsCleared(s: Position, r: Relocation, t: Position, last: Option<Place>)
    requires InColumns(s, r)
  {
    Emptying(s, t, [r.dst, r.src], InTheWay(s, r), [0, 0]) && ParkedAll(s, t, Sum(InTheWay(s, r)), last)
  }

  // The cards in the way have places to go to, and wherever they are parked the sequence can be played.
  ghost predicate Relocates(s: Position, r: Relocation) {
    && InColumns(s, r) && IsParent(s.cols[r.src][r.c], s.cols[r.dst][r.dc]) && IsOpen(s.cols[r.dst], r.dc)
    && |s.cols[r.dst]| - r.dc - 1 + (|s.cols[r.src]| - 1 - r.e) <= |VacantCellSet(s)| + |EmptyColumnSet(s)|
    && forall t, last :: IsCleared(s, r, t, last) ==> CanPlay(t, ColToCol(r.src, r.dst, r.e - r.c + 1))
  }

  lemma CanBeCleared(s: Position, r: Relocation) returns (t: Position, last: Option<Place>)
    requires InColumns(s, r)
    requires |s.cols[r.dst]| - r.dc - 1 + (|s.cols[r.src]| - 1 - r.e) <= VacantFreecells(s) + VacantStacks(s)
    ensures IsCleared(s, r, t, last)
  {
    StartEmptying(s, r);
    t, last := ParkRest(s, s, [r.dst, r.src], InTheWay(s, r), InTheWay(s, r), 0, 0, 0, None);
    assert seq(2, _ => 0) == [0, 0];
  }

  // With the cards in the way parked, playing the sequence is a matter of the capacity only.
  lemma ClearedPlays(s: Position, r: Relocation, t: Position, last: Option<Place>)
    requires InColumns(s, r) && IsParent(s.cols[r.src][r.c], s.cols[r.dst][r.dc]) && IsCleared(s, r, t, last)
    requires |s.cols[r.dst]| - r.dc - 1 + (|s.cols[r.src]| - 1 - r.e) <= VacantFreecells(s) + VacantStacks(s)
    ensures CanPlay(t, ColToCol(r.src, r.dst, r.e - r.c + 1)) <==>
            CheckIfCanRelocate(|s.cols[r.dst]| - r.dc - 1 + (|s.cols[r.src]| - 1 - r.e),
                               VacantFreecells(s), VacantStacks(s), r.e - r.c + 1)
  {
    WayIsClear(s, r, t);
    BlockPlays(t, r.src, r.dst, s.cols[r.src][..r.c], s.cols[r.src][r.c..r.e + 1]);
    RoomWhenCleared(s, r, t, last);
  }

  lemma BlockPlays(t: Position, src: nat, dst: nat, kept: Column, block: Column)
    requires src < |t.cols| && dst < |t.cols| && src != dst && t.cols[src] == kept + block
    requires block != [] && IsRunOfCards(block) && (t.cols[dst] == [] || IsParent(block[0], Last(t.cols[dst])))
    ensures CanPlay(t, ColToCol(src, dst, |block|)) <==> |block| <= Capacity(t, dst)
  {
    BlockIs(t, src, dst, kept, block);
  }

  lemma RoomWhenCleared(s: Position, r: Relocation, t: Position, last: Option<Place>)
    requires InColumns(s, r) && ParkedAll(s, t, Sum(InTheWay(s, r)), last) && |t.cols| == |s.cols|
             && t.cols[r.dst] != []
    requires |s.cols[r.dst]| - r.dc - 1 + (|s.cols[r.src]| - 1 - r.e) <= VacantFreecells(s) + VacantStacks(s)
    ensures r.e - r.c + 1 <= Capacity(t, r.dst) <==>
            CheckIfCanRelocate(|s.cols[r.dst]| - r.dc - 1 + (|s.cols[r.src]| - 1 - r.e),
                               VacantFreecells(s), VacantStacks(s), r.e - r.c + 1)
  {
    SumOfTwo(|s.cols[r.dst]| - r.dc - 1, |s.cols[r.src]| - 1 - r.e);
    CheckMeans(Sum(InTheWay(s, r)), VacantFreecells(s), VacantStacks(s), r.e - r.c + 1);
    CapacityOf(t, r.dst);
  }

  lemma RoomMeansPlays(s: Position, r: Relocation, start: nat, len: nat)
    requires InColumns(s, r) && IsParent(s.cols[r.src][r.c], s.cols[r.dst][r.dc]) && len == r.e - r.c + 1
    requires start == |s.cols[r.dst]| - r.dc - 1 + (|s.cols[r.src]| - 1 - r.e)
    requires start <= VacantFreecells(s) + VacantStacks(s)
    ensures (forall t, last :: IsCleared(s, r, t, last) ==> CanPlay(t, ColToCol(r.src, r.dst, len)))
       <==> CheckIfCanRelocate(start, VacantFreecells(s), VacantStacks(s), len)
  {
    forall t, last | IsCleared(s, r, t, last)
      ensures CanPlay(t, ColToCol(r.src, r.dst, len)) <==>
              CheckIfCanRelocate(start, VacantFreecells(s), VacantStacks(s), len)
    {
      ClearedPlays(s, r, t, last);
    }
    var t, last := CanBeCleared(s, r);
  }

  lemma RelocatesIff(s: Position, r: Relocation)
    ensures CanRelocate(s, r) <==> Relocates(s, r)
  {
    VacantPlacesAre(s);
    if InColumns(s, r) && IsParent(s.cols[r.src][r.c], s.cols[r.dst][r.dc]) {
      var start, len := |s.cols[r.dst]| - r.dc - 1 + (|s.cols[r.src]| - 1 - r.e), r.e - r.c + 1;
      CheckMeans(start, VacantFreecells(s), VacantStacks(s), len);
      if start <= VacantFreecells(s) + VacantStacks(s) { RoomMeansPlays(s, r, start, len); }
    }
  }

  method Relocate(s: Position, r: Relocation) returns (d: DerivedState)
    requires CanRelocate(s, r)
    ensures PlayAll(s, d.moves) == Some(d.pos) && IsRelocated(s, r, d.pos) && d.context == Context(r)
  {
    var newState := new NewState(s);
    StartEmptying(s, r);
    CheckMeans(Sum(InTheWay(s, r)), VacantFreecells(s), VacantStacks(s), r.e - r.c + 1);
    var last := newState.EmptyTwoCols([r.dst, r.src], InTheWay(s, r), s);
    assert seq(2, _ => 0) == [0, 0];
    ghost var u := ReadyToRelocate(s, r, newState.pos, last);
    newState.MoveSequence(r.dst, r.src, r.e - r.c + 1, s, u);
    d := DerivedState(newState.pos, newState.moves, Context(r));
  }

  // ---- The move functions ----

  // Each derived state is what its recorded moves build from s.
  ghost predicate IsDerived(s: Position, r: Relocation, d: DerivedState) {
    PlayAll(s, d.moves) == Some(d.pos) && d.context == Context(r) && CanRelocate(s, r) && IsRelocated(s, r, d.pos)
  }

  ghost predicate Recorded(s: Position, list: seq<DerivedState>, rs: seq<Relocation>) {
    |list| == |rs| && forall k :: 0 <= k < |rs| ==> IsDerived(s, rs[k], list[k])
  }

  // The suit of the new parent.
  function ParentSuit(s: Position, r: Relocation): nat {
    if r.dst < |s.cols| && r.dc < |s.cols[r.dst]| then s.cols[r.dst][r.dc].suit else 0
  }

  // The order in which the sequences and the suits of their new parents are looked at.
  ghost predicate Earlier(s: Position, q: Relocation, src: nat, c: nat, u: nat) {
    q.src < src || (q.src == src && (q.c < c || (q.c == c && ParentSuit(s, q) < u)))
  }

  // Each of these moves comes before that place in the order.
  ghost predicate AllEarlier(s: Position, rs: seq<Relocation>, src: nat, c: nat, u: nat) {
    forall k :: 0 <= k < |rs| ==> Earlier(s, rs[k], src, c, u)
  }

  // The moves are listed in this order, so each of them once.
  ghost predicate InSuitOrder(s: Position, rs: seq<Relocation>) {
    forall j, k :: 0 <= j < k < |rs| ==> Earlier(s, rs[j], rs[k].src, rs[k].c, ParentSuit(s, rs[k]))
  }

  lemma InSuitOrderIsDistinct(s: Position, rs: seq<Relocation>)
    requires InSuitOrder(s, rs)
    ensures Distinct(rs)
  {
  }

  // What is listed when the search comes to that place in the order.
  ghost predicate Listed(s: Position, list: seq<DerivedState>, rs: seq<Relocation>, src: nat, c: nat, u: nat) {
    Recorded(s, list, rs) && InSuitOrder(s, rs) && AllEarlier(s, rs, src, c, u)
  }

  lemma ListedLater(s: Position, list: seq<DerivedState>, rs: seq<Relocation>, src: nat, c: nat, u: nat, src': nat,
                    c': nat, u': nat)
    requires Listed(s, list, rs, src, c, u)
    requires src < src' || (src == src' && (c < c' || (c == c' && u <= u')))
    ensures Listed(s, list, rs, src', c', u')
  {
    forall k | 0 <= k < |rs| ensures Earlier(s, rs[k], src', c', u') {
      assert Earlier(s, rs[k], src, c, u);
    }
  }

  lemma ListedOneMore(s: Position, list: seq<DerivedState>, rs: seq<Relocation>, r: Relocation, d: DerivedState)
    requires Listed(s, list, rs, r.src, r.c, ParentSuit(s, r)) && IsDerived(s, r, d)
    ensures Listed(s, list + [d], rs + [r], r.src, r.c, ParentSuit(s, r) + 1)
  {
    RecordedOneMore(s, list, rs, r, d);
    InSuitOrderOneMore(s, rs, r);
  }

  lemma RecordedOneMore(s: Position, list: seq<DerivedState>, rs: seq<Relocation>, r: Relocation, d: DerivedState)
    requires Recorded(s, list, rs) && IsDerived(s, r, d)
    ensures Recorded(s, list + [d], rs + [r])
  {
    forall k | 0 <= k < |rs + [r]| ensures IsDerived(s, (rs + [r])[k], (list + [d])[k]) {
      if k < |rs| { assert IsDerived(s, rs[k], list[k]); }
    }
  }

  lemma InSuitOrderOneMore(s: Position, rs: seq<Relocation>, r: Relocation)
    requires InSuitOrder(s, rs) && AllEarlier(s, rs, r.src, r.c, ParentSuit(s, r))
    ensures InSuitOrder(s, rs + [r]) && AllEarlier(s, rs + [r], r.src, r.c, ParentSuit(s, r) + 1)
  {
    var more := rs + [r];
    forall j, k | 0 <= j < k < |more| ensures Earlier(s, more[j], more[k].src, more[k].c, ParentSuit(s, more[k])) {
      if k < |rs| { assert Earlier(s, rs[j], rs[k].src, rs[k].c, ParentSuit(s, rs[k])); }
      else { assert Earlier(s, rs[j], r.src, r.c, ParentSuit(s, r)); }
    }
    forall k | 0 <= k < |more| ensures Earlier(s, more[k], r.src, r.c, ParentSuit(s, r) + 1) {
      if k < |rs| { assert Earlier(s, rs[k], r.src, r.c, ParentSuit(s, r)); }
    }
  }

  method TryParent(s: Position, r: Relocation, soFar: seq<DerivedState>, ghost rs0: seq<Relocation>)
    returns (list: seq<DerivedState>, ghost rs: seq<Relocation>)
    requires InColumns(s, r) && IsParent(s.cols[r.src][r.c], s.cols[r.dst][r.dc]) && IsOpen(s.cols[r.dst], r.dc)
    requires Listed(s, soFar, rs0, r.src, r.c, ParentSuit(s, r))
    ensures Listed(s, list, rs, r.src, r.c, ParentSuit(s, r) + 1) && rs == rs0 + IfCan(s, r)
  {
    list, rs := soFar, rs0;
    ListedLater(s, list, rs, r.src, r.c, ParentSuit(s, r), r.src, r.c, ParentSuit(s, r) + 1);
    var start := |s.cols[r.dst]| - r.dc - 1 + (|s.cols[r.src]| - 1 - r.e);
    if !CheckIfCanRelocate(start, VacantFreecells(s), VacantStacks(s), r.e - r.c + 1) {
      return;
    }
    var d := Relocate(s, r);
    ListedOneMore(s, list, rs, r, d);
    list, rs := list + [d], rs + [r];
  }

  ghost function IfCan(s: Position, r: Relocation): seq<Relocation> {
    if CanRelocate(s, r) then [r] else []
  }

  lemma InIfCan(s: Position, r0: Relocation, r: Relocation)
    ensures r in IfCan(s, r0) <==> r == r0 && CanRelocate(s, r)
  {
  }

  // The cards c..e of a column and the suit of their new parent.
  ghost predicate Onto(s: Position, r: Relocation, src: nat, c: nat, e: nat, u: nat) {
    CanRelocate(s, r) && r.src == src && r.c == c && r.e == e && ParentSuit(s, r) == u
  }

  // The place of the parent is in the table.
  lemma OntoItsSpot(table: seq<Option<Spot>>, s: Position, r: Relocation, src: nat, c: nat, e: nat, u: Suit)
    requires IsPositionsByRank(table, s) && src < |s.cols| && c < |s.cols[src]| && s.cols[src][c].rank < KING
    requires Onto(s, r, src, c, e, u)
    ensures table[Slot(Card(s.cols[src][c].rank + 1, u))] == Some(Spot(r.dst, r.dc))
  {
    SpotOfParent(table, s, Card(s.cols[src][c].rank + 1, u), r.dst, r.dc);
  }

  // Moves cards c..e of a column onto the parent of one suit if the table has it.
  method OntoParent(s: Position, table: array<Option<Spot>>, src: nat, c: nat, e: nat, u: Suit,
                    soFar: seq<DerivedState>, ghost rs0: seq<Relocation>)
    returns (list: seq<DerivedState>, ghost rs: seq<Relocation>)
    requires IsPositionsByRank(table[..], s) && src < |s.cols| && c <= e < |s.cols[src]| && s.cols[src][c].rank < KING
    requires forall k :: c < k <= e ==> IsParent(s.cols[src][k], s.cols[src][k - 1])
    requires !SameColour(s.cols[src][c].suit, u) && Listed(s, soFar, rs0, src, c, u)
    ensures Listed(s, list, rs, src, c, u + 1)
    ensures forall r :: r in rs <==> r in rs0 || Onto(s, r, src, c, e, u)
  {
    list, rs := soFar, rs0;
    var parent := Card(s.cols[src][c].rank + 1, u);
    var spot := table[Slot(parent)];
    ghost var only := Relocation(src, c, e, if spot.Some? then spot.value.col else 0,
                                 if spot.Some? then spot.value.height else 0);
    forall r | Onto(s, r, src, c, e, u) ensures r == only && spot.Some? && spot.value.col != src {
      OntoItsSpot(table[..], s, r, src, c, e, u);
    }
    if spot.Some? && spot.value.col != src {
      SpotIsOpen(table[..], s, parent);
      list, rs := TryParent(s, Relocation(src, c, e, spot.value.col, spot.value.height), list, rs);
      forall r ensures r in rs <==> r in rs0 || Onto(s, r, src, c, e, u) {
        InBoth(rs0, IfCan(s, only), r);
        InIfCan(s, only, r);
      }
    } else {
      ListedLater(s, list, rs, src, c, u, src, c, u + 1);
    }
  }

  lemma InBoth<T>(xs: seq<T>, ys: seq<T>, x: T)
    ensures x in xs + ys <==> x in xs || x in ys
  {
  }

  // Moves cards c..e of a column onto each parent that can take them, found in the table.
  method OntoParents(s: Position, table: array<Option<Spot>>, src: nat, c: nat, e: nat, soFar: seq<DerivedState>,
                     ghost rs0: seq<Relocation>)
    returns (list: seq<DerivedState>, ghost rs: seq<Relocation>)
    requires IsPositionsByRank(table[..], s) && src < |s.cols| && c <= e < |s.cols[src]|
    requires forall k :: c < k <= e ==> IsParent(s.cols[src][k], s.cols[src][k - 1])
    requires Listed(s, soFar, rs0, src, c, 0)
    ensures Listed(s, list, rs, src, c + 1, 0)
    ensures forall r :: r in rs <==> r in rs0 || (CanRelocate(s, r) && r.src == src && r.c == c && r.e == e)
  {
    list, rs := soFar, rs0;
    var card := s.cols[src][c];
    if card.rank == KING {
      ListedLater(s, list, rs, src, c, 0, src, c + 1, 0);
      return;
    }
    var suit := 1 - card.suit % 2;
    ListedLater(s, list, rs, src, c, 0, src, c, suit);
    while suit < 4
      invariant suit % 2 == 1 - card.suit % 2 && Listed(s, list, rs, src, c, suit)
      invariant forall r :: r in rs <==> r in rs0 || OntoBelow(s, r, src, c, e, suit)
    {
      list, rs := OntoParent(s, table, src, c, e, suit, list, rs);
      forall r ensures r in rs <==> r in rs0 || OntoBelow(s, r, src, c, e, suit + 2) {
        NextSuit(s, r, src, c, e, suit);
      }
      ListedLater(s, list, rs, src, c, suit + 1, src, c, suit + 2);
      suit := suit + 2;
    }
    ListedLater(s, list, rs, src, c, suit, src, c + 1, 0);
  }

  ghost predicate OntoBelow(s: Position, r: Relocation, src: nat, c: nat, e: nat, u: nat) {
    CanRelocate(s, r) && r.src == src && r.c == c && r.e == e && ParentSuit(s, r) < u
  }

  lemma NextSuit(s: Position, r: Relocation, src: nat, c: nat, e: nat, u: nat)
    requires src < |s.cols| && c < |s.cols[src]| && u % 2 == 1 - s.cols[src][c].suit % 2
    ensures OntoBelow(s, r, src, c, e, u + 2) <==> OntoBelow(s, r, src, c, e, u) || Onto(s, r, src, c, e, u)
  {
  }

  // ---- Sorting ----

  lemma ContextOrder(a: Relocation, b: Relocation)
    requires a.c < 256 && a.dst < 256 && a.dc < 256 && b.c < 256 && b.dst < 256 && b.dc < 256
    requires Context(a) <= Context(b)
    ensures Before(a, b) || (a.src == b.src && a.c == b.c && a.dst == b.dst && a.dc == b.dc)
  {
  }

  // By the column, the start of the sequence, and the place of the new parent.
  ghost predicate Before(q: Relocation, r: Relocation) {
    || q.src < r.src
    || (q.src == r.src && (q.c < r.c || (q.c == r.c && (q.dst < r.dst || (q.dst == r.dst && q.dc < r.dc)))))
  }

  ghost predicate InOrder(rs: seq<Relocation>) {
    forall j, k :: 0 <= j < k < |rs| ==> Before(rs[j], rs[k])
  }

  // The derived states and their moves change places together.
  ghost predicate SortingAt(s: Position, list: seq<DerivedState>, rs: seq<Relocation>, rs0: seq<Relocation>, b: nat,
                            c: nat) {
    Recorded(s, list, rs) && multiset(rs) == multiset(rs0) && SortedBut(rs, Context, b, c)
  }

  lemma SwappedStates(s: Position, list: seq<DerivedState>, rs: seq<Relocation>, c: nat)
    requires Recorded(s, list, rs) && 0 < c < |rs|
    ensures Recorded(s, list[c - 1 := list[c]][c := list[c - 1]], rs[c - 1 := rs[c]][c := rs[c - 1]])
  {
    var rs' := rs[c - 1 := rs[c]][c := rs[c - 1]];
    var list' := list[c - 1 := list[c]][c := list[c - 1]];
    forall k | 0 <= k < |rs'| ensures IsDerived(s, rs'[k], list'[k]) {
      assert IsDerived(s, rs[k], list[k]) && IsDerived(s, rs[c], list[c]) && IsDerived(s, rs[c - 1], list[c - 1]);
    }
  }

  lemma SinkState(s: Position, list: seq<DerivedState>, rs: seq<Relocation>, rs0: seq<Relocation>, b: nat, c: nat)
    requires SortingAt(s, list, rs, rs0, b, c) && c > 0 && list[c].context < list[c - 1].context
    ensures SortingAt(s, list[c - 1 := list[c]][c := list[c - 1]], rs[c - 1 := rs[c]][c := rs[c - 1]], rs0, b, c - 1)
  {
    assert IsDerived(s, rs[c], list[c]) && IsDerived(s, rs[c - 1], list[c - 1]);
    SwappedStates(s, list, rs, c);
    SwapDown(rs, Context, b, c);
  }

  // The first b states are sorted.
  ghost predicate SortedUpTo(s: Position, list: seq<DerivedState>, rs: seq<Relocation>, rs0: seq<Relocation>, b: nat) {
    && Recorded(s, list, rs) && multiset(rs) == multiset(rs0)
    && |list| == |rs0| && b <= |rs| && IsSorted(rs[..b], Context)
  }

  lemma StateSunk(s: Position, list: seq<DerivedState>, rs: seq<Relocation>, rs0: seq<Relocation>, b: nat, c: nat)
    requires SortingAt(s, list, rs, rs0, b, c) && (c > 0 ==> list[c].context >= list[c - 1].context)
    ensures SortedUpTo(s, list, rs, rs0, b + 1)
  {
    if c > 0 { assert IsDerived(s, rs[c], list[c]) && IsDerived(s, rs[c - 1], list[c - 1]); }
    SortedSoFar(rs, Context, b, c);
    SameCount(rs, rs0);
  }

  lemma StateToSink(s: Position, list: seq<DerivedState>, rs: seq<Relocation>, rs0: seq<Relocation>, b: nat)
    requires SortedUpTo(s, list, rs, rs0, b) && b < |rs|
    ensures SortingAt(s, list, rs, rs0, b, b)
  {
    forall i, j | 0 <= i < j < b ensures Context(rs[i]) <= Context(rs[j]) {
      assert rs[..b][i] == rs[i] && rs[..b][j] == rs[j];
    }
  }

  method SinkDerivedState(s: Position, states0: seq<DerivedState>, ghost rs1: seq<Relocation>,
                          ghost rs0: seq<Relocation>, b: nat)
    returns (states: seq<DerivedState>, ghost rs: seq<Relocation>)
    requires SortedUpTo(s, states0, rs1, rs0, b) && b < |states0|
    ensures SortedUpTo(s, states, rs, rs0, b + 1)
  {
    states, rs := states0, rs1;
    var c: nat := b;
    StateToSink(s, states, rs, rs0, b);
    while c > 0 && states[c].context < states[c - 1].context
      invariant c <= b < |rs| == |states| && SortingAt(s, states, rs, rs0, b, c)
      decreases c
    {
      SinkState(s, states, rs, rs0, b, c);
      states := states[c - 1 := states[c]][c := states[c - 1]];
      rs := rs[c - 1 := rs[c]][c := rs[c - 1]];
      c := c - 1;
    }
    StateSunk(s, states, rs, rs0, b, c);
  }

  method SortDerivedStates(s: Position, states0: seq<DerivedState>, ghost rs0: seq<Relocation>)
    returns (states: seq<DerivedState>, ghost rs: seq<Relocation>)
    requires Recorded(s, states0, rs0)
    ensures Recorded(s, states, rs) && multiset(rs) == multiset(rs0) && IsSorted(rs, Context)
  {
    states, rs := states0, rs0;
    if |states| == 0 { return; }
    for b := 1 to |states|
      invariant SortedUpTo(s, states, rs, rs0, b) && |states| == |states0|
    {
      states, rs := SinkDerivedState(s, states, rs, rs0, b);
    }
    assert rs[..|states|] == rs;
  }

  lemma SameCount<T>(a: seq<T>, b: seq<T>)
    requires multiset(a) == multiset(b)
    ensures |a| == |b|
  {
    assert |multiset(a)| == |a| && |multiset(b)| == |b|;
  }

  lemma ColumnsAreShort(s: Position, i: nat)
    requires FullDeck(s) && i < |s.cols|
    ensures |s.cols[i]| <= 52
  {
    TableauFitsDeck(s);
    TableauUpdate(s.cols, i, []);
    var all, col := Tableau(s.cols), multiset(s.cols[i]);
    assert all == col + (all - col);
  }

  predicate ToDifferentStack(s: Position, r: Relocation) {
    CanRelocate(s, r) && IsSeqStart(s.cols[r.src], r.c) && r.e == SeqEnd(s.cols[r.src], r.c)
  }

  // From a card that is on no parent to one that has no child on it.
  predicate IsWholeSequence(col: Column, c: nat, e: nat)
    requires c <= e < |col|
  {
    && (c == 0 || !IsParent(col[c], col[c - 1])) && (e + 1 == |col| || !IsParent(col[e + 1], col[e]))
    && forall k :: c < k <= e ==> IsParent(col[k], col[k - 1])
  }

  ghost predicate WholeSequenceRelocates(s: Position, r: Relocation) {
    Relocates(s, r) && IsWholeSequence(s.cols[r.src], r.c, r.e)
  }

  lemma {:induction false} SeqEndIs(col: Column, c: nat, e: nat)
    requires c <= e < |col| && forall k :: c < k <= e ==> IsParent(col[k], col[k - 1])
    requires e + 1 == |col| || !IsParent(col[e + 1], col[e])
    ensures SeqEnd(col, c) == e
    decreases e - c
  {
    if c < e { SeqEndIs(col, c + 1, e); }
  }

  lemma WholeSequenceIff(col: Column, c: nat, e: nat)
    requires c <= e < |col|
    ensures IsWholeSequence(col, c, e) <==> IsSeqStart(col, c) && e == SeqEnd(col, c)
  {
    SeqEndIsMaximal(col, c);
    if IsWholeSequence(col, c, e) { SeqEndIs(col, c, e); }
  }

  lemma ToDifferentStackIff(s: Position, r: Relocation)
    ensures ToDifferentStack(s, r) <==> WholeSequenceRelocates(s, r)
  {
    RelocatesIff(s, r);
    if InColumns(s, r) { WholeSequenceIff(s.cols[r.src], r.c, r.e); }
  }

  // The relocations the function looks for have different numbers, so the sorted list is in this order.
  lemma SortedIsInOrder(s: Position, rs: seq<Relocation>)
    requires FullDeck(s) && |s.cols| <= 256 && Distinct(rs) && IsSorted(rs, Context)
    requires forall r :: r in rs ==> ToDifferentStack(s, r)
    ensures InOrder(rs)
  {
    forall j, k | 0 <= j < k < |rs| ensures Before(rs[j], rs[k]) {
      var q, r := rs[j], rs[k];
      assert q in rs && r in rs;
      ColumnsAreShort(s, q.src);
      ColumnsAreShort(s, q.dst);
      ColumnsAreShort(s, r.src);
      ColumnsAreShort(s, r.dst);
      ContextOrder(q, r);
    }
  }

  // Moves whole sequences, parking the cards over them and over their new parents.
  method MoveStackCardsToDifferentStacks(s: Position) returns (list: seq<DerivedState>, ghost rs: seq<Relocation>)
    requires FullDeck(s) && |s.cols| <= 256
    ensures Recorded(s, list, rs) && InOrder(rs) && forall r :: r in rs <==> WholeSequenceRelocates(s, r)
  {
    list, rs := [], [];
    var table := CalcPositionsByRank(s);
    for i := 0 to |s.cols|
      invariant IsPositionsByRank(table[..], s) && Listed(s, list, rs, i, 0, 0)
      invariant forall r :: r in rs <==> ToDifferentStack(s, r) && r.src < i
    {
      list, rs := OneStackToDifferentStacks(s, table, i, list, rs);
    }
    InSuitOrderIsDistinct(s, rs);
    ghost var found := rs;
    list, rs := SortDerivedStates(s, list, rs);
    DistinctShuffled(found, rs);
    SortedIsInOrder(s, rs);
    forall r ensures r in rs <==> WholeSequenceRelocates(s, r) { ToDifferentStackIff(s, r); }
  }

  method OneStackToDifferentStacks(s: Position, table: array<Option<Spot>>, i: nat, soFar: seq<DerivedState>,
                                   ghost rs0: seq<Relocation>)
    returns (list: seq<DerivedState>, ghost rs: seq<Relocation>)
    requires IsPositionsByRank(table[..], s) && i < |s.cols| && Listed(s, soFar, rs0, i, 0, 0)
    ensures Listed(s, list, rs, i + 1, 0, 0)
    ensures forall r :: r in rs <==> r in rs0 || (ToDifferentStack(s, r) && r.src == i)
  {
    list, rs := soFar, rs0;
    var col := s.cols[i];
    var c := 0;
    while c < |col|
      invariant c <= |col| && (c < |col| ==> IsSeqStart(col, c)) && Listed(s, list, rs, i, c, 0)
      invariant forall r :: r in rs <==> r in rs0 || (ToDifferentStack(s, r) && r.src == i && r.c < c)
    {
      var e := CalcEnd(col, c);
      SeqEndIsMaximal(col, c);
      list, rs := OntoParents(s, table, i, c, e, list, rs);
      ListedLater(s, list, rs, i, c + 1, 0, i, e + 1, 0);
      c := e + 1;
    }
    ListedLater(s, list, rs, i, c, 0, i + 1, 0, 0);
  }

  // Cards that are already on a parent.
  predicate ToDifferentParent(s: Position, r: Relocation) {
    CanRelocate(s, r) && r.c > 0 && r.e + 1 == |s.cols[r.src]| && IsParent(s.cols[r.src][r.c], s.cols[r.src][r.c - 1])
  }

  ghost predicate EndRelocates(s: Position, r: Relocation) {
    Relocates(s, r) && r.c > 0 && r.e + 1 == |s.cols[r.src]| && IsParent(s.cols[r.src][r.c], s.cols[r.src][r.c - 1])
  }

  method MoveCardsToADifferentParent(s: Position) returns (list: seq<DerivedState>, ghost rs: seq<Relocation>)
    requires FullDeck(s)
    ensures Recorded(s, list, rs) && InSuitOrder(s, rs) && forall r :: r in rs <==> EndRelocates(s, r)
  {
    list, rs := [], [];
    var table := CalcPositionsByRank(s);
    for i := 0 to |s.cols|
      invariant IsPositionsByRank(table[..], s) && Listed(s, list, rs, i, 0, 0)
      invariant forall r :: r in rs <==> ToDifferentParent(s, r) && r.src < i
    {
      list, rs := OneStackToADifferentParent(s, table, i, list, rs);
    }
    forall r ensures r in rs <==> EndRelocates(s, r) { RelocatesIff(s, r); }
  }

  method OneStackToADifferentParent(s: Position, table: array<Option<Spot>>, i: nat, soFar: seq<DerivedState>,
                                    ghost rs0: seq<Relocation>)
    returns (list: seq<DerivedState>, ghost rs: seq<Relocation>)
    requires IsPositionsByRank(table[..], s) && i < |s.cols| && Listed(s, soFar, rs0, i, 0, 0)
    ensures Listed(s, list, rs, i + 1, 0, 0)
    ensures forall r :: r in rs <==> r in rs0 || (ToDifferentParent(s, r) && r.src == i)
  {
    list, rs := soFar, rs0;
    var col := s.cols[i];
    if |col| < 2 {
      ListedLater(s, list, rs, i, 0, 0, i + 1, 0, 0);
      return;
    }
    var minHeight := CalcMinCardHeight(col);
    ListedLater(s, list, rs, i, 0, 0, i, minHeight, 0);
    for c := minHeight to |col|
      invariant Listed(s, list, rs, i, c, 0)
      invariant forall r :: r in rs <==> r in rs0 || (ToDifferentParent(s, r) && r.src == i && r.c < c)
    {
      list, rs := OntoParents(s, table, i, c, |col| - 1, list, rs);
    }
    ListedLater(s, list, rs, i, |col|, 0, i + 1, 0, 0);
  }

  // The first card of a column from which on each card is on a parent.
  method CalcMinCardHeight(col: Column) returns (h: nat)
    requires |col| >= 2
    ensures 0 < h <= |col| && forall k :: h <= k < |col| ==> IsParent(col[k], col[k - 1])
    ensures h > 1 ==> !IsParent(col[h - 1], col[h - 2])
  {
    var below := |col| - 2;
    while below >= 0
      invariant -1 <= below <= |col| - 2 && forall k :: below + 2 <= k < |col| ==> IsParent(col[k], col[k - 1])
    {
      if !IsParent(col[below + 1], col[below]) { break; }
      below := below - 1;
    }
    h := below + 2;
  }

  // ---- Moving sequences to free columns ----

  // Of the sequence of column src that starts at c, the cards from `from` on move.
  datatype FreeMove = FreeMove(src: nat, c: nat, from: nat)

  // The longest end of the sequence c..e that can move is the one that starts here.
  function FirstToMove(c: nat, e: nat, max: nat): nat {
    if e + 1 > c + max then e + 1 - max else c
  }

  function StacksToFill(s: Position, num: nat): nat {
    num - Min(num, VacantFreecells(s))
  }

  predicate ToFreeStack(s: Position, m: FreeMove) {
    && m.src < |s.cols| && m.c < |s.cols[m.src]| && IsSeqStart(s.cols[m.src], m.c) && VacantStacks(s) > 0
    && if SeqEnd(s.cols[m.src], m.c) + 1 == |s.cols[m.src]| then LastSequenceGoes(s, m) else InnerSequenceGoes(s, m)
  }

  predicate LastSequenceGoes(s: Position, m: FreeMove)
    requires m.src < |s.cols| && m.c < |s.cols[m.src]| && VacantStacks(s) > 0
  {
    m.c > 0 && |s.cols[m.src]| - m.c <= CalcMaxSequenceMove(VacantFreecells(s), VacantStacks(s) - 1) && m.from == m.c
  }

  predicate InnerSequenceGoes(s: Position, m: FreeMove)
    requires m.src < |s.cols| && m.c < |s.cols[m.src]| && VacantStacks(s) > 0
  {
    var e := SeqEnd(s.cols[m.src], m.c);
    var num := |s.cols[m.src]| - 1 - e;
    && StacksToFill(s, num) < VacantStacks(s)
    && m.from == FirstToMove(m.c, e, CalcMaxSequenceMove(VacantFreecells(s) - Min(num, VacantFreecells(s)),
                                                         VacantStacks(s) - StacksToFill(s, num) - 1))
  }

  // The cards from..e of column src are on a column that was empty.
  ghost predicate IsOnFreeStack(s: Position, src: nat, from: nat, e: nat, t: Position)
    requires src < |s.cols| && from <= e < |s.cols[src]|
  {
    && |t.cols| == |s.cols| && |t.cells| == |s.cells| && t.found == s.found && t.cols[src] == s.cols[src][..from]
    && (exists b :: 0 <= b < |s.cols| && s.cols[b] == [] && t.cols[b] == s.cols[src][from..e + 1])
    && forall i :: 0 <= i < |s.cols| && i != src && s.cols[i] != [] ==> t.cols[i] == s.cols[i]
  }

  ghost predicate IsFreeDerived(s: Position, m: FreeMove, d: DerivedState) {
    && PlayAll(s, d.moves) == Some(d.pos) && ToFreeStack(s, m)
    && m.from <= SeqEnd(s.cols[m.src], m.c) && IsOnFreeStack(s, m.src, m.from, SeqEnd(s.cols[m.src], m.c), d.pos)
  }

  ghost predicate FreeRecorded(s: Position, list: seq<DerivedState>, ms: seq<FreeMove>) {
    |list| == |ms| && forall k :: 0 <= k < |ms| ==> IsFreeDerived(s, ms[k], list[k])
  }

  // The block at the end of the column goes to an empty column.
  lemma EndGoes(t: Position, src: nat, from: nat, b: nat) returns (u: Position)
    requires src < |t.cols| && b < |t.cols| && src != b && t.cols[b] == [] && from < |t.cols[src]|
    requires forall k :: from < k < |t.cols[src]| ==> IsParent(t.cols[src][k], t.cols[src][k - 1])
    requires |t.cols[src]| - from <= Capacity(t, b)
    ensures Becomes(t, src, b, |t.cols[src]| - from, u)
    ensures Shifted(t, u, src, b, t.cols[src][..from], t.cols[src][from..])
  {
    var kept, block := t.cols[src][..from], t.cols[src][from..];
    assert t.cols[src] == kept + block;
    forall k | 0 < k < |block| ensures IsParent(block[k], block[k - 1]) {
      assert IsParent(t.cols[src][from + k], t.cols[src][from + k - 1]);
    }
    u := BlockTo(t, src, b, kept, block);
    BecomesIt(t, src, b, |block|, u);
  }

  lemma ShiftedOnFree(s: Position, src: nat, from: nat, b: nat, t: Position)
    requires src < |s.cols| && b < |s.cols| && src != b && s.cols[b] == [] && from < |s.cols[src]|
    requires Shifted(s, t, src, b, s.cols[src][..from], s.cols[src][from..])
    ensures IsOnFreeStack(s, src, from, |s.cols[src]| - 1, t)
  {
    assert s.cols[src][from..|s.cols[src]|] == s.cols[src][from..] == t.cols[b];
  }

  // The last sequence of the column fits the capacity.
  lemma LastGoes(s: Position, m: FreeMove, b: nat) returns (u: Position)
    requires ToFreeStack(s, m) && SeqEnd(s.cols[m.src], m.c) + 1 == |s.cols[m.src]|
    requires b < |s.cols| && s.cols[b] == []
    ensures Becomes(s, m.src, b, |s.cols[m.src]| - m.c, u) && IsOnFreeStack(s, m.src, m.c, |s.cols[m.src]| - 1, u)
  {
    CapacityOf(s, b);
    SeqEndIsMaximal(s.cols[m.src], m.c);
    u := EndGoes(s, m.src, m.c, b);
    ShiftedOnFree(s, m.src, m.c, b, u);
  }

  method LastToFreeStack(s: Position, m: FreeMove) returns (d: DerivedState)
    requires ToFreeStack(s, m) && SeqEnd(s.cols[m.src], m.c) + 1 == |s.cols[m.src]|
    ensures IsFreeDerived(s, m, d)
  {
    VacantFrom(s.cols, 0);
    var b := FindEmptyStack(s.cols, 0);
    ghost var u := LastGoes(s, m, b);
    d := EndToFreeStack(s, m.src, m.c, b, u);
  }

  // Records the move of the end of a column.
  method EndToFreeStack(s: Position, src: nat, from: nat, b: nat, ghost after: Position) returns (d: DerivedState)
    requires src < |s.cols| && from < |s.cols[src]| && Becomes(s, src, b, |s.cols[src]| - from, after)
    ensures PlayAll(s, d.moves) == Some(d.pos) && d.pos == after
  {
    var newState := new NewState(s);
    newState.MoveSequence(b, src, |s.cols[src]| - from, s, after);
    d := DerivedState(newState.pos, newState.moves, 0);
  }

  // With the cards over the sequence parked, a column that was empty at the start still is.
  lemma StillEmpty(s: Position, src: nat, num: nat, t: Position, last: Option<Place>) returns (to: nat)
    requires src < |s.cols| && Emptying(s, t, [src], [num], [0]) && ParkedAll(s, t, num, last)
             && StacksToFill(s, num) < VacantStacks(s)
    ensures to == (if last.Some? && last.value.Col? then last.value.i + 1 else 0)
    ensures exists k :: to <= k < |s.cols| && s.cols[k] == []
    ensures forall k :: to <= k < |s.cols| && s.cols[k] == [] ==> k < |t.cols| && t.cols[k] == []
  {
    var inStacks := num - Min(num, VacantFreecells(s));
    to :| Parked(s, t, num, inStacks, to, last);
    assert ColumnEmptying(s, t, [src], [num], [0], 0);
    VacantFrom(t.cols, to);
    var k :| to <= k < |t.cols| && t.cols[k] == [];
    assert ColumnKept(s, t, [src], k);
    assert k != src;
  }

  // Parks the cards over the sequence and finds a column for it.
  method ClearSequence(s: Position, src: nat, num: nat) returns (newState: NewState, b: nat, ghost last: Option<Place>)
    requires src < |s.cols| && num < |s.cols[src]| && StacksToFill(s, num) < VacantStacks(s)
    ensures fresh(newState) && newState.Replays(s)
    ensures Emptying(s, newState.pos, [src], [num], [0]) && ParkedAll(s, newState.pos, num, last)
    ensures b < |s.cols| && s.cols[b] == [] && newState.pos.cols[b] == []
  {
    newState := new NewState(s);
    StartOne(s, src, num);
    var place := newState.EmptyTwoCols([src], [num], s);
    assert seq(1, _ => 0) == [0];
    last := place;
    ghost var to := StillEmpty(s, src, num, newState.pos, last);
    b := FindEmptyStack(s.cols, if place.Some? && place.value.Col? then place.value.i + 1 else 0);
  }

  method InnerToFreeStack(s: Position, m: FreeMove) returns (d: DerivedState)
    requires ToFreeStack(s, m) && SeqEnd(s.cols[m.src], m.c) + 1 < |s.cols[m.src]|
    ensures IsFreeDerived(s, m, d)
  {
    var e := CalcEnd(s.cols[m.src], m.c);
    var newState, b, last := ClearSequence(s, m.src, |s.cols[m.src]| - 1 - e);
    ghost var u := InnerGoes(s, m, e, newState.pos, b, last);
    newState.MoveSequence(b, m.src, e - m.from + 1, s, u);
    d := DerivedState(newState.pos, newState.moves, 0);
  }

  lemma StartOne(s: Position, src: nat, num: nat)
    requires src < |s.cols| && num < |s.cols[src]|
    ensures Distinct([src]) && Emptying(s, s, [src], [num], [num]) && Sum([num]) == num
  {
    assert [num][..0] == [];
    assert ColumnEmptying(s, s, [src], [num], [num], 0) by { assert s.cols[src][..|s.cols[src]|] == s.cols[src]; }
    forall i | 0 <= i < |s.cols| ensures ColumnKept(s, s, [src], i) {}
  }

  lemma InnerGoes(s: Position, m: FreeMove, e: nat, t: Position, b: nat, last: Option<Place>) returns (u: Position)
    requires ToFreeStack(s, m) && e == SeqEnd(s.cols[m.src], m.c) && e + 1 < |s.cols[m.src]|
    requires Emptying(s, t, [m.src], [|s.cols[m.src]| - 1 - e], [0]) && ParkedAll(s, t, |s.cols[m.src]| - 1 - e, last)
    requires b < |s.cols| && s.cols[b] == [] && t.cols[b] == []
    ensures m.from <= e && Becomes(t, m.src, b, e - m.from + 1, u) && IsOnFreeStack(s, m.src, m.from, e, u)
  {
    SeqEndIsMaximal(s.cols[m.src], m.c);
    InnerRoom(s, m, t, b, last);
    u := FreeStackPlay(s, m.src, m.from, e, t, b);
  }

  lemma FreeStackPlay(s: Position, src: nat, from: nat, e: nat, t: Position, b: nat) returns (u: Position)
    requires src < |s.cols| && from <= e < |s.cols[src]| && forall k :: from < k <= e ==>
               IsParent(s.cols[src][k], s.cols[src][k - 1])
    requires Emptying(s, t, [src], [|s.cols[src]| - 1 - e], [0])
    requires b < |s.cols| && s.cols[b] == [] && t.cols[b] == [] && e + 1 - from <= Capacity(t, b)
    ensures Becomes(t, src, b, e - from + 1, u) && IsOnFreeStack(s, src, from, e, u)
  {
    EndIsClear(s, src, from, e, t);
    u := EndGoes(t, src, from, b);
    OnFreeStackIs(s, src, from, e, t, b, u);
  }

  lemma InnerRoom(s: Position, m: FreeMove, t: Position, b: nat, last: Option<Place>)
    requires ToFreeStack(s, m) && SeqEnd(s.cols[m.src], m.c) + 1 < |s.cols[m.src]|
    requires ParkedAll(s, t, |s.cols[m.src]| - 1 - SeqEnd(s.cols[m.src], m.c), last) && b < |t.cols| && t.cols[b] == []
    ensures m.c <= m.from <= SeqEnd(s.cols[m.src], m.c)
    ensures SeqEnd(s.cols[m.src], m.c) + 1 - m.from <= Capacity(t, b)
  {
    CapacityOf(t, b);
  }

  lemma EndIsClear(s: Position, src: nat, from: nat, e: nat, t: Position)
    requires src < |s.cols| && from <= e < |s.cols[src]| && forall k :: from < k <= e ==>
               IsParent(s.cols[src][k], s.cols[src][k - 1])
    requires Emptying(s, t, [src], [|s.cols[src]| - 1 - e], [0])
    ensures |t.cols| == |s.cols| && |t.cells| == |s.cells| && t.found == s.found
    ensures |t.cols[src]| == e + 1 && t.cols[src][..from] == s.cols[src][..from]
            && t.cols[src][from..] == s.cols[src][from..e + 1]
    ensures forall k :: from < k <= e ==> IsParent(t.cols[src][k], t.cols[src][k - 1])
    ensures forall i :: 0 <= i < |s.cols| && i != src && s.cols[i] != [] ==> t.cols[i] == s.cols[i]
  {
    assert ColumnEmptying(s, t, [src], [|s.cols[src]| - 1 - e], [0], 0);
    assert t.cols[src] == s.cols[src][..e + 1];
    forall i | 0 <= i < |s.cols| && i != src && s.cols[i] != [] ensures t.cols[i] == s.cols[i] {
      assert ColumnKept(s, t, [src], i);
    }
  }

  lemma OnFreeStackIs(s: Position, src: nat, from: nat, e: nat, t: Position, b: nat, u: Position)
    requires src < |s.cols| && from <= e < |s.cols[src]| && b < |s.cols| && s.cols[b] == []
    requires |t.cols| == |s.cols| && |t.cells| == |s.cells| && t.found == s.found && t.cols[b] == []
    requires forall i :: 0 <= i < |s.cols| && i != src && s.cols[i] != [] ==> t.cols[i] == s.cols[i]
    requires Shifted(t, u, src, b, s.cols[src][..from], s.cols[src][from..e + 1])
    ensures IsOnFreeStack(s, src, from, e, u)
  {
    assert t.cols[b] + s.cols[src][from..e + 1] == s.cols[src][from..e + 1];
  }

  ghost predicate FreeEarlier(q: FreeMove, src: nat, c: nat) {
    q.src < src || (q.src == src && q.c < c)
  }

  // The sequences are listed column by column from the top, each once.
  ghost predicate FreeInOrder(ms: seq<FreeMove>) {
    forall j, k :: 0 <= j < k < |ms| ==> FreeEarlier(ms[j], ms[k].src, ms[k].c)
  }

  ghost predicate AllFreeEarlier(ms: seq<FreeMove>, src: nat, c: nat) {
    forall k :: 0 <= k < |ms| ==> FreeEarlier(ms[k], src, c)
  }

  ghost predicate FreeListed(s: Position, list: seq<DerivedState>, ms: seq<FreeMove>, src: nat, c: nat) {
    FreeRecorded(s, list, ms) && FreeInOrder(ms) && AllFreeEarlier(ms, src, c)
  }

  lemma FreeListedLater(s: Position, list: seq<DerivedState>, ms: seq<FreeMove>, src: nat, c: nat, src': nat, c': nat)
    requires FreeListed(s, list, ms, src, c) && (src < src' || (src == src' && c <= c'))
    ensures FreeListed(s, list, ms, src', c')
  {
    forall k | 0 <= k < |ms| ensures FreeEarlier(ms[k], src', c') { assert FreeEarlier(ms[k], src, c); }
  }

  lemma FreeOneMore(s: Position, list: seq<DerivedState>, ms: seq<FreeMove>, m: FreeMove, d: DerivedState)
    requires FreeListed(s, list, ms, m.src, m.c) && IsFreeDerived(s, m, d)
    ensures FreeListed(s, list + [d], ms + [m], m.src, m.c + 1)
  {
    FreeRecordedOneMore(s, list, ms, m, d);
    FreeInOrderOneMore(ms, m);
  }

  lemma FreeRecordedOneMore(s: Position, list: seq<DerivedState>, ms: seq<FreeMove>, m: FreeMove, d: DerivedState)
    requires FreeRecorded(s, list, ms) && IsFreeDerived(s, m, d)
    ensures FreeRecorded(s, list + [d], ms + [m])
  {
    forall k | 0 <= k < |ms + [m]| ensures IsFreeDerived(s, (ms + [m])[k], (list + [d])[k]) {
      if k < |ms| { assert IsFreeDerived(s, ms[k], list[k]); }
    }
  }

  lemma FreeInOrderOneMore(ms: seq<FreeMove>, m: FreeMove)
    requires FreeInOrder(ms) && AllFreeEarlier(ms, m.src, m.c)
    ensures FreeInOrder(ms + [m]) && AllFreeEarlier(ms + [m], m.src, m.c + 1)
  {
    var more := ms + [m];
    forall j, k | 0 <= j < k < |more| ensures FreeEarlier(more[j], more[k].src, more[k].c) {
      if k < |ms| { assert FreeEarlier(ms[j], ms[k].src, ms[k].c); } else { assert FreeEarlier(ms[j], m.src, m.c); }
    }
    forall k | 0 <= k < |more| ensures FreeEarlier(more[k], m.src, m.c + 1) {
      if k < |ms| { assert FreeEarlier(ms[k], m.src, m.c); }
    }
  }

  // ---- Which sequences can go to a free column ----

  // The end of column src from `from` on can be played to an empty column, and no longer one of cards c on.
  ghost predicate LongestEndPlays(t: Position, src: nat, c: nat, from: nat, b: nat)
    requires src < |t.cols|
  {
    && c <= from < |t.cols[src]| && CanPlay(t, ColToCol(src, b, |t.cols[src]| - from))
    && (from > c ==> !CanPlay(t, ColToCol(src, b, |t.cols[src]| - from + 1)))
  }

  // The cards over card e are parked, on freecells first, and column b is empty.
  ghost predicate IsUncovered(s: Position, src: nat, e: nat, t: Position, last: Option<Place>, b: nat)
    requires src < |s.cols| && e < |s.cols[src]|
  {
    && Emptying(s, t, [src], [|s.cols[src]| - 1 - e], [0]) && ParkedAll(s, t, |s.cols[src]| - 1 - e, last)
    && b < |t.cols| && t.cols[b] == []
  }

  // A sequence at the end of its column goes whole, if it is not all of the column; of one with cards
  // over it goes the longest end that can be played when these are parked, wherever they are.
  ghost predicate GoesToFreeColumn(s: Position, m: FreeMove) {
    && m.src < |s.cols| && m.c < |s.cols[m.src]|
    && exists e :: m.c <= e < |s.cols[m.src]| && IsWholeSequence(s.cols[m.src], m.c, e) && PartGoes(s, m, e)
  }

  ghost predicate PartGoes(s: Position, m: FreeMove, e: nat)
    requires m.src < |s.cols| && m.c <= e < |s.cols[m.src]|
  {
    if e + 1 == |s.cols[m.src]| then
      && m.c > 0 && m.from == m.c
      && exists b: nat :: b < |s.cols| && s.cols[b] == [] && CanPlay(s, ColToCol(m.src, b, |s.cols[m.src]| - m.c))
    else
      && |s.cols[m.src]| - 1 - e < |VacantCellSet(s)| + |EmptyColumnSet(s)| && EmptyColumnSet(s) != {}
      && forall t, last, b :: IsUncovered(s, m.src, e, t, last, b) ==> LongestEndPlays(t, m.src, m.c, m.from, b)
  }

  // Playing the end of a run to an empty column is a matter of the capacity only.
  lemma EndPlays(t: Position, src: nat, from: nat, b: nat)
    requires src < |t.cols| && b < |t.cols| && t.cols[b] == [] && from < |t.cols[src]|
    requires forall k :: from < k < |t.cols[src]| ==> IsParent(t.cols[src][k], t.cols[src][k - 1])
    ensures CanPlay(t, ColToCol(src, b, |t.cols[src]| - from)) <==> |t.cols[src]| - from <= Capacity(t, b)
  {
    var kept, block := t.cols[src][..from], t.cols[src][from..];
    assert t.cols[src] == kept + block;
    forall k | 0 < k < |block| ensures IsParent(block[k], block[k - 1]) {
      assert IsParent(t.cols[src][from + k], t.cols[src][from + k - 1]);
    }
    BlockPlays(t, src, b, kept, block);
  }

  lemma LongestIsFirstToMove(t: Position, src: nat, c: nat, from: nat, b: nat)
    requires src < |t.cols| && b < |t.cols| && t.cols[b] == [] && c < |t.cols[src]| && Capacity(t, b) > 0
    requires forall k :: c < k < |t.cols[src]| ==> IsParent(t.cols[src][k], t.cols[src][k - 1])
    ensures LongestEndPlays(t, src, c, from, b) <==> from == FirstToMove(c, |t.cols[src]| - 1, Capacity(t, b))
  {
    if c <= from < |t.cols[src]| {
      EndPlays(t, src, from, b);
      if from > c { EndPlays(t, src, from - 1, b); }
    }
  }

  lemma LastGoesIff(s: Position, m: FreeMove)
    requires m.src < |s.cols| && m.c < |s.cols[m.src]| && SeqEnd(s.cols[m.src], m.c) + 1 == |s.cols[m.src]|
    ensures VacantStacks(s) > 0 && LastSequenceGoes(s, m) <==> PartGoes(s, m, |s.cols[m.src]| - 1)
  {
    SeqEndIsMaximal(s.cols[m.src], m.c);
    forall b: nat | b < |s.cols| && s.cols[b] == []
      ensures VacantStacks(s) > 0
      ensures CanPlay(s, ColToCol(m.src, b, |s.cols[m.src]| - m.c)) <==>
              |s.cols[m.src]| - m.c <= CalcMaxSequenceMove(VacantFreecells(s), VacantStacks(s) - 1)
    {
      EndPlays(s, m.src, m.c, b);
      CapacityOf(s, b);
    }
    if VacantStacks(s) > 0 { VacantFrom(s.cols, 0); }
  }

  lemma CanBeUncovered(s: Position, src: nat, e: nat) returns (t: Position, last: Option<Place>, b: nat)
    requires src < |s.cols| && e < |s.cols[src]|
    requires |s.cols[src]| - 1 - e < VacantFreecells(s) + VacantStacks(s) && VacantStacks(s) > 0
    ensures IsUncovered(s, src, e, t, last, b)
  {
    var num := |s.cols[src]| - 1 - e;
    StartOne(s, src, num);
    t, last := ParkRest(s, s, [src], [num], [num], 0, 0, 0, None);
    assert seq(1, _ => 0) == [0];
    b := FindVacantCol(t.cols, |t.cols|, |t.cols|);
  }

  lemma UncoveredPlays(s: Position, m: FreeMove, e: nat, t: Position, last: Option<Place>, b: nat)
    requires m.src < |s.cols| && m.c <= e < |s.cols[m.src]| && IsWholeSequence(s.cols[m.src], m.c, e)
    requires StacksToFill(s, |s.cols[m.src]| - 1 - e) < VacantStacks(s) && IsUncovered(s, m.src, e, t, last, b)
    ensures m.src < |t.cols|
    ensures LongestEndPlays(t, m.src, m.c, m.from, b) <==>
            m.from == FirstToMove(m.c, e, CalcMaxSequenceMove(
                VacantFreecells(s) - Min(|s.cols[m.src]| - 1 - e, VacantFreecells(s)),
                VacantStacks(s) - StacksToFill(s, |s.cols[m.src]| - 1 - e) - 1))
  {
    EndIsClear(s, m.src, m.c, e, t);
    CapacityOf(t, b);
    LongestIsFirstToMove(t, m.src, m.c, m.from, b);
  }

  lemma InnerGoesIff(s: Position, m: FreeMove, e: nat)
    requires m.src < |s.cols| && m.c <= e < |s.cols[m.src]| - 1 && IsWholeSequence(s.cols[m.src], m.c, e)
    requires e == SeqEnd(s.cols[m.src], m.c)
    ensures VacantStacks(s) > 0 && InnerSequenceGoes(s, m) <==> PartGoes(s, m, e)
  {
    VacantPlacesAre(s);
    if VacantStacks(s) > 0 && StacksToFill(s, |s.cols[m.src]| - 1 - e) < VacantStacks(s) {
      forall t, last, b | IsUncovered(s, m.src, e, t, last, b)
        ensures LongestEndPlays(t, m.src, m.c, m.from, b) <==> InnerSequenceGoes(s, m)
      {
        UncoveredPlays(s, m, e, t, last, b);
      }
      var t, last, b := CanBeUncovered(s, m.src, e);
    }
  }

  lemma ToFreeStackIff(s: Position, m: FreeMove)
    ensures ToFreeStack(s, m) <==> GoesToFreeColumn(s, m)
  {
    if m.src < |s.cols| && m.c < |s.cols[m.src]| {
      var col := s.cols[m.src];
      var e := SeqEnd(col, m.c);
      forall e': nat | m.c <= e' < |col| ensures IsWholeSequence(col, m.c, e') <==> IsSeqStart(col, m.c) && e' == e {
        WholeSequenceIff(col, m.c, e');
      }
      if IsSeqStart(col, m.c) {
        if e + 1 == |col| { LastGoesIff(s, m); } else { InnerGoesIff(s, m, e); }
      }
    }
  }

  method MoveSequencesToFreeStacks(s: Position) returns (list: seq<DerivedState>, ghost ms: seq<FreeMove>)
    ensures FreeRecorded(s, list, ms) && FreeInOrder(ms) && forall m :: m in ms <==> GoesToFreeColumn(s, m)
  {
    list, ms := [], [];
    forall m ensures ToFreeStack(s, m) <==> GoesToFreeColumn(s, m) { ToFreeStackIff(s, m); }
    if VacantStacks(s) == 0 { return; }
    for i := 0 to |s.cols|
      invariant FreeListed(s, list, ms, i, 0) && forall m :: m in ms <==> ToFreeStack(s, m) && m.src < i
    {
      list, ms := OneStackToFreeStacks(s, i, list, ms);
    }
  }

  method OneStackToFreeStacks(s: Position, i: nat, soFar: seq<DerivedState>, ghost ms0: seq<FreeMove>)
    returns (list: seq<DerivedState>, ghost ms: seq<FreeMove>)
    requires i < |s.cols| && VacantStacks(s) > 0 && FreeListed(s, soFar, ms0, i, 0)
    ensures FreeListed(s, list, ms, i + 1, 0)
    ensures forall m :: m in ms <==> m in ms0 || (ToFreeStack(s, m) && m.src == i)
  {
    list, ms := soFar, ms0;
    var col := s.cols[i];
    var c := 0;
    while c < |col|
      invariant c <= |col| && (c < |col| ==> IsSeqStart(col, c)) && FreeListed(s, list, ms, i, c)
      invariant forall m :: m in ms <==> m in ms0 || (ToFreeStack(s, m) && m.src == i && m.c < c)
    {
      var e := CalcEnd(col, c);
      SeqEndIsMaximal(col, c);
      list, ms := OneToFreeStack(s, i, c, e, list, ms);
      FreeListedLater(s, list, ms, i, c + 1, i, e + 1);
      c := e + 1;
    }
    FreeListedLater(s, list, ms, i, c, i + 1, 0);
  }

  method OneToFreeStack(s: Position, i: nat, c: nat, e: nat, soFar: seq<DerivedState>, ghost ms0: seq<FreeMove>)
    returns (list: seq<DerivedState>, ghost ms: seq<FreeMove>)
    requires i < |s.cols| && VacantStacks(s) > 0 && c < |s.cols[i]| && IsSeqStart(s.cols[i], c)
             && e == SeqEnd(s.cols[i], c)
    requires FreeListed(s, soFar, ms0, i, c)
    ensures FreeListed(s, list, ms, i, c + 1)
    ensures forall m :: m in ms <==> m in ms0 || (ToFreeStack(s, m) && m.src == i && m.c == c)
  {
    list, ms := soFar, ms0;
    FreeListedLater(s, list, ms, i, c, i, c + 1);
    if e == |s.cols[i]| - 1 {
      var from := CalcLastStart(s, i, c);
      if from > 0 {
        var d := LastToFreeStack(s, FreeMove(i, c, from));
        FreeOneMore(s, list, ms, FreeMove(i, c, from), d);
        list, ms := list + [d], ms + [FreeMove(i, c, from)];
      }
    } else {
      var goes, from := CalcInnerStart(s, i, c, e);
      if goes {
        var d := InnerToFreeStack(s, FreeMove(i, c, from));
        FreeOneMore(s, list, ms, FreeMove(i, c, from), d);
        list, ms := list + [d], ms + [FreeMove(i, c, from)];
      }
    }
  }

  method CalcLastStart(s: Position, i: nat, c: nat) returns (from: nat)
    requires i < |s.cols| && VacantStacks(s) > 0 && c < |s.cols[i]|
    ensures from > 0 ==> from == c && LastSequenceGoes(s, FreeMove(i, c, c))
    ensures from == 0 ==> !LastSequenceGoes(s, FreeMove(i, c, c))
  {
    var len, maxLen := |s.cols[i]|, CalcMaxSequenceMove(VacantFreecells(s), VacantStacks(s) - 1);
    from := c;
    while maxLen < len - from && from > 0
      invariant from <= c && (from < c ==> maxLen < len - c)
      decreases from
    {
      from := from - 1;
    }
  }

  method CalcInnerStart(s: Position, i: nat, c: nat, e: nat) returns (goes: bool, from: nat)
    requires i < |s.cols| && VacantStacks(s) > 0 && c < |s.cols[i]| && e == SeqEnd(s.cols[i], c) && e + 1 < |s.cols[i]|
    ensures forall m: FreeMove :: m.src == i && m.c == c ==> (InnerSequenceGoes(s, m) <==> goes && m.from == from)
  {
    var num, freecells, stacks := |s.cols[i]| - 1 - e, VacantFreecells(s), VacantStacks(s);
    var freecellsToFill := Min(num, freecells);
    num := num - freecellsToFill;
    var stacksToFill := Min(num, stacks);
    num := num - stacksToFill;
    goes, from := num == 0 && stacks - stacksToFill > 0, 0;
    if goes {
      var maxMove := CalcMaxSequenceMove(freecells - freecellsToFill, stacks - stacksToFill - 1);
      from := FirstToMove(c, e, maxMove);
      goes := from <= e;
    }
  }
}
