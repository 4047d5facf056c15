/** Moves of whole sequences of cards, and how single-card moves carry them out. */
module Sequences {
  import opened Cards
  import opened Numbers
  import opened Positions

  // The moves of a solution, by type. A sequence of cards moves as one.
  datatype SolverMove =
    | ColToHome(src: nat)
    | CellToHome(src: nat)
    | CellToCol(src: nat, dst: nat)
    | ColToCell(src: nat, dst: nat)
    | ColToCol(src: nat, dst: nat, num: nat)

  function OneCard(m: SolverMove): Move
    requires !m.ColToCol?
  {
    match m
    case ColToHome(i) => Move(Col(i), Home)
    case CellToHome(j) => Move(Cell(j), Home)
    case CellToCol(j, i) => Move(Cell(j), Col(i))
    case ColToCell(i, j) => Move(Col(i), Cell(j))
  }

  // ---- Moving a sequence of cards ----

  predicate IsRunOfCards(cards: seq<Card>) {
    forall k :: 0 < k < |cards| ==> IsParent(cards[k], cards[k - 1])
  }

  function VacantCells(cells: seq<Option<Card>>, n: nat): nat
    requires n <= |cells|
  {
    if n == 0 then 0 else VacantCells(cells, n - 1) + if cells[n - 1] == None then 1 else 0
  }

  function VacantCols(cols: seq<Column>, dst: nat, n: nat): nat
    requires n <= |cols|
  {
    if n == 0 then 0 else VacantCols(cols, dst, n - 1) + if n - 1 != dst && cols[n - 1] == [] then 1 else 0
  }

  // How many cards the vacant freecells and the vacant columns other than dst can carry over.
  function Capacity(s: Position, dst: nat): nat {
    (VacantCells(s.cells, |s.cells|) + 1) * Pow2(VacantCols(s.cols, dst, |s.cols|))
  }

  // ---- What is vacant ----

  ghost function VacantCellSet(s: Position): set<nat> {
    set j: nat | j < |s.cells| && s.cells[j] == None
  }

  ghost function EmptyColumnSet(s: Position): set<nat> {
    set i: nat | i < |s.cols| && s.cols[i] == []
  }

  // The wanted numbers below n.
  ghost function Below(n: nat, wanted: nat -> bool): set<nat> {
    set k: nat | k < n && wanted(k)
  }

  lemma BelowStep(n: nat, wanted: nat -> bool)
    requires n > 0
    ensures |Below(n, wanted)| == |Below(n - 1, wanted)| + if wanted(n - 1) then 1 else 0
  {
    assert Below(n, wanted) == if wanted(n - 1) then Below(n - 1, wanted) + {n - 1} else Below(n - 1, wanted);
  }

  function IsVacantCell(cells: seq<Option<Card>>): nat -> bool {
    (j: nat) => j < |cells| && cells[j] == None
  }

  function IsVacantCol(cols: seq<Column>, dst: nat): nat -> bool {
    (i: nat) => i < |cols| && i != dst && cols[i] == []
  }

  lemma {:induction false} VacantCellsCounts(cells: seq<Option<Card>>, n: nat)
    requires n <= |cells|
    ensures VacantCells(cells, n) == |Below(n, IsVacantCell(cells))|
  {
    if n == 0 {
      assert Below(0, IsVacantCell(cells)) == {};
    } else {
      VacantCellsCounts(cells, n - 1);
      BelowStep(n, IsVacantCell(cells));
    }
  }

  lemma {:induction false} VacantColsCounts(cols: seq<Column>, dst: nat, n: nat)
    requires n <= |cols|
    ensures VacantCols(cols, dst, n) == |Below(n, IsVacantCol(cols, dst))|
  {
    if n == 0 {
      assert Below(0, IsVacantCol(cols, dst)) == {};
    } else {
      VacantColsCounts(cols, dst, n - 1);
      BelowStep(n, IsVacantCol(cols, dst));
    }
  }

  // Each vacant freecell takes a card, and each empty column other than the destination doubles what can move.
  lemma CapacityIs(s: Position, dst: nat)
    ensures Capacity(s, dst) == (|VacantCellSet(s)| + 1) * Pow2(|EmptyColumnSet(s) - {dst}|)
  {
    VacantCellsCounts(s.cells, |s.cells|);
    VacantColsCounts(s.cols, dst, |s.cols|);
    assert VacantCellSet(s) == Below(|s.cells|, IsVacantCell(s.cells));
    assert EmptyColumnSet(s) - {dst} == Below(|s.cols|, IsVacantCol(s.cols, dst));
  }

  predicate BlockFits(s: Position, src: nat, dst: nat, num: nat) {
    && src < |s.cols| && dst < |s.cols| && src != dst && 0 < num <= |s.cols[src]|
    && var block := s.cols[src][|s.cols[src]| - num..];
       IsRunOfCards(block) && (s.cols[dst] == [] || IsParent(block[0], Last(s.cols[dst])))
  }

  predicate CanPlay(s: Position, m: SolverMove) {
    if m.ColToCol? then BlockFits(s, m.src, m.dst, m.num) && m.num <= Capacity(s, m.dst)
    else Legal(s, OneCard(m))
  }

  function MoveBlock(s: Position, src: nat, dst: nat, num: nat): Position
    requires BlockFits(s, src, dst, num)
  {
    var n := |s.cols[src]| - num;
    s.(cols := s.cols[src := s.cols[src][..n]][dst := s.cols[dst] + s.cols[src][n..]])
  }

  function Play(s: Position, m: SolverMove): Position
    requires CanPlay(s, m)
  {
    if m.ColToCol? then MoveBlock(s, m.src, m.dst, m.num) else Apply(s, OneCard(m))
  }

  // A solution without automatic moves.
  ghost predicate Solves(s: Position, moves: seq<SolverMove>)
    decreases |moves|
  {
    if moves == [] then Solved(s) else CanPlay(s, moves[0]) && Solves(Play(s, moves[0]), moves[1..])
  }

  lemma PlayKeepsDeck(s: Position, m: SolverMove)
    requires FullDeck(s) && CanPlay(s, m)
    ensures FullDeck(Play(s, m))
    ensures |Play(s, m).cols| == |s.cols| && |Play(s, m).cells| == |s.cells|
  {
    if m.ColToCol? { BlockKeepsDeck(s, m.src, m.dst, m.num); } else { MoveKeepsDeck(s, OneCard(m)); }
  }

  lemma CutAndPaste(cols: seq<Column>, src: nat, dst: nat, a: Column, b: Column)
    requires src < |cols| && dst < |cols| && src != dst && cols[src] == a + b
    ensures Tableau(cols[src := a][dst := cols[dst] + b]) == Tableau(cols)
  {
    TableauUpdate(cols, src, a);
    TableauUpdate(cols[src := a], dst, cols[dst] + b);
    assert multiset(cols[src]) == multiset(a) + multiset(b);
    assert multiset(cols[dst] + b) == multiset(cols[dst]) + multiset(b);
  }

  lemma BlockKeepsDeck(s: Position, src: nat, dst: nat, num: nat)
    requires FullDeck(s) && BlockFits(s, src, dst, num)
    ensures FullDeck(MoveBlock(s, src, dst, num))
  {
    var n := |s.cols[src]| - num;
    assert s.cols[src] == s.cols[src][..n] + s.cols[src][n..];
    CutAndPaste(s.cols, src, dst, s.cols[src][..n], s.cols[src][n..]);
    forall c: Card ensures Copies(MoveBlock(s, src, dst, num), c) == Copies(s, c) {}
  }

  // ---- Single-card moves carry the sequence out ----

  lemma {:induction false} VacantColsUpdate(cols: seq<Column>, dst: nat, n: nat, i: nat, x: Column)
    requires n <= |cols| && i < |cols|
    ensures VacantCols(cols[i := x], dst, n) + (if i < n && i != dst && cols[i] == [] then 1 else 0)
         == VacantCols(cols, dst, n) + (if i < n && i != dst && x == [] then 1 else 0)
  {
    if n == 0 {
    } else {
      VacantColsUpdate(cols, dst, n - 1, i, x);
    }
  }

  lemma {:induction false} VacantCellsUpdate(cells: seq<Option<Card>>, n: nat, j: nat, x: Option<Card>)
    requires n <= |cells| && j < |cells|
    ensures VacantCells(cells[j := x], n) + (if j < n && cells[j] == None then 1 else 0)
         == VacantCells(cells, n) + (if j < n && x == None then 1 else 0)
  {
    if n == 0 {
    } else {
      VacantCellsUpdate(cells, n - 1, j, x);
    }
  }

  lemma {:induction false} OtherDestination(cols: seq<Column>, dst: nat, w: nat, n: nat)
    requires n <= |cols|
    ensures VacantCols(cols, w, n) + (if w < n && cols[w] == [] then 1 else 0)
         == VacantCols(cols, dst, n) + (if dst < n && cols[dst] == [] then 1 else 0)
  {
    if n == 0 {
    } else {
      OtherDestination(cols, dst, w, n - 1);
    }
  }

  lemma {:induction false} FindVacantCol(cols: seq<Column>, dst: nat, n: nat) returns (w: nat)
    requires n <= |cols| && VacantCols(cols, dst, n) > 0
    ensures w < n && w != dst && cols[w] == []
  {
    if n - 1 != dst && cols[n - 1] == [] { w := n - 1; } else { w := FindVacantCol(cols, dst, n - 1); }
  }

  lemma {:induction false} FindVacantCell(cells: seq<Option<Card>>, n: nat) returns (j: nat)
    requires n <= |cells| && VacantCells(cells, n) > 0
    ensures j < n && cells[j] == None
  {
    if cells[n - 1] == None { j := n - 1; } else { j := FindVacantCell(cells, n - 1); }
  }

  lemma TimesMonotone(a: nat, b: nat, x: nat, y: nat)
    requires a >= b && x >= y
    ensures a * x >= b * y
  {
    assert a * x == b * x + (a - b) * x;
    assert b * x == b * y + b * (x - y);
  }

  // Half of what n + 1 vacant columns allow is what n allow.
  lemma HalfCapacity(cells: nat, n: nat, num: nat)
    requires num <= (cells + 1) * Pow2(n + 1)
    ensures num - num / 2 <= (cells + 1) * Pow2(n) && num / 2 <= (cells + 1) * Pow2(n)
  {
    assert (cells + 1) * Pow2(n + 1) == 2 * ((cells + 1) * Pow2(n));
  }

  lemma {:induction false} ReachesJoin(s: Position, a: seq<Move>, t: Position, b: seq<Move>, u: Position)
    requires Reaches(s, a, t) && Reaches(t, b, u)
    ensures Reaches(s, a + b, u)
    decreases |a|
  {
    if a == [] {
      assert a + b == b;
    } else {
      ReachesJoin(Apply(s, a[0]), a[1..], t, b, u);
      assert (a + b)[1..] == a[1..] + b;
    }
  }

  lemma OneMove(s: Position, m: Move)
    requires Legal(s, m)
    ensures Reaches(s, [m], Apply(s, m))
  {
    assert Reaches(Apply(s, m), [], Apply(s, m));
    assert [m][1..] == [];
  }

  // A sequence within the capacity can be moved one card at a time.
  lemma {:induction false} SequenceMoveIsPlay(s: Position, src: nat, dst: nat, num: nat) returns (moves: seq<Move>)
    requires BlockFits(s, src, dst, num) && num <= Capacity(s, dst)
    ensures Reaches(s, moves, MoveBlock(s, src, dst, num))
    decreases num, 1
  {
    if num == 1 {
      var m := Move(Col(src), Col(dst));
      assert s.cols[src][|s.cols[src]| - 1..] == [Last(s.cols[src])];
      OneMove(s, m);
      moves := [m];
    } else if VacantCols(s.cols, dst, |s.cols|) > 0 {
      moves := ByVacantCol(s, src, dst, num);
    } else {
      moves := ByVacantCell(s, src, dst, num);
    }
  }

  // The block can go there, and t is what it leaves.
  ghost predicate Goes(s: Position, src: nat, dst: nat, num: nat, t: Position) {
    forall n {:trigger BlockFits(s, src, dst, n)} :: n == num ==>
      BlockFits(s, src, dst, n) && MoveBlock(s, src, dst, n) == t
  }

  lemma BlockGoes(s: Position, src: nat, dst: nat, num: nat)
    requires BlockFits(s, src, dst, num)
    ensures Goes(s, src, dst, num, MoveBlock(s, src, dst, num))
  {
  }

  lemma Gone(s: Position, src: nat, dst: nat, num: nat, t: Position)
    requires Goes(s, src, dst, num, t)
    ensures BlockFits(s, src, dst, num) && MoveBlock(s, src, dst, num) == t
  {
    var fits := BlockFits(s, src, dst, num);
  }

  // Half of the cards go to a vacant column, the others to the destination, then the first half follows.
  lemma {:induction false} ByVacantCol(s: Position, src: nat, dst: nat, num: nat) returns (moves: seq<Move>)
    requires BlockFits(s, src, dst, num) && 1 < num <= Capacity(s, dst)
    requires VacantCols(s.cols, dst, |s.cols|) > 0
    ensures Reaches(s, moves, MoveBlock(s, src, dst, num))
    decreases num, 0
  {
    var k := num / 2;
    var w := FindVacantCol(s.cols, dst, |s.cols|);
    var s1, s2 := HalvesFit(s, src, dst, w, num, k);
    HalvesCanGo(s, src, dst, w, num, k, s1, s2);
    var a := GoneIsPlay(s, src, w, k, s1);
    var b := GoneIsPlay(s1, src, dst, num - k, s2);
    var c := GoneIsPlay(s2, w, dst, k, MoveBlock(s, src, dst, num));
    ReachesJoin(s, a, s1, b, s2);
    ReachesJoin(s, a + b, s2, c, MoveBlock(s, src, dst, num));
    moves := a + b + c;
  }

  lemma {:induction false} GoneIsPlay(s: Position, src: nat, dst: nat, num: nat, t: Position)
    returns (moves: seq<Move>)
    requires Goes(s, src, dst, num, t) && num <= Capacity(s, dst)
    ensures Reaches(s, moves, t)
    decreases num, 2
  {
    Gone(s, src, dst, num, t);
    moves := SequenceMoveIsPlay(s, src, dst, num);
  }

  lemma HalvesCanGo(s: Position, src: nat, dst: nat, w: nat, num: nat, k: nat, s1: Position, s2: Position)
    requires 1 < num <= Capacity(s, dst) && k == num / 2 && dst < |s.cols|
    requires w < |s.cols| && w != dst && s.cols[w] == [] && VacantCols(s.cols, dst, |s.cols|) > 0
    requires Goes(s, src, w, k, s1) && Goes(s1, src, dst, num - k, s2)
    ensures k <= Capacity(s, w) && num - k <= Capacity(s1, dst) && k <= Capacity(s2, dst)
  {
    var free, n := VacantCols(s.cols, dst, |s.cols|) - 1, |s.cols|;
    HalfCapacity(VacantCells(s.cells, |s.cells|), free, num);
    OtherDestination(s.cols, dst, w, n);
    VacantAfterBlock(s, src, w, k, dst, s1);
    VacantAfterBlock(s1, src, dst, num - k, dst, s2);
    EnoughFor(s, w, free);
    EnoughFor(s1, dst, free);
    EnoughFor(s2, dst, free);
  }

  lemma EnoughFor(s: Position, dst: nat, free: nat)
    requires VacantCols(s.cols, dst, |s.cols|) >= free
    ensures Capacity(s, dst) >= (VacantCells(s.cells, |s.cells|) + 1) * Pow2(free)
  {
    Pow2Monotone(VacantCols(s.cols, dst, |s.cols|), free);
    TimesMonotone(VacantCells(s.cells, |s.cells|) + 1, VacantCells(s.cells, |s.cells|) + 1,
                  Pow2(VacantCols(s.cols, dst, |s.cols|)), Pow2(free));
  }

  lemma VacantAfterBlock(s: Position, src: nat, to: nat, num: nat, dst: nat, t: Position)
    requires Goes(s, src, to, num, t) && to < |s.cols|
    ensures |t.cols| == |s.cols| && t.cells == s.cells
    ensures VacantCols(t.cols, dst, |s.cols|)
         >= VacantCols(s.cols, dst, |s.cols|) - if to != dst && s.cols[to] == [] then 1 else 0
  {
    Gone(s, src, to, num, t);
    var m := |s.cols[src]| - num;
    var cut := s.cols[src := s.cols[src][..m]];
    VacantColsUpdate(s.cols, dst, |s.cols|, src, s.cols[src][..m]);
    VacantColsUpdate(cut, dst, |s.cols|, to, s.cols[to] + s.cols[src][m..]);
  }

  // t is s with the block gone from src to dst.
  ghost predicate Shifted(s: Position, t: Position, src: nat, dst: nat, kept: Column, block: Column)
    requires dst < |s.cols|
  {
    && |t.cols| == |s.cols| && t.cells == s.cells && t.found == s.found
    && forall i :: 0 <= i < |s.cols| ==>
         t.cols[i] == if i == src then kept else if i == dst then s.cols[dst] + block else s.cols[i]
  }

  lemma BlockIs(s: Position, src: nat, dst: nat, kept: Column, block: Column)
    requires src < |s.cols| && dst < |s.cols| && src != dst && s.cols[src] == kept + block
    requires block != [] && IsRunOfCards(block)
    requires s.cols[dst] == [] || IsParent(block[0], Last(s.cols[dst]))
    ensures BlockFits(s, src, dst, |block|)
    ensures Shifted(s, MoveBlock(s, src, dst, |block|), src, dst, kept, block)
  {
    assert s.cols[src][|kept|..] == block && s.cols[src][..|kept|] == kept;
  }

  lemma SplitRun(low: Column, high: Column)
    requires low != [] && high != [] && IsRunOfCards(low + high)
    ensures IsRunOfCards(low) && IsRunOfCards(high) && IsParent(high[0], Last(low))
  {
    var whole := low + high;
    forall j | 0 < j < |high| ensures IsParent(high[j], high[j - 1]) {
      assert high[j] == whole[|low| + j] && high[j - 1] == whole[|low| + j - 1];
    }
    forall j | 0 < j < |low| ensures IsParent(low[j], low[j - 1]) {
      assert low[j] == whole[j] && low[j - 1] == whole[j - 1];
    }
    assert high[0] == whole[|low|] && Last(low) == whole[|low| - 1];
  }

  lemma HalvesFit(s: Position, src: nat, dst: nat, w: nat, num: nat, k: nat) returns (s1: Position, s2: Position)
    requires BlockFits(s, src, dst, num) && 0 < k < num
    requires w < |s.cols| && w != dst && s.cols[w] == []
    ensures Goes(s, src, w, k, s1) && Goes(s1, src, dst, num - k, s2)
            && Goes(s2, w, dst, k, MoveBlock(s, src, dst, num))
  {
    var kept, low, high := CutBlock(s, src, dst, num, k);
    s1, s2 := SplitBlock(s, src, dst, w, kept, low, high, MoveBlock(s, src, dst, num));
  }

  // The last k cards of the block are high.
  lemma CutBlock(s: Position, src: nat, dst: nat, num: nat, k: nat) returns (kept: Column, low: Column, high: Column)
    requires BlockFits(s, src, dst, num) && 0 < k < num
    ensures s.cols[src] == kept + (low + high) && |low| == num - k && |high| == k && IsRunOfCards(low + high)
    ensures s.cols[dst] == [] || IsParent((low + high)[0], Last(s.cols[dst]))
    ensures Shifted(s, MoveBlock(s, src, dst, num), src, dst, kept, low + high)
  {
    var n := |s.cols[src]| - num;
    var block := s.cols[src][n..];
    kept, low, high := s.cols[src][..n], block[..num - k], block[num - k..];
    assert block == low + high && s.cols[src] == kept + block;
    BlockIs(s, src, dst, kept, block);
  }

  lemma SplitBlock(s: Position, src: nat, dst: nat, w: nat, kept: Column, low: Column, high: Column, t: Position)
    returns (s1: Position, s2: Position)
    requires src < |s.cols| && dst < |s.cols| && w < |s.cols| && src != dst && w != dst && s.cols[w] == []
    requires low != [] && high != [] && IsRunOfCards(low + high) && s.cols[src] == kept + (low + high)
    requires s.cols[dst] == [] || IsParent((low + high)[0], Last(s.cols[dst]))
    requires Shifted(s, t, src, dst, kept, low + high)
    ensures Goes(s, src, w, |high|, s1) && Goes(s1, src, dst, |low|, s2) && Goes(s2, w, dst, |high|, t)
  {
    SplitRun(low, high);
    assert s.cols[src] == (kept + low) + high;
    s1 := BlockTo(s, src, w, kept + low, high);
    s2 := LaterHalves(s, s1, src, dst, w, kept, low, high, t);
  }

  lemma LaterHalves(s: Position, s1: Position, src: nat, dst: nat, w: nat, kept: Column, low: Column, high: Column,
                    t: Position) returns (s2: Position)
    requires src < |s.cols| && dst < |s.cols| && w < |s.cols| && src != dst && w != src && w != dst && s.cols[w] == []
    requires low != [] && high != [] && IsRunOfCards(low) && IsRunOfCards(high) && IsParent(high[0], Last(low))
    requires s.cols[dst] == [] || IsParent(low[0], Last(s.cols[dst]))
    requires Shifted(s, s1, src, w, kept + low, high) && Shifted(s, t, src, dst, kept, low + high)
    ensures Goes(s1, src, dst, |low|, s2) && Goes(s2, w, dst, |high|, t)
  {
    s2 := FirstHalf(s, s1, src, dst, w, kept, low, high);
    var u := LastHalfFits(s, s1, s2, src, dst, w, kept, low, high);
    LastHalf(s, s1, s2, src, dst, w, kept, low, high, t, u);
  }

  lemma FirstHalf(s: Position, s1: Position, src: nat, dst: nat, w: nat, kept: Column, low: Column, high: Column)
    returns (s2: Position)
    requires src < |s.cols| && dst < |s.cols| && w < |s.cols| && src != dst && w != src && w != dst
    requires low != [] && IsRunOfCards(low) && Shifted(s, s1, src, w, kept + low, high)
    requires s.cols[dst] == [] || IsParent(low[0], Last(s.cols[dst]))
    ensures |s1.cols| == |s.cols| && Goes(s1, src, dst, |low|, s2) && Shifted(s1, s2, src, dst, kept, low)
  {
    assert s1.cols[src] == kept + low && s1.cols[dst] == s.cols[dst];
    s2 := BlockTo(s1, src, dst, kept, low);
  }

  lemma BlockTo(s: Position, src: nat, dst: nat, kept: Column, block: Column) returns (t: Position)
    requires src < |s.cols| && dst < |s.cols| && src != dst && s.cols[src] == kept + block
    requires block != [] && IsRunOfCards(block)
    requires s.cols[dst] == [] || IsParent(block[0], Last(s.cols[dst]))
    ensures Goes(s, src, dst, |block|, t) && Shifted(s, t, src, dst, kept, block)
  {
    BlockIs(s, src, dst, kept, block);
    BlockGoes(s, src, dst, |block|);
    t := MoveBlock(s, src, dst, |block|);
  }

  // The first half, on the vacant column, still fits the destination.
  lemma LastHalfFits(s: Position, s1: Position, s2: Position, src: nat, dst: nat, w: nat, kept: Column, low: Column,
                     high: Column) returns (u: Position)
    requires src < |s.cols| && dst < |s.cols| && w < |s.cols| && src != dst && w != src && w != dst && s.cols[w] == []
    requires low != [] && high != [] && IsRunOfCards(high) && IsParent(high[0], Last(low))
    requires Shifted(s, s1, src, w, kept + low, high) && Shifted(s1, s2, src, dst, kept, low)
    ensures |s2.cols| == |s.cols| && Goes(s2, w, dst, |high|, u) && Shifted(s2, u, w, dst, [], high)
  {
    BothAfterTwo(s, s1, s2, src, dst, w, kept, low, high);
    u := LastFits(s2, w, dst, high, s.cols[dst], low);
  }

  lemma LastFits(s: Position, w: nat, dst: nat, high: Column, below: Column, low: Column) returns (u: Position)
    requires w < |s.cols| && dst < |s.cols| && w != dst && s.cols[w] == high && s.cols[dst] == below + low
    requires low != [] && high != [] && IsRunOfCards(high) && IsParent(high[0], Last(low))
    ensures Goes(s, w, dst, |high|, u) && Shifted(s, u, w, dst, [], high)
  {
    StillParent(below, low, high[0]);
    assert s.cols[w] == [] + high;
    u := BlockTo(s, w, dst, [], high);
  }

  lemma BothAfterTwo(s: Position, s1: Position, s2: Position, src: nat, dst: nat, w: nat, kept: Column, low: Column,
                     high: Column)
    requires src < |s.cols| && dst < |s.cols| && w < |s.cols| && src != dst && w != src && w != dst && s.cols[w] == []
    requires Shifted(s, s1, src, w, kept + low, high) && Shifted(s1, s2, src, dst, kept, low)
    ensures |s2.cols| == |s.cols| && s2.cols[w] == high && s2.cols[dst] == s.cols[dst] + low
  {
    AfterTwo(s, s1, s2, src, dst, w, kept, low, high);
  }

  lemma LastHalf(s: Position, s1: Position, s2: Position, src: nat, dst: nat, w: nat, kept: Column, low: Column,
                 high: Column, t: Position, u: Position)
    requires src < |s.cols| && dst < |s.cols| && w < |s.cols| && src != dst && w != src && w != dst && s.cols[w] == []
    requires Shifted(s, s1, src, w, kept + low, high) && Shifted(s1, s2, src, dst, kept, low)
    requires Shifted(s, t, src, dst, kept, low + high) && |s2.cols| == |s.cols| && Shifted(s2, u, w, dst, [], high)
    ensures u == t
  {
    AfterTwo(s, s1, s2, src, dst, w, kept, low, high);
    Joined(s, s2, u, src, dst, w, kept, low, high, t);
  }

  lemma StillParent(col: Column, low: Column, c: Card)
    requires low != [] && IsParent(c, Last(low))
    ensures col + low != [] && IsParent(c, Last(col + low))
  {
  }

  lemma AfterTwo(s: Position, s1: Position, s2: Position, src: nat, dst: nat, w: nat, kept: Column, low: Column,
                 high: Column)
    requires src < |s.cols| && dst < |s.cols| && w < |s.cols| && src != dst && w != src && w != dst && s.cols[w] == []
    requires Shifted(s, s1, src, w, kept + low, high) && Shifted(s1, s2, src, dst, kept, low)
    ensures |s2.cols| == |s.cols| && s2.cells == s.cells && s2.found == s.found
    ensures forall i :: 0 <= i < |s.cols| ==> s2.cols[i] == if i == w then high else if i == src then kept
              else if i == dst then s.cols[dst] + low else s.cols[i]
  {
    assert s.cols[w] + high == high;
  }

  lemma Joined(s: Position, s2: Position, u: Position, src: nat, dst: nat, w: nat, kept: Column, low: Column,
               high: Column, t: Position)
    requires src < |s.cols| && dst < |s.cols| && w < |s.cols| && src != dst && w != src && w != dst && s.cols[w] == []
    requires |s2.cols| == |s.cols| && s2.cells == s.cells && s2.found == s.found
    requires forall i :: 0 <= i < |s.cols| ==> s2.cols[i] == if i == w then high else if i == src then kept
               else if i == dst then s.cols[dst] + low else s.cols[i]
    requires Shifted(s2, u, w, dst, [], high) && Shifted(s, t, src, dst, kept, low + high)
    ensures u == t
  {
    assert (s.cols[dst] + low) + high == s.cols[dst] + (low + high);
    SameAs(u, t);
  }

  lemma SameAs(s: Position, t: Position)
    requires |s.cols| == |t.cols| && s.cells == t.cells && s.found == t.found
    requires forall i :: 0 <= i < |s.cols| ==> s.cols[i] == t.cols[i]
    ensures s == t
  {
    assert s.cols == t.cols;
  }

  // The last card waits in a freecell.
  lemma {:induction false} ByVacantCell(s: Position, src: nat, dst: nat, num: nat) returns (moves: seq<Move>)
    requires BlockFits(s, src, dst, num) && 1 < num <= Capacity(s, dst)
    requires VacantCols(s.cols, dst, |s.cols|) == 0
    ensures Reaches(s, moves, MoveBlock(s, src, dst, num))
    decreases num, 0
  {
    var j := FindVacantCell(s.cells, |s.cells|);
    var up, down := Move(Col(src), Cell(j)), Move(Cell(j), Col(dst));
    var s1, s2 := ParkedFits(s, src, dst, j, num);
    OneLessFits(s, src, dst, j, num);
    var b := GoneIsPlay(s1, src, dst, num - 1, s2);
    OneMove(s, up);
    OneMove(s2, down);
    ReachesJoin(s, [up], s1, b, s2);
    ReachesJoin(s, [up] + b, s2, [down], Apply(s2, down));
    moves := [up] + b + [down];
  }

  // The other cards fit what is left of the freecells.
  lemma OneLessFits(s: Position, src: nat, dst: nat, j: nat, num: nat)
    requires BlockFits(s, src, dst, num) && 1 < num <= Capacity(s, dst) && VacantCols(s.cols, dst, |s.cols|) == 0
    requires j < |s.cells| && s.cells[j] == None && Legal(s, Move(Col(src), Cell(j)))
    ensures num - 1 <= Capacity(Apply(s, Move(Col(src), Cell(j))), dst)
  {
    assert Capacity(s, dst) == VacantCells(s.cells, |s.cells|) + 1;
    var s1 := Apply(s, Move(Col(src), Cell(j)));
    VacantCellsUpdate(s.cells, |s.cells|, j, s1.cells[j]);
    EnoughFor(s1, dst, 0);
  }

  lemma ParkedFits(s: Position, src: nat, dst: nat, j: nat, num: nat) returns (s1: Position, s2: Position)
    requires BlockFits(s, src, dst, num) && num > 1 && j < |s.cells| && s.cells[j] == None
    ensures Legal(s, Move(Col(src), Cell(j))) && Apply(s, Move(Col(src), Cell(j))) == s1
    ensures Goes(s1, src, dst, num - 1, s2)
    ensures Legal(s2, Move(Cell(j), Col(dst))) && Apply(s2, Move(Cell(j), Col(dst))) == MoveBlock(s, src, dst, num)
  {
    var kept, low, card := CutLast(s, src, dst, num);
    s1, s2 := ParkedWith(s, src, dst, j, kept, low, card, MoveBlock(s, src, dst, num));
  }

  lemma CutLast(s: Position, src: nat, dst: nat, num: nat) returns (kept: Column, low: Column, card: Card)
    requires BlockFits(s, src, dst, num) && num > 1
    ensures s.cols[src] == kept + (low + [card]) && |low| == num - 1 && IsRunOfCards(low + [card])
    ensures s.cols[dst] == [] || IsParent((low + [card])[0], Last(s.cols[dst]))
    ensures Shifted(s, MoveBlock(s, src, dst, num), src, dst, kept, low + [card])
  {
    var n := |s.cols[src]| - num;
    var block := s.cols[src][n..];
    kept, low, card := s.cols[src][..n], block[..num - 1], Last(block);
    assert block == low + [card] && s.cols[src] == kept + block;
    BlockIs(s, src, dst, kept, block);
  }

  lemma ParkedWith(s: Position, src: nat, dst: nat, j: nat, kept: Column, low: Column, card: Card, t: Position)
    returns (s1: Position, s2: Position)
    requires src < |s.cols| && dst < |s.cols| && src != dst && s.cols[src] == kept + (low + [card])
    requires low != [] && IsRunOfCards(low + [card]) && j < |s.cells| && s.cells[j] == None
    requires s.cols[dst] == [] || IsParent((low + [card])[0], Last(s.cols[dst]))
    requires Shifted(s, t, src, dst, kept, low + [card])
    ensures Legal(s, Move(Col(src), Cell(j))) && Apply(s, Move(Col(src), Cell(j))) == s1
    ensures Goes(s1, src, dst, |low|, s2)
    ensures Legal(s2, Move(Cell(j), Col(dst))) && Apply(s2, Move(Cell(j), Col(dst))) == t
  {
    SplitRun(low, [card]);
    assert s.cols[src] == (kept + low) + [card];
    ParkOne(s, src, j, kept + low, card);
    s1 := s.(cols := s.cols[src := kept + low], cells := s.cells[j := Some(card)]);
    s2 := BlockTo(s1, src, dst, kept, low);
    CardParked(s, s1, s2, src, dst, j, kept, low, card, t);
  }

  lemma ParkOne(s: Position, src: nat, j: nat, rest: Column, card: Card)
    requires src < |s.cols| && s.cols[src] == rest + [card] && j < |s.cells| && s.cells[j] == None
    ensures Legal(s, Move(Col(src), Cell(j)))
    ensures Apply(s, Move(Col(src), Cell(j))) == s.(cols := s.cols[src := rest], cells := s.cells[j := Some(card)])
  {
    assert s.cols[src][..|rest|] == rest;
  }

  lemma CardParked(s: Position, s1: Position, s2: Position, src: nat, dst: nat, j: nat, kept: Column, low: Column,
                   card: Card, t: Position)
    requires src < |s.cols| && dst < |s.cols| && src != dst && j < |s.cells| && s.cells[j] == None
    requires s1 == s.(cols := s.cols[src := kept + low], cells := s.cells[j := Some(card)])
    requires low != [] && IsParent(card, Last(low))
    requires Shifted(s1, s2, src, dst, kept, low) && Shifted(s, t, src, dst, kept, low + [card])
    ensures Legal(s2, Move(Cell(j), Col(dst))) && Apply(s2, Move(Cell(j), Col(dst))) == t
  {
    SameAs(Apply(s2, Move(Cell(j), Col(dst))), t) by {
      assert (s.cols[dst] + low) + [card] == s.cols[dst] + (low + [card]);
      assert s.cells[j := Some(card)][j := None] == s.cells;
    }
  }

  lemma PlayIsPlay(s: Position, m: SolverMove) returns (moves: seq<Move>)
    requires CanPlay(s, m)
    ensures Reaches(s, moves, Play(s, m))
  {
    if m.ColToCol? {
      moves := SequenceMoveIsPlay(s, m.src, m.dst, m.num);
    } else {
      OneMove(s, OneCard(m));
      moves := [OneCard(m)];
    }
  }

  // The sequence fits the capacity, and t is what moving it leaves.
  ghost predicate Becomes(s: Position, src: nat, dst: nat, num: nat, t: Position) {
    forall m {:trigger CanPlay(s, m)} :: m == ColToCol(src, dst, num) ==> CanPlay(s, m) && Play(s, m) == t
  }

  lemma BecomesIt(s: Position, src: nat, dst: nat, num: nat, t: Position)
    requires Goes(s, src, dst, num, t) && num <= Capacity(s, dst)
    ensures Becomes(s, src, dst, num, t)
  {
    Gone(s, src, dst, num, t);
  }

  lemma Become(s: Position, src: nat, dst: nat, num: nat, t: Position)
    requires Becomes(s, src, dst, num, t)
    ensures CanPlay(s, ColToCol(src, dst, num)) && Play(s, ColToCol(src, dst, num)) == t
  {
    var can := CanPlay(s, ColToCol(src, dst, num));
  }

  lemma {:induction false} ReachesSolves(s: Position, a: seq<Move>, t: Position, rest: seq<Move>)
    requires Reaches(s, a, t) && IsSolution(t, rest)
    ensures IsSolution(s, a + rest)
    decreases |a|
  {
    if a == [] {
      assert a + rest == rest;
    } else {
      ReachesSolves(Apply(s, a[0]), a[1..], t, rest);
      PrependMove(s, a[0], a[1..] + rest);
      HeadAndTail(a, rest);
    }
  }

  lemma HeadAndTail(a: seq<Move>, b: seq<Move>)
    requires a != []
    ensures [a[0]] + (a[1..] + b) == a + b
  {
    assert a == [a[0]] + a[1..];
  }

  // A solution with sequence moves is a solution of the game in which cards move one at a time.
  lemma {:induction false} SolvesIsSolvable(s: Position, moves: seq<SolverMove>)
    requires Solves(s, moves)
    ensures Solvable(s)
    decreases |moves|
  {
    if moves == [] {
      assert IsSolution(s, []);
    } else {
      SolvesIsSolvable(Play(s, moves[0]), moves[1..]);
      var rest :| IsSolution(Play(s, moves[0]), rest);
      var first := PlayIsPlay(s, moves[0]);
      ReachesSolves(s, first, Play(s, moves[0]), rest);
    }
  }
}
