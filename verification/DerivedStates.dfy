/** The move generator of the DBM solvers. */
module DerivedStates {
  import opened Cards
  import opened Positions
  import opened HornePrune
  import opened Potential
  import opened Boards

  datatype Derived = Derived(state: Position, move: Move, core: nat, total: nat)

  predicate LastEmptyCol(s: Position, i: nat) {
    i < |s.cols| && s.cols[i] == [] && forall k :: i < k < |s.cols| ==> s.cols[k] != []
  }

  predicate LastEmptyCell(s: Position, j: nat) {
    j < |s.cells| && s.cells[j] == None && forall k :: j < k < |s.cells| ==> s.cells[k] != None
  }

  // Of the empty columns only the last is filled, never by a column's only card, and of the empty
  // freecells only the last; cards do not move between freecells.
  predicate Generated(s: Position, m: Move) {
    && Legal(s, m)
    && (m.dst.Cell? ==> m.src.Col? && LastEmptyCell(s, m.dst.j))
    && (m.dst.Col? && s.cols[m.dst.i] == [] ==>
          LastEmptyCol(s, m.dst.i) && (m.src.Col? ==> |s.cols[m.src.i]| > 1))
  }

  // ---- The derived list in the order it is built: each new state goes to the front ----

  function Gather(n: nat, f: nat -> seq<Move>): seq<Move> {
    if n == 0 then [] else f(n - 1) + Gather(n - 1, f)
  }

  function One(wanted: bool, m: Move): seq<Move> {
    if wanted then [m] else []
  }

  function ColHome(s: Position): nat -> seq<Move> {
    (i: nat) => One(Legal(s, Move(Col(i), Home)), Move(Col(i), Home))
  }

  function CellHome(s: Position): nat -> seq<Move> {
    (j: nat) => One(Legal(s, Move(Cell(j), Home)), Move(Cell(j), Home))
  }

  function OntoParent(s: Position, src: Place): nat -> seq<Move> {
    (k: nat) => One(Legal(s, Move(src, Col(k))) && s.cols[k] != [], Move(src, Col(k)))
  }

  function ColOntoParent(s: Position): nat -> seq<Move> {
    (i: nat) => Gather(|s.cols|, OntoParent(s, Col(i)))
  }

  function CellOntoParent(s: Position): nat -> seq<Move> {
    (j: nat) => Gather(|s.cols|, OntoParent(s, Cell(j)))
  }

  function ColToPlace(s: Position, dst: Place, least: nat): nat -> seq<Move> {
    (i: nat) => One(i < |s.cols| && |s.cols[i]| >= least, Move(Col(i), dst))
  }

  function CellToPlace(s: Position, dst: Place): nat -> seq<Move> {
    (j: nat) => One(j < |s.cells| && s.cells[j].Some?, Move(Cell(j), dst))
  }

  function EmptyCol(s: Position, n: nat): Option<nat>
    requires n <= |s.cols|
  {
    if n == 0 then None else if s.cols[n - 1] == [] then Some(n - 1) else EmptyCol(s, n - 1)
  }

  function EmptyCell(s: Position, n: nat): Option<nat>
    requires n <= |s.cells|
  {
    if n == 0 then None else if s.cells[n - 1] == None then Some(n - 1) else EmptyCell(s, n - 1)
  }

  function HomeMoves(s: Position): seq<Move> {
    Gather(|s.cells|, CellHome(s)) + Gather(|s.cols|, ColHome(s))
  }

  function ParentMoves(s: Position): seq<Move> {
    Gather(|s.cells|, CellOntoParent(s)) + Gather(|s.cols|, ColOntoParent(s))
  }

  function EmptyColMoves(s: Position): seq<Move> {
    match EmptyCol(s, |s.cols|)
    case None => []
    case Some(e) => Gather(|s.cells|, CellToPlace(s, Col(e))) + Gather(|s.cols|, ColToPlace(s, Col(e), 2))
  }

  function CellMoves(s: Position): seq<Move> {
    match EmptyCell(s, |s.cells|)
    case None => []
    case Some(e) => Gather(|s.cols|, ColToPlace(s, Cell(e), 1))
  }

  function GeneratedMoves(s: Position): seq<Move> {
    CellMoves(s) + EmptyColMoves(s) + ParentMoves(s) + HomeMoves(s)
  }

  lemma GatherStep(n: nat, f: nat -> seq<Move>, m: Move)
    requires n > 0
    ensures m in Gather(n, f) <==> m in f(n - 1) || m in Gather(n - 1, f)
  {
    assert Gather(n, f) == f(n - 1) + Gather(n - 1, f);
  }

  lemma {:induction false} InGather(n: nat, f: nat -> seq<Move>, m: Move)
    ensures m in Gather(n, f) <==> exists i: nat :: i < n && m in f(i)
  {
    if n == 0 {
    } else {
      InGather(n - 1, f, m);
      GatherStep(n, f, m);
      if m in Gather(n - 1, f) {
        var i: nat :| i < n - 1 && m in f(i);
        assert i < n;
      }
    }
  }

  lemma {:induction false} EmptyColIsLast(s: Position, n: nat)
    requires n <= |s.cols| && forall k :: n <= k < |s.cols| ==> s.cols[k] != []
    ensures EmptyCol(s, n).None? ==> forall k :: 0 <= k < |s.cols| ==> s.cols[k] != []
    ensures EmptyCol(s, n).Some? ==> LastEmptyCol(s, EmptyCol(s, n).value)
  {
    if n > 0 && s.cols[n - 1] != [] { EmptyColIsLast(s, n - 1); }
  }

  lemma {:induction false} EmptyCellIsLast(s: Position, n: nat)
    requires n <= |s.cells| && forall k :: n <= k < |s.cells| ==> s.cells[k] != None
    ensures EmptyCell(s, n).None? ==> forall k :: 0 <= k < |s.cells| ==> s.cells[k] != None
    ensures EmptyCell(s, n).Some? ==> LastEmptyCell(s, EmptyCell(s, n).value)
  {
    if n > 0 && s.cells[n - 1] != None { EmptyCellIsLast(s, n - 1); }
  }

  lemma HomeMovesExact(s: Position, m: Move)
    ensures m in HomeMoves(s) <==> Generated(s, m) && m.dst == Home
  {
    InGather(|s.cells|, CellHome(s), m);
    InGather(|s.cols|, ColHome(s), m);
    if Legal(s, m) && m.dst == Home {
      if m.src.Col? { assert m in ColHome(s)(m.src.i); } else { assert m in CellHome(s)(m.src.j); }
    }
  }

  lemma ParentMovesExact(s: Position, m: Move)
    ensures m in ParentMoves(s) <==> Generated(s, m) && m.dst.Col? && s.cols[m.dst.i] != []
  {
    InGather(|s.cells|, CellOntoParent(s), m);
    InGather(|s.cols|, ColOntoParent(s), m);
    forall src: Place ensures m in Gather(|s.cols|, OntoParent(s, src)) <==>
                              m.src == src && Legal(s, m) && m.dst.Col? && s.cols[m.dst.i] != []
    {
      InGather(|s.cols|, OntoParent(s, src), m);
      if m.src == src && Legal(s, m) && m.dst.Col? && s.cols[m.dst.i] != [] {
        assert m in OntoParent(s, src)(m.dst.i);
      }
    }
    if Legal(s, m) && m.dst.Col? && s.cols[m.dst.i] != [] {
      if m.src.Col? { assert m in ColOntoParent(s)(m.src.i); } else { assert m in CellOntoParent(s)(m.src.j); }
    }
  }

  lemma EmptyColMovesExact(s: Position, m: Move)
    ensures m in EmptyColMoves(s) <==> Generated(s, m) && m.dst.Col? && s.cols[m.dst.i] == []
  {
    EmptyColIsLast(s, |s.cols|);
    if EmptyCol(s, |s.cols|).Some? {
      var e := EmptyCol(s, |s.cols|).value;
      InGather(|s.cells|, CellToPlace(s, Col(e)), m);
      InGather(|s.cols|, ColToPlace(s, Col(e), 2), m);
      if Generated(s, m) && m.dst.Col? && s.cols[m.dst.i] == [] {
        assert m.dst.i == e;
        if m.src.Col? {
          assert m in ColToPlace(s, Col(e), 2)(m.src.i);
        } else {
          assert m in CellToPlace(s, Col(e))(m.src.j);
        }
      }
    }
  }

  lemma CellMovesExact(s: Position, m: Move)
    ensures m in CellMoves(s) <==> Generated(s, m) && m.dst.Cell?
  {
    EmptyCellIsLast(s, |s.cells|);
    if EmptyCell(s, |s.cells|).Some? {
      var e := EmptyCell(s, |s.cells|).value;
      InGather(|s.cols|, ColToPlace(s, Cell(e), 1), m);
      if Generated(s, m) && m.dst.Cell? {
        assert m.dst.j == e;
        assert m in ColToPlace(s, Cell(e), 1)(m.src.i);
      }
    }
  }

  // The list built by the loops holds exactly the generated moves.
  lemma GeneratedMovesExact(s: Position, m: Move)
    ensures m in GeneratedMoves(s) <==> Generated(s, m)
  {
    HomeMovesExact(s, m);
    ParentMovesExact(s, m);
    EmptyColMovesExact(s, m);
    CellMovesExact(s, m);
  }

  lemma GeneratedAllLegal(s: Position)
    ensures forall m :: m in GeneratedMoves(s) ==> Legal(s, m)
  {
    forall m | m in GeneratedMoves(s) ensures Legal(s, m) { GeneratedMovesExact(s, m); }
  }

  // ---- The generator with its loops ----

  // The entry of one move before the prune, and what the prune makes of it.
  function Entry(s: Position, m: Move): Derived
    requires Legal(s, m)
  {
    Derived(Apply(s, m), m, MoveCost(s, m), MoveCost(s, m))
  }

  ghost function PrunedEntry(s: Position, m: Move): Derived
    requires Legal(s, m)
  {
    var t := Prune(FC_SOLVE_SLACK, Apply(s, m));
    PruneRaisesPhi(FC_SOLVE_SLACK, Apply(s, m));
    MoveRaisesPhi(s, m);
    Derived(t, m, MoveCost(s, m), Phi(t) - Phi(s))
  }

  ghost predicate AreEntries(s: Position, list: seq<Derived>, moves: seq<Move>) {
    && |list| == |moves|
    && forall k :: 0 <= k < |moves| ==> Legal(s, moves[k]) && list[k] == Entry(s, moves[k])
  }

  method Commit(s: Position, list: seq<Derived>, newState: Position, m: Move, count: nat,
                ghost n: nat, ghost f: nat -> seq<Move>, ghost base: seq<Move>) returns (longer: seq<Derived>)
    requires AreEntries(s, list, Gather(n, f) + base) && f(n) == [m]
    requires Legal(s, m) && newState == Apply(s, m) && count == MoveCost(s, m)
    ensures AreEntries(s, longer, Gather(n + 1, f) + base)
  {
    longer := [Derived(newState, m, count, count)] + list;
    assert Gather(n + 1, f) + base == [m] + (Gather(n, f) + base);
  }

  lemma SkipOne(n: nat, f: nat -> seq<Move>, base: seq<Move>)
    requires f(n) == []
    ensures Gather(n + 1, f) + base == Gather(n, f) + base
  {
  }

  predicate FromColIsReversible(col: Column)
    requires col != []
  {
    |col| <= 1 || IsParent(Last(col), col[|col| - 2])
  }

  lemma Longer(n: nat, f: nat -> seq<Move>, base: seq<Move>)
    ensures Gather(n + 1, f) + base == f(n) + (Gather(n, f) + base)
  {
  }

  method ColsToFoundations(s: Position) returns (list: seq<Derived>, emptyCol: Option<nat>)
    ensures AreEntries(s, list, Gather(|s.cols|, ColHome(s)) + [])
    ensures emptyCol == EmptyCol(s, |s.cols|)
  {
    list, emptyCol := [], None;
    for i := 0 to |s.cols|
      invariant AreEntries(s, list, Gather(i, ColHome(s)) + [])
      invariant emptyCol == EmptyCol(s, i)
    {
      var col := s.cols[i];
      if col == [] {
        emptyCol := Some(i);
      } else {
        var card := Last(col);
        if s.found[card.suit] == card.rank - 1 {
          var newState := s.(cols := s.cols[i := col[..|col| - 1]],
                             found := s.found[card.suit := s.found[card.suit] + 1]);
          list := Commit(s, list, newState, Move(Col(i), Home), if FromColIsReversible(col) then 1 else 2, i,
                         ColHome(s), []);
          continue;
        }
      }
      SkipOne(i, ColHome(s), []);
    }
  }

  method CellsToFoundations(s: Position, soFar: seq<Derived>, ghost base: seq<Move>)
    returns (list: seq<Derived>, emptyCell: Option<nat>)
    requires AreEntries(s, soFar, base)
    ensures AreEntries(s, list, Gather(|s.cells|, CellHome(s)) + base)
    ensures emptyCell == EmptyCell(s, |s.cells|)
  {
    list, emptyCell := soFar, None;
    for j := 0 to |s.cells|
      invariant AreEntries(s, list, Gather(j, CellHome(s)) + base)
      invariant emptyCell == EmptyCell(s, j)
    {
      if s.cells[j] == None {
        emptyCell := Some(j);
      } else {
        var card := s.cells[j].value;
        if s.found[card.suit] == card.rank - 1 {
          var newState := s.(cells := s.cells[j := None], found := s.found[card.suit := s.found[card.suit] + 1]);
          list := Commit(s, list, newState, Move(Cell(j), Home), 1, j, CellHome(s), base);
          continue;
        }
      }
      SkipOne(j, CellHome(s), base);
    }
  }

  method ToFoundations(s: Position) returns (list: seq<Derived>, emptyCol: Option<nat>, emptyCell: Option<nat>)
    ensures AreEntries(s, list, HomeMoves(s))
    ensures emptyCol == EmptyCol(s, |s.cols|) && emptyCell == EmptyCell(s, |s.cells|)
  {
    ghost var base := Gather(|s.cols|, ColHome(s));
    list, emptyCol := ColsToFoundations(s);
    assert base + [] == base;
    list, emptyCell := CellsToFoundations(s, list, base);
  }

  predicate CardCannotBePlaced(s: Position, ds: nat, card: Card)
    requires ds < |s.cols|
  {
    s.cols[ds] == [] || !IsParent(card, Last(s.cols[ds]))
  }

  method OneColOntoParents(s: Position, i: nat, soFar: seq<Derived>, ghost base: seq<Move>) returns (list: seq<Derived>)
    requires i < |s.cols| && s.cols[i] != [] && AreEntries(s, soFar, base)
    ensures AreEntries(s, list, ColOntoParent(s)(i) + base)
  {
    list := soFar;
    var card := Last(s.cols[i]);
    for ds := 0 to |s.cols|
      invariant AreEntries(s, list, Gather(ds, OntoParent(s, Col(i))) + base)
    {
      if ds == i || CardCannotBePlaced(s, ds, card) {
        SkipOne(ds, OntoParent(s, Col(i)), base);
      } else {
        var popped := s.cols[i := s.cols[i][..|s.cols[i]| - 1]];
        list := Commit(s, list, s.(cols := popped[ds := popped[ds] + [card]]), Move(Col(i), Col(ds)),
                       if FromColIsReversible(s.cols[i]) then 0 else 1, ds, OntoParent(s, Col(i)), base);
      }
    }
  }

  lemma {:induction false} NothingOntoParent(s: Position, i: nat, n: nat)
    requires i < |s.cols| && s.cols[i] == []
    ensures Gather(n, OntoParent(s, Col(i))) == []
  {
    if n == 0 {
    } else {
      NothingOntoParent(s, i, n - 1);
    }
  }

  method ColsOntoParents(s: Position, soFar: seq<Derived>, ghost base: seq<Move>) returns (list: seq<Derived>)
    requires AreEntries(s, soFar, base)
    ensures AreEntries(s, list, Gather(|s.cols|, ColOntoParent(s)) + base)
  {
    list := soFar;
    for i := 0 to |s.cols|
      invariant AreEntries(s, list, Gather(i, ColOntoParent(s)) + base)
    {
      ghost var before := Gather(i, ColOntoParent(s)) + base;
      if s.cols[i] == [] {
        NothingOntoParent(s, i, |s.cols|);
        SkipOne(i, ColOntoParent(s), base);
      } else {
        list := OneColOntoParents(s, i, list, before);
        Longer(i, ColOntoParent(s), base);
      }
    }
  }

  method OneCellOntoParents(s: Position, fc: nat, soFar: seq<Derived>, ghost base: seq<Move>)
    returns (list: seq<Derived>)
    requires fc < |s.cells| && AreEntries(s, soFar, base)
    ensures AreEntries(s, list, CellOntoParent(s)(fc) + base)
  {
    list := soFar;
    for ds := 0 to |s.cols|
      invariant AreEntries(s, list, Gather(ds, OntoParent(s, Cell(fc))) + base)
    {
      if s.cells[fc] == None || CardCannotBePlaced(s, ds, s.cells[fc].value) {
        SkipOne(ds, OntoParent(s, Cell(fc)), base);
      } else {
        var card := s.cells[fc].value;
        list := Commit(s, list, s.(cols := s.cols[ds := s.cols[ds] + [card]], cells := s.cells[fc := None]),
                       Move(Cell(fc), Col(ds)), 0, ds, OntoParent(s, Cell(fc)), base);
      }
    }
  }

  method CellsOntoParents(s: Position, soFar: seq<Derived>, ghost base: seq<Move>) returns (list: seq<Derived>)
    requires AreEntries(s, soFar, base)
    ensures AreEntries(s, list, Gather(|s.cells|, CellOntoParent(s)) + base)
  {
    list := soFar;
    for fc := 0 to |s.cells|
      invariant AreEntries(s, list, Gather(fc, CellOntoParent(s)) + base)
    {
      list := OneCellOntoParents(s, fc, list, Gather(fc, CellOntoParent(s)) + base);
      Longer(fc, CellOntoParent(s), base);
    }
  }

  method ColsToEmptyColumn(s: Position, e: nat, soFar: seq<Derived>, ghost base: seq<Move>) returns (list: seq<Derived>)
    requires e < |s.cols| && s.cols[e] == [] && AreEntries(s, soFar, base)
    ensures AreEntries(s, list, Gather(|s.cols|, ColToPlace(s, Col(e), 2)) + base)
  {
    list := soFar;
    for i := 0 to |s.cols|
      invariant AreEntries(s, list, Gather(i, ColToPlace(s, Col(e), 2)) + base)
    {
      if |s.cols[i]| <= 1 {
        SkipOne(i, ColToPlace(s, Col(e), 2), base);
      } else {
        var card := Last(s.cols[i]);
        var popped := s.cols[i := s.cols[i][..|s.cols[i]| - 1]];
        list := Commit(s, list, s.(cols := popped[e := popped[e] + [card]]), Move(Col(i), Col(e)),
                       if FromColIsReversible(s.cols[i]) then 0 else 1, i, ColToPlace(s, Col(e), 2), base);
      }
    }
  }

  method CellsToEmptyColumn(s: Position, e: nat, soFar: seq<Derived>, ghost base: seq<Move>)
    returns (list: seq<Derived>)
    requires e < |s.cols| && s.cols[e] == [] && AreEntries(s, soFar, base)
    ensures AreEntries(s, list, Gather(|s.cells|, CellToPlace(s, Col(e))) + base)
  {
    list := soFar;
    for fc := 0 to |s.cells|
      invariant AreEntries(s, list, Gather(fc, CellToPlace(s, Col(e))) + base)
    {
      if s.cells[fc] == None {
        SkipOne(fc, CellToPlace(s, Col(e)), base);
      } else {
        var card := s.cells[fc].value;
        list := Commit(s, list, s.(cols := s.cols[e := s.cols[e] + [card]], cells := s.cells[fc := None]),
                       Move(Cell(fc), Col(e)), 0, fc, CellToPlace(s, Col(e)), base);
      }
    }
  }

  method ToEmptyColumn(s: Position, emptyCol: Option<nat>, soFar: seq<Derived>, ghost base: seq<Move>)
    returns (list: seq<Derived>)
    requires emptyCol == EmptyCol(s, |s.cols|) && AreEntries(s, soFar, base)
    ensures AreEntries(s, list, EmptyColMoves(s) + base)
  {
    list := soFar;
    EmptyColIsLast(s, |s.cols|);
    if emptyCol == None {
      assert EmptyColMoves(s) + base == base;
      return;
    }
    var e := emptyCol.value;
    ghost var fromCols := Gather(|s.cols|, ColToPlace(s, Col(e), 2));
    ghost var fromCells := Gather(|s.cells|, CellToPlace(s, Col(e)));
    list := ColsToEmptyColumn(s, e, list, base);
    list := CellsToEmptyColumn(s, e, list, fromCols + base);
    assert fromCells + (fromCols + base) == (fromCells + fromCols) + base;
  }

  method ToFreecell(s: Position, emptyCell: Option<nat>, soFar: seq<Derived>, ghost base: seq<Move>)
    returns (list: seq<Derived>)
    requires emptyCell == EmptyCell(s, |s.cells|) && AreEntries(s, soFar, base)
    ensures AreEntries(s, list, CellMoves(s) + base)
  {
    list := soFar;
    EmptyCellIsLast(s, |s.cells|);
    if emptyCell == None {
      assert CellMoves(s) + base == base;
      return;
    }
    var e := emptyCell.value;
    for i := 0 to |s.cols|
      invariant AreEntries(s, list, Gather(i, ColToPlace(s, Cell(e), 1)) + base)
    {
      if s.cols[i] == [] {
        SkipOne(i, ColToPlace(s, Cell(e), 1), base);
      } else {
        var card := Last(s.cols[i]);
        var popped := s.cols[i := s.cols[i][..|s.cols[i]| - 1]];
        list := Commit(s, list, s.(cols := popped, cells := s.cells[e := Some(card)]), Move(Col(i), Cell(e)),
                       if FromColIsReversible(s.cols[i]) then 0 else 1, i, ColToPlace(s, Cell(e), 1), base);
      }
    }
  }

  method IsStateSolved(s: Position) returns (solved: bool)
    ensures solved == Solved(s)
  {
    for suit := 0 to 4
      invariant forall u :: 0 <= u < suit ==> s.found[u] >= KING
    {
      if s.found[suit] < KING {
        return false;
      }
    }
    return true;
  }

  lemma Regroup(a: seq<Move>, b: seq<Move>, c: seq<Move>, d: seq<Move>, e: seq<Move>)
    ensures a + (b + (c + (d + e))) == a + b + (c + d) + e
  {
  }

  // All the states one move away, before any prune.
  method OneMoveAway(s: Position) returns (list: seq<Derived>)
    ensures AreEntries(s, list, GeneratedMoves(s))
  {
    var emptyCol, emptyCell;
    list, emptyCol, emptyCell := ToFoundations(s);
    list := ColsOntoParents(s, list, HomeMoves(s));
    ghost var moves := Gather(|s.cols|, ColOntoParent(s)) + HomeMoves(s);
    list := CellsOntoParents(s, list, moves);
    moves := Gather(|s.cells|, CellOntoParent(s)) + moves;
    list := ToEmptyColumn(s, emptyCol, list, moves);
    moves := EmptyColMoves(s) + moves;
    list := ToFreecell(s, emptyCell, list, moves);
    Regroup(CellMoves(s), EmptyColMoves(s), Gather(|s.cells|, CellOntoParent(s)), Gather(|s.cols|, ColOntoParent(s)),
            HomeMoves(s));
  }

  // True for a solved position; otherwise one entry for each generated move, in the order of
  // GeneratedMoves, pruned in place when asked for.
  method CalcDerivedStates(s: Position, performHornePrune: bool) returns (solved: bool, list: seq<Derived>)
    requires FullDeck(s)
    ensures solved == Solved(s)
    ensures !solved ==> |list| == |GeneratedMoves(s)|
    ensures !solved ==> forall k :: 0 <= k < |list| ==>
              && Legal(s, GeneratedMoves(s)[k])
              && list[k] == if performHornePrune then PrunedEntry(s, GeneratedMoves(s)[k])
                            else Entry(s, GeneratedMoves(s)[k])
  {
    list := [];
    solved := IsStateSolved(s);
    if !solved {
      list := OneMoveAway(s);
      if performHornePrune {
        list := PruneAll(s, list, GeneratedMoves(s));
      }
    }
  }

  method PruneAll(s: Position, entries: seq<Derived>, ghost moves: seq<Move>) returns (list: seq<Derived>)
    requires FullDeck(s) && AreEntries(s, entries, moves)
    ensures |list| == |moves|
    ensures forall k :: 0 <= k < |moves| ==> list[k] == PrunedEntry(s, moves[k])
  {
    list := entries;
    for k := 0 to |list|
      invariant |list| == |moves|
      invariant forall l :: 0 <= l < k ==> list[l] == PrunedEntry(s, moves[l])
      invariant forall l :: k <= l < |list| ==> list[l] == Entry(s, moves[l])
    {
      MoveKeepsDeck(s, moves[k]);
      MoveRaisesPhi(s, moves[k]);
      var board := new Board(list[k].state);
      var count := board.HornePrune();
      list := list[k := list[k].(state := board.Pos(), total := list[k].core + count)];
    }
  }

  // ---- How many states are derived ----

  lemma {:induction false} GatherBound(n: nat, f: nat -> seq<Move>, b: nat)
    requires forall k: nat :: |f(k)| <= b
    ensures |Gather(n, f)| <= n * b
  {
    if n == 0 {
    } else {
      GatherBound(n - 1, f, b);
    }
  }

  lemma HomeMovesBound(s: Position)
    ensures |HomeMoves(s)| <= |s.cells| + |s.cols|
  {
    GatherBound(|s.cols|, ColHome(s), 1);
    GatherBound(|s.cells|, CellHome(s), 1);
  }

  lemma ParentMovesBound(s: Position)
    ensures |ParentMoves(s)| <= |s.cells| * |s.cols| + |s.cols| * |s.cols|
  {
    forall src: Place ensures |Gather(|s.cols|, OntoParent(s, src))| <= |s.cols| {
      GatherBound(|s.cols|, OntoParent(s, src), 1);
    }
    GatherBound(|s.cols|, ColOntoParent(s), |s.cols|);
    GatherBound(|s.cells|, CellOntoParent(s), |s.cols|);
  }

  lemma EmptyPlaceMovesBound(s: Position)
    ensures |EmptyColMoves(s)| <= |s.cells| + |s.cols| && |CellMoves(s)| <= |s.cols|
  {
    forall p: Place, least: nat
      ensures |Gather(|s.cols|, ColToPlace(s, p, least))| <= |s.cols|
              && |Gather(|s.cells|, CellToPlace(s, p))| <= |s.cells|
    {
      GatherBound(|s.cols|, ColToPlace(s, p, least), 1);
      GatherBound(|s.cells|, CellToPlace(s, p), 1);
    }
  }

  lemma DerivedBound(s: Position)
    ensures |GeneratedMoves(s)| <= 3 * |s.cols| + 2 * |s.cells| + (|s.cells| * |s.cols| + |s.cols| * |s.cols|)
  {
    HomeMovesBound(s);
    ParentMovesBound(s);
    EmptyPlaceMovesBound(s);
  }
}
