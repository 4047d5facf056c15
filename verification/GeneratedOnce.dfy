/**
 The generator of the DBM solvers wastes nothing: its moves lead to positions that are not alike, and none
 leads back to a position like the one it starts from. And the order in which it lists them.
 */
module GeneratedOnce {
  import opened Cards
  import opened Positions
  import opened DerivedStates
  import opened Placement

  // ---- What a card rests on ----

  datatype Rest = AtHome | InFreecell | AtBottom | OnCard(p: Card)

  ghost predicate RestsOn(s: Position, c: Card, w: Rest) {
    match w
    case AtHome => c.rank <= s.found[c.suit]
    case InFreecell => exists j :: 0 <= j < |s.cells| && s.cells[j] == Some(c)
    case AtBottom => exists i :: 0 <= i < |s.cols| && s.cols[i] != [] && s.cols[i][0] == c
    case OnCard(p) =>
      exists i, k :: 0 <= i < |s.cols| && 0 < k < |s.cols[i]| && s.cols[i][k] == c && s.cols[i][k - 1] == p
  }

  // A card in a column is neither home nor in a freecell.
  lemma InColumnOnly(s: Position, i: nat, k: nat)
    requires FullDeck(s) && i < |s.cols| && k < |s.cols[i]|
    ensures !RestsOn(s, s.cols[i][k], AtHome) && !RestsOn(s, s.cols[i][k], InFreecell)
  {
    InPlayNotHome(s, i, k);
  }

  lemma RestsOnce(s: Position, c: Card, w: Rest, w': Rest)
    requires FullDeck(s) && RestsOn(s, c, w) && RestsOn(s, c, w')
    ensures w == w'
  {
    if w.AtBottom? || w.OnCard? {
      RestsInColumn(s, c, w, w');
    } else if w'.AtBottom? || w'.OnCard? {
      RestsInColumn(s, c, w', w);
    } else if w != w' {
      var j :| 0 <= j < |s.cells| && s.cells[j] == Some(c);
      CellNotHome(s, j);
    }
  }

  lemma RestsInColumn(s: Position, c: Card, w: Rest, w': Rest)
    requires FullDeck(s) && RestsOn(s, c, w) && RestsOn(s, c, w') && (w.AtBottom? || w.OnCard?)
    ensures w == w'
  {
    var i, k := ColumnPlace(s, c, w);
    InColumnOnly(s, i, k);
    var i', k' := ColumnPlace(s, c, w');
    UniqueInColumns(s, i, k, i', k');
  }

  lemma ColumnPlace(s: Position, c: Card, w: Rest) returns (i: nat, k: nat)
    requires RestsOn(s, c, w) && (w.AtBottom? || w.OnCard?)
    ensures i < |s.cols| && k < |s.cols[i]| && s.cols[i][k] == c
    ensures w == if k == 0 then AtBottom else OnCard(s.cols[i][k - 1])
  {
    if w.AtBottom? {
      i, k :| i < |s.cols| && s.cols[i] != [] && s.cols[i][0] == c && k == 0;
    } else {
      i, k :| i < |s.cols| && 0 < k < |s.cols[i]| && s.cols[i][k] == c && s.cols[i][k - 1] == w.p;
    }
  }

  lemma AlikeRests(s: Position, t: Position, c: Card, w: Rest)
    requires Alike(s, t) && RestsOn(s, c, w)
    ensures RestsOn(t, c, w)
  {
    var p, q := AlikeIsRearranged(s, t);
    match w {
      case AtHome =>
      case InFreecell =>
        var j :| 0 <= j < |s.cells| && s.cells[j] == Some(c);
        assert t.cells[q[j]] == s.cells[j];
      case AtBottom =>
        var i :| 0 <= i < |s.cols| && s.cols[i] != [] && s.cols[i][0] == c;
        assert t.cols[p[i]] == s.cols[i];
      case OnCard(_) =>
        var i, k :| 0 <= i < |s.cols| && 0 < k < |s.cols[i]| && s.cols[i][k] == c && s.cols[i][k - 1] == w.p;
        assert t.cols[p[i]] == s.cols[i];
    }
  }

  // ---- What a move changes ----

  // What the card rests on before and after it moves.
  function Before(s: Position, m: Move): Rest
    requires Legal(s, m)
  {
    if m.src.Cell? then InFreecell
    else if |s.cols[m.src.i]| == 1 then AtBottom
    else OnCard(s.cols[m.src.i][|s.cols[m.src.i]| - 2])
  }

  function After(s: Position, m: Move): Rest
    requires Legal(s, m)
  {
    match m.dst
    case Home => AtHome
    case Cell(_) => InFreecell
    case Col(i) => if s.cols[i] == [] then AtBottom else OnCard(Last(s.cols[i]))
  }

  lemma RestedBefore(s: Position, m: Move)
    requires Legal(s, m)
    ensures RestsOn(s, Exposed(s, m.src).value, Before(s, m))
  {
    if m.src.Col? {
      var col := s.cols[m.src.i];
      assert col[|col| - 1] == Exposed(s, m.src).value;
    }
  }

  lemma RestsAfter(s: Position, m: Move)
    requires Legal(s, m) && m.src != m.dst
    ensures RestsOn(Apply(s, m), Exposed(s, m.src).value, After(s, m))
  {
    var c, t := Exposed(s, m.src).value, Apply(s, m);
    match m.dst {
      case Home => assert t.found[c.suit] == c.rank;
      case Cell(j) => assert t.cells[j] == Some(c);
      case Col(i) =>
        var col := s.cols[i];
        assert t.cols[i] == col + [c];
        if col != [] { assert t.cols[i][|col|] == c && t.cols[i][|col| - 1] == Last(col); }
    }
  }

  // All other cards stay where they are.
  lemma OthersRest(s: Position, m: Move, d: Card, w: Rest)
    requires Legal(s, m) && d != Exposed(s, m.src).value && RestsOn(s, d, w)
    ensures RestsOn(Apply(s, m), d, w)
  {
    var t := Apply(s, m);
    match w {
      case AtHome =>
      case InFreecell =>
        var j :| 0 <= j < |s.cells| && s.cells[j] == Some(d);
        assert t.cells[j] == Some(d);
      case AtBottom =>
        var i :| 0 <= i < |s.cols| && s.cols[i] != [] && s.cols[i][0] == d;
        StaysInColumn(s, m, i, 0);
      case OnCard(_) =>
        var i, k :| 0 <= i < |s.cols| && 0 < k < |s.cols[i]| && s.cols[i][k] == d && s.cols[i][k - 1] == w.p;
        StaysInColumn(s, m, i, k);
    }
  }

  lemma StaysInColumn(s: Position, m: Move, i: nat, k: nat)
    requires Legal(s, m) && i < |s.cols| && k < |s.cols[i]| && s.cols[i][k] != Exposed(s, m.src).value
    ensures |Apply(s, m).cols| == |s.cols| && k < |Apply(s, m).cols[i]|
    ensures Apply(s, m).cols[i][..k + 1] == s.cols[i][..k + 1]
    ensures Apply(s, m).cols[i][k] == s.cols[i][k] && (k > 0 ==> Apply(s, m).cols[i][k - 1] == s.cols[i][k - 1])
  {
  }

  // ---- No two generated moves do the same ----

  lemma GeneratedChanges(s: Position, m: Move)
    requires FullDeck(s) && Generated(s, m)
    ensures m.src != m.dst && Before(s, m) != After(s, m)
  {
    if m.dst.Col? && m.src.Col? && s.cols[m.dst.i] != [] && |s.cols[m.src.i]| > 1 {
      var a, b := s.cols[m.src.i], s.cols[m.dst.i];
      if Before(s, m) == After(s, m) {
        UniqueInColumns(s, m.src.i, |a| - 2, m.dst.i, |b| - 1);
        assert false;
      }
    }
  }

  // Where a card goes fixes the move: of the vacant places the generator takes one only.
  lemma SameDestination(s: Position, m: Move, n: Move)
    requires FullDeck(s) && Generated(s, m) && Generated(s, n) && m.src == n.src && After(s, m) == After(s, n)
    ensures m == n
  {
    if m.dst.Col? && s.cols[m.dst.i] != [] {
      UniqueInColumns(s, m.dst.i, |s.cols[m.dst.i]| - 1, n.dst.i, |s.cols[n.dst.i]| - 1);
    }
  }

  lemma GeneratedNotIdle(s: Position, m: Move)
    requires FullDeck(s) && Generated(s, m)
    ensures !Alike(Apply(s, m), s)
  {
    var c := Exposed(s, m.src).value;
    GeneratedChanges(s, m);
    RestedBefore(s, m);
    RestsAfter(s, m);
    if Alike(Apply(s, m), s) {
      AlikeRests(Apply(s, m), s, c, After(s, m));
      RestsOnce(s, c, Before(s, m), After(s, m));
      assert false;
    }
  }

  // Two generated moves never lead to positions that are alike.
  lemma GeneratedDiffer(s: Position, m: Move, n: Move)
    requires FullDeck(s) && Generated(s, m) && Generated(s, n) && m != n
    ensures !Alike(Apply(s, m), Apply(s, n))
  {
    var c, d := Exposed(s, m.src).value, Exposed(s, n.src).value;
    MoveKeepsDeck(s, n);
    GeneratedChanges(s, m);
    GeneratedChanges(s, n);
    RestsAfter(s, m);
    if Alike(Apply(s, m), Apply(s, n)) {
      AlikeRests(Apply(s, m), Apply(s, n), c, After(s, m));
      if c == d {
        ExposedOnce(s, m.src, n.src);
        RestsAfter(s, n);
        RestsOnce(Apply(s, n), c, After(s, m), After(s, n));
        SameDestination(s, m, n);
      } else {
        RestedBefore(s, m);
        OthersRest(s, n, c, Before(s, m));
        RestsOnce(Apply(s, n), c, After(s, m), Before(s, m));
      }
      assert false;
    }
  }

  // ---- The order of the list ----

  // First the moves home, then those onto a parent, to an empty column, and to a freecell.
  function Stage(s: Position, m: Move): nat {
    match m.dst
    case Home => 0
    case Col(i) => if i < |s.cols| && s.cols[i] == [] then 2 else 1
    case Cell(_) => 3
  }

  function Index(p: Place): nat {
    match p
    case Home => 0
    case Col(i) => i
    case Cell(j) => j
  }

  // Within a stage first from the columns and then from the freecells, from the first one on.
  predicate BuiltBefore(s: Position, a: Move, b: Move) {
    || Stage(s, a) < Stage(s, b)
    || (Stage(s, a) == Stage(s, b) && a.src.Col? && b.src.Cell?)
    || (Stage(s, a) == Stage(s, b) && a.src.Col? == b.src.Col?
        && (Index(a.src) < Index(b.src) || (a.src == b.src && Index(a.dst) < Index(b.dst))))
  }

  // What is built later is nearer the front.
  ghost predicate LatestFirst(s: Position, list: seq<Move>) {
    forall a, b :: 0 <= a < b < |list| ==> BuiltBefore(s, list[b], list[a])
  }

  ghost predicate AllBefore(s: Position, early: seq<Move>, late: seq<Move>) {
    forall x, y :: x in early && y in late ==> BuiltBefore(s, x, y)
  }

  lemma LatestJoin(s: Position, late: seq<Move>, early: seq<Move>)
    requires LatestFirst(s, late) && LatestFirst(s, early) && AllBefore(s, early, late)
    ensures LatestFirst(s, late + early)
  {
  }

  ghost predicate BuiltInTurn(s: Position, f: nat -> seq<Move>) {
    && (forall i: nat :: LatestFirst(s, f(i)))
    && forall i: nat, j: nat, x, y :: i < j && x in f(i) && y in f(j) ==> BuiltBefore(s, x, y)
  }

  lemma {:induction false} GatherLatestFirst(s: Position, n: nat, f: nat -> seq<Move>)
    requires BuiltInTurn(s, f)
    ensures LatestFirst(s, Gather(n, f))
  {
    if n > 0 {
      GatherLatestFirst(s, n - 1, f);
      forall x, y | x in Gather(n - 1, f) && y in f(n - 1) ensures BuiltBefore(s, x, y) {
        InGather(n - 1, f, x);
        var i: nat :| i < n - 1 && x in f(i);
      }
      LatestJoin(s, f(n - 1), Gather(n - 1, f));
    }
  }

  lemma HomeInTurn(s: Position)
    ensures BuiltInTurn(s, ColHome(s)) && BuiltInTurn(s, CellHome(s))
  {
  }

  lemma OntoInTurn(s: Position, src: Place)
    ensures BuiltInTurn(s, OntoParent(s, src))
  {
  }

  lemma ParentsInTurn(s: Position)
    ensures BuiltInTurn(s, ColOntoParent(s)) && BuiltInTurn(s, CellOntoParent(s))
  {
    forall i: nat ensures LatestFirst(s, ColOntoParent(s)(i)) && LatestFirst(s, CellOntoParent(s)(i)) {
      OntoInTurn(s, Col(i));
      GatherLatestFirst(s, |s.cols|, OntoParent(s, Col(i)));
      OntoInTurn(s, Cell(i));
      GatherLatestFirst(s, |s.cols|, OntoParent(s, Cell(i)));
    }
    forall i: nat, m ensures m in ColOntoParent(s)(i) ==> m.src == Col(i) && Stage(s, m) == 1
                     ensures m in CellOntoParent(s)(i) ==> m.src == Cell(i) && Stage(s, m) == 1
    {
      InGather(|s.cols|, OntoParent(s, Col(i)), m);
      InGather(|s.cols|, OntoParent(s, Cell(i)), m);
    }
  }

  lemma PlaceInTurn(s: Position, dst: Place, least: nat)
    ensures BuiltInTurn(s, ColToPlace(s, dst, least)) && BuiltInTurn(s, CellToPlace(s, dst))
  {
  }

  // The moves of one stage: those from freecells are built last.
  lemma StageInOrder(s: Position, stage: nat, fromCells: nat -> seq<Move>, fromCols: nat -> seq<Move>)
    requires BuiltInTurn(s, fromCells) && BuiltInTurn(s, fromCols)
    requires forall i: nat, m :: m in fromCells(i) ==> m.src.Cell? && Stage(s, m) == stage
    requires forall i: nat, m :: m in fromCols(i) ==> m.src.Col? && Stage(s, m) == stage
    ensures LatestFirst(s, Gather(|s.cells|, fromCells) + Gather(|s.cols|, fromCols))
    ensures forall m :: m in Gather(|s.cells|, fromCells) + Gather(|s.cols|, fromCols) ==> Stage(s, m) == stage
  {
    GatherLatestFirst(s, |s.cells|, fromCells);
    GatherLatestFirst(s, |s.cols|, fromCols);
    forall m
      ensures m in Gather(|s.cells|, fromCells) ==> m.src.Cell? && Stage(s, m) == stage
      ensures m in Gather(|s.cols|, fromCols) ==> m.src.Col? && Stage(s, m) == stage
    {
      InGather(|s.cells|, fromCells, m);
      InGather(|s.cols|, fromCols, m);
    }
    LatestJoin(s, Gather(|s.cells|, fromCells), Gather(|s.cols|, fromCols));
  }

  lemma HomesInOrder(s: Position)
    ensures LatestFirst(s, HomeMoves(s)) && forall m :: m in HomeMoves(s) ==> Stage(s, m) == 0
  {
    HomeInTurn(s);
    StageInOrder(s, 0, CellHome(s), ColHome(s));
  }

  lemma ParentsInOrder(s: Position)
    ensures LatestFirst(s, ParentMoves(s)) && forall m :: m in ParentMoves(s) ==> Stage(s, m) == 1
  {
    ParentsInTurn(s);
    forall i: nat, m
      ensures m in CellOntoParent(s)(i) ==> m.src.Cell? && Stage(s, m) == 1
      ensures m in ColOntoParent(s)(i) ==> m.src.Col? && Stage(s, m) == 1
    {
      InGather(|s.cols|, OntoParent(s, Cell(i)), m);
      InGather(|s.cols|, OntoParent(s, Col(i)), m);
    }
    StageInOrder(s, 1, CellOntoParent(s), ColOntoParent(s));
  }

  lemma EmptyColsInOrder(s: Position)
    ensures LatestFirst(s, EmptyColMoves(s)) && forall m :: m in EmptyColMoves(s) ==> Stage(s, m) == 2
  {
    EmptyColIsLast(s, |s.cols|);
    if EmptyCol(s, |s.cols|).Some? {
      var e := EmptyCol(s, |s.cols|).value;
      PlaceInTurn(s, Col(e), 2);
      StageInOrder(s, 2, CellToPlace(s, Col(e)), ColToPlace(s, Col(e), 2));
    }
  }

  lemma CellsInOrder(s: Position)
    ensures LatestFirst(s, CellMoves(s)) && forall m :: m in CellMoves(s) ==> Stage(s, m) == 3
  {
    if EmptyCell(s, |s.cells|).Some? {
      var e := EmptyCell(s, |s.cells|).value;
      PlaceInTurn(s, Cell(e), 1);
      GatherLatestFirst(s, |s.cols|, ColToPlace(s, Cell(e), 1));
      forall m | m in CellMoves(s) ensures Stage(s, m) == 3 { InGather(|s.cols|, ColToPlace(s, Cell(e), 1), m); }
    }
  }

  // The list goes back through the moves in the order in which they are built, each once.
  lemma ListedInOrder(s: Position)
    ensures LatestFirst(s, GeneratedMoves(s))
  {
    HomesInOrder(s);
    ParentsInOrder(s);
    EmptyColsInOrder(s);
    CellsInOrder(s);
    LatestJoin(s, CellMoves(s), EmptyColMoves(s));
    LatestJoin(s, CellMoves(s) + EmptyColMoves(s), ParentMoves(s));
    LatestJoin(s, CellMoves(s) + EmptyColMoves(s) + ParentMoves(s), HomeMoves(s));
  }

  // The rules of the list, written out: a card goes to the last vacant freecell, from a column only, and to
  // the last empty column, unless it is the only one of its column.
  lemma ListedExactly(s: Position, m: Move)
    ensures m in GeneratedMoves(s) <==>
            && Legal(s, m)
            && (m.dst.Cell? ==> m.src.Col? && forall j :: m.dst.j < j < |s.cells| ==> s.cells[j].Some?)
            && (m.dst.Col? && s.cols[m.dst.i] == [] ==>
                  && (forall i :: m.dst.i < i < |s.cols| ==> s.cols[i] != [])
                  && (m.src.Col? ==> |s.cols[m.src.i]| > 1))
  {
    GeneratedMovesExact(s, m);
  }

  // The positions after these moves differ from each other and from s, up to placement.
  ghost predicate AllDiffer(s: Position, list: seq<Move>) {
    && (forall a :: 0 <= a < |list| ==> Legal(s, list[a]) && !Alike(Apply(s, list[a]), s))
    && forall a, b :: 0 <= a < b < |list| ==> !Alike(Apply(s, list[a]), Apply(s, list[b]))
  }

  lemma OnceEach(s: Position, list: seq<Move>)
    requires FullDeck(s) && LatestFirst(s, list)
    requires forall a :: 0 <= a < |list| ==> Generated(s, list[a])
    ensures AllDiffer(s, list)
  {
    forall a | 0 <= a < |list| ensures !Alike(Apply(s, list[a]), s) { GeneratedNotIdle(s, list[a]); }
    forall a, b | 0 <= a < b < |list| ensures !Alike(Apply(s, list[a]), Apply(s, list[b])) {
      assert BuiltBefore(s, list[b], list[a]);
      GeneratedDiffer(s, list[a], list[b]);
    }
  }

  lemma DerivedDiffer(s: Position)
    requires FullDeck(s)
    ensures AllDiffer(s, GeneratedMoves(s))
  {
    var list := GeneratedMoves(s);
    forall a | 0 <= a < |list| ensures Generated(s, list[a]) { GeneratedMovesExact(s, list[a]); }
    ListedInOrder(s);
    OnceEach(s, list);
  }
}
