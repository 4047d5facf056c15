/**
 Positions that differ only by the order of columns and freecells are alike: the same moves can be
 made in them under other names.
 */
module Placement {
  import opened Cards
  import opened Positions
  import opened Shuffles
  import opened Potential
  import opened DerivedStates

  ghost predicate Alike(s: Position, t: Position) {
    multiset(s.cols) == multiset(t.cols) && multiset(s.cells) == multiset(t.cells) && s.found == t.found
  }

  // to[i] is where the thing at i has gone.
  ghost predicate Moved<T>(from: seq<T>, into: seq<T>, to: seq<nat>) {
    && |from| == |into| == |to|
    && (forall i :: 0 <= i < |to| ==> to[i] < |into| && into[to[i]] == from[i])
    && Distinct(to)
  }

  ghost predicate Rearranged(s: Position, t: Position, p: seq<nat>, q: seq<nat>) {
    Moved(s.cols, t.cols, p) && Moved(s.cells, t.cells, q) && s.found == t.found
  }

  function Relabel(m: Move, p: seq<nat>, q: seq<nat>): Move {
    var place := (x: Place) =>
      if x.Col? && x.i < |p| then Col(p[x.i]) else if x.Cell? && x.j < |q| then Cell(q[x.j]) else x;
    Move(place(m.src), place(m.dst))
  }

  // Sequences with the same elements are permutations of each other.
  lemma {:induction false} FindMoved<T>(a: seq<T>, b: seq<T>) returns (to: seq<nat>)
    requires multiset(a) == multiset(b)
    ensures Moved(a, b, to)
  {
    if a == [] {
      assert |multiset(b)| == |b|;
      to := [];
    } else {
      var j := FirstIn(a, b);
      var rest := FindMoved(a[1..], b[..j] + b[j + 1..]);
      to := [j] + seq(|rest|, i requires 0 <= i < |rest| => if rest[i] < j then rest[i] else rest[i] + 1);
      forall i | 0 <= i < |to| ensures to[i] < |b| && b[to[i]] == a[i] {
        if i > 0 { assert (b[..j] + b[j + 1..])[rest[i - 1]] == a[1..][i - 1]; }
      }
    }
  }

  lemma AlikeIsRearranged(s: Position, t: Position) returns (p: seq<nat>, q: seq<nat>)
    requires Alike(s, t)
    ensures Rearranged(s, t, p, q)
  {
    p := FindMoved(s.cols, t.cols);
    q := FindMoved(s.cells, t.cells);
  }

  lemma MovedUpdate<T>(a: seq<T>, b: seq<T>, to: seq<nat>, i: nat, x: T)
    requires Moved(a, b, to) && i < |a|
    ensures Moved(a[i := x], b[to[i] := x], to)
  {
  }

  lemma RearrangedTake(s: Position, t: Position, p: seq<nat>, q: seq<nat>, m: Move)
    requires Rearranged(s, t, p, q) && Exposed(s, m.src).Some?
    ensures Exposed(t, Relabel(m, p, q).src) == Exposed(s, m.src)
    ensures Rearranged(Take(s, m.src), Take(t, Relabel(m, p, q).src), p, q)
  {
    if m.src.Col? {
      MovedUpdate(s.cols, t.cols, p, m.src.i, s.cols[m.src.i][..|s.cols[m.src.i]| - 1]);
    } else {
      MovedUpdate(s.cells, t.cells, q, m.src.j, None);
    }
  }

  lemma RearrangedPut(s: Position, t: Position, p: seq<nat>, q: seq<nat>, m: Move, c: Card)
    requires Rearranged(s, t, p, q) && Accepts(s, m.dst, c)
    ensures Accepts(t, Relabel(m, p, q).dst, c)
    ensures Rearranged(Put(s, m.dst, c), Put(t, Relabel(m, p, q).dst, c), p, q)
  {
    if m.dst.Col? {
      MovedUpdate(s.cols, t.cols, p, m.dst.i, s.cols[m.dst.i] + [c]);
    } else if m.dst.Cell? {
      MovedUpdate(s.cells, t.cells, q, m.dst.j, Some(c));
    }
  }

  // A move of one position is a move of the other, and the results are rearranged the same way.
  lemma RearrangedMove(s: Position, t: Position, p: seq<nat>, q: seq<nat>, m: Move)
    requires Rearranged(s, t, p, q) && Legal(s, m)
    ensures var m' := Relabel(m, p, q);
            Legal(t, m') && Rearranged(Apply(s, m), Apply(t, m'), p, q)
  {
    var c := Exposed(s, m.src).value;
    RearrangedTake(s, t, p, q, m);
    StillAccepts(s, m);
    RearrangedPut(Take(s, m.src), Take(t, Relabel(m, p, q).src), p, q, m, c);
    RearrangedPut(s, t, p, q, m, c);
  }

  lemma {:induction false} RearrangedSolves(s: Position, t: Position, p: seq<nat>, q: seq<nat>, moves: seq<Move>)
    returns (same: seq<Move>)
    requires Rearranged(s, t, p, q) && IsSolution(s, moves)
    ensures IsSolution(t, same) && |same| == |moves|
    decreases |moves|
  {
    if moves == [] {
      same := [];
    } else {
      RearrangedMove(s, t, p, q, moves[0]);
      var m := Relabel(moves[0], p, q);
      same := RearrangedSolves(Apply(s, moves[0]), Apply(t, m), p, q, moves[1..]);
      PrependMove(t, m, same);
      same := [m] + same;
    }
  }

  lemma AlikeSolves(s: Position, t: Position, moves: seq<Move>) returns (same: seq<Move>)
    requires Alike(s, t) && IsSolution(s, moves)
    ensures IsSolution(t, same) && |same| == |moves|
  {
    var p, q := AlikeIsRearranged(s, t);
    same := RearrangedSolves(s, t, p, q, moves);
  }

  // ---- The potential does not see the placement ----

  lemma {:induction false} RemoveBreaks(cols: seq<Column>, j: nat)
    requires j < |cols|
    ensures Breaks(cols) == ColumnBreaks(cols[j]) + Breaks(cols[..j] + cols[j + 1..])
  {
    if j == 0 {
      assert cols[..j] + cols[j + 1..] == cols[1..];
    } else {
      RemoveBreaks(cols[1..], j - 1);
      assert (cols[..j] + cols[j + 1..])[1..] == cols[1..][..j - 1] + cols[1..][j..];
    }
  }

  lemma {:induction false} SameBreaks(a: seq<Column>, b: seq<Column>)
    requires multiset(a) == multiset(b)
    ensures Breaks(a) == Breaks(b)
    decreases |a|
  {
    if a == [] {
      assert |multiset(b)| == |b|;
    } else {
      var j := FirstIn(a, b);
      SameBreaks(a[1..], b[..j] + b[j + 1..]);
      RemoveBreaks(b, j);
    }
  }

  lemma AlikeSamePhi(s: Position, t: Position)
    requires Alike(s, t)
    ensures Phi(s) == Phi(t)
  {
    SameBreaks(s.cols, t.cols);
  }

  // ---- Every legal move is a generated one, up to placement ----

  ghost function SwapIndices(n: nat, i: nat, j: nat): seq<nat> {
    seq(n, k => if k == i then j else if k == j then i else k)
  }

  lemma SwapIsMoved<T>(a: seq<T>, b: seq<T>, i: nat, j: nat)
    requires i < |a| && j < |a| && b == a[i := a[j]][j := a[i]]
    ensures Moved(a, b, SwapIndices(|a|, i, j))
  {
  }

  lemma StayIsMoved<T>(a: seq<T>)
    ensures Moved(a, a, SwapIndices(|a|, 0, 0))
  {
  }

  // The only card of a column goes to an empty column, or a freecell card to another freecell.
  lemma IdleMove(s: Position, m: Move) returns (p: seq<nat>, q: seq<nat>)
    requires Legal(s, m)
    requires (m.dst.Col? && s.cols[m.dst.i] == [] && m.src.Col? && |s.cols[m.src.i]| == 1)
             || (m.dst.Cell? && m.src.Cell?)
    ensures Rearranged(Apply(s, m), s, p, q)
  {
    var t := Apply(s, m);
    p, q := SwapIndices(|t.cols|, 0, 0), SwapIndices(|t.cells|, 0, 0);
    StayIsMoved(t.cols);
    StayIsMoved(t.cells);
    if m.dst.Col? {
      p := SwapIndices(|t.cols|, m.src.i, m.dst.i);
      assert s.cols[m.src.i] == [Last(s.cols[m.src.i])];
      assert t.cols[m.src.i] == [] && t.cols[m.dst.i] == s.cols[m.src.i];
      SwapIsMoved(t.cols, s.cols, m.src.i, m.dst.i);
    } else {
      q := SwapIndices(|t.cells|, m.src.j, m.dst.j);
      SwapIsMoved(t.cells, s.cells, m.src.j, m.dst.j);
    }
  }

  // A move to an empty place has the effect of the move to the one the generator takes.
  lemma OtherEmptyPlace(s: Position, m: Move) returns (g: Move, p: seq<nat>, q: seq<nat>)
    requires Legal(s, m)
    requires (m.dst.Col? && s.cols[m.dst.i] == [] && !(m.src.Col? && |s.cols[m.src.i]| == 1))
             || (m.dst.Cell? && !m.src.Cell?)
    ensures Generated(s, g) && Rearranged(Apply(s, m), Apply(s, g), p, q)
  {
    var t := Apply(s, m);
    p, q := SwapIndices(|t.cols|, 0, 0), SwapIndices(|t.cells|, 0, 0);
    StayIsMoved(t.cols);
    StayIsMoved(t.cells);
    if m.dst.Col? {
      EmptyColIsLast(s, |s.cols|);
      var e := EmptyCol(s, |s.cols|).value;
      g, p := Move(m.src, Col(e)), SwapIndices(|t.cols|, m.dst.i, e);
      SwapIsMoved(t.cols, Apply(s, g).cols, m.dst.i, e);
    } else {
      EmptyCellIsLast(s, |s.cells|);
      var e := EmptyCell(s, |s.cells|).value;
      g, q := Move(m.src, Cell(e)), SwapIndices(|t.cells|, m.dst.j, e);
      SwapIsMoved(t.cells, Apply(s, g).cells, m.dst.j, e);
    }
  }

  // A legal move that is not generated either only renames the places, or has the same effect, up
  // to placement, as a generated one.
  lemma GeneratedOrIdle(s: Position, m: Move) returns (idle: bool, g: Move, p: seq<nat>, q: seq<nat>)
    requires Legal(s, m)
    ensures idle ==> Rearranged(Apply(s, m), s, p, q)
    ensures !idle ==> Generated(s, g) && Rearranged(Apply(s, m), Apply(s, g), p, q)
  {
    idle, g := false, m;
    var toEmptyCol := m.dst.Col? && s.cols[m.dst.i] == [];
    if (toEmptyCol && m.src.Col? && |s.cols[m.src.i]| == 1) || (m.dst.Cell? && m.src.Cell?) {
      idle := true;
      p, q := IdleMove(s, m);
    } else if toEmptyCol || m.dst.Cell? {
      g, p, q := OtherEmptyPlace(s, m);
    } else {
      StayIsMoved(Apply(s, m).cols);
      StayIsMoved(Apply(s, m).cells);
      p, q := SwapIndices(|s.cols|, 0, 0), SwapIndices(|s.cells|, 0, 0);
    }
  }

  // ---- The generated moves are enough ----

  ghost predicate IsGeneratedSolution(s: Position, moves: seq<Move>)
    decreases |moves|
  {
    if moves == [] then Solved(s)
    else Generated(s, moves[0]) && IsGeneratedSolution(Apply(s, moves[0]), moves[1..])
  }

  ghost predicate GeneratedSolvable(s: Position) {
    exists moves :: IsGeneratedSolution(s, moves)
  }

  lemma {:induction false} GeneratedIsSolution(s: Position, moves: seq<Move>)
    requires IsGeneratedSolution(s, moves)
    ensures IsSolution(s, moves)
    decreases |moves|
  {
    if moves == [] {
    } else {
      GeneratedIsSolution(Apply(s, moves[0]), moves[1..]);
    }
  }

  // A solution turns into one of generated moves that is no longer.
  lemma {:induction false} GeneratedMovesSuffice(s: Position, moves: seq<Move>) returns (generated: seq<Move>)
    requires IsSolution(s, moves)
    ensures IsGeneratedSolution(s, generated) && |generated| <= |moves|
    decreases |moves|
  {
    if moves == [] {
      generated := [];
    } else {
      var idle, g, p, q := GeneratedOrIdle(s, moves[0]);
      if idle {
        var same := RearrangedSolves(Apply(s, moves[0]), s, p, q, moves[1..]);
        generated := GeneratedMovesSuffice(s, same);
      } else {
        var same := RearrangedSolves(Apply(s, moves[0]), Apply(s, g), p, q, moves[1..]);
        var rest := GeneratedMovesSuffice(Apply(s, g), same);
        generated := [g] + rest;
        assert generated[1..] == rest;
      }
    }
  }

  // A position can be solved by generated moves exactly when it can be solved at all.
  lemma SolvableIffGenerated(s: Position)
    ensures GeneratedSolvable(s) <==> Solvable(s)
  {
    if Solvable(s) {
      var moves :| IsSolution(s, moves);
      var generated := GeneratedMovesSuffice(s, moves);
    }
    if GeneratedSolvable(s) {
      var moves :| IsGeneratedSolution(s, moves);
      GeneratedIsSolution(s, moves);
    }
  }

  // ---- A generated move can be undone exactly when it counts as reversible ----

  lemma {:induction false} PhiNeverFalls(s: Position, moves: seq<Move>, t: Position)
    requires Reaches(s, moves, t)
    ensures Phi(t) >= Phi(s)
    decreases |moves|
  {
    if moves == [] {
    } else {
      MoveRaisesPhi(s, moves[0]);
      PhiNeverFalls(Apply(s, moves[0]), moves[1..], t);
    }
  }

  // The generated move that takes the card back.
  function Undo(s: Position, m: Move): Move
    requires Generated(s, m)
  {
    var t := Apply(s, m);
    if m.src.Cell? then Move(m.dst, Cell(EmptyCell(t, |t.cells|).GetOr(0)))
    else if |s.cols[m.src.i]| == 1 then Move(m.dst, Col(EmptyCol(t, |t.cols|).GetOr(0)))
    else Move(m.dst, m.src)
  }

  lemma UndoFromCell(s: Position, m: Move)
    requires Generated(s, m) && m.src.Cell? && m.dst != Home
    ensures Generated(Apply(s, m), Undo(s, m))
    ensures Alike(Apply(Apply(s, m), Undo(s, m)), s)
  {
    var t, u := Apply(s, m), Undo(s, m);
    EmptyCellIsLast(t, |t.cells|);
    assert t.cells[m.src.j] == None;
    assert t.cols[m.dst.i] == s.cols[m.dst.i] + [s.cells[m.src.j].value];
    var back := Apply(t, u);
    assert back.cols == s.cols;
    assert back.cells == s.cells[m.src.j := None][u.dst.j := s.cells[m.src.j]];
  }

  lemma UndoOnlyCard(s: Position, m: Move)
    requires Generated(s, m) && m.src.Col? && |s.cols[m.src.i]| == 1 && m.dst != Home
    ensures Generated(Apply(s, m), Undo(s, m))
    ensures Alike(Apply(Apply(s, m), Undo(s, m)), s)
  {
    var t, u := Apply(s, m), Undo(s, m);
    EmptyColIsLast(t, |t.cols|);
    assert t.cols[m.src.i] == [];
    if m.dst.Col? { OnlyCardBack(s, m, u); } else { OnlyCardDown(s, m, u); }
  }

  lemma SwapEmpty(cols: seq<Column>, i: nat, e: nat)
    requires i < |cols| && e < |cols| && (i == e || cols[e] == [])
    ensures multiset(cols[i := []][e := cols[i]]) == multiset(cols)
  {
  }

  // Where the columns stand after the only card of one goes onto another and from there to an empty one.
  lemma ThereAndBack(cols: seq<Column>, src: nat, dst: nat, e: nat, card: Card)
    requires src < |cols| && dst < |cols| && e < |cols| && src != dst && cols[src] == [card]
    requires e != dst && (e == src || cols[e] == [])
    ensures cols[src := []][dst := cols[dst] + [card]][dst := cols[dst]][e := [card]] == cols[src := []][e := cols[src]]
  {
  }

  lemma CardTaken(s: Position, src: nat, dst: nat)
    requires Legal(s, Move(Col(src), Col(dst))) && src != dst && |s.cols[src]| == 1
    ensures var t, card := Apply(s, Move(Col(src), Col(dst))), Last(s.cols[src]);
            s.cols[src] == [card] && t == s.(cols := s.cols[src := []][dst := s.cols[dst] + [card]])
  {
    assert s.cols[src][..0] == [];
  }

  lemma CardGiven(t: Position, src: nat, e: nat, kept: Column, card: Card)
    requires Legal(t, Move(Col(src), Col(e))) && src != e && t.cols[src] == kept + [card] && t.cols[e] == []
    ensures Apply(t, Move(Col(src), Col(e))) == t.(cols := t.cols[src := kept][e := [card]])
  {
    assert t.cols[src][..|kept|] == kept && Last(t.cols[src]) == card && [] + [card] == [card];
  }

  lemma OnlyCardBack(s: Position, m: Move, u: Move)
    requires Legal(s, m) && m.src.Col? && |s.cols[m.src.i]| == 1 && m.dst.Col? && m.dst != m.src
    requires u.src == m.dst && u.dst.Col? && Legal(Apply(s, m), u) && Apply(s, m).cols[u.dst.i] == []
    ensures Alike(Apply(Apply(s, m), u), s)
  {
    var src, dst, e, card := m.src.i, m.dst.i, u.dst.i, Last(s.cols[m.src.i]);
    CardTaken(s, src, dst);
    CardGiven(Apply(s, m), dst, e, s.cols[dst], card);
    ThereAndBack(s.cols, src, dst, e, card);
    SwapEmpty(s.cols, src, e);
  }

  lemma OnlyCardDown(s: Position, m: Move, u: Move)
    requires Legal(s, m) && m.src.Col? && |s.cols[m.src.i]| == 1 && m.dst.Cell?
    requires u.src == m.dst && u.dst.Col? && Legal(Apply(s, m), u) && Apply(s, m).cols[u.dst.i] == []
    ensures Alike(Apply(Apply(s, m), u), s)
  {
    var back, x := Apply(Apply(s, m), u), s.cols[m.src.i];
    assert x == [Last(x)];
    assert back.cells == s.cells;
    assert back.cols[u.dst.i] == [Last(x)];
    SwapEmpty(s.cols, m.src.i, u.dst.i);
    assert back.cols == s.cols[m.src.i := []][u.dst.i := x];
  }

  lemma UndoOntoParent(s: Position, m: Move)
    requires Generated(s, m) && m.src.Col? && |s.cols[m.src.i]| > 1 && m.dst != Home && MoveCost(s, m) == 0
    ensures Generated(Apply(s, m), Undo(s, m))
    ensures Alike(Apply(Apply(s, m), Undo(s, m)), s)
  {
    var col := s.cols[m.src.i];
    assert col == col[..|col| - 1] + [Last(col)];
    var back := Apply(Apply(s, m), Undo(s, m));
    assert back.cols == s.cols;
    assert back.cells == s.cells;
  }

  lemma UndoRestores(s: Position, m: Move)
    requires Generated(s, m) && MoveCost(s, m) == 0
    ensures Generated(Apply(s, m), Undo(s, m))
    ensures Alike(Apply(Apply(s, m), Undo(s, m)), s)
  {
    if m.src.Cell? { UndoFromCell(s, m); }
    else if |s.cols[m.src.i]| == 1 { UndoOnlyCard(s, m); }
    else { UndoOntoParent(s, m); }
  }

  // Some run of legal moves leads from t to a position like s.
  ghost predicate CanReturn(t: Position, s: Position) {
    exists moves, back :: Reaches(t, moves, back) && Alike(back, s)
  }

  lemma ReversibleIffUndoable(s: Position, m: Move)
    requires Generated(s, m)
    ensures MoveCost(s, m) == 0 <==> CanReturn(Apply(s, m), s)
  {
    var t := Apply(s, m);
    if MoveCost(s, m) == 0 {
      UndoRestores(s, m);
      var u := Undo(s, m);
      assert [u][1..] == [];
      assert Reaches(Apply(t, u), [], Apply(t, u));
      assert Reaches(t, [u], Apply(t, u));
    }
    if CanReturn(t, s) {
      var moves, back :| Reaches(t, moves, back) && Alike(back, s);
      MoveRaisesPhi(s, m);
      PhiNeverFalls(t, moves, back);
      AlikeSamePhi(back, s);
    }
  }
}
