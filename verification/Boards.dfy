/** The mutable position of the solver, with the prune that works on it in place. */
module Boards {
  import opened Cards
  import opened Positions
  import opened HornePrune
  import opened Potential

  const DECKS_NUM := 1

  class Board {
    var cols: seq<Column>
    var cells: seq<Option<Card>>
    var found: Foundations

    function Pos(): Position
      reads this
    {
      Position(cols, cells, found)
    }

    constructor (s: Position)
      ensures Pos() == s
    {
      cols, cells, found := s.cols, s.cells, s.found;
    }

    // The foundation a card can safely go to, or -1.
    method CalcFoundationToPutCardOn(card: Card) returns (dest: int)
      ensures dest == if Safe(FC_SOLVE_SLACK, found, card) then card.suit else -1
      ensures dest >= 0 <==> IsNext(found, card) && NobodyWaitsFor(found, card)
    {
      SolverRule(found, card);
      for deck := 0 to DECKS_NUM
        invariant deck > 0 ==> !Safe(FC_SOLVE_SLACK, found, card)
      {
        var retVal := deck * 4 + card.suit;
        if found[retVal] == card.rank - 1 {
          var lim := DECKS_NUM * 4;
          var f := 0;
          while f < lim
            invariant 0 <= f <= lim
            invariant forall u: Suit :: u < f ==> KeepsUp(FC_SOLVE_SLACK, found, card.rank, card.suit, u)
          {
            if found[f] < card.rank - 2 - (if f % 2 == card.suit % 2 then 1 else 0) {
              assert !KeepsUp(FC_SOLVE_SLACK, found, card.rank, card.suit, f);
              break;
            }
            f := f + 1;
          }
          if f == lim {
            return retVal;
          }
        }
      }
      dest := -1;
    }

    method ColumnCardHome(i: nat, dest: nat)
      requires SafeAt(FC_SOLVE_SLACK, Pos(), Col(i)) && dest == Last(cols[i]).suit
      modifies this
      ensures Pos() == SendHome(old(Pos()), Col(i))
    {
      cols := cols[i := cols[i][..|cols[i]| - 1]];
      found := found[dest := found[dest] + 1];
    }

    // One sweep over the columns.
    method PruneColumns() returns (moved: nat, irrev: nat, ghost run: seq<Place>)
      modifies this
      ensures SafelyReached(old(Pos()), run, Pos(), moved, moved + irrev)
      ensures moved == 0 ==> forall k: nat :: !SafeAt(FC_SOLVE_SLACK, Pos(), Col(k))
    {
      moved, irrev, run := 0, 0, [];
      ghost var start, now := Pos(), Pos();
      for i := 0 to |cols|
        invariant now == Pos() && |now.cols| == |start.cols|
        invariant SafelyReached(start, run, now, moved, moved + irrev)
        invariant moved == 0 ==> forall k: nat :: k < i ==> !SafeAt(FC_SOLVE_SLACK, now, Col(k))
      {
        var col := cols[i];
        if col == [] { continue; }
        var card := col[|col| - 1];
        var dest := CalcFoundationToPutCardOn(card);
        if dest < 0 { continue; }
        ColumnCardUp(start, run, now, i, moved, irrev);
        if |col| > 1 && !IsParent(card, col[|col| - 2]) {
          irrev := irrev + 1;
        }
        moved := moved + 1;
        ColumnCardHome(i, dest);
        run, now := run + [Col(i)], SendHome(now, Col(i));
      }
    }

    // One sweep over the freecells.
    method PruneCells() returns (moved: nat, ghost run: seq<Place>)
      modifies this
      ensures SafelyReached(old(Pos()), run, Pos(), moved, moved)
      ensures moved == 0 ==> forall k: nat :: !SafeAt(FC_SOLVE_SLACK, Pos(), Cell(k))
    {
      moved, run := 0, [];
      ghost var start, now := Pos(), Pos();
      for fc := 0 to |cells|
        invariant now == Pos() && |now.cells| == |start.cells|
        invariant SafelyReached(start, run, now, moved, moved)
        invariant moved == 0 ==> forall k: nat :: k < fc ==> !SafeAt(FC_SOLVE_SLACK, now, Cell(k))
      {
        if cells[fc].Some? {
          var dest := CalcFoundationToPutCardOn(cells[fc].value);
          if dest >= 0 {
            CellCardUp(start, run, now, fc, moved);
            moved := moved + 1;
            cells := cells[fc := None];
            found := found[dest := found[dest] + 1];
            run, now := run + [Cell(fc)], Pos();
          }
        }
      }
    }

    // Sweeps until a sweep moves no card. Returns the number of irreversible moves made.
    method HornePrune() returns (count: nat)
      requires FullDeck(Pos())
      modifies this
      ensures Pos() == Prune(FC_SOLVE_SLACK, old(Pos()))
      ensures count == Phi(Pos()) - Phi(old(Pos()))
    {
      var countMoves, countIrrev := 0, 0;
      ghost var start := Pos();
      var moved := 1;
      while moved > 0
        invariant FullDeck(Pos()) && Prune(FC_SOLVE_SLACK, Pos()) == Prune(FC_SOLVE_SLACK, start)
        invariant countMoves + countIrrev == Phi(Pos()) - Phi(start)
        invariant moved == 0 ==> IsPruned(FC_SOLVE_SLACK, Pos())
        decreases Missing(found), moved
      {
        ghost var before := Pos();
        var fromCols, irrev, run := PruneColumns();
        RunEffect(before, run, Pos(), fromCols, fromCols + irrev);
        ghost var between := Pos();
        var fromCells, run' := PruneCells();
        RunEffect(between, run', Pos(), fromCells, fromCells);
        moved := fromCols + fromCells;
        countMoves, countIrrev := countMoves + moved, countIrrev + irrev;
        if moved == 0 {
          forall p: Place ensures !SafeAt(FC_SOLVE_SLACK, Pos(), p) {
            match p case Col(k) => case Cell(k) => case Home =>
          }
        }
      }
      count := countMoves + countIrrev;
    }
  }

  // `moved` safe moves lead from `start` to `now` and count `cost`.
  ghost predicate SafelyReached(start: Position, run: seq<Place>, now: Position, moved: nat, cost: nat) {
    && SafeRun(FC_SOLVE_SLACK, start, run) == Some(now)
    && |run| == moved && RunCost(FC_SOLVE_SLACK, start, run) == cost
  }

  lemma ColumnCardUp(start: Position, run: seq<Place>, now: Position, i: nat, moved: nat, irrev: nat)
    requires SafelyReached(start, run, now, moved, moved + irrev) && SafeAt(FC_SOLVE_SLACK, now, Col(i))
    ensures var col := now.cols[i];
            var loose := |col| > 1 && !IsParent(col[|col| - 1], col[|col| - 2]);
            SafelyReached(start, run + [Col(i)], SendHome(now, Col(i)), moved + 1,
                          moved + 1 + irrev + if loose then 1 else 0)
  {
    ExtendCost(FC_SOLVE_SLACK, start, run, now, Col(i));
  }

  lemma CellCardUp(start: Position, run: seq<Place>, now: Position, j: nat, moved: nat)
    requires SafelyReached(start, run, now, moved, moved) && SafeAt(FC_SOLVE_SLACK, now, Cell(j))
    ensures SafelyReached(start, run + [Cell(j)], SendHome(now, Cell(j)), moved + 1, moved + 1)
  {
    ExtendCost(FC_SOLVE_SLACK, start, run, now, Cell(j));
  }

  lemma RunEffect(start: Position, run: seq<Place>, now: Position, moved: nat, cost: nat)
    requires FullDeck(start) && SafelyReached(start, run, now, moved, cost)
    ensures FullDeck(now) && Prune(FC_SOLVE_SLACK, now) == Prune(FC_SOLVE_SLACK, start)
    ensures cost == Phi(now) - Phi(start) && Missing(now.found) + moved == Missing(start.found)
    ensures moved == 0 ==> now == start
  {
    RunKeepsPrune(FC_SOLVE_SLACK, start, run, now);
    RunCostIsPhi(FC_SOLVE_SLACK, start, run, now);
  }
}
