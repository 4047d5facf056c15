/**
 What the solvers count as irreversible. The potential of a position depends on the position alone,
 never falls, and grows by exactly the count the code gives each move.
 */
module Potential {
  import opened Cards
  import opened Positions
  import opened HornePrune

  // Neighbours in a column of which the upper is not the parent of the lower.
  function ColumnBreaks(col: Column): nat {
    if |col| <= 1 then 0
    else ColumnBreaks(col[..|col| - 1]) + if LastIsLoose(col) then 1 else 0
  }

  // The last card lies on a card that is not its parent.
  predicate LastIsLoose(col: Column) {
    |col| > 1 && !IsParent(Last(col), col[|col| - 2])
  }

  function Breaks(cols: seq<Column>): nat {
    if cols == [] then 0 else ColumnBreaks(cols[0]) + Breaks(cols[1..])
  }

  function HomeCards(found: Foundations): nat {
    found[0] + found[1] + found[2] + found[3]
  }

  function Phi(s: Position): int {
    HomeCards(s.found) - Breaks(s.cols)
  }

  // COUNT_NON_REV and the reversibility flags of the generated moves.
  function MoveCost(s: Position, m: Move): nat {
    (if m.dst == Home then 1 else 0)
    + if m.src.Col? && m.src.i < |s.cols| && LastIsLoose(s.cols[m.src.i]) then 1 else 0
  }

  lemma {:induction false} BreaksUpdate(cols: seq<Column>, i: nat, x: Column)
    requires i < |cols|
    ensures Breaks(cols[i := x]) == Breaks(cols) - ColumnBreaks(cols[i]) + ColumnBreaks(x)
  {
    if i == 0 {
      assert cols[i := x][1..] == cols[1..];
    } else {
      BreaksUpdate(cols[1..], i - 1, x);
      assert cols[i := x][1..] == cols[1..][i - 1 := x];
    }
  }

  lemma PushBreaks(col: Column, c: Card)
    requires col == [] || IsParent(c, Last(col))
    ensures ColumnBreaks(col + [c]) == ColumnBreaks(col)
  {
    assert (col + [c])[..|col|] == col;
  }

  // The count the code gives a move is the growth of the potential.
  lemma MoveRaisesPhi(s: Position, m: Move)
    requires Legal(s, m)
    ensures Phi(Apply(s, m)) == Phi(s) + MoveCost(s, m)
  {
    var c := Exposed(s, m.src).value;
    assert c.suit == 0 || c.suit == 1 || c.suit == 2 || c.suit == 3;
    if m.src.Col? {
      BreaksUpdate(s.cols, m.src.i, s.cols[m.src.i][..|s.cols[m.src.i]| - 1]);
    }
    var t := Take(s, m.src);
    assert Breaks(t.cols) == Breaks(s.cols) - if m.src.Col? && LastIsLoose(s.cols[m.src.i]) then 1 else 0;
    if m.dst.Col? {
      assert t.cols[m.dst.i] == s.cols[m.dst.i];
      PushBreaks(s.cols[m.dst.i], c);
      BreaksUpdate(t.cols, m.dst.i, t.cols[m.dst.i] + [c]);
    }
  }

  lemma {:induction false} PruneRaisesPhi(slack: nat, s: Position)
    ensures Phi(Prune(slack, s)) >= Phi(s)
    decreases Missing(s.found)
  {
    if !IsPruned(slack, s) {
      var p := Choice(slack, s);
      MoveRaisesPhi(s, Move(p, Home));
      PruneRaisesPhi(slack, SendHome(s, p));
    }
  }

  // What the prune counts for a run of safe moves: one a card, and one more for each that leaves a
  // card that was not its parent.
  ghost function RunCost(slack: nat, s: Position, run: seq<Place>): nat
    requires SafeRun(slack, s, run).Some?
  {
    if run == [] then 0
    else RunCost(slack, s, run[..|run| - 1])
         + MoveCost(SafeRun(slack, s, run[..|run| - 1]).value, Move(run[|run| - 1], Home))
  }

  lemma ExtendCost(slack: nat, s: Position, run: seq<Place>, now: Position, p: Place)
    requires SafeRun(slack, s, run) == Some(now) && SafeAt(slack, now, p)
    ensures SafeRun(slack, s, run + [p]) == Some(SendHome(now, p))
    ensures RunCost(slack, s, run + [p]) == RunCost(slack, s, run) + MoveCost(now, Move(p, Home))
  {
    assert (run + [p])[..|run|] == run;
  }

  lemma {:induction false} RunCostIsPhi(slack: nat, s: Position, run: seq<Place>, now: Position)
    requires SafeRun(slack, s, run) == Some(now)
    ensures RunCost(slack, s, run) == Phi(now) - Phi(s)
  {
    if run == [] {
    } else {
      var before := SafeRun(slack, s, run[..|run| - 1]).value;
      RunCostIsPhi(slack, s, run[..|run| - 1], before);
      MoveRaisesPhi(before, Move(run[|run| - 1], Home));
    }
  }
}
