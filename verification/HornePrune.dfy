/**
 Safe moves to the foundations, the prune that makes all of them, and why pruning loses nothing.

 `slack` says how far the foundations of the other colour may lag behind a card that goes up
 safely. fc-solve allows 2 and FC-Pro allows 1; a foundation of the same colour may lag one more.
 */
module HornePrune {
  import opened Cards
  import opened Positions

  const FC_SOLVE_SLACK := 2
  const FC_PRO_SLACK := 1

  predicate KeepsUp(slack: nat, found: Foundations, top: nat, suit: Suit, u: Suit) {
    found[u] + slack + (if SameColour(u, suit) then 1 else 0) >= top
  }

  predicate Safe(slack: nat, found: Foundations, c: Card) {
    && found[c.suit] + 1 == c.rank
    && forall u: Suit :: KeepsUp(slack, found, c.rank, c.suit, u)
  }

  // ---- What the two rules mean ----

  predicate IsHome(found: Foundations, c: Card) {
    found[c.suit] >= c.rank
  }

  predicate IsNext(found: Foundations, c: Card) {
    found[c.suit] + 1 == c.rank
  }

  predicate IsHomeOrNext(found: Foundations, c: Card) {
    IsHome(found, c) || IsNext(found, c)
  }

  // Every card that could be put on c is home or next, and so is every card that could be put on that one.
  ghost predicate NobodyWaitsFor(found: Foundations, c: Card) {
    forall d: Card :: IsParent(d, c) ==>
      IsHomeOrNext(found, d) && forall e: Card :: IsParent(e, d) ==> IsHomeOrNext(found, e)
  }

  // All of these cards are home.
  ghost predicate NobodyIsLeftFor(found: Foundations, c: Card) {
    forall d: Card :: IsParent(d, c) ==> IsHome(found, d) && forall e: Card :: IsParent(e, d) ==> IsHome(found, e)
  }

  // The rule of fc-solve.
  lemma SolverRule(found: Foundations, c: Card)
    ensures Safe(FC_SOLVE_SLACK, found, c) <==> IsNext(found, c) && NobodyWaitsFor(found, c)
  {
    if IsNext(found, c) && NobodyWaitsFor(found, c) {
      forall u: Suit ensures KeepsUp(FC_SOLVE_SLACK, found, c.rank, c.suit, u) {
        if !SameColour(u, c.suit) && c.rank > 1 {
          assert IsParent(Card(c.rank - 1, u), c);
        } else if u != c.suit && c.rank > 2 {
          var d := Card(c.rank - 1, 1 - c.suit % 2);
          assert IsParent(d, c) && IsParent(Card(c.rank - 2, u), d);
        }
      }
    }
    if Safe(FC_SOLVE_SLACK, found, c) {
      forall d: Card, e: Card | IsParent(d, c)
        ensures IsHomeOrNext(found, d) && (IsParent(e, d) ==> IsHomeOrNext(found, e))
      {
        assert KeepsUp(FC_SOLVE_SLACK, found, c.rank, c.suit, d.suit);
        assert KeepsUp(FC_SOLVE_SLACK, found, c.rank, c.suit, e.suit);
      }
    }
  }

  // The rule of FC-Pro.
  lemma GameRule(found: Foundations, c: Card)
    ensures Safe(FC_PRO_SLACK, found, c) <==> IsNext(found, c) && NobodyIsLeftFor(found, c)
  {
    if IsNext(found, c) && NobodyIsLeftFor(found, c) {
      forall u: Suit ensures KeepsUp(FC_PRO_SLACK, found, c.rank, c.suit, u) {
        if !SameColour(u, c.suit) && c.rank > 1 {
          assert IsParent(Card(c.rank - 1, u), c);
        } else if u != c.suit && c.rank > 2 {
          var d := Card(c.rank - 1, 1 - c.suit % 2);
          assert IsParent(d, c) && IsParent(Card(c.rank - 2, u), d);
        }
      }
    }
    if Safe(FC_PRO_SLACK, found, c) {
      forall d: Card, e: Card | IsParent(d, c) ensures IsHome(found, d) && (IsParent(e, d) ==> IsHome(found, e)) {
        assert KeepsUp(FC_PRO_SLACK, found, c.rank, c.suit, d.suit);
        assert KeepsUp(FC_PRO_SLACK, found, c.rank, c.suit, e.suit);
      }
    }
  }

  predicate SafeAt(slack: nat, s: Position, p: Place) {
    Exposed(s, p).Some? && Safe(slack, s.found, Exposed(s, p).value)
  }

  function SendHome(s: Position, p: Place): Position
    requires Legal(s, Move(p, Home))
  {
    Apply(s, Move(p, Home))
  }

  // No exposed card can go up safely.
  ghost predicate IsPruned(slack: nat, s: Position) {
    forall p: Place :: !SafeAt(slack, s, p)
  }

  // Cards still missing from the foundations.
  function Missing(found: Foundations): nat {
    var g := (n: nat) => if n < KING then KING - n else 0;
    g(found[0]) + g(found[1]) + g(found[2]) + g(found[3])
  }

  lemma HomeLowersMissing(s: Position, p: Place)
    requires Legal(s, Move(p, Home))
    ensures Missing(SendHome(s, p).found) == Missing(s.found) - 1
  {
    var u := Exposed(s, p).value.suit;
    assert u == 0 || u == 1 || u == 2 || u == 3;
  }

  ghost function Choice(slack: nat, s: Position): (p: Place)
    requires !IsPruned(slack, s)
    ensures SafeAt(slack, s, p)
    ensures Missing(SendHome(s, p).found) < Missing(s.found)
  {
    var p :| SafeAt(slack, s, p);
    HomeLowersMissing(s, p);
    p
  }

  // Send safe cards home, in any order, until none is left.
  ghost function Prune(slack: nat, s: Position): Position
    decreases Missing(s.found)
  {
    if IsPruned(slack, s) then s else Prune(slack, SendHome(s, Choice(slack, s)))
  }

  // ---- The result does not depend on the order ----

  lemma SafeCommute(slack: nat, s: Position, p: Place, q: Place)
    requires FullDeck(s) && SafeAt(slack, s, p) && SafeAt(slack, s, q) && p != q
    ensures SafeAt(slack, SendHome(s, p), q) && SafeAt(slack, SendHome(s, q), p)
    ensures SendHome(SendHome(s, p), q) == SendHome(SendHome(s, q), p)
  {
    var c, d := Exposed(s, p).value, Exposed(s, q).value;
    if c == d { ExposedOnce(s, p, q); }
    assert c.suit != d.suit;
    assert Exposed(SendHome(s, p), q) == Some(d);
    assert Exposed(SendHome(s, q), p) == Some(c);
    forall u: Suit
      ensures KeepsUp(slack, SendHome(s, p).found, d.rank, d.suit, u)
      ensures KeepsUp(slack, SendHome(s, q).found, c.rank, c.suit, u)
    {
      assert KeepsUp(slack, s.found, d.rank, d.suit, u) && KeepsUp(slack, s.found, c.rank, c.suit, u);
    }
    BothUp(s, p, q);
  }

  lemma BothUp(s: Position, p: Place, q: Place)
    requires p != q && Legal(s, Move(p, Home)) && Legal(s, Move(q, Home))
    requires Exposed(s, p).value.suit != Exposed(s, q).value.suit
    requires Legal(SendHome(s, p), Move(q, Home)) && Legal(SendHome(s, q), Move(p, Home))
    ensures SendHome(SendHome(s, p), q) == SendHome(SendHome(s, q), p)
  {
    var a, b := SendHome(SendHome(s, p), q), SendHome(SendHome(s, q), p);
    assert a.found == b.found;
    assert a.cols == b.cols;
    assert a.cells == b.cells;
  }

  // Confluence: whichever safe card goes first, the pruned position is the same.
  lemma {:induction false} PruneAnyOrder(slack: nat, s: Position, p: Place)
    requires FullDeck(s) && SafeAt(slack, s, p)
    ensures Prune(slack, SendHome(s, p)) == Prune(slack, s)
    decreases Missing(s.found)
  {
    HomeLowersMissing(s, p);
    var q := Choice(slack, s);
    if p != q {
      SafeCommute(slack, s, p, q);
      MoveKeepsDeck(s, Move(p, Home));
      MoveKeepsDeck(s, Move(q, Home));
      PruneAnyOrder(slack, SendHome(s, p), q);
      PruneAnyOrder(slack, SendHome(s, q), p);
    }
  }

  // Sends the exposed cards of the given places home one after the other, as long as each is safe.
  ghost function SafeRun(slack: nat, s: Position, run: seq<Place>): Option<Position> {
    if run == [] then Some(s)
    else
      var before := SafeRun(slack, s, run[..|run| - 1]);
      if before.Some? && SafeAt(slack, before.value, run[|run| - 1])
      then Some(SendHome(before.value, run[|run| - 1]))
      else None
  }

  lemma {:induction false} RunKeepsPrune(slack: nat, s: Position, run: seq<Place>, now: Position)
    requires FullDeck(s) && SafeRun(slack, s, run) == Some(now)
    ensures FullDeck(now) && Prune(slack, now) == Prune(slack, s)
    ensures Missing(now.found) + |run| == Missing(s.found)
    decreases |run|
  {
    if run == [] {
    } else {
      var before, p := SafeRun(slack, s, run[..|run| - 1]).value, run[|run| - 1];
      RunKeepsPrune(slack, s, run[..|run| - 1], before);
      HomeLowersMissing(before, p);
      MoveKeepsDeck(before, Move(p, Home));
      PruneAnyOrder(slack, before, p);
    }
  }

  // Every maximal run of safe moves ends in the same position.
  lemma MaximalRunIsPrune(slack: nat, s: Position, run: seq<Place>, now: Position)
    requires FullDeck(s) && SafeRun(slack, s, run) == Some(now) && IsPruned(slack, now)
    ensures now == Prune(slack, s)
  {
    RunKeepsPrune(slack, s, run, now);
  }

  // The prune is a run of legal moves, so it undoes no work and keeps the deck.
  lemma {:induction false} PruneIsPlay(slack: nat, s: Position)
    requires FullDeck(s)
    ensures FullDeck(Prune(slack, s)) && IsPruned(slack, Prune(slack, s))
    ensures |Prune(slack, s).cols| == |s.cols| && |Prune(slack, s).cells| == |s.cells|
    decreases Missing(s.found)
  {
    if !IsPruned(slack, s) {
      var p := Choice(slack, s);
      MoveKeepsDeck(s, Move(p, Home));
      PruneIsPlay(slack, SendHome(s, p));
    }
  }

  lemma {:induction false} PruneSolvedBack(slack: nat, s: Position)
    requires Solvable(Prune(slack, s))
    ensures Solvable(s)
    decreases Missing(s.found)
  {
    if !IsPruned(slack, s) {
      var p := Choice(slack, s);
      PruneSolvedBack(slack, SendHome(s, p));
      var rest :| IsSolution(SendHome(s, p), rest);
      PrependMove(s, Move(p, Home), rest);
    }
  }

  // ---- Simulation: a position that is ahead can follow every move of the other ----

  ghost predicate HiddenHome(found: Foundations, col: Column, from: nat) {
    forall k :: from <= k < |col| ==> col[k].rank <= found[col[k].suit]
  }

  ghost predicate Settled(slack: nat, found: Foundations, u: Suit) {
    forall w: Suit :: KeepsUp(slack, found, found[u], u, w)
  }

  // `lead` is `virt` with some cards already home: its columns are prefixes, and every hidden
  // card went up safely.
  ghost predicate Ahead(slack: nat, lead: Position, virt: Position) {
    && |lead.cols| == |virt.cols| && |lead.cells| == |virt.cells|
    && (forall i :: 0 <= i < |virt.cols| ==>
          lead.cols[i] <= virt.cols[i] && HiddenHome(lead.found, virt.cols[i], |lead.cols[i]|))
    && (forall j :: 0 <= j < |virt.cells| ==>
          || lead.cells[j] == virt.cells[j]
          || (lead.cells[j] == None && virt.cells[j].value.rank <= lead.found[virt.cells[j].value.suit]))
    && (forall u: Suit :: virt.found[u] <= lead.found[u])
    && (forall u: Suit :: virt.found[u] < lead.found[u] ==> Settled(slack, lead.found, u))
  }

  lemma AheadOfItself(slack: nat, s: Position)
    ensures Ahead(slack, s, s)
  {
  }

  lemma HomeKeepsSettled(slack: nat, s: Position, p: Place, u: Suit)
    requires Legal(s, Move(p, Home)) && u != Exposed(s, p).value.suit && Settled(slack, s.found, u)
    ensures Settled(slack, SendHome(s, p).found, u)
  {
    forall w: Suit ensures KeepsUp(slack, SendHome(s, p).found, s.found[u], u, w) {
      assert KeepsUp(slack, s.found, s.found[u], u, w);
    }
  }

  // A safe move of the lead position alone keeps it ahead.
  lemma SafeMoveKeepsAhead(slack: nat, lead: Position, virt: Position, p: Place)
    requires Ahead(slack, lead, virt) && SafeAt(slack, lead, p)
    ensures Ahead(slack, SendHome(lead, p), virt)
  {
    var c, next := Exposed(lead, p).value, SendHome(lead, p);
    forall u: Suit | virt.found[u] < next.found[u]
      ensures Settled(slack, next.found, u)
    {
      if u == c.suit {
        forall w: Suit ensures KeepsUp(slack, next.found, next.found[u], u, w) {
          assert KeepsUp(slack, lead.found, c.rank, c.suit, w);
        }
      } else {
        HomeKeepsSettled(slack, lead, p, u);
      }
    }
    forall i | 0 <= i < |virt.cols|
      ensures next.cols[i] <= virt.cols[i] && HiddenHome(next.found, virt.cols[i], |next.cols[i]|)
    {
      assert lead.cols[i] <= virt.cols[i] && HiddenHome(lead.found, virt.cols[i], |lead.cols[i]|);
    }
  }

  lemma {:induction false} PruneIsAhead(slack: nat, s: Position)
    ensures Ahead(slack, Prune(slack, s), s)
  {
    AheadOfItself(slack, s);
    PruneStaysAhead(slack, s, s);
  }

  lemma {:induction false} PruneStaysAhead(slack: nat, lead: Position, virt: Position)
    requires Ahead(slack, lead, virt)
    ensures Ahead(slack, Prune(slack, lead), virt)
    decreases Missing(lead.found)
  {
    if !IsPruned(slack, lead) {
      var p := Choice(slack, lead);
      SafeMoveKeepsAhead(slack, lead, virt, p);
      PruneStaysAhead(slack, SendHome(lead, p), virt);
    }
  }

  // The answer of the leading position to a move of the other one: nothing if the card is already
  // home, up if the card would land on a hidden card, and otherwise the same move.
  function Answer(lead: Position, virt: Position, m: Move): Option<Move>
    requires Legal(virt, m) && |lead.cols| == |virt.cols|
  {
    if Exposed(lead, m.src) != Exposed(virt, m.src) then None
    else if m.dst.Col? && lead.cols[m.dst.i] != virt.cols[m.dst.i] then Some(Move(m.src, Home))
    else Some(m)
  }

  function AfterAnswer(lead: Position, a: Option<Move>): Position
    requires a.Some? ==> Legal(lead, a.value)
  {
    if a.Some? then Apply(lead, a.value) else lead
  }

  // The exposed cards differ exactly when the card of the virt position is already home.
  lemma HiddenIffHome(slack: nat, lead: Position, virt: Position, p: Place)
    requires FullDeck(lead) && Ahead(slack, lead, virt) && Exposed(virt, p).Some?
    ensures var c := Exposed(virt, p).value;
            Exposed(lead, p) != Some(c) <==> c.rank <= lead.found[c.suit]
  {
    var c := Exposed(virt, p).value;
    if Exposed(lead, p).Some? { ExposedNotHome(lead, p); }
    if p.Col? {
      var r, v := lead.cols[p.i], virt.cols[p.i];
      assert r <= v && HiddenHome(lead.found, v, |r|);
      if |r| == |v| { assert r == v; }
    }
  }

  // When the destination of a visible card has a hidden top, that card can go up safely instead.
  lemma ParentHomeLetsUp(slack: nat, found: Foundations, c: Card, parent: Card)
    requires slack <= 2 && IsParent(c, parent) && parent.rank <= found[parent.suit] && found[c.suit] < c.rank
    requires Settled(slack, found, parent.suit)
    ensures slack == 2 && Safe(slack, found, c)
  {
    assert KeepsUp(slack, found, found[parent.suit], parent.suit, c.suit);
    forall u: Suit ensures KeepsUp(slack, found, c.rank, c.suit, u) {
      assert KeepsUp(slack, found, found[parent.suit], parent.suit, u);
    }
  }

  // The heart of the simulation: whatever the virtual position plays, the leading one stays ahead
  // with at most one move of its own. With slack 1 that move is always the same move.
  lemma AnswerKeepsAhead(slack: nat, lead: Position, virt: Position, m: Move)
    requires slack <= 2 && FullDeck(lead) && FullDeck(virt) && Ahead(slack, lead, virt) && Legal(virt, m)
    ensures var a := Answer(lead, virt, m);
            && (a.Some? ==> Legal(lead, a.value))
            && (slack <= 1 && a.Some? ==> a == Some(m))
            && Ahead(slack, AfterAnswer(lead, a), Apply(virt, m))
  {
    var c := Exposed(virt, m.src).value;
    HiddenIffHome(slack, lead, virt, m.src);
    if Exposed(lead, m.src) != Some(c) {
      HiddenMoveKeepsAhead(slack, lead, virt, m);
    } else if m.dst.Col? && lead.cols[m.dst.i] != virt.cols[m.dst.i] {
      UpInsteadKeepsAhead(slack, lead, virt, m);
    } else {
      ExposedNotHome(lead, m.src);
      SameMoveKeepsAhead(slack, lead, virt, m);
    }
  }

  // Moving a card that is already home in the leading position changes nothing there.
  lemma HiddenMoveKeepsAhead(slack: nat, lead: Position, virt: Position, m: Move)
    requires Ahead(slack, lead, virt) && Legal(virt, m)
    requires var c := Exposed(virt, m.src).value;
             Exposed(lead, m.src) != Some(c) && c.rank <= lead.found[c.suit]
    ensures Ahead(slack, lead, Apply(virt, m))
  {
    var after := Apply(virt, m);
    forall i | 0 <= i < |virt.cols|
      ensures lead.cols[i] <= after.cols[i] && HiddenHome(lead.found, after.cols[i], |lead.cols[i]|)
    {
      assert lead.cols[i] <= virt.cols[i] && HiddenHome(lead.found, virt.cols[i], |lead.cols[i]|);
      HiddenMoveColumn(lead, virt, m, i);
    }
  }

  lemma HiddenMoveColumn(lead: Position, virt: Position, m: Move, i: nat)
    requires Legal(virt, m) && |lead.cols| == |virt.cols| && i < |virt.cols|
    requires lead.cols[i] <= virt.cols[i] && HiddenHome(lead.found, virt.cols[i], |lead.cols[i]|)
    requires var c := Exposed(virt, m.src).value;
             Exposed(lead, m.src) != Some(c) && c.rank <= lead.found[c.suit]
    ensures var after := Apply(virt, m);
            lead.cols[i] <= after.cols[i] && HiddenHome(lead.found, after.cols[i], |lead.cols[i]|)
  {
    assert |lead.cols[i]| == |virt.cols[i]| ==> lead.cols[i] == virt.cols[i];
  }

  // A visible card that would land on a hidden one goes up safely instead. With slack 1 this
  // never happens: that card would be home already.
  lemma UpInsteadKeepsAhead(slack: nat, lead: Position, virt: Position, m: Move)
    requires slack <= 2 && FullDeck(lead) && FullDeck(virt) && Ahead(slack, lead, virt) && Legal(virt, m)
    requires Exposed(lead, m.src) == Exposed(virt, m.src)
    requires m.dst.Col? && lead.cols[m.dst.i] != virt.cols[m.dst.i]
    ensures slack == 2 && Legal(lead, Move(m.src, Home))
    ensures Ahead(slack, SendHome(lead, m.src), Apply(virt, m))
  {
    var c := Exposed(virt, m.src).value;
    var l, v := lead.cols[m.dst.i], virt.cols[m.dst.i];
    assert l <= v && HiddenHome(lead.found, v, |l|);
    assert |l| < |v|;
    InPlayNotHome(virt, m.dst.i, |v| - 1);
    ExposedNotHome(lead, m.src);
    ParentHomeLetsUp(slack, lead.found, c, Last(v));
    SafeMoveKeepsAhead(slack, lead, virt, m.src);
    MoveKeepsDeck(lead, Move(m.src, Home));
    HiddenIffHome(slack, SendHome(lead, m.src), virt, m.src);
    HiddenMoveKeepsAhead(slack, SendHome(lead, m.src), virt, m);
  }

  lemma SameMoveKeepsAhead(slack: nat, lead: Position, virt: Position, m: Move)
    requires Ahead(slack, lead, virt) && Legal(virt, m)
    requires Exposed(lead, m.src) == Exposed(virt, m.src)
    requires var c := Exposed(virt, m.src).value; lead.found[c.suit] < c.rank
    requires m.dst.Col? ==> lead.cols[m.dst.i] == virt.cols[m.dst.i]
    ensures Legal(lead, m) && Ahead(slack, Apply(lead, m), Apply(virt, m))
  {
    var c := Exposed(virt, m.src).value;
    var next, after := Apply(lead, m), Apply(virt, m);
    forall i | 0 <= i < |virt.cols|
      ensures next.cols[i] <= after.cols[i] && HiddenHome(next.found, after.cols[i], |next.cols[i]|)
    {
      assert lead.cols[i] <= virt.cols[i] && HiddenHome(lead.found, virt.cols[i], |lead.cols[i]|);
      SameMoveColumn(lead, virt, m, i);
    }
    forall u: Suit | after.found[u] < next.found[u]
      ensures Settled(slack, next.found, u)
    {
      if m.dst == Home { HomeKeepsSettled(slack, lead, m.src, u); }
    }
  }

  lemma SameMoveColumn(lead: Position, virt: Position, m: Move, i: nat)
    requires Legal(virt, m) && Legal(lead, m) && |lead.cols| == |virt.cols| && i < |virt.cols|
    requires Exposed(lead, m.src) == Exposed(virt, m.src)
    requires var c := Exposed(virt, m.src).value; lead.found[c.suit] < c.rank
    requires m.dst.Col? ==> lead.cols[m.dst.i] == virt.cols[m.dst.i]
    requires lead.cols[i] <= virt.cols[i] && HiddenHome(lead.found, virt.cols[i], |lead.cols[i]|)
    ensures var next, after := Apply(lead, m), Apply(virt, m);
            next.cols[i] <= after.cols[i] && HiddenHome(next.found, after.cols[i], |next.cols[i]|)
  {
    assert m.src == Col(i) ==> |lead.cols[i]| == |virt.cols[i]|;
  }

  // ---- Pruning loses no solution and lengthens none ----

  lemma {:induction false} AheadSolves(slack: nat, lead: Position, virt: Position, moves: seq<Move>)
    returns (shorter: seq<Move>)
    requires slack <= 2 && FullDeck(lead) && FullDeck(virt) && Ahead(slack, lead, virt)
    requires IsSolution(virt, moves)
    ensures IsSolution(lead, shorter) && |shorter| <= |moves|
    decreases |moves|
  {
    if moves == [] {
      shorter := [];
      assert forall u: Suit :: virt.found[u] <= lead.found[u];
    } else {
      var a := Answer(lead, virt, moves[0]);
      AnswerKeepsAhead(slack, lead, virt, moves[0]);
      MoveKeepsDeck(virt, moves[0]);
      if a.Some? { MoveKeepsDeck(lead, a.value); }
      shorter := AheadSolves(slack, AfterAnswer(lead, a), Apply(virt, moves[0]), moves[1..]);
      if a.Some? {
        PrependMove(lead, a.value, shorter);
        shorter := [a.value] + shorter;
      }
    }
  }

  // A position can be solved exactly when its pruned image can.
  lemma PruneKeepsSolvable(slack: nat, s: Position)
    requires slack <= 2 && FullDeck(s)
    ensures Solvable(s) <==> Solvable(Prune(slack, s))
  {
    if Solvable(s) {
      var moves :| IsSolution(s, moves);
      PruneIsPlay(slack, s);
      PruneIsAhead(slack, s);
      var shorter := AheadSolves(slack, Prune(slack, s), s, moves);
    }
    if Solvable(Prune(slack, s)) { PruneSolvedBack(slack, s); }
  }
}
