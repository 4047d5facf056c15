/**
 Playing a sequence move by hand in FreeCell Pro: all cards but the last are stored on vacant
 freecells and columns, and then played out backwards from a log of the moves made.
 */
module Fcplay {
  import opened Cards
  import opened Positions
  import opened Sequences
  import opened FreecellMoves

  const NUM_STORAGE := 50

  // How many cards can be moved: a run on each vacant column and one to go directly.
  function HandCapacity(s: Position): nat {
    (VacantFreecells(s) + 1) * (VacantStacks(s) + 1)
  }

  // The cards on so many full piles: on each one more than there are freecells.
  function PileCards(piles: nat, freecells: nat): nat {
    if piles == 0 then 0 else PileCards(piles - 1, freecells) + freecells + 1
  }

  // ---- The log ----

  // Where the logged moves lead.
  ghost function After(s: Position, log: seq<Move>): Option<Position> {
    if log == [] then Some(s)
    else
      match After(s, log[..|log| - 1])
      case None => None
      case Some(t) => if Legal(t, log[|log| - 1]) then Some(Apply(t, log[|log| - 1])) else None
  }

  lemma AfterOneMore(s: Position, log: seq<Move>, t: Position, m: Move)
    requires After(s, log) == Some(t) && Legal(t, m)
    ensures After(s, log + [m]) == Some(Apply(t, m))
  {
    assert (log + [m])[..|log|] == log;
  }

  lemma {:induction false} AfterPrefix(s: Position, log: seq<Move>, n: nat)
    requires After(s, log).Some? && n <= |log|
    ensures After(s, log[..n]).Some?
    decreases |log|
  {
    if n < |log| {
      AfterPrefix(s, log[..|log| - 1], n);
      assert log[..|log| - 1][..n] == log[..n];
    } else {
      assert log[..n] == log;
    }
  }

  // A card of the sequence is stored, or a stored card goes from its freecell onto a stored one.
  predicate IsLogged(m: Move, src: nat, dst: nat) {
    || (m.src == Col(src) && m.dst != Home && m.dst != Col(src) && m.dst != Col(dst))
    || (m.src.Cell? && m.dst.Col? && m.dst != Col(src) && m.dst != Col(dst))
  }

  predicate AllLogged(log: seq<Move>, src: nat, dst: nat) {
    forall k :: 0 <= k < |log| ==> IsLogged(log[k], src, dst)
  }

  // How many cards of the sequence the log stores.
  function Stored(log: seq<Move>): nat {
    if log == [] then 0 else Stored(log[..|log| - 1]) + if log[|log| - 1].src.Col? then 1 else 0
  }

  lemma StoredOneMore(log: seq<Move>, m: Move)
    ensures Stored(log + [m]) == Stored(log) + if m.src.Col? then 1 else 0
  {
    assert (log + [m])[..|log|] == log;
  }

  // ---- Storing touches only the source column and the storage places ----

  lemma {:induction false} LogKeepsBlock(s: Position, log: seq<Move>, t: Position, src: nat, dst: nat)
    requires After(s, log) == Some(t) && AllLogged(log, src, dst) && src < |s.cols| && dst < |s.cols| && src != dst
    ensures |t.cols| == |s.cols| && |t.cells| == |s.cells| && t.found == s.found && t.cols[dst] == s.cols[dst]
    ensures Stored(log) <= |s.cols[src]| && t.cols[src] == s.cols[src][..|s.cols[src]| - Stored(log)]
    decreases |log|
  {
    if log == [] {
      assert s.cols[src][..|s.cols[src]|] == s.cols[src];
    } else {
      var before, m := After(s, log[..|log| - 1]).value, log[|log| - 1];
      assert IsLogged(m, src, dst);
      LogKeepsBlock(s, log[..|log| - 1], before, src, dst);
    }
  }

  lemma ShorterBlockFits(s: Position, t: Position, src: nat, dst: nat, num: nat, stored: nat)
    requires BlockFits(s, src, dst, num) && stored < num && |t.cols| == |s.cols| && t.cols[dst] == s.cols[dst]
    requires t.cols[src] == s.cols[src][..|s.cols[src]| - stored]
    ensures BlockFits(t, src, dst, num - stored)
  {
    var n := |s.cols[src]| - num;
    var whole, part := s.cols[src][n..], t.cols[src][n..];
    assert part == whole[..num - stored];
    forall k | 0 < k < |part| ensures IsParent(part[k], part[k - 1]) {
      assert part[k] == whole[k] && part[k - 1] == whole[k - 1];
    }
  }

  // ---- Playing the log backwards ----

  // Where the card of a logged move goes when it is played out.
  function PlayedOutTo(m: Move, dst: nat): Place {
    if m.src.Col? then Col(dst) else m.src
  }

  // Taking a logged move back with the last r cards of the sequence already on the destination.
  lemma PlayOutStored(t: Position, m: Move, src: nat, dst: nat, r: nat)
    requires Legal(t, m) && m.src == Col(src) && IsLogged(m, src, dst) && r > 0 && BlockFits(t, src, dst, r + 1)
    requires BlockFits(Apply(t, m), src, dst, r)
    ensures var q := MoveBlock(Apply(t, m), src, dst, r);
            Legal(q, Move(m.dst, Col(dst))) && Apply(q, Move(m.dst, Col(dst))) == MoveBlock(t, src, dst, r + 1)
  {
    var col := t.cols[src];
    var n, card := |col| - r - 1, Last(col);
    var kept, low := col[..n], col[n..n + r];
    SplitTail(col, n);
    PlayOutWith(t, m, src, dst, kept, low, card);
  }

  lemma SplitTail(col: Column, n: nat)
    requires n < |col|
    ensures col[n..] == col[n..|col| - 1] + [Last(col)]
    ensures col == (col[..n] + col[n..|col| - 1]) + [Last(col)]
  {
  }

  lemma PlayOutWith(t: Position, m: Move, src: nat, dst: nat, kept: Column, low: Column, card: Card)
    requires Legal(t, m) && m.src == Col(src) && IsLogged(m, src, dst) && src < |t.cols| && dst < |t.cols| && src != dst
    requires t.cols[src] == (kept + low) + [card] && low != [] && IsRunOfCards(low + [card])
    requires t.cols[dst] == [] || IsParent(low[0], Last(t.cols[dst]))
    ensures BlockFits(Apply(t, m), src, dst, |low|) && BlockFits(t, src, dst, |low| + 1)
    ensures var q := MoveBlock(Apply(t, m), src, dst, |low|);
            Legal(q, Move(m.dst, Col(dst))) && Apply(q, Move(m.dst, Col(dst))) == MoveBlock(t, src, dst, |low| + 1)
  {
    PlayOutBlocks(t, m, src, dst, kept, low, card);
    var after := Apply(t, m);
    BackToDestination(t, m, src, dst, kept, low, card, after, MoveBlock(after, src, dst, |low|),
                      MoveBlock(t, src, dst, |low| + 1));
  }

  // The block before and after its last card is stored.
  lemma PlayOutBlocks(t: Position, m: Move, src: nat, dst: nat, kept: Column, low: Column, card: Card)
    requires Legal(t, m) && m.src == Col(src) && IsLogged(m, src, dst) && src < |t.cols| && dst < |t.cols| && src != dst
    requires t.cols[src] == (kept + low) + [card] && low != [] && IsRunOfCards(low + [card])
    requires t.cols[dst] == [] || IsParent(low[0], Last(t.cols[dst]))
    ensures IsParent(card, Last(low)) && Exposed(Apply(t, m), m.dst) == Some(card)
    ensures BlockFits(Apply(t, m), src, dst, |low|) && BlockFits(t, src, dst, |low| + 1)
    ensures Shifted(Apply(t, m), MoveBlock(Apply(t, m), src, dst, |low|), src, dst, kept, low)
    ensures Shifted(t, MoveBlock(t, src, dst, |low| + 1), src, dst, kept, low + [card])
  {
    SplitRun(low, [card]);
    StoredShape(t, m, src, kept + low, card);
    OtherStays(t, m, src, dst);
    BlockIs(Apply(t, m), src, dst, kept, low);
    Bracket(kept, low, card);
    BlockIs(t, src, dst, kept, low + [card]);
  }

  lemma Bracket(a: Column, b: Column, card: Card)
    ensures (a + b) + [card] == a + (b + [card])
  {
  }

  lemma OtherStays(t: Position, m: Move, src: nat, dst: nat)
    requires Legal(t, m) && m.src == Col(src) && IsLogged(m, src, dst) && dst < |t.cols| && src != dst
    ensures |Apply(t, m).cols| == |t.cols| && Apply(t, m).cols[dst] == t.cols[dst]
  {
  }

  // One card of the source column is gone to an empty place.
  lemma StoredShape(t: Position, m: Move, src: nat, rest: Column, card: Card)
    requires Legal(t, m) && m.src == Col(src) && m.dst != Home && m.dst != Col(src) && t.cols[src] == rest + [card]
    ensures Apply(t, m).cols[src] == rest && Exposed(Apply(t, m), m.dst) == Some(card)
  {
    assert t.cols[src][..|rest|] == rest;
  }

  lemma BackToDestination(t: Position, m: Move, src: nat, dst: nat, kept: Column, low: Column, card: Card,
                          after: Position, q: Position, u: Position)
    requires Legal(t, m) && m.src == Col(src) && IsLogged(m, src, dst) && src != dst && dst < |t.cols|
    requires after == Apply(t, m) && Exposed(after, m.dst) == Some(card) && low != [] && IsParent(card, Last(low))
    requires Shifted(after, q, src, dst, kept, low) && Shifted(t, u, src, dst, kept, low + [card])
    ensures Legal(q, Move(m.dst, Col(dst))) && Apply(q, Move(m.dst, Col(dst))) == u
  {
    assert after.cols[dst] == t.cols[dst];
    assert Exposed(q, m.dst) == Some(card);
    assert q.cols[dst] == t.cols[dst] + low;
    var v := Apply(q, Move(m.dst, Col(dst)));
    assert (t.cols[dst] + low) + [card] == t.cols[dst] + (low + [card]);
    if m.dst.Cell? {
      assert v.cells == t.cells[m.dst.j := after.cells[m.dst.j]][m.dst.j := None];
      assert v.cells == t.cells;
    } else {
      assert q.cols[m.dst.i] == after.cols[m.dst.i] == t.cols[m.dst.i] + [card];
      assert v.cols[m.dst.i] == t.cols[m.dst.i];
    }
    SameAs(v, u);
  }

  lemma PlayOutPiled(t: Position, m: Move, src: nat, dst: nat, r: nat)
    requires Legal(t, m) && m.src.Cell? && IsLogged(m, src, dst) && BlockFits(t, src, dst, r)
    requires BlockFits(Apply(t, m), src, dst, r)
    ensures var q := MoveBlock(Apply(t, m), src, dst, r);
            Legal(q, Move(m.dst, m.src)) && Apply(q, Move(m.dst, m.src)) == MoveBlock(t, src, dst, r)
  {
    var col := t.cols[src];
    var kept, block := col[..|col| - r], col[|col| - r..];
    assert col == kept + block;
    var after := Apply(t, m);
    BlockIs(after, src, dst, kept, block);
    BlockIs(t, src, dst, kept, block);
    BackToFreecell(t, m, src, dst, kept, block, after, MoveBlock(after, src, dst, r), MoveBlock(t, src, dst, r));
  }

  lemma BackToFreecell(t: Position, m: Move, src: nat, dst: nat, kept: Column, block: Column,
                       after: Position, q: Position, u: Position)
    requires Legal(t, m) && m.src.Cell? && IsLogged(m, src, dst) && src != dst && src < |t.cols| && dst < |t.cols|
    requires after == Apply(t, m) && Shifted(after, q, src, dst, kept, block) && Shifted(t, u, src, dst, kept, block)
    ensures Legal(q, Move(m.dst, m.src)) && Apply(q, Move(m.dst, m.src)) == u
  {
    assert q.cols[m.dst.i] == t.cols[m.dst.i] + [t.cells[m.src.j].value];
    var v := Apply(q, Move(m.dst, m.src));
    assert v.cols[m.dst.i] == t.cols[m.dst.i];
    assert v.cells == t.cells;
    SameAs(v, u);
  }

  // With the log taken back to its first i moves, which lead to t, the rest of the sequence is on the
  // destination.
  ghost predicate TakenBack(s: Position, log: seq<Move>, i: nat, src: nat, dst: nat, num: nat, t: Position, q: Position)
    requires i <= |log|
  {
    After(s, log[..i]) == Some(t) && Stored(log[..i]) < num && IsBlockMoved(t, src, dst, num - Stored(log[..i]), q)
  }

  ghost predicate IsBlockMoved(t: Position, src: nat, dst: nat, num: nat, q: Position) {
    BlockFits(t, src, dst, num) && q == MoveBlock(t, src, dst, num)
  }

  lemma PlayOutStep(s: Position, log: seq<Move>, i: nat, src: nat, dst: nat, num: nat, t': Position, q: Position)
    returns (t: Position)
    requires After(s, log).Some? && AllLogged(log, src, dst) && BlockFits(s, src, dst, num) && Stored(log) < num
    requires 0 < i <= |log| && TakenBack(s, log, i, src, dst, num, t', q)
    ensures var back := Move(log[i - 1].dst, PlayedOutTo(log[i - 1], dst));
            Legal(q, back) && TakenBack(s, log, i - 1, src, dst, num, t, Apply(q, back))
  {
    PlayOutHolds(s, log, i - 1, src, dst, num);
    t := LastOfPrefix(s, log, i);
    var r, r' := num - Stored(log[..i]), num - Stored(log[..i - 1]);
    assert IsLogged(log[i - 1], src, dst);
    OneBack(t, log[i - 1], src, dst, r, r', q);
  }

  lemma LastOfPrefix(s: Position, log: seq<Move>, i: nat) returns (t: Position)
    requires 0 < i <= |log| && After(s, log[..i]).Some?
    ensures After(s, log[..i - 1]) == Some(t) && Legal(t, log[i - 1])
            && After(s, log[..i]) == Some(Apply(t, log[i - 1]))
    ensures Stored(log[..i]) == Stored(log[..i - 1]) + if log[i - 1].src.Col? then 1 else 0
  {
    assert log[..i][..i - 1] == log[..i - 1];
    t := After(s, log[..i - 1]).value;
  }

  lemma OneBack(t: Position, m: Move, src: nat, dst: nat, r: nat, r': nat, q: Position)
    requires Legal(t, m) && IsLogged(m, src, dst) && r > 0 && IsBlockMoved(Apply(t, m), src, dst, r, q)
    requires r' == (if m.src.Col? then r + 1 else r) && BlockFits(t, src, dst, r')
    ensures var back := Move(m.dst, PlayedOutTo(m, dst));
            Legal(q, back) && IsBlockMoved(t, src, dst, r', Apply(q, back))
  {
    if m.src.Col? { PlayOutStored(t, m, src, dst, r); } else { PlayOutPiled(t, m, src, dst, r); }
  }

  lemma {:induction false} StoredPrefix(log: seq<Move>, n: nat)
    requires n <= |log|
    ensures Stored(log[..n]) <= Stored(log)
    decreases |log|
  {
    if n < |log| {
      StoredPrefix(log[..|log| - 1], n);
      assert log[..|log| - 1][..n] == log[..n];
    } else {
      assert log[..n] == log;
    }
  }

  lemma PlayOutHolds(s: Position, log: seq<Move>, n: nat, src: nat, dst: nat, num: nat)
    requires After(s, log).Some? && AllLogged(log, src, dst) && BlockFits(s, src, dst, num) && Stored(log) < num
    requires n <= |log|
    ensures After(s, log[..n]).Some? && Stored(log[..n]) < num
    ensures BlockFits(After(s, log[..n]).value, src, dst, num - Stored(log[..n]))
  {
    AfterPrefix(s, log, n);
    StoredPrefix(log, n);
    var t := After(s, log[..n]).value;
    LogKeepsBlock(s, log[..n], t, src, dst);
    ShorterBlockFits(s, t, src, dst, num, Stored(log[..n]));
  }

  // ---- Storing the cards ----

  // The k-th card to be stored.
  function NthCard(s: Position, src: nat, k: nat): Card
    requires src < |s.cols| && k < |s.cols[src]|
  {
    s.cols[src][|s.cols[src]| - 1 - k]
  }

  // `stored` cards of the sequence are stored, the last ones on the freecells listed and, if there is
  // a pile, one more on the column it starts. The cards before them fill whole piles.
  ghost predicate Storing(s: Position, t: Position, log: seq<Move>, src: nat, dst: nat, num: nat, stored: nat,
                          cells: seq<nat>, pile: Option<nat>)
  {
    forall n {:trigger Kept(s, t, log, src, dst, num, stored, |cells|, n)} :: n == Piles(pile) ==>
      && Kept(s, t, log, src, dst, num, stored, |cells|, n)
      && InCells(s, t, log, src, |log| - n - |cells|, stored - n - |cells|, cells, |cells|)
      && (pile.Some? ==>
            && VacantFreecells(t) == 0 && pile.value < |t.cols| && log[|log| - 1] == Move(Col(src), Col(pile.value))
            && t.cols[pile.value] == [NthCard(s, src, stored - 1)])
  }

  // The piles of one card.
  function Piles(pile: Option<nat>): nat {
    if pile.Some? then 1 else 0
  }

  // The log accounts for the cards stored: each is logged once when it is stored and, on a full pile,
  // once more when it goes onto it.
  ghost predicate Kept(s: Position, t: Position, log: seq<Move>, src: nat, dst: nat, num: nat, stored: nat,
                       inCells: nat, piles: nat) {
    && BlockFits(s, src, dst, num) && s.cols[dst] != [] && stored < num
    && After(s, log) == Some(t) && AllLogged(log, src, dst) && Stored(log) == stored
    && inCells + piles <= stored && inCells + piles <= |log| && |log| + inCells + piles <= 2 * stored
    && Counted(s, t, stored, inCells, piles)
  }

  lemma KeptOneMore(s: Position, t: Position, log: seq<Move>, src: nat, dst: nat, num: nat, stored: nat, inCells: nat,
                    m: Move, inCells': nat, piles': nat)
    requires Kept(s, t, log, src, dst, num, stored, inCells, 0) && stored + 1 < num && Legal(t, m)
    requires m.src == Col(src) && IsLogged(m, src, dst) && inCells' + piles' == inCells + 1
    requires Counted(s, Apply(t, m), stored + 1, inCells', piles')
    ensures Kept(s, Apply(t, m), log + [m], src, dst, num, stored + 1, inCells', piles')
  {
    AfterOneMore(s, log, t, m);
    StoredOneMore(log, m);
  }

  // Each full pile holds one card more than there are freecells.
  ghost predicate Counted(s: Position, t: Position, stored: nat, inCells: nat, piles: nat) {
    && VacantFreecells(t) + inCells == VacantFreecells(s)
    && VacantStacks(t) + piles <= VacantStacks(s)
    && stored == PileCards(VacantStacks(s) - VacantStacks(t) - piles, VacantFreecells(s)) + inCells + piles
  }

  lemma SameCells(s: Position, t: Position, t': Position, log: seq<Move>, log': seq<Move>, src: nat, base: nat,
                  first: nat, cells: seq<nat>, n: nat)
    requires InCells(s, t, log, src, base, first, cells, n) && t'.cells == t.cells && log <= log'
    ensures InCells(s, t', log', src, base, first, cells, n)
  {
    forall i | 0 <= i < |cells|
      ensures LoggedAt(log', src, base, cells, i)
    {
      assert LoggedAt(log, src, base, cells, i);
    }
    forall i | 0 <= i < n ensures StillAt(s, t', src, first, cells, i) { assert StillAt(s, t, src, first, cells, i); }
  }

  lemma PileCounted(s: Position, t: Position, t': Position, stored: nat, inCells: nat)
    requires Counted(s, t, stored, inCells, 0) && VacantFreecells(t') == VacantFreecells(t)
             && VacantStacks(t') + 1 == VacantStacks(t)
    ensures Counted(s, t', stored + 1, inCells, 1)
  {
    assert VacantStacks(s) - VacantStacks(t') - 1 == VacantStacks(s) - VacantStacks(t);
  }

  // From `base` on the log stores the cards of the sequence from the first-th on in the freecells listed,
  // and the first n of these are still there; what comes before is a move to a column.
  ghost predicate InCells(s: Position, t: Position, log: seq<Move>, src: nat, base: nat, first: nat, cells: seq<nat>,
                          n: nat) {
    && src < |s.cols| && first + |cells| <= |s.cols[src]| && n <= |cells| && base + |cells| <= |log|
    && (forall i, j {:trigger Differ(cells, i, j)} :: 0 <= i < j < |cells| ==> Differ(cells, i, j))
    && (forall i {:trigger LoggedAt(log, src, base, cells, i)} :: 0 <= i < |cells| ==>
         LoggedAt(log, src, base, cells, i))
    && (forall i {:trigger StillAt(s, t, src, first, cells, i)} :: 0 <= i < n ==> StillAt(s, t, src, first, cells, i))
    && (base > 0 ==> log[base - 1].dst.Col?)
  }

  predicate Differ(cells: seq<nat>, i: nat, j: nat)
    requires i < |cells| && j < |cells|
  {
    cells[i] != cells[j]
  }

  predicate LoggedAt(log: seq<Move>, src: nat, base: nat, cells: seq<nat>, i: nat)
    requires i < |cells| && base + |cells| <= |log|
  {
    log[base + i] == Move(Col(src), Cell(cells[i]))
  }

  predicate StillAt(s: Position, t: Position, src: nat, first: nat, cells: seq<nat>, i: nat)
    requires src < |s.cols| && i < |cells| && first + |cells| <= |s.cols[src]|
  {
    cells[i] < |t.cells| && t.cells[cells[i]] == Some(NthCard(s, src, first + i))
  }

  lemma NthIsTop(s: Position, t: Position, log: seq<Move>, src: nat, dst: nat, num: nat)
    requires BlockFits(s, src, dst, num) && After(s, log) == Some(t) && AllLogged(log, src, dst)
             && Stored(log) + 1 < num
    ensures |t.cols| == |s.cols| && |t.cells| == |s.cells| && t.cols[dst] == s.cols[dst]
    ensures |t.cols[src]| == |s.cols[src]| - Stored(log) >= 2 && Last(t.cols[src]) == NthCard(s, src, Stored(log))
  {
    LogKeepsBlock(s, log, t, src, dst);
  }

  // The card over the k-th card of the sequence goes onto it.
  lemma NthIsParent(s: Position, src: nat, dst: nat, num: nat, k: nat)
    requires BlockFits(s, src, dst, num) && 0 < k < num
    ensures IsParent(NthCard(s, src, k - 1), NthCard(s, src, k))
  {
    var col := s.cols[src];
    var block := col[|col| - num..];
    assert IsParent(block[num - k], block[num - k - 1]);
  }

  lemma {:induction false} RunIsShort(block: Column)
    requires block != [] && IsRunOfCards(block)
    ensures Last(block).rank + |block| - 1 == block[0].rank && |block| <= 13
  {
    if |block| > 1 {
      var rest := block[..|block| - 1];
      forall k | 0 < k < |rest| ensures IsParent(rest[k], rest[k - 1]) { assert IsParent(block[k], block[k - 1]); }
      RunIsShort(rest);
      assert IsParent(block[|block| - 1], block[|block| - 2]);
    }
  }

  lemma StoringIs(s: Position, t: Position, log: seq<Move>, src: nat, dst: nat, num: nat, stored: nat,
                  cells: seq<nat>)
    requires Kept(s, t, log, src, dst, num, stored, |cells|, 0)
    requires InCells(s, t, log, src, |log| - |cells|, stored - |cells|, cells, |cells|)
    ensures Storing(s, t, log, src, dst, num, stored, cells, None)
  {
  }

  lemma StoringPileIs(s: Position, t: Position, log: seq<Move>, src: nat, dst: nat, num: nat, stored: nat,
                      cells: seq<nat>, w: nat)
    requires Kept(s, t, log, src, dst, num, stored, |cells|, 1)
    requires InCells(s, t, log, src, |log| - 1 - |cells|, stored - 1 - |cells|, cells, |cells|)
    requires VacantFreecells(t) == 0 && w < |t.cols| && log[|log| - 1] == Move(Col(src), Col(w))
    requires t.cols[w] == [NthCard(s, src, stored - 1)]
    ensures Storing(s, t, log, src, dst, num, stored, cells, Some(w))
  {
  }

  lemma ToFreecell(s: Position, t: Position, log: seq<Move>, src: nat, dst: nat, num: nat, stored: nat,
                   cells: seq<nat>, fc: nat)
    requires Storing(s, t, log, src, dst, num, stored, cells, None) && stored + 1 < num
    requires fc < |t.cells| && t.cells[fc] == None
    ensures var m := Move(Col(src), Cell(fc));
            Legal(t, m) && Storing(s, Apply(t, m), log + [m], src, dst, num, stored + 1, cells + [fc], None)
  {
    assert Kept(s, t, log, src, dst, num, stored, |cells|, 0);
    FreecellKept(s, t, log, src, dst, num, stored, |cells|, fc);
    var m := Move(Col(src), Cell(fc));
    InCellsMore(s, t, Apply(t, m), log, src, |log| - |cells|, stored - |cells|, cells, fc);
    StoringIs(s, Apply(t, m), log + [m], src, dst, num, stored + 1, cells + [fc]);
  }

  lemma FreecellKept(s: Position, t: Position, log: seq<Move>, src: nat, dst: nat, num: nat, stored: nat,
                     inCells: nat, fc: nat)
    requires Kept(s, t, log, src, dst, num, stored, inCells, 0) && stored + 1 < num
    requires fc < |t.cells| && t.cells[fc] == None
    ensures var m := Move(Col(src), Cell(fc));
            && Legal(t, m) && Apply(t, m).cells == t.cells[fc := Some(NthCard(s, src, stored))]
            && Kept(s, Apply(t, m), log + [m], src, dst, num, stored + 1, inCells + 1, 0)
  {
    NthIsTop(s, t, log, src, dst, num);
    CellShape(t, src, fc, NthCard(s, src, stored));
    KeptOneMore(s, t, log, src, dst, num, stored, inCells, Move(Col(src), Cell(fc)), inCells + 1, 0);
  }

  lemma CellShape(t: Position, src: nat, fc: nat, card: Card)
    requires src < |t.cols| && |t.cols[src]| >= 2 && Last(t.cols[src]) == card && fc < |t.cells| && t.cells[fc] == None
    ensures var m := Move(Col(src), Cell(fc));
            && Legal(t, m) && Apply(t, m).cells == t.cells[fc := Some(card)]
            && VacantFreecells(Apply(t, m)) + 1 == VacantFreecells(t) && VacantStacks(Apply(t, m)) == VacantStacks(t)
  {
    var t' := Apply(t, Move(Col(src), Cell(fc)));
    VacantCellsUpdate(t.cells, |t.cells|, fc, t'.cells[fc]);
    VacantColsUpdate(t.cols, |t.cols|, |t.cols|, src, t'.cols[src]);
  }

  lemma InCellsMore(s: Position, t: Position, t': Position, log: seq<Move>, src: nat, base: nat, first: nat,
                    cells: seq<nat>, fc: nat)
    requires InCells(s, t, log, src, base, first, cells, |cells|) && first + |cells| < |s.cols[src]|
             && base + |cells| == |log|
    requires fc < |t.cells| && t.cells[fc] == None && t'.cells == t.cells[fc := Some(NthCard(s, src, first + |cells|))]
    ensures InCells(s, t', log + [Move(Col(src), Cell(fc))], src, base, first, cells + [fc], |cells| + 1)
  {
    var log', cells' := log + [Move(Col(src), Cell(fc))], cells + [fc];
    forall i | 0 <= i < |cells'| ensures LoggedAt(log', src, base, cells', i) && StillAt(s, t', src, first, cells', i) {
      if i < |cells| { assert LoggedAt(log, src, base, cells, i) && StillAt(s, t, src, first, cells, i); }
    }
    forall i, j | 0 <= i < j < |cells'| ensures Differ(cells', i, j) {
      assert StillAt(s, t, src, first, cells, i);
      assert j < |cells| ==> Differ(cells, i, j);
    }
  }

  lemma ToPile(s: Position, t: Position, log: seq<Move>, src: nat, dst: nat, num: nat, stored: nat, cells: seq<nat>,
               w: nat)
    requires Storing(s, t, log, src, dst, num, stored, cells, None) && stored + 1 < num
    requires VacantFreecells(t) == 0 && w < |t.cols| && t.cols[w] == []
    ensures var m := Move(Col(src), Col(w));
            Legal(t, m) && Storing(s, Apply(t, m), log + [m], src, dst, num, stored + 1, cells, Some(w))
  {
    assert Kept(s, t, log, src, dst, num, stored, |cells|, 0);
    PileKept(s, t, log, src, dst, num, stored, |cells|, w);
    var m := Move(Col(src), Col(w));
    SameCells(s, t, Apply(t, m), log, log + [m], src, |log| - |cells|, stored - |cells|, cells, |cells|);
    StoringPileIs(s, Apply(t, m), log + [m], src, dst, num, stored + 1, cells, w);
  }

  lemma PileKept(s: Position, t: Position, log: seq<Move>, src: nat, dst: nat, num: nat, stored: nat,
                 inCells: nat, w: nat)
    requires Kept(s, t, log, src, dst, num, stored, inCells, 0) && stored + 1 < num
    requires VacantFreecells(t) == 0 && w < |t.cols| && t.cols[w] == []
    ensures var m := Move(Col(src), Col(w));
            && Legal(t, m) && Apply(t, m).cells == t.cells && |Apply(t, m).cols| == |t.cols|
            && Apply(t, m).cols[w] == [NthCard(s, src, stored)] && VacantFreecells(Apply(t, m)) == 0
            && Kept(s, Apply(t, m), log + [m], src, dst, num, stored + 1, inCells, 1)
  {
    NthIsTop(s, t, log, src, dst, num);
    var m := Move(Col(src), Col(w));
    PileShape(t, src, w, NthCard(s, src, stored));
    PileCounted(s, t, Apply(t, m), stored, inCells);
    KeptOneMore(s, t, log, src, dst, num, stored, inCells, m, inCells, 1);
  }

  lemma PileShape(t: Position, src: nat, w: nat, card: Card)
    requires src < |t.cols| && |t.cols[src]| >= 2 && Last(t.cols[src]) == card && w < |t.cols| && t.cols[w] == []
    ensures var m := Move(Col(src), Col(w));
            && Legal(t, m) && Apply(t, m).cells == t.cells && |Apply(t, m).cols| == |t.cols|
            && Apply(t, m).cols[w] == [card]
            && VacantStacks(Apply(t, m)) + 1 == VacantStacks(t)
  {
    var t' := Apply(t, Move(Col(src), Col(w)));
    var popped := t.cols[src := t.cols[src][..|t.cols[src]| - 1]];
    VacantColsUpdate(t.cols, |t.cols|, |t.cols|, src, popped[src]);
    VacantColsUpdate(popped, |t.cols|, |t.cols|, w, t'.cols[w]);
    assert t'.cols[w] == [card];
  }

  // ---- Stacking the freecell cards on the pile ----

  // `log0` ends with the card that started the pile; the cards of the last freecells have gone onto it,
  // `left` are still in theirs, the k-th card being on top of the pile.
  ghost predicate Stacking(s: Position, t: Position, log0: seq<Move>, log: seq<Move>, src: nat, dst: nat, num: nat,
                           stored: nat,
                           cells: seq<nat>, w: nat, left: nat)
  {
    && left <= |cells| < stored && |cells| < |log0| && log0 <= log
    && forall k {:trigger OnPile(s, t, log0, log, src, dst, num, stored, |cells|, w, left, k)} ::
      k == stored - 1 - |cells| + left ==>
         && OnPile(s, t, log0, log, src, dst, num, stored, |cells|, w, left, k)
         && InCells(s, t, log0, src, |log0| - 1 - |cells|, stored - 1 - |cells|, cells, left)
  }

  ghost predicate OnPile(s: Position, t: Position, log0: seq<Move>, log: seq<Move>, src: nat, dst: nat, num: nat,
                         stored: nat,
                         inCells: nat, w: nat, left: nat, k: nat)
  {
    && BlockFits(s, src, dst, num) && s.cols[dst] != [] && stored < num && left <= inCells && k < stored
    && After(s, log) == Some(t) && AllLogged(log, src, dst) && Stored(log) == stored
    && log0 <= log && |log| == |log0| + inCells - left && |log0| + inCells + 1 <= 2 * stored
    && |log| > 0 && log[|log| - 1].dst == Col(w) && w != src && w != dst
    && VacantFreecells(t) + left == VacantFreecells(s) == inCells && VacantStacks(t) + 1 <= VacantStacks(s)
    && stored == PileCards(VacantStacks(s) - VacantStacks(t) - 1, VacantFreecells(s)) + inCells + 1
    && w < |t.cols| && t.cols[w] != [] && Last(t.cols[w]) == NthCard(s, src, k)
  }

  lemma StartStacking(s: Position, t: Position, log: seq<Move>, src: nat, dst: nat, num: nat, stored: nat,
                      cells: seq<nat>, w: nat)
    requires Storing(s, t, log, src, dst, num, stored, cells, Some(w))
    ensures Stacking(s, t, log, log, src, dst, num, stored, cells, w, |cells|)
  {
    assert Kept(s, t, log, src, dst, num, stored, |cells|, 1);
    assert IsLogged(log[|log| - 1], src, dst);
  }

  lemma StackOne(s: Position, t: Position, log0: seq<Move>, log: seq<Move>, src: nat, dst: nat, num: nat, stored: nat,
                 cells: seq<nat>, w: nat, left: nat)
    requires Stacking(s, t, log0, log, src, dst, num, stored, cells, w, left) && left > 0
    ensures log0[|log0| - 1 - |cells| + left - 1] == Move(Col(src), Cell(cells[left - 1]))
    ensures var m := Move(Cell(cells[left - 1]), Col(w));
            Legal(t, m) && Stacking(s, Apply(t, m), log0, log + [m], src, dst, num, stored, cells, w, left - 1)
  {
    var base, first, k := NextToStack(s, t, log0, log, src, dst, num, stored, cells, w, left);
    StackThis(s, t, log0, log, src, dst, num, stored, cells, |cells|, w, left, k, base, first, cells[left - 1]);
    var m := Move(Cell(cells[left - 1]), Col(w));
    StackingIs(s, Apply(t, m), log0, log + [m], src, dst, num, stored, cells, w, left - 1, base, first, k - 1);
  }

  lemma StackThis(s: Position, t: Position, log0: seq<Move>, log: seq<Move>, src: nat, dst: nat, num: nat, stored: nat,
                  cells: seq<nat>, inCells: nat, w: nat, left: nat, k: nat, base: nat, first: nat, fc: nat)
    requires OnPile(s, t, log0, log, src, dst, num, stored, inCells, w, left, k) && left > 0 && k > 0
    requires fc < |t.cells| && t.cells[fc] == Some(NthCard(s, src, k - 1))
    requires InCells(s, t, log0, src, base, first, cells, left) && fc == cells[left - 1]
    ensures var m := Move(Cell(fc), Col(w));
            && Legal(t, m) && OnPile(s, Apply(t, m), log0, log + [m], src, dst, num, stored, inCells, w, left - 1,
                                     k - 1)
            && InCells(s, Apply(t, m), log0, src, base, first, cells, left - 1)
  {
    OnPileOneMore(s, t, log0, log, src, dst, num, stored, inCells, w, left, k, fc);
    InCellsFewer(s, t, Apply(t, Move(Cell(fc), Col(w))), log0, src, base, first, cells, left);
  }

  // The freecell card that is stacked next.
  lemma NextToStack(s: Position, t: Position, log0: seq<Move>, log: seq<Move>, src: nat, dst: nat, num: nat,
                    stored: nat, cells: seq<nat>, w: nat, left: nat) returns (base: nat, first: nat, k: nat)
    requires Stacking(s, t, log0, log, src, dst, num, stored, cells, w, left) && left > 0
    ensures stored > |cells| >= left && |log0| > |cells| && log0 <= log
    ensures base == |log0| - 1 - |cells| && first == stored - 1 - |cells| && k == first + left
    ensures OnPile(s, t, log0, log, src, dst, num, stored, |cells|, w, left, k)
    ensures InCells(s, t, log0, src, base, first, cells, left)
    ensures log0[base + left - 1] == Move(Col(src), Cell(cells[left - 1]))
    ensures cells[left - 1] < |t.cells| && k <= |s.cols[src]|
            && t.cells[cells[left - 1]] == Some(NthCard(s, src, k - 1))
  {
    base, first := |log0| - 1 - |cells|, stored - 1 - |cells|;
    k := first + left;
    assert OnPile(s, t, log0, log, src, dst, num, stored, |cells|, w, left, k);
    assert LoggedAt(log0, src, base, cells, left - 1) && StillAt(s, t, src, first, cells, left - 1);
  }

  lemma StackingIs(s: Position, t: Position, log0: seq<Move>, log: seq<Move>, src: nat, dst: nat, num: nat,
                   stored: nat, cells: seq<nat>, w: nat, left: nat, base: nat, first: nat, k: nat)
    requires stored > |cells| >= left && |log0| > |cells| && log0 <= log
    requires base == |log0| - 1 - |cells| && first == stored - 1 - |cells| && k == first + left
    requires OnPile(s, t, log0, log, src, dst, num, stored, |cells|, w, left, k)
    requires InCells(s, t, log0, src, base, first, cells, left)
    ensures Stacking(s, t, log0, log, src, dst, num, stored, cells, w, left)
  {
  }

  lemma OnPileOneMore(s: Position, t: Position, log0: seq<Move>, log: seq<Move>, src: nat, dst: nat, num: nat,
                      stored: nat,
                      inCells: nat, w: nat, left: nat, k: nat, fc: nat)
    requires OnPile(s, t, log0, log, src, dst, num, stored, inCells, w, left, k) && left > 0 && k > 0
    requires fc < |t.cells| && t.cells[fc] == Some(NthCard(s, src, k - 1))
    ensures var m := Move(Cell(fc), Col(w));
            && Legal(t, m) && Apply(t, m).cells == t.cells[fc := None]
            && OnPile(s, Apply(t, m), log0, log + [m], src, dst, num, stored, inCells, w, left - 1, k - 1)
  {
    NthIsParent(s, src, dst, num, k);
    StackShape(t, fc, w, NthCard(s, src, k - 1));
    AfterOneMore(s, log, t, Move(Cell(fc), Col(w)));
    StoredOneMore(log, Move(Cell(fc), Col(w)));
  }

  lemma StackShape(t: Position, fc: nat, w: nat, card: Card)
    requires fc < |t.cells| && t.cells[fc] == Some(card) && w < |t.cols| && t.cols[w] != []
             && IsParent(card, Last(t.cols[w]))
    ensures var m := Move(Cell(fc), Col(w));
            && Legal(t, m) && Apply(t, m).cells == t.cells[fc := None]
            && |Apply(t, m).cols| == |t.cols| && Apply(t, m).cols[w] != [] && Last(Apply(t, m).cols[w]) == card
            && VacantFreecells(Apply(t, m)) == VacantFreecells(t) + 1 && VacantStacks(Apply(t, m)) == VacantStacks(t)
  {
    var t' := Apply(t, Move(Cell(fc), Col(w)));
    VacantCellsUpdate(t.cells, |t.cells|, fc, None);
    VacantColsUpdate(t.cols, |t.cols|, |t.cols|, w, t'.cols[w]);
  }

  lemma InCellsFewer(s: Position, t: Position, t': Position, log: seq<Move>, src: nat, base: nat, first: nat,
                     cells: seq<nat>, n: nat)
    requires InCells(s, t, log, src, base, first, cells, n) && n > 0
    requires cells[n - 1] < |t.cells| && t'.cells == t.cells[cells[n - 1] := None]
    ensures InCells(s, t', log, src, base, first, cells, n - 1)
  {
    forall i | 0 <= i < n - 1 ensures StillAt(s, t', src, first, cells, i) {
      assert StillAt(s, t, src, first, cells, i) && Differ(cells, i, n - 1);
    }
  }

  // The loop stops where it should: before the cards of this pile comes a move to a column.
  lemma StackingEnds(s: Position, t: Position, log0: seq<Move>, log: seq<Move>, src: nat, dst: nat, num: nat,
                     stored: nat,
                     cells: seq<nat>, w: nat)
    requires Stacking(s, t, log0, log, src, dst, num, stored, cells, w, 0)
    ensures |log0| >= |cells| + 2 ==> log0[|log0| - 2 - |cells|].dst.Col?
    ensures Storing(s, t, log, src, dst, num, stored, [], None)
  {
    assert OnPile(s, t, log0, log, src, dst, num, stored, |cells|, w, 0, stored - 1 - |cells|);
    PileDone(VacantStacks(s) - VacantStacks(t), VacantFreecells(s));
    assert Counted(s, t, stored, 0, 0);
    assert Kept(s, t, log, src, dst, num, stored, 0, 0);
    NothingInCells(s, t, log, src, dst, num, stored);
  }

  lemma NothingInCells(s: Position, t: Position, log: seq<Move>, src: nat, dst: nat, num: nat, stored: nat)
    requires Kept(s, t, log, src, dst, num, stored, 0, 0) && log != [] && log[|log| - 1].dst.Col?
    ensures Storing(s, t, log, src, dst, num, stored, [], None)
  {
    assert InCells(s, t, log, src, |log|, stored, [], 0);
  }

  lemma PileDone(c: nat, f: nat)
    requires c > 0
    ensures PileCards(c - 1, f) + f + 1 == PileCards(c, f)
  {
  }

  lemma StackAnother(s: Position, t: Position, log0: seq<Move>, log: seq<Move>, src: nat, dst: nat, num: nat,
                     stored: nat,
                     cells: seq<nat>, w: nat, left: nat)
    requires Stacking(s, t, log0, log, src, dst, num, stored, cells, w, left)
    requires |log0| >= |cells| + 2 - left && log0[|log0| - (|cells| + 2 - left)].dst.Cell?
    ensures left > 0
    ensures var m := Move(log0[|log0| - (|cells| + 2 - left)].dst, Col(w));
            && Legal(t, m) && Stacking(s, Apply(t, m), log0, log + [m], src, dst, num, stored, cells, w, left - 1)
            && |log| + 1 <= 2 * stored < 2 * num
  {
    assert OnPile(s, t, log0, log, src, dst, num, stored, |cells|, w, left, stored - 1 - |cells| + left);
    if left == 0 { StackingEnds(s, t, log0, log, src, dst, num, stored, cells, w); } else {
      StackOne(s, t, log0, log, src, dst, num, stored, cells, w, left);
    }
  }

  lemma StackingStops(s: Position, t: Position, log0: seq<Move>, log: seq<Move>, src: nat, dst: nat, num: nat,
                      stored: nat,
                      cells: seq<nat>, w: nat, left: nat, i: nat)
    requires Stacking(s, t, log0, log, src, dst, num, stored, cells, w, left) && i == |cells| + 2 - left
    requires |log0| < i || log0[|log0| - i].dst.Col?
    ensures Storing(s, t, log, src, dst, num, stored, [], None)
  {
    if left > 0 { StackOne(s, t, log0, log, src, dst, num, stored, cells, w, left); }
    StackingEnds(s, t, log0, log, src, dst, num, stored, cells, w);
  }

  // ---- What the code does, as functions of the position and the log ----

  datatype Snapshot = Snapshot(pos: Position, log: seq<Move>)

  function Logged(st: Snapshot, m: Move): Snapshot
    requires Legal(st.pos, m)
  {
    Snapshot(Apply(st.pos, m), st.log + [m])
  }

  // Stacks the freecell cards whose moves are logged at n - i, n - i - 1, ... onto column w.
  function StackAll(st: Snapshot, n: nat, i: nat, w: nat): Option<Snapshot>
    requires n <= |st.log| && i > 0
    decreases n - i
  {
    if n >= i && st.log[n - i].dst.Cell? then
      var m := Move(st.log[n - i].dst, Col(w));
      if Legal(st.pos, m) then StackAll(Logged(st, m), n, i + 1, w) else None
    else Some(st)
  }

  function Freed(st: Snapshot): Option<Snapshot> {
    if st.log != [] && st.log[|st.log| - 1].dst.Col? then StackAll(st, |st.log|, 2, st.log[|st.log| - 1].dst.i)
    else Some(st)
  }

  function FirstVacantCell(cells: seq<Option<Card>>, from: nat): (fc: nat)
    requires from <= |cells|
    ensures from <= fc <= |cells| && (fc < |cells| ==> cells[fc] == None) && forall j :: from <= j < fc ==>
              cells[j].Some?
    decreases |cells| - from
  {
    if from < |cells| && cells[from].Some? then FirstVacantCell(cells, from + 1) else from
  }

  function FirstVacantCol(cols: seq<Column>, from: nat): (w: nat)
    requires from <= |cols|
    ensures from <= w <= |cols| && (w < |cols| ==> cols[w] == []) && forall i :: from <= i < w ==> cols[i] != []
    decreases |cols| - from
  {
    if from < |cols| && cols[from] != [] then FirstVacantCol(cols, from + 1) else from
  }

  // Where the next card is stored, or Home if there is no place for it.
  function StoragePlace(pos: Position): Place {
    var fc, w := FirstVacantCell(pos.cells, 0), FirstVacantCol(pos.cols, 0);
    if fc < |pos.cells| then Cell(fc) else if w < |pos.cols| then Col(w) else Home
  }

  // Stores the last card of column src; None is the internal error.
  function StoreOne(st: Snapshot, src: nat): Option<Snapshot> {
    match Freed(st)
    case None => None
    case Some(freed) =>
      var m := Move(Col(src), StoragePlace(freed.pos));
      if m.dst != Home && Legal(freed.pos, m) then Some(Logged(freed, m)) else None
  }

  function StoreMany(st: Snapshot, src: nat, n: nat): Option<Snapshot> {
    if n == 0 then Some(st)
    else
      match StoreMany(st, src, n - 1)
      case None => None
      case Some(before) => StoreOne(before, src)
  }

  // Plays the logged moves backwards, the cards of the sequence going to column dst.
  function PlayOut(pos: Position, log: seq<Move>, dst: nat): Option<Position>
    decreases |log|
  {
    if log == [] then Some(pos)
    else
      var m := log[|log| - 1];
      var back := Move(m.dst, PlayedOutTo(m, dst));
      if Legal(pos, back) then PlayOut(Apply(pos, back), log[..|log| - 1], dst) else None
  }

  class Table {
    var pos: Position
    var storage: seq<Move>

    constructor (s: Position)
      ensures Now() == Snapshot(s, [])
    {
      pos, storage := s, [];
    }

    function Now(): Snapshot
      reads this
    {
      Snapshot(pos, storage)
    }

    method MoveCard(m: Move)
      requires Legal(pos, m)
      modifies this`pos
      ensures pos == Apply(old(pos), m)
    {
      var card := Exposed(pos, m.src).value;
      pos := Take(pos, m.src);
      pos := Put(pos, m.dst, card);
    }

    // Finds an empty freecell or column and stores the last card of the column in it.
    method StoreCard(src: nat) returns (ok: bool)
      requires Freed(Now()).Some? && Exposed(Freed(Now()).value.pos, Col(src)).Some?
      modifies this
      ensures ok <==> StoreOne(old(Now()), src).Some?
      ensures ok ==> Now() == StoreOne(old(Now()), src).value
    {
      ghost var st0 := Now();
      if storage != [] && storage[|storage| - 1].dst.Col? {
        var w := storage[|storage| - 1].dst.i;
        var n, i := |storage|, 2;
        while n - i >= 0 && storage[n - i].dst.Cell?
          invariant n <= |storage| && i > 0 && StackAll(Now(), n, i, w) == Freed(st0)
          decreases n - i
        {
          var m := Move(storage[n - i].dst, Col(w));
          MoveCard(m);
          storage := storage + [m];
          i := i + 1;
        }
      }
      assert Freed(st0) == Some(Now());
      var to := FindStorage();
      if to == Home { return false; }
      MoveCard(Move(Col(src), to));
      storage := storage + [Move(Col(src), to)];
      ok := true;
    }

    // The first empty freecell, else the first empty column.
    method FindStorage() returns (to: Place)
      ensures to == StoragePlace(pos)
    {
      for fc := 0 to |pos.cells|
        invariant FirstVacantCell(pos.cells, fc) == FirstVacantCell(pos.cells, 0)
      {
        if pos.cells[fc] == None { return Cell(fc); }
      }
      for w := 0 to |pos.cols|
        invariant FirstVacantCol(pos.cols, w) == FirstVacantCol(pos.cols, 0)
      {
        if pos.cols[w] == [] { return Col(w); }
      }
      to := Home;
    }

    // Plays the stored cards out backwards.
    method UnstoreCards(dst: nat)
      requires PlayOut(pos, storage, dst).Some?
      modifies this
      ensures Some(pos) == PlayOut(old(pos), old(storage), dst) && storage == old(storage)
    {
      ghost var start := pos;
      assert storage[..|storage|] == storage;
      for i := |storage| downto 0
        invariant storage == old(storage)
        invariant PlayOut(pos, storage[..i], dst) == PlayOut(start, storage, dst)
      {
        assert storage[..i + 1][..i] == storage[..i];
        MoveCard(Move(storage[i].dst, PlayedOutTo(storage[i], dst)));
      }
    }

    method StoreSequence(src: nat, num: nat, ghost dst: nat, ghost s: Position)
      requires Now() == Snapshot(s, []) && CanMoveByHand(s, src, dst, num) && s.cols[dst] != []
      modifies this
      ensures StoreMany(Snapshot(s, []), src, num - 1) == Some(Now())
    {
      for j := 0 to num - 1
        invariant StoreMany(Snapshot(s, []), src, j) == Some(Now())
      {
        StoresNext(s, src, dst, num, j);
        var ok := StoreCard(src);
        assert ok;
      }
    }

    // Stores all cards of the sequence but the last, moves that one, and plays the others out.
    method MoveSequence(src: nat, dst: nat, num: nat)
      requires CanMoveByHand(pos, src, dst, num) && pos.cols[dst] != []
      modifies this
      ensures pos == MoveBlock(old(pos), src, dst, num)
    {
      StoreAllOk(pos, src, dst, num);
      storage := [];
      StoreSequence(src, num, dst, pos);
      MoveCard(Move(Col(src), Col(dst)));
      UnstoreCards(dst);
    }

    method MoveColToFullCol(src: nat, dst: nat) returns (moved: bool)
      requires src < |pos.cols| && dst < |pos.cols| && src != dst && pos.cols[dst] != []
      modifies this
      ensures moved <==> exists num: nat :: CanMoveByHand(old(pos), src, dst, num)
      ensures moved ==>
                exists num: nat :: CanMoveByHand(old(pos), src, dst, num) && pos == MoveBlock(old(pos), src, dst, num)
      ensures !moved ==> pos == old(pos)
    {
      HandCapacityIs(pos);
      var k := HandCapacity(pos);
      var col, top := pos.cols[src], Last(pos.cols[dst]);
      for i := 0 to k
        invariant pos == old(pos) && i <= |col| && IsRunOfCards(col[|col| - i..])
        invariant forall num: nat :: CanMoveByHand(pos, src, dst, num) ==> num > i
      {
        if i >= |col| || (i > 0 && !IsParent(col[|col| - i], col[|col| - 1 - i])) {
          NoLonger(pos, src, dst, i);
          return false;
        }
        LongerRun(col, i);
        if IsParent(col[|col| - 1 - i], top) {
          assert CanMoveByHand(pos, src, dst, i + 1);
          MoveSequence(src, dst, i + 1);
          return true;
        }
      }
      moved := false;
    }
  }

  // A run of cards that fits the destination, with room for a pile on each vacant column.
  ghost predicate CanMoveByHand(s: Position, src: nat, dst: nat, num: nat) {
    BlockFits(s, src, dst, num) && num <= (|VacantCellSet(s)| + 1) * (|EmptyColumnSet(s)| + 1)
  }

  lemma HandCapacityIs(s: Position)
    ensures HandCapacity(s) == (|VacantCellSet(s)| + 1) * (|EmptyColumnSet(s)| + 1)
  {
    VacantPlacesAre(s);
  }

  lemma LongerRun(col: Column, i: nat)
    requires i < |col| && IsRunOfCards(col[|col| - i..]) && (i > 0 ==> IsParent(col[|col| - i], col[|col| - 1 - i]))
    ensures IsRunOfCards(col[|col| - 1 - i..])
  {
    var rest, run := col[|col| - i..], col[|col| - 1 - i..];
    forall k | 0 < k < |run| ensures IsParent(run[k], run[k - 1]) {
      if k > 1 { assert IsParent(rest[k - 1], rest[k - 2]); }
    }
  }

  lemma NoLonger(s: Position, src: nat, dst: nat, i: nat)
    requires src < |s.cols| && i <= |s.cols[src]|
    requires var col := s.cols[src]; i >= |col| || (i > 0 && !IsParent(col[|col| - i], col[|col| - 1 - i]))
    ensures forall num: nat :: CanMoveByHand(s, src, dst, num) ==> num <= i
  {
    var col := s.cols[src];
    forall num: nat | CanMoveByHand(s, src, dst, num) ensures num <= i {
      if num > i {
        NthIsParent(s, src, dst, num, i);
        assert false;
      }
    }
  }

  // ---- Storing never fails, and playing out gives the moved sequence ----

  // After a card is stored the log does not end with a stacked card.
  predicate BetweenCalls(log: seq<Move>, cells: seq<nat>, pile: Option<nat>) {
    pile == None && cells == [] ==> log == []
  }

  lemma StoresNothing(s: Position, src: nat, dst: nat, num: nat)
    requires BlockFits(s, src, dst, num) && s.cols[dst] != []
    ensures Storing(s, s, [], src, dst, num, 0, [], None)
  {
    assert After(s, []) == Some(s) && AllLogged([], src, dst) && Stored([]) == 0;
    assert PileCards(0, VacantFreecells(s)) == 0;
    assert Counted(s, s, 0, 0, 0);
    assert Kept(s, s, [], src, dst, num, 0, 0, 0);
    assert InCells(s, s, [], src, 0, 0, [], 0);
    StoringIs(s, s, [], src, dst, num, 0, []);
  }

  lemma {:induction false} StackAllOk(s: Position, log0: seq<Move>, st: Snapshot, src: nat, dst: nat, num: nat,
                                      stored: nat,
                                      cells: seq<nat>, w: nat, left: nat, i: nat)
    requires Stacking(s, st.pos, log0, st.log, src, dst, num, stored, cells, w, left) && i == |cells| + 2 - left
    ensures |log0| <= |st.log| && StackAll(st, |log0|, i, w).Some?
    ensures var st' := StackAll(st, |log0|, i, w).value; Storing(s, st'.pos, st'.log, src, dst, num, stored, [], None)
    decreases left
  {
    NeverHome(s, st, src, dst, num, stored, cells, w, left, log0, i);
    if |log0| >= i && log0[|log0| - i].dst.Cell? {
      StackAnother(s, st.pos, log0, st.log, src, dst, num, stored, cells, w, left);
      StackAllOk(s, log0, Logged(st, Move(log0[|log0| - i].dst, Col(w))), src, dst, num, stored, cells, w, left - 1,
                 i + 1);
    } else {
      StackingStops(s, st.pos, log0, st.log, src, dst, num, stored, cells, w, left, i);
    }
  }

  lemma NeverHome(s: Position, st: Snapshot, src: nat, dst: nat, num: nat, stored: nat, cells: seq<nat>, w: nat,
                  left: nat,
                  log0: seq<Move>, i: nat)
    requires Stacking(s, st.pos, log0, st.log, src, dst, num, stored, cells, w, left) && i == |cells| + 2 - left
    ensures |log0| <= |st.log|
    ensures |log0| >= i ==> log0[|log0| - i].dst != Home && st.log[|log0| - i] == log0[|log0| - i]
  {
    assert OnPile(s, st.pos, log0, st.log, src, dst, num, stored, |cells|, w, left, stored - 1 - |cells| + left);
    if |log0| >= i { assert IsLogged(st.log[|log0| - i], src, dst); }
  }

  lemma FreedOk(s: Position, st: Snapshot, src: nat, dst: nat, num: nat, stored: nat, cells: seq<nat>,
                pile: Option<nat>)
    requires Storing(s, st.pos, st.log, src, dst, num, stored, cells, pile) && BetweenCalls(st.log, cells, pile)
    ensures Freed(st).Some?
    ensures var freed := Freed(st).value;
            Storing(s, freed.pos, freed.log, src, dst, num, stored, if pile.Some? then [] else cells, None)
  {
    assert Kept(s, st.pos, st.log, src, dst, num, stored, |cells|, Piles(pile));
    if pile.Some? {
      StartStacking(s, st.pos, st.log, src, dst, num, stored, cells, pile.value);
      StackAllOk(s, st.log, st, src, dst, num, stored, cells, pile.value, |cells|, 2);
    } else if cells != [] {
      assert LoggedAt(st.log, src, |st.log| - |cells|, cells, |cells| - 1);
    }
  }

  // No card that still has to be stored ever fails to find a place.
  lemma StoreOneOk(s: Position, st: Snapshot, src: nat, dst: nat, num: nat, stored: nat, cells: seq<nat>,
                   pile: Option<nat>)
    returns (cells': seq<nat>, pile': Option<nat>)
    requires Storing(s, st.pos, st.log, src, dst, num, stored, cells, pile) && BetweenCalls(st.log, cells, pile)
    requires stored + 1 < num && stored + 1 < HandCapacity(s)
    ensures Freed(st).Some? && Exposed(Freed(st).value.pos, Col(src)).Some? && StoreOne(st, src).Some?
    ensures var st' := StoreOne(st, src).value;
            Storing(s, st'.pos, st'.log, src, dst, num, stored + 1, cells', pile')
              && BetweenCalls(st'.log, cells', pile')
  {
    FreedOk(s, st, src, dst, num, stored, cells, pile);
    cells', pile' := StoreFreed(s, Freed(st).value, src, dst, num, stored, if pile.Some? then [] else cells);
  }

  lemma StoreFreed(s: Position, st: Snapshot, src: nat, dst: nat, num: nat, stored: nat, cells: seq<nat>)
    returns (cells': seq<nat>, pile': Option<nat>)
    requires Storing(s, st.pos, st.log, src, dst, num, stored, cells, None)
    requires stored + 1 < num && stored + 1 < HandCapacity(s)
    ensures var m := Move(Col(src), StoragePlace(st.pos));
            && m.dst != Home && Legal(st.pos, m)
            && Storing(s, Apply(st.pos, m), st.log + [m], src, dst, num, stored + 1, cells', pile')
            && BetweenCalls(st.log + [m], cells', pile')
  {
    var pos := st.pos;
    assert Kept(s, pos, st.log, src, dst, num, stored, |cells|, 0);
    var fc, w := FirstVacantCell(pos.cells, 0), FirstVacantCol(pos.cols, 0);
    if fc < |pos.cells| {
      cells', pile' := cells + [fc], None;
      ToFreecell(s, pos, st.log, src, dst, num, stored, cells, fc);
    } else {
      NoVacantCell(pos.cells, |pos.cells|);
      PileFound(s, pos, stored, |cells|, num, w);
      cells', pile' := cells, Some(w);
      ToPile(s, pos, st.log, src, dst, num, stored, cells, w);
    }
  }

  // With all freecells and columns full, all that can be stored is stored.
  lemma PileFound(s: Position, t: Position, stored: nat, inCells: nat, num: nat, w: nat)
    requires Counted(s, t, stored, inCells, 0) && VacantFreecells(t) == 0 && w == FirstVacantCol(t.cols, 0)
    requires stored + 1 < num && stored + 1 < HandCapacity(s)
    ensures w < |t.cols|
  {
    if w == |t.cols| {
      NoVacantCol(t.cols, |t.cols|);
      FullHouse(VacantFreecells(s), VacantStacks(s));
      assert false;
    }
  }

  lemma {:induction false} FullHouse(f: nat, c: nat)
    ensures PileCards(c, f) + f + 1 == (f + 1) * (c + 1)
  {
    if c == 0 {
    } else {
      FullHouse(f, c - 1);
      assert (f + 1) * (c + 1) == (f + 1) * c + (f + 1);
    }
  }

  lemma StoreManyNext(st: Snapshot, src: nat, n: nat, before: Snapshot)
    requires n > 0 && StoreMany(st, src, n - 1) == Some(before)
    ensures StoreMany(st, src, n) == StoreOne(before, src)
  {
  }

  // The state after n cards have been stored, with the places that hold them.
  ghost predicate StoredSoFar(s: Position, st: Snapshot, src: nat, dst: nat, num: nat, n: nat, cells: seq<nat>,
                              pile: Option<nat>) {
    Storing(s, st.pos, st.log, src, dst, num, n, cells, pile) && BetweenCalls(st.log, cells, pile)
  }

  lemma {:induction false} StoreManyOk(s: Position, src: nat, dst: nat, num: nat, n: nat)
    returns (st: Snapshot, cells: seq<nat>, pile: Option<nat>)
    requires BlockFits(s, src, dst, num) && s.cols[dst] != []
    requires n < num && n < HandCapacity(s)
    ensures StoreMany(Snapshot(s, []), src, n) == Some(st)
    ensures StoredSoFar(s, st, src, dst, num, n, cells, pile)
  {
    var start := Snapshot(s, []);
    StoresNothing(s, src, dst, num);
    st, cells, pile := StoreManyFrom(s, start, src, dst, num, n);
  }

  lemma {:induction false} StoreManyFrom(s: Position, start: Snapshot, src: nat, dst: nat, num: nat, n: nat)
    returns (st: Snapshot, cells: seq<nat>, pile: Option<nat>)
    requires StoredSoFar(s, start, src, dst, num, 0, [], None)
    requires n < num && n < HandCapacity(s)
    ensures StoreMany(start, src, n) == Some(st)
    ensures StoredSoFar(s, st, src, dst, num, n, cells, pile)
    decreases n
  {
    if n == 0 {
      st, cells, pile := start, [], None;
    } else {
      var before, cells0, pile0 := StoreManyFrom(s, start, src, dst, num, n - 1);
      StoreManyNext(start, src, n, before);
      st, cells, pile := StoredNext(s, before, src, dst, num, n - 1, cells0, pile0);
    }
  }

  lemma StoredNext(s: Position, before: Snapshot, src: nat, dst: nat, num: nat, stored: nat, cells0: seq<nat>,
                   pile0: Option<nat>)
    returns (st: Snapshot, cells: seq<nat>, pile: Option<nat>)
    requires StoredSoFar(s, before, src, dst, num, stored, cells0, pile0)
    requires stored + 1 < num && stored + 1 < HandCapacity(s)
    ensures StoreOne(before, src) == Some(st) && StoredSoFar(s, st, src, dst, num, stored + 1, cells, pile)
  {
    cells, pile := StoreOneOk(s, before, src, dst, num, stored, cells0, pile0);
    st := StoreOne(before, src).value;
  }

  lemma StoresNext(s: Position, src: nat, dst: nat, num: nat, n: nat)
    requires CanMoveByHand(s, src, dst, num) && s.cols[dst] != [] && n + 1 < num
    ensures StoreMany(Snapshot(s, []), src, n).Some?
    ensures var st := StoreMany(Snapshot(s, []), src, n).value;
            && Freed(st).Some? && Exposed(Freed(st).value.pos, Col(src)).Some? && StoreOne(st, src).Some?
            && StoreMany(Snapshot(s, []), src, n + 1) == StoreOne(st, src)
  {
    HandCapacityIs(s);
    var st, cells, pile := StoreManyOk(s, src, dst, num, n);
    var cells', pile' := StoreOneOk(s, st, src, dst, num, n, cells, pile);
  }

  // The capacity suffices: all cards but the last are stored, that one moves, and playing out ends with
  // the sequence on the destination and everything else as it was.
  lemma StoreAllOk(s: Position, src: nat, dst: nat, num: nat)
    requires CanMoveByHand(s, src, dst, num) && s.cols[dst] != []
    ensures StoreMany(Snapshot(s, []), src, num - 1).Some?
    ensures var st := StoreMany(Snapshot(s, []), src, num - 1).value;
            && Legal(st.pos, Move(Col(src), Col(dst))) && |st.log| < NUM_STORAGE
            && PlayOut(Apply(st.pos, Move(Col(src), Col(dst))), st.log, dst) == Some(MoveBlock(s, src, dst, num))
  {
    HandCapacityIs(s);
    var st, cells, pile := StoreManyOk(s, src, dst, num, num - 1);
    LastCardGoes(s, st, src, dst, num, cells, pile);
    LogFits(s, st.pos, st.log, src, dst, num, num - 1, cells, pile);
  }

  // ---- One card more cannot be stored ----

  lemma {:induction false} PilesGrow(c: nat, v: nat, f: nat)
    requires v <= c
    ensures v > 0 ==> PileCards(c - v, f) + f + 1 <= PileCards(c, f)
    ensures PileCards(c - v, f) <= PileCards(c, f)
  {
    if v > 0 {
      PilesGrow(c - 1, v - 1, f);
    }
  }

  // When all but one of the cards within the capacity are stored, no place is left.
  lemma HouseIsFull(s: Position, t: Position, stored: nat, inCells: nat)
    requires Counted(s, t, stored, inCells, 0) && stored + 1 == HandCapacity(s)
    ensures VacantFreecells(t) == 0 && VacantStacks(t) == 0
  {
    PilesGrow(VacantStacks(s), VacantStacks(t), VacantFreecells(s));
    FullHouse(VacantFreecells(s), VacantStacks(s));
  }

  lemma NoPlaceLeft(t: Position)
    requires VacantFreecells(t) == 0 && VacantStacks(t) == 0
    ensures StoragePlace(t) == Home
  {
    VacantPlacesAre(t);
    assert forall j: nat :: j < |t.cells| && t.cells[j] == None ==> j in VacantCellSet(t);
    assert forall i: nat :: i < |t.cols| && t.cols[i] == [] ==> i in EmptyColumnSet(t);
  }

  lemma NoRoomForNext(s: Position, st: Snapshot, src: nat, dst: nat, num: nat, stored: nat, cells: seq<nat>,
                      pile: Option<nat>)
    requires StoredSoFar(s, st, src, dst, num, stored, cells, pile) && stored + 1 == HandCapacity(s)
    ensures StoreOne(st, src) == None
  {
    FreedOk(s, st, src, dst, num, stored, cells, pile);
    FullAfter(s, Freed(st).value, src, dst, num, stored, if pile.Some? then [] else cells);
  }

  lemma FullAfter(s: Position, st: Snapshot, src: nat, dst: nat, num: nat, stored: nat, cells: seq<nat>)
    requires Storing(s, st.pos, st.log, src, dst, num, stored, cells, None) && stored + 1 == HandCapacity(s)
    ensures StoragePlace(st.pos) == Home
  {
    assert Kept(s, st.pos, st.log, src, dst, num, stored, |cells|, 0);
    HouseIsFull(s, st.pos, stored, |cells|);
    NoPlaceLeft(st.pos);
  }

  lemma OneMoreFails(s: Position, start: Snapshot, src: nat, dst: nat, num: nat, n: nat)
    requires StoredSoFar(s, start, src, dst, num, 0, [], None) && n + 1 == HandCapacity(s) < num
    ensures StoreMany(start, src, n + 1) == None
  {
    var st, cells, pile := StoreManyFrom(s, start, src, dst, num, n);
    NoRoomForNext(s, st, src, dst, num, n, cells, pile);
    StoreManyNext(start, src, n + 1, st);
  }

  lemma {:induction false} StaysFailed(st: Snapshot, src: nat, n: nat, m: nat)
    requires n <= m && StoreMany(st, src, n) == None
    ensures StoreMany(st, src, m) == None
    decreases m
  {
    if n < m { StaysFailed(st, src, n, m - 1); }
  }

  // The capacity is exact: all cards but the last can be stored if and only if there are no more of them
  // than a run on each empty column and one to go directly.
  lemma StoringNeeds(s: Position, src: nat, dst: nat, num: nat)
    requires BlockFits(s, src, dst, num) && s.cols[dst] != []
    ensures StoreMany(Snapshot(s, []), src, num - 1).Some?
       <==> num <= (|VacantCellSet(s)| + 1) * (|EmptyColumnSet(s)| + 1)
  {
    HandCapacityIs(s);
    if num <= HandCapacity(s) {
      var st, cells, pile := StoreManyOk(s, src, dst, num, num - 1);
    } else {
      FullHouse(VacantFreecells(s), VacantStacks(s));
      StoresNothing(s, src, dst, num);
      OneMoreFails(s, Snapshot(s, []), src, dst, num, HandCapacity(s) - 1);
      StaysFailed(Snapshot(s, []), src, HandCapacity(s), num - 1);
    }
  }

  lemma LastCardGoes(s: Position, st: Snapshot, src: nat, dst: nat, num: nat, cells: seq<nat>, pile: Option<nat>)
    requires BlockFits(s, src, dst, num) && Storing(s, st.pos, st.log, src, dst, num, num - 1, cells, pile)
    ensures Legal(st.pos, Move(Col(src), Col(dst)))
    ensures PlayOut(Apply(st.pos, Move(Col(src), Col(dst))), st.log, dst) == Some(MoveBlock(s, src, dst, num))
  {
    assert Kept(s, st.pos, st.log, src, dst, num, num - 1, |cells|, Piles(pile));
    assert st.log[..|st.log|] == st.log;
    PlayOutHolds(s, st.log, |st.log|, src, dst, num);
    OneCardBlock(st.pos, src, dst);
    PlayOutAll(s, st.log, |st.log|, src, dst, num, st.pos, Apply(st.pos, Move(Col(src), Col(dst))));
  }

  lemma OneCardBlock(t: Position, src: nat, dst: nat)
    requires BlockFits(t, src, dst, 1)
    ensures Legal(t, Move(Col(src), Col(dst))) && MoveBlock(t, src, dst, 1) == Apply(t, Move(Col(src), Col(dst)))
  {
    var col := t.cols[src];
    assert col == col[..|col| - 1] + [Last(col)] && col[|col| - 1..] == [Last(col)];
    BlockIs(t, src, dst, col[..|col| - 1], [Last(col)]);
    SameAs(MoveBlock(t, src, dst, 1), Apply(t, Move(Col(src), Col(dst))));
  }

  lemma {:induction false} PlayOutAll(s: Position, log: seq<Move>, i: nat, src: nat, dst: nat, num: nat, t: Position,
                                      q: Position)
    requires After(s, log).Some? && AllLogged(log, src, dst) && BlockFits(s, src, dst, num) && Stored(log) < num
    requires i <= |log| && TakenBack(s, log, i, src, dst, num, t, q)
    ensures PlayOut(q, log[..i], dst) == Some(MoveBlock(s, src, dst, num))
    decreases i
  {
    if i == 0 {
      assert log[..0] == [];
    } else {
      var before := PlayOutStep(s, log, i, src, dst, num, t, q);
      var back := Move(log[i - 1].dst, PlayedOutTo(log[i - 1], dst));
      PlayOutAll(s, log, i - 1, src, dst, num, before, Apply(q, back));
      PlayOutUnfolds(log, i, dst, q);
    }
  }

  lemma PlayOutUnfolds(log: seq<Move>, i: nat, dst: nat, q: Position)
    requires 0 < i <= |log|
    ensures var back := Move(log[i - 1].dst, PlayedOutTo(log[i - 1], dst));
            Legal(q, back) ==> PlayOut(q, log[..i], dst) == PlayOut(Apply(q, back), log[..i - 1], dst)
  {
    assert log[..i][..i - 1] == log[..i - 1];
  }

  // The log never outgrows its buffer.
  lemma LogFits(s: Position, t: Position, log: seq<Move>, src: nat, dst: nat, num: nat, stored: nat, cells: seq<nat>,
                pile: Option<nat>)
    requires Storing(s, t, log, src, dst, num, stored, cells, pile)
    ensures |log| <= 24 < NUM_STORAGE
  {
    assert Kept(s, t, log, src, dst, num, stored, |cells|, Piles(pile));
    RunIsShort(s.cols[src][|s.cols[src]| - num..]);
  }
}
