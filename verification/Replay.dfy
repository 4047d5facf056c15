/**
 The FC-Pro replay: a solution found without automatic moves is rewritten for a game in which safe
 cards go up by themselves before every move.
 */
module Replay {
  import opened Cards
  import opened Positions
  import opened HornePrune
  import opened Boards
  import opened Numbers
  import opened Sequences

  // ---- The leading position can carry at least as much ----

  lemma {:induction false} MoreVacantCells(lead: seq<Option<Card>>, virt: seq<Option<Card>>, n: nat)
    requires |lead| == |virt| && n <= |lead| && forall j :: 0 <= j < |lead| && virt[j] == None ==> lead[j] == None
    ensures VacantCells(lead, n) >= VacantCells(virt, n)
  {
    if n == 0 {
    } else {
      MoreVacantCells(lead, virt, n - 1);
    }
  }

  lemma {:induction false} MoreVacantCols(lead: seq<Column>, virt: seq<Column>, dst: nat, n: nat)
    requires |lead| == |virt| && n <= |lead| && forall i :: 0 <= i < |lead| && virt[i] == [] ==> lead[i] == []
    ensures VacantCols(lead, dst, n) >= VacantCols(virt, dst, n)
  {
    if n == 0 {
    } else {
      MoreVacantCols(lead, virt, dst, n - 1);
    }
  }

  lemma AheadCarriesMore(slack: nat, lead: Position, virt: Position, dst: nat)
    requires Ahead(slack, lead, virt)
    ensures Capacity(lead, dst) >= Capacity(virt, dst)
  {
    forall i | 0 <= i < |virt.cols| && virt.cols[i] == [] ensures lead.cols[i] == [] {
      assert lead.cols[i] <= virt.cols[i];
    }
    MoreVacantCells(lead.cells, virt.cells, |lead.cells|);
    MoreVacantCols(lead.cols, virt.cols, dst, |lead.cols|);
    Pow2Monotone(VacantCols(lead.cols, dst, |lead.cols|), VacantCols(virt.cols, dst, |virt.cols|));
    TimesMonotone(VacantCells(lead.cells, |lead.cells|) + 1, VacantCells(virt.cells, |virt.cells|) + 1,
            Pow2(VacantCols(lead.cols, dst, |lead.cols|)), Pow2(VacantCols(virt.cols, dst, |virt.cols|)));
  }

  // ---- Following a sequence ----

  // How many cards of the sequence are still in play in the leading position.
  function Visible(lead: Position, virt: Position, m: SolverMove): nat
    requires m.ColToCol? && m.src < |lead.cols| && |lead.cols| == |virt.cols|
  {
    var hidden := |virt.cols[m.src]| - |lead.cols[m.src]|;
    if hidden >= m.num || hidden < 0 then 0 else m.num - hidden
  }

  // The visible part of a sequence moves; the hidden part is home already.
  function BlockAnswer(lead: Position, virt: Position, m: SolverMove): Position
    requires m.ColToCol? && CanPlay(virt, m) && |lead.cols| == |virt.cols|
  {
    var k := Visible(lead, virt, m);
    if k > 0 && BlockFits(lead, m.src, m.dst, k) then MoveBlock(lead, m.src, m.dst, k) else lead
  }

  lemma VisibleBlockFits(lead: Position, virt: Position, m: SolverMove)
    requires FullDeck(lead) && FullDeck(virt) && Ahead(FC_PRO_SLACK, lead, virt)
    requires m.ColToCol? && CanPlay(virt, m) && Visible(lead, virt, m) > 0
    ensures lead.cols[m.dst] == virt.cols[m.dst] && BlockFits(lead, m.src, m.dst, Visible(lead, virt, m))
  {
    var k, l, v := Visible(lead, virt, m), lead.cols[m.src], virt.cols[m.src];
    assert l <= v && HiddenHome(lead.found, v, |l|);
    var from := |v| - m.num;
    assert |l| - k == from;
    var c := v[from];
    assert l[from] == c;
    InPlayNotHome(lead, m.src, from);
    DestinationIsVisible(lead, virt, c, m.dst);
    assert l[from..] <= v[from..];
    RunPrefix(l[from..], v[from..]);
  }

  // With slack 1 a card in play never goes on a hidden card.
  lemma DestinationIsVisible(lead: Position, virt: Position, c: Card, dst: nat)
    requires FullDeck(virt) && Ahead(FC_PRO_SLACK, lead, virt) && dst < |virt.cols|
    requires lead.found[c.suit] < c.rank
    requires virt.cols[dst] == [] || IsParent(c, Last(virt.cols[dst]))
    ensures lead.cols[dst] == virt.cols[dst]
  {
    var l, v := lead.cols[dst], virt.cols[dst];
    assert l <= v && HiddenHome(lead.found, v, |l|);
    if |l| < |v| {
      InPlayNotHome(virt, dst, |v| - 1);
      ParentHomeLetsUp(FC_PRO_SLACK, lead.found, c, Last(v));
    }
  }

  lemma BlockAnswerKeepsAhead(lead: Position, virt: Position, m: SolverMove)
    requires FullDeck(lead) && FullDeck(virt) && Ahead(FC_PRO_SLACK, lead, virt) && m.ColToCol? && CanPlay(virt, m)
    ensures Ahead(FC_PRO_SLACK, BlockAnswer(lead, virt, m), Play(virt, m))
  {
    assert lead.cols[m.src] <= virt.cols[m.src];
    if Visible(lead, virt, m) > 0 { VisibleBlockGoes(lead, virt, m); } else { HiddenBlockStays(lead, virt, m); }
  }

  lemma VisibleBlockGoes(lead: Position, virt: Position, m: SolverMove)
    requires FullDeck(lead) && FullDeck(virt) && Ahead(FC_PRO_SLACK, lead, virt) && m.ColToCol? && CanPlay(virt, m)
    requires Visible(lead, virt, m) > 0
    ensures Ahead(FC_PRO_SLACK, BlockAnswer(lead, virt, m), Play(virt, m))
  {
    VisibleBlockFits(lead, virt, m);
    var l, v := lead.cols[m.src], virt.cols[m.src];
    assert l <= v;
    var from := |v| - m.num;
    var kept, shown, block := v[..from], l[from..], v[from..];
    assert v == kept + block && l == kept + shown && shown <= block;
    PartGoes(lead, virt, m.src, m.dst, kept, shown, block);
  }

  lemma PartGoes(lead: Position, virt: Position, src: nat, dst: nat, kept: Column, shown: Column, block: Column)
    requires Ahead(FC_PRO_SLACK, lead, virt) && src < |virt.cols| && dst < |virt.cols| && src != dst
    requires virt.cols[src] == kept + block && lead.cols[src] == kept + shown
    requires shown != [] && shown <= block && IsRunOfCards(block) && lead.cols[dst] == virt.cols[dst]
    requires virt.cols[dst] == [] || IsParent(block[0], Last(virt.cols[dst]))
    ensures BlockFits(lead, src, dst, |shown|) && BlockFits(virt, src, dst, |block|)
    ensures Ahead(FC_PRO_SLACK, MoveBlock(lead, src, dst, |shown|), MoveBlock(virt, src, dst, |block|))
  {
    RunPrefix(shown, block);
    BlockIs(virt, src, dst, kept, block);
    BlockIs(lead, src, dst, kept, shown);
    SplitBlock(lead, virt, MoveBlock(lead, src, dst, |shown|), MoveBlock(virt, src, dst, |block|), src, dst, kept,
               shown, block);
  }

  lemma HiddenBlockStays(lead: Position, virt: Position, m: SolverMove)
    requires Ahead(FC_PRO_SLACK, lead, virt) && m.ColToCol? && CanPlay(virt, m)
    requires Visible(lead, virt, m) == 0 && lead.cols[m.src] <= virt.cols[m.src]
    ensures Ahead(FC_PRO_SLACK, lead, Play(virt, m))
  {
    var v := virt.cols[m.src];
    var from := |v| - m.num;
    assert v == v[..from] + v[from..];
    BlockIs(virt, m.src, m.dst, v[..from], v[from..]);
    HiddenBlock(lead, virt, Play(virt, m), m.src, m.dst, v[..from], v[from..]);
  }

  lemma RunPrefix(a: Column, b: Column)
    requires a <= b && IsRunOfCards(b)
    ensures IsRunOfCards(a)
  {
    forall k | 0 < k < |a| ensures IsParent(a[k], a[k - 1]) { assert a[k] == b[k] && a[k - 1] == b[k - 1]; }
  }

  // Part of the sequence moves in the leading position, all of it in the other.
  lemma SplitBlock(lead: Position, virt: Position, next: Position, after: Position, src: nat, dst: nat,
                   kept: Column, shown: Column, block: Column)
    requires Ahead(FC_PRO_SLACK, lead, virt) && src < |virt.cols| && dst < |virt.cols| && src != dst
    requires virt.cols[src] == kept + block && lead.cols[src] == kept + shown && shown <= block
    requires lead.cols[dst] == virt.cols[dst]
    requires Shifted(lead, next, src, dst, kept, shown) && Shifted(virt, after, src, dst, kept, block)
    ensures Ahead(FC_PRO_SLACK, next, after)
  {
    var whole := virt.cols[src];
    assert HiddenHome(lead.found, whole, |kept + shown|);
    forall j | |shown| <= j < |block| ensures block[j].rank <= lead.found[block[j].suit] {
      assert block[j] == whole[|kept| + j];
    }
    forall i | 0 <= i < |virt.cols|
      ensures next.cols[i] <= after.cols[i] && HiddenHome(next.found, after.cols[i], |next.cols[i]|)
    {
      assert lead.cols[i] <= virt.cols[i] && HiddenHome(lead.found, virt.cols[i], |lead.cols[i]|);
    }
  }

  // The whole sequence is hidden, so only the other position changes.
  lemma HiddenBlock(lead: Position, virt: Position, after: Position, src: nat, dst: nat, kept: Column, block: Column)
    requires Ahead(FC_PRO_SLACK, lead, virt) && src < |virt.cols| && dst < |virt.cols| && src != dst
    requires virt.cols[src] == kept + block && |lead.cols[src]| <= |kept|
    requires Shifted(virt, after, src, dst, kept, block)
    ensures Ahead(FC_PRO_SLACK, lead, after)
  {
    var whole := virt.cols[src];
    assert lead.cols[src] <= whole && HiddenHome(lead.found, whole, |lead.cols[src]|);
    forall j | 0 <= j < |block| ensures block[j].rank <= lead.found[block[j].suit] {
      assert block[j] == whole[|kept| + j];
    }
    forall j | |lead.cols[src]| <= j < |kept| ensures kept[j].rank <= lead.found[kept[j].suit] {
      assert kept[j] == whole[j];
    }
    forall i | 0 <= i < |virt.cols|
      ensures lead.cols[i] <= after.cols[i] && HiddenHome(lead.found, after.cols[i], |lead.cols[i]|)
    {
      assert lead.cols[i] <= virt.cols[i] && HiddenHome(lead.found, virt.cols[i], |lead.cols[i]|);
    }
  }

  // ---- The replay ----

  ghost function AutoStep(t: Position, m: SolverMove): Option<Position> {
    var up := Prune(FC_PRO_SLACK, t);
    if CanPlay(up, m) then Some(Play(up, m)) else None
  }

  // Where the emitted moves lead when safe cards go up before each of them.
  ghost function AutoPlay(s: Position, moves: seq<SolverMove>): Option<Position> {
    if moves == [] then Some(s)
    else
      match AutoPlay(s, moves[..|moves| - 1])
      case None => None
      case Some(t) => AutoStep(t, moves[|moves| - 1])
  }

  // A solution in the game in which safe cards go up before every move: each move can be played
  // when its turn comes, and the game ends solved.
  ghost predicate SolvesWithAuto(s: Position, moves: seq<SolverMove>) {
    AutoPlay(s, moves).Some? && Solved(Prune(FC_PRO_SLACK, AutoPlay(s, moves).value))
  }

  // The state of the replay: the real position, the virtual lengths, and what was emitted so far.
  datatype Replayed = Replayed(pos: Position, stackLen: seq<int>, cellLen: seq<int>, moves: seq<SolverMove>)

  predicate InRange(r: Replayed, m: SolverMove) {
    && |r.stackLen| == |r.pos.cols| && |r.cellLen| == |r.pos.cells|
    && (m.ColToHome? || m.ColToCell? || m.ColToCol? ==>
         m.src < |r.pos.cols| && |r.pos.cols[m.src]| <= r.stackLen[m.src])
    && (m.CellToHome? || m.CellToCol? ==> m.src < |r.pos.cells| && r.cellLen[m.src] == 1)
    && (m.CellToCol? || m.ColToCol? ==> m.dst < |r.pos.cols|)
    && (m.ColToCell? ==> m.dst < |r.pos.cells| && r.stackLen[m.src] > 0)
    && (m.ColToCol? ==> m.src != m.dst)
  }

  // The move emitted for m: m itself, or its visible part, or nothing when the card is home already.
  function Emitted(r: Replayed, m: SolverMove): Option<SolverMove>
    requires InRange(r, m)
  {
    match m
    case ColToHome(i) => if |r.pos.cols[i]| == r.stackLen[i] then Some(m) else None
    case ColToCell(i, _) => if |r.pos.cols[i]| == r.stackLen[i] then Some(m) else None
    case CellToHome(j) => if r.pos.cells[j].Some? then Some(m) else None
    case CellToCol(j, _) => if r.pos.cells[j].Some? then Some(m) else None
    case ColToCol(i, d, num) =>
      var hidden := r.stackLen[i] - |r.pos.cols[i]|;
      if hidden < num then Some(ColToCol(i, d, num - hidden)) else None
  }

  // The replay takes m without failing an assertion.
  predicate Ready(r: Replayed, m: SolverMove) {
    InRange(r, m) && (Emitted(r, m).Some? ==> CanPlay(r.pos, Emitted(r, m).value))
  }

  function StackLenAfter(stackLen: seq<int>, m: SolverMove): seq<int>
    requires m.ColToHome? || m.ColToCell? || m.ColToCol? ==> m.src < |stackLen|
    requires m.CellToCol? || m.ColToCol? ==> m.dst < |stackLen|
  {
    match m
    case ColToHome(i) => stackLen[i := stackLen[i] - 1]
    case ColToCell(i, _) => stackLen[i := stackLen[i] - 1]
    case CellToCol(_, i) => stackLen[i := stackLen[i] + 1]
    case ColToCol(i, d, num) => stackLen[i := stackLen[i] - num][d := stackLen[d] + num]
    case CellToHome(_) => stackLen
  }

  function CellLenAfter(cellLen: seq<int>, m: SolverMove): seq<int>
    requires m.CellToHome? || m.CellToCol? ==> m.src < |cellLen|
    requires m.ColToCell? ==> m.dst < |cellLen|
  {
    match m
    case CellToHome(j) => cellLen[j := 0]
    case CellToCol(j, _) => cellLen[j := 0]
    case ColToCell(_, j) => cellLen[j := 1]
    case _ => cellLen
  }

  // The emitted move is played; the virtual lengths change as m changes the virtual position.
  function Followed(r: Replayed, m: SolverMove): Replayed
    requires Ready(r, m)
  {
    var out := Emitted(r, m);
    Replayed(if out.Some? then Play(r.pos, out.value) else r.pos,
             StackLenAfter(r.stackLen, m), CellLenAfter(r.cellLen, m),
             if out.Some? then r.moves + [out.value] else r.moves)
  }

  // The virtual lengths are those of the position of the original solution.
  ghost predicate Tracks(virt: Position, stackLen: seq<int>, cellLen: seq<int>) {
    && |stackLen| == |virt.cols| && (forall i :: 0 <= i < |stackLen| ==> stackLen[i] == |virt.cols[i]|)
    && |cellLen| == |virt.cells| && (forall j :: 0 <= j < |cellLen| ==>
         cellLen[j] == if virt.cells[j].Some? then 1 else 0)
  }

  // The real position is ahead of the position of the original solution, and, once the safe cards
  // are up, is where the emitted moves lead.
  ghost predicate Follows(orig: Position, virt: Position, lead: Position, moves: seq<SolverMove>) {
    && FullDeck(lead) && FullDeck(virt) && Ahead(FC_PRO_SLACK, lead, virt)
    && AutoPlay(orig, moves).Some?
    && Prune(FC_PRO_SLACK, AutoPlay(orig, moves).value) == Prune(FC_PRO_SLACK, lead)
  }

  ghost predicate Good(orig: Position, virt: Position, r: Replayed) {
    Tracks(virt, r.stackLen, r.cellLen) && Follows(orig, virt, r.pos, r.moves)
  }

  class Replayer {
    const pos: Board
    var stackLen: seq<int>
    var cellLen: seq<int>
    var moves: seq<SolverMove>

    ghost function State(): Replayed
      reads this, pos
    {
      Replayed(pos.Pos(), stackLen, cellLen, moves)
    }

    constructor (orig: Position)
      requires FullDeck(orig)
      ensures Good(orig, orig, State()) && moves == [] && fresh(pos)
    {
      pos := new Board(orig);
      moves := [];
      stackLen := seq(|orig.cols|, i requires 0 <= i < |orig.cols| => |orig.cols[i]|);
      cellLen := seq(|orig.cells|, j requires 0 <= j < |orig.cells| => if orig.cells[j].Some? then 1 else 0);
      new;
      AheadOfItself(FC_PRO_SLACK, orig);
    }

    // Whether a card of the column or freecell can go up safely.
    method CheckSafe(card: Card) returns (safe: bool)
      ensures safe == Safe(FC_PRO_SLACK, pos.found, card)
      ensures safe <==> IsNext(pos.found, card) && NobodyIsLeftFor(pos.found, card)
    {
      GameRule(pos.found, card);
      var rank: int := card.rank;
      var suit := card.suit;
      var twin := if suit < 2 then suit + 2 else suit - 2;
      var odd := if suit % 2 == 0 then suit + 1 else suit - 1;
      var even := if odd < 2 then odd + 2 else odd - 2;
      safe := pos.found[odd] > rank - 2 && pos.found[even] > rank - 2 && pos.found[twin] > rank - 3
        && pos.found[suit] == rank - 1;
      assert KeepsUp(FC_PRO_SLACK, pos.found, card.rank, suit, odd) <==> pos.found[odd] > rank - 2;
      assert KeepsUp(FC_PRO_SLACK, pos.found, card.rank, suit, even) <==> pos.found[even] > rank - 2;
      assert KeepsUp(FC_PRO_SLACK, pos.found, card.rank, suit, twin) <==> pos.found[twin] > rank - 3;
      forall u: Suit ensures safe ==> KeepsUp(FC_PRO_SLACK, pos.found, card.rank, suit, u) {
        assert u == suit || u == odd || u == even || u == twin;
      }
    }

    // Finds the first safe card: columns first, then freecells.
    method FindSafe() returns (p: Place)
      ensures p != Home ==> SafeAt(FC_PRO_SLACK, pos.Pos(), p)
      ensures p == Home ==> IsPruned(FC_PRO_SLACK, pos.Pos())
    {
      for i := 0 to |pos.cols|
        invariant forall k: nat :: k < i ==> !SafeAt(FC_PRO_SLACK, pos.Pos(), Col(k))
      {
        if pos.cols[i] != [] {
          var safe := CheckSafe(Last(pos.cols[i]));
          if safe { return Col(i); }
        }
      }
      for j := 0 to |pos.cells|
        invariant forall k: nat :: k < |pos.cols| ==> !SafeAt(FC_PRO_SLACK, pos.Pos(), Col(k))
        invariant forall k: nat :: k < j ==> !SafeAt(FC_PRO_SLACK, pos.Pos(), Cell(k))
      {
        if pos.cells[j].Some? {
          var safe := CheckSafe(pos.cells[j].value);
          if safe { return Cell(j); }
        }
      }
      forall q: Place ensures !SafeAt(FC_PRO_SLACK, pos.Pos(), q) {
        match q case Col(k) => case Cell(k) => case Home =>
      }
      return Home;
    }

    // Moves safe cards up until there is none left; before each, all 52 cards are looked for.
    method MoveSafeCards(ghost orig: Position, ghost virt: Position)
      requires Good(orig, virt, State())
      modifies pos
      ensures Good(orig, virt, State()) && IsPruned(FC_PRO_SLACK, pos.Pos())
      ensures pos.Pos() == Prune(FC_PRO_SLACK, old(pos.Pos()))
    {
      var p := Col(0);
      while p != Home
        invariant Good(orig, virt, State()) && Prune(FC_PRO_SLACK, pos.Pos()) == Prune(FC_PRO_SLACK, old(pos.Pos()))
        invariant p == Home ==> IsPruned(FC_PRO_SLACK, pos.Pos())
        decreases Missing(pos.found), p != Home
      {
        GoodIsComplete(orig, virt, State());
        var complete := IsComplete(pos);
        assert complete;
        p := FindSafe();
        if p != Home {
          SafeUpStaysGood(orig, virt, State(), p);
          SendUp(pos, p);
        }
      }
    }

    method Emit(m: SolverMove)
      modifies this`moves
      ensures moves == old(moves) + [m]
    {
      moves := moves + [m];
    }

    method ReplayColToHome(m: SolverMove)
      requires m.ColToHome? && Ready(State(), m)
      modifies this, pos
      ensures State() == Followed(old(State()), m)
    {
      assert stackLen[m.src] >= |pos.cols[m.src]|;
      if stackLen[m.src] == |pos.cols[m.src]| {
        var card := Last(pos.cols[m.src]);
        pos.found := pos.found[card.suit := pos.found[card.suit] + 1];
        stackLen := stackLen[m.src := stackLen[m.src] - 1];
        pos.cols := pos.cols[m.src := pos.cols[m.src][..|pos.cols[m.src]| - 1]];
        Emit(m);
      } else {
        stackLen := stackLen[m.src := stackLen[m.src] - 1];
      }
    }

    method ReplayCellToHome(m: SolverMove)
      requires m.CellToHome? && Ready(State(), m)
      modifies this, pos
      ensures State() == Followed(old(State()), m)
    {
      assert cellLen[m.src] == 1;
      if pos.cells[m.src].Some? {
        Emit(m);
        var suit := pos.cells[m.src].value.suit;
        pos.found := pos.found[suit := pos.found[suit] + 1];
        pos.cells := pos.cells[m.src := None];
      }
      cellLen := cellLen[m.src := 0];
    }

    method ReplayCellToCol(m: SolverMove)
      requires m.CellToCol? && Ready(State(), m)
      modifies this, pos
      ensures State() == Followed(old(State()), m)
    {
      assert cellLen[m.src] == 1;
      if pos.cells[m.src].Some? {
        Emit(m);
        pos.cols := pos.cols[m.dst := pos.cols[m.dst] + [pos.cells[m.src].value]];
        pos.cells := pos.cells[m.src := None];
      }
      cellLen := cellLen[m.src := 0];
      stackLen := stackLen[m.dst := stackLen[m.dst] + 1];
    }

    method ReplayColToCell(m: SolverMove)
      requires m.ColToCell? && Ready(State(), m)
      modifies this, pos
      ensures State() == Followed(old(State()), m)
    {
      assert stackLen[m.src] > 0 && |pos.cols[m.src]| <= stackLen[m.src];
      if |pos.cols[m.src]| == stackLen[m.src] {
        Emit(m);
        pos.cells := pos.cells[m.dst := Some(Last(pos.cols[m.src]))];
        pos.cols := pos.cols[m.src := pos.cols[m.src][..|pos.cols[m.src]| - 1]];
      }
      stackLen := stackLen[m.src := stackLen[m.src] - 1];
      cellLen := cellLen[m.dst := 1];
    }

    method ReplayColToCol(m: SolverMove)
      requires m.ColToCol? && Ready(State(), m)
      modifies this, pos
      ensures State() == Followed(old(State()), m)
    {
      var num := m.num;
      assert stackLen[m.src] >= |pos.cols[m.src]|;
      if stackLen[m.src] > |pos.cols[m.src]| {
        var hidden := stackLen[m.src] - |pos.cols[m.src]|;
        var virtNum := if hidden < num then hidden else num;
        stackLen := stackLen[m.src := stackLen[m.src] - virtNum];
        stackLen := stackLen[m.dst := stackLen[m.dst] + virtNum];
        num := num - virtNum;
      }
      if num > 0 {
        var out := ColToCol(m.src, m.dst, num);
        Emit(out);
        MoveCards(pos, m.src, m.dst, num);
        stackLen := stackLen[m.dst := stackLen[m.dst] + num];
        stackLen := stackLen[m.src := stackLen[m.src] - num];
      }
    }

    method ReplayMove(m: SolverMove)
      requires Ready(State(), m)
      modifies this, pos
      ensures State() == Followed(old(State()), m)
    {
      match m
      case ColToHome(_) => ReplayColToHome(m);
      case CellToHome(_) => ReplayCellToHome(m);
      case CellToCol(_, _) => ReplayCellToCol(m);
      case ColToCell(_, _) => ReplayColToCell(m);
      case ColToCol(_, _, _) => ReplayColToCol(m);
    }
  }

  method MovesProcessedGen(orig: Position, backEndMoves: seq<SolverMove>) returns (out: seq<SolverMove>)
    requires FullDeck(orig) && Solves(orig, backEndMoves)
    ensures SolvesWithAuto(orig, out)
  {
    var replayer := new Replayer(orig);
    ghost var virt := orig;
    for k := 0 to |backEndMoves|
      invariant Good(orig, virt, replayer.State()) && Solves(virt, backEndMoves[k..])
      invariant fresh(replayer) && fresh(replayer.pos)
    {
      replayer.MoveSafeCards(orig, virt);
      var m := backEndMoves[k];
      assert backEndMoves[k..][0] == m && backEndMoves[k..][1..] == backEndMoves[k + 1..];
      FollowedStaysGood(orig, virt, replayer.State(), m);
      replayer.ReplayMove(m);
      virt := Play(virt, m);
    }
    out := replayer.moves;
    FollowsToTheEnd(orig, virt, replayer.pos.Pos(), out);
  }

  lemma TracksOn(virt: Position, stackLen: seq<int>, cellLen: seq<int>, m: SolverMove)
    requires Tracks(virt, stackLen, cellLen) && CanPlay(virt, m)
    ensures Tracks(Play(virt, m), StackLenAfter(stackLen, m), CellLenAfter(cellLen, m))
  {
  }

  // None of the assertions fails, and the replay goes on following the original solution.
  lemma FollowedStaysGood(orig: Position, virt: Position, r: Replayed, m: SolverMove)
    requires Good(orig, virt, r) && IsPruned(FC_PRO_SLACK, r.pos) && CanPlay(virt, m)
    ensures Ready(r, m) && Good(orig, Play(virt, m), Followed(r, m))
  {
    if m.ColToCol? { BlockStaysGood(orig, virt, r, m); } else { OneStaysGood(orig, virt, r, m); }
  }

  lemma OneStaysGood(orig: Position, virt: Position, r: Replayed, m: SolverMove)
    requires !m.ColToCol? && Good(orig, virt, r) && IsPruned(FC_PRO_SLACK, r.pos) && CanPlay(virt, m)
    ensures Ready(r, m) && Good(orig, Play(virt, m), Followed(r, m))
  {
    TracksOn(virt, r.stackLen, r.cellLen, m);
    FollowOne(orig, virt, r.pos, r.moves, m);
    OneInRange(virt, r, m);
  }

  lemma OneInRange(virt: Position, r: Replayed, m: SolverMove)
    requires !m.ColToCol? && CanPlay(virt, m) && Tracks(virt, r.stackLen, r.cellLen)
    requires |r.pos.cols| == |virt.cols| && |r.pos.cells| == |virt.cells|
    requires OneCard(m).src.Col? ==> |r.pos.cols[OneCard(m).src.i]| <= |virt.cols[OneCard(m).src.i]|
    ensures InRange(r, m)
    ensures Emitted(r, m) == if Shown(r.pos, virt, OneCard(m).src) then Some(m) else None
  {
  }

  lemma BlockStaysGood(orig: Position, virt: Position, r: Replayed, m: SolverMove)
    requires m.ColToCol? && Good(orig, virt, r) && IsPruned(FC_PRO_SLACK, r.pos) && CanPlay(virt, m)
    ensures Ready(r, m) && Good(orig, Play(virt, m), Followed(r, m))
  {
    TracksOn(virt, r.stackLen, r.cellLen, m);
    FollowBlock(orig, virt, r.pos, r.moves, m);
  }

  lemma FollowsToTheEnd(orig: Position, virt: Position, lead: Position, out: seq<SolverMove>)
    requires Follows(orig, virt, lead, out) && Solved(virt)
    ensures SolvesWithAuto(orig, out)
  {
    assert Solved(lead);
    forall p: Place ensures !SafeAt(FC_PRO_SLACK, lead, p) {
      if Exposed(lead, p).Some? {
        ExposedNotHome(lead, p);
        assert false;
      }
    }
  }

  // Whether the card that a single-card move takes is still in play in the real position.
  predicate Shown(lead: Position, virt: Position, src: Place) {
    match src
    case Col(i) => i < |lead.cols| && i < |virt.cols| && |lead.cols[i]| == |virt.cols[i]|
    case Cell(j) => j < |lead.cells| && lead.cells[j].Some?
    case Home => false
  }

  // The real position follows a single-card move with the same move, or not at all when the card is
  // home already.
  lemma FollowOne(orig: Position, virt: Position, lead: Position, moves: seq<SolverMove>, m: SolverMove)
    requires !m.ColToCol? && CanPlay(virt, m) && Follows(orig, virt, lead, moves) && IsPruned(FC_PRO_SLACK, lead)
    ensures OneCard(m).src.Col? ==> |lead.cols[OneCard(m).src.i]| <= |virt.cols[OneCard(m).src.i]|
    ensures Shown(lead, virt, OneCard(m).src) ==>
              CanPlay(lead, m) && Follows(orig, Play(virt, m), Play(lead, m), moves + [m])
              && Exposed(lead, OneCard(m).src) == Exposed(virt, OneCard(m).src)
    ensures !Shown(lead, virt, OneCard(m).src) ==> Follows(orig, Play(virt, m), lead, moves)
  {
    var move := OneCard(m);
    AnswerKeepsAhead(FC_PRO_SLACK, lead, virt, move);
    HiddenIffHome(FC_PRO_SLACK, lead, virt, move.src);
    MoveKeepsDeck(virt, move);
    if Legal(lead, move) { MoveKeepsDeck(lead, move); }
    if move.src.Col? {
      assert lead.cols[move.src.i] <= virt.cols[move.src.i];
      ShownOrHidden(lead, virt, move.src.i);
    }
    if Shown(lead, virt, move.src) { EmitStep(orig, moves, lead, m); }
  }

  // The visible part of a sequence moves; with it goes the rest.
  lemma FollowBlock(orig: Position, virt: Position, lead: Position, moves: seq<SolverMove>, m: SolverMove)
    requires m.ColToCol? && CanPlay(virt, m) && Follows(orig, virt, lead, moves) && IsPruned(FC_PRO_SLACK, lead)
    ensures |lead.cols[m.src]| <= |virt.cols[m.src]|
    ensures var out := ColToCol(m.src, m.dst, Visible(lead, virt, m));
            if out.num > 0 then CanPlay(lead, out) && Follows(orig, Play(virt, m), Play(lead, out), moves + [out])
            else Follows(orig, Play(virt, m), lead, moves)
  {
    var k := Visible(lead, virt, m);
    assert lead.cols[m.src] <= virt.cols[m.src];
    BlockAnswerKeepsAhead(lead, virt, m);
    PlayKeepsDeck(virt, m);
    if k > 0 {
      VisibleBlockFits(lead, virt, m);
      AheadCarriesMore(FC_PRO_SLACK, lead, virt, m.dst);
      PlayKeepsDeck(lead, ColToCol(m.src, m.dst, k));
      EmitStep(orig, moves, lead, ColToCol(m.src, m.dst, k));
    }
  }

  lemma ShownOrHidden(lead: Position, virt: Position, i: nat)
    requires FullDeck(lead) && Ahead(FC_PRO_SLACK, lead, virt) && i < |virt.cols| && virt.cols[i] != []
    ensures Exposed(lead, Col(i)) == Exposed(virt, Col(i)) <==> |lead.cols[i]| == |virt.cols[i]|
  {
    var l, v := lead.cols[i], virt.cols[i];
    assert l <= v && HiddenHome(lead.found, v, |l|);
    HiddenIffHome(FC_PRO_SLACK, lead, virt, Col(i));
    if |l| == |v| { assert l == v; }
  }

  // Emitting a move that can be played on the pruned position plays it.
  lemma EmitStep(orig: Position, moves: seq<SolverMove>, lead: Position, m: SolverMove)
    requires AutoPlay(orig, moves).Some?
    requires Prune(FC_PRO_SLACK, AutoPlay(orig, moves).value) == Prune(FC_PRO_SLACK, lead)
    requires IsPruned(FC_PRO_SLACK, lead) && CanPlay(lead, m)
    ensures AutoPlay(orig, moves + [m]) == Some(Play(lead, m))
  {
    assert (moves + [m])[..|moves|] == moves;
  }

  lemma SafeUpStaysGood(orig: Position, virt: Position, r: Replayed, p: Place)
    requires Good(orig, virt, r) && SafeAt(FC_PRO_SLACK, r.pos, p)
    ensures Good(orig, virt, r.(pos := SendHome(r.pos, p)))
    ensures Prune(FC_PRO_SLACK, SendHome(r.pos, p)) == Prune(FC_PRO_SLACK, r.pos)
    ensures Missing(SendHome(r.pos, p).found) < Missing(r.pos.found)
  {
    MoveKeepsDeck(r.pos, Move(p, Home));
    SafeMoveKeepsAhead(FC_PRO_SLACK, r.pos, virt, p);
    PruneAnyOrder(FC_PRO_SLACK, r.pos, p);
    HomeLowersMissing(r.pos, p);
  }

  // Copies the last cards of a column over and cuts them off.
  method MoveCards(pos: Board, src: nat, dst: nat, num: nat)
    requires BlockFits(pos.Pos(), src, dst, num)
    modifies pos
    ensures pos.Pos() == MoveBlock(old(pos.Pos()), src, dst, num)
  {
    ghost var cols := pos.cols;
    var n := |pos.cols[src]| - num;
    assert cols[dst] + cols[src][n..n] == cols[dst];
    for i := 0 to num
      invariant pos.cols == cols[dst := cols[dst] + cols[src][n..n + i]]
      invariant pos.cells == old(pos.cells) && pos.found == old(pos.found)
    {
      assert cols[dst] + cols[src][n..n + i] + [cols[src][n + i]] == cols[dst] + cols[src][n..n + i + 1];
      pos.cols := pos.cols[dst := pos.cols[dst] + [pos.cols[src][n + i]]];
    }
    assert cols[src][n..n + num] == cols[src][n..];
    pos.cols := pos.cols[src := pos.cols[src][..n]];
  }

  method SendUp(pos: Board, p: Place)
    requires SafeAt(FC_PRO_SLACK, pos.Pos(), p)
    modifies pos
    ensures pos.Pos() == SendHome(old(pos.Pos()), p)
  {
    if p.Col? {
      var col := pos.cols[p.i];
      pos.found := pos.found[Last(col).suit := pos.found[Last(col).suit] + 1];
      pos.cols := pos.cols[p.i := col[..|col| - 1]];
    } else {
      var suit := pos.cells[p.j].value.suit;
      pos.found := pos.found[suit := pos.found[suit] + 1];
      pos.cells := pos.cells[p.j := None];
    }
  }

  function Slot(c: Card): (n: nat)
    ensures 4 <= n < 56
  {
    c.rank * 4 + c.suit
  }

  predicate Present(s: Position, c: Card) {
    c.rank <= s.found[c.suit] || Some(c) in s.cells || exists i :: 0 <= i < |s.cols| && c in s.cols[i]
  }

  method MarkHome(pos: Board, found: array<bool>)
    requires found.Length == 56 && forall u: Suit :: pos.found[u] <= KING
    modifies found
    ensures forall c: Card :: found[Slot(c)] == (old(found[Slot(c)]) || c.rank <= pos.found[c.suit])
  {
    for suit := 0 to 4
      invariant forall c: Card ::
                  found[Slot(c)] == (old(found[Slot(c)]) || (c.suit < suit && c.rank <= pos.found[c.suit]))
    {
      ghost var before := found[..];
      for rank := 1 to pos.found[suit] + 1
        invariant forall c: Card :: found[Slot(c)] == (before[Slot(c)] || (c.suit == suit && c.rank < rank))
      {
        found[Slot(Card(rank, suit))] := true;
      }
    }
  }

  method MarkColumn(col: Column, found: array<bool>)
    requires found.Length == 56
    modifies found
    ensures forall c: Card :: found[Slot(c)] == (old(found[Slot(c)]) || c in col)
  {
    for k := 0 to |col|
      invariant forall c: Card :: found[Slot(c)] == (old(found[Slot(c)]) || c in col[..k])
    {
      assert col[..k + 1] == col[..k] + [col[k]];
      found[Slot(col[k])] := true;
    }
    assert col[..|col|] == col;
  }

  method MarkCells(cells: seq<Option<Card>>, found: array<bool>)
    requires found.Length == 56
    modifies found
    ensures forall c: Card :: found[Slot(c)] == (old(found[Slot(c)]) || Some(c) in cells)
  {
    for j := 0 to |cells|
      invariant forall c: Card :: found[Slot(c)] == (old(found[Slot(c)]) || Some(c) in cells[..j])
    {
      assert cells[..j + 1] == cells[..j] + [cells[j]];
      if cells[j].Some? {
        found[Slot(cells[j].value)] := true;
      }
    }
    assert cells[..|cells|] == cells;
  }

  // Looks for each of the 52 cards on the foundations, in the columns and in the freecells.
  method IsComplete(pos: Board) returns (complete: bool)
    requires forall u: Suit :: pos.found[u] <= KING
    ensures complete <==> forall c: Card :: Present(pos.Pos(), c)
  {
    var found := new bool[56](_ => false);
    MarkHome(pos, found);
    for i := 0 to |pos.cols|
      invariant forall c: Card ::
          found[Slot(c)] <==> c.rank <= pos.found[c.suit] || exists k :: 0 <= k < i && c in pos.cols[k]
    {
      MarkColumn(pos.cols[i], found);
    }
    MarkCells(pos.cells, found);
    assert forall c: Card :: found[Slot(c)] <==> Present(pos.Pos(), c);
    for n := 4 to 56
      invariant forall c: Card :: Slot(c) < n ==> found[Slot(c)]
    {
      assert Slot(Card(n / 4, n % 4)) == n;
      if !found[n] { return false; }
    }
    complete := true;
  }

  lemma GoodIsComplete(orig: Position, virt: Position, r: Replayed)
    requires Good(orig, virt, r)
    ensures forall u: Suit :: r.pos.found[u] <= KING
    ensures forall c: Card :: Present(r.pos, c)
  {
    forall c: Card ensures Present(r.pos, c) {
      if r.pos.found[c.suit] < c.rank { var inCell, i, k := Locate(r.pos, c); }
    }
  }
}
