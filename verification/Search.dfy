/**
 The search space of the DBM solvers: keys, the keys derived from a key, and why a closed set of
 keys without a solved position means that the deal cannot be solved.
 */
module Search {
  import opened Cards
  import opened Positions
  import opened HornePrune
  import opened DerivedStates
  import opened Placement
  import opened DebondtRoundTrip
  import opened Keys
  import opened SolverCommon

  // The position the search starts from: the deal as read, pruned.
  ghost function Init(deal: Position): (init: Position)
    ensures FullDeck(deal) ==> FullDeck(init)
  {
    assert FullDeck(deal) ==> FullDeck(Prune(FC_SOLVE_SLACK, deal)) by {
      if FullDeck(deal) { PruneIsPlay(FC_SOLVE_SLACK, deal); }
    }
    Prune(FC_SOLVE_SLACK, deal)
  }

  ghost function FirstKeyOf(deal: Position): Key
    requires FullDeck(deal)
  {
    EncodeKey(Init(deal))
  }

  // ---- Positions of the search stay encodable ----

  lemma PrunedExposesNoAce(s: Position, p: Place)
    requires FullDeck(s) && IsPruned(FC_SOLVE_SLACK, s) && Exposed(s, p).Some?
    ensures Exposed(s, p).value.rank != 1
  {
    var c := Exposed(s, p).value;
    ExposedNotHome(s, p);
    if c.rank == 1 {
      assert forall u: Suit :: KeepsUp(FC_SOLVE_SLACK, s.found, c.rank, c.suit, u);
      assert SafeAt(FC_SOLVE_SLACK, s, p);
    }
  }

  lemma PrefixDescends(init: Position, col: Column, longer: Column, k: nat)
    requires k < |col| && k < |longer| && longer[..k + 1] == col[..k + 1] && ColumnDescends(init, col)
    ensures OnOriginal(init, longer, k) || PlacedAt(longer, k)
  {
    assert longer[..k + 1][k] == col[..k + 1][k];
    assert k > 0 ==> longer[..k + 1][k - 1] == col[..k + 1][k - 1];
    if OnOriginal(init, col, k) {
      var j :| 0 <= j < |init.cols| && k < |init.cols[j]| && col[..k + 1] == init.cols[j][..k + 1];
      assert longer[..k + 1] == init.cols[j][..k + 1];
    }
  }

  lemma MoveDescends(init: Position, s: Position, m: Move)
    requires Descends(init, s) && Legal(s, m) && (m.dst == Home || Exposed(s, m.src).value.rank != 1)
    ensures Descends(init, Apply(s, m))
  {
    MoveKeepsDeck(s, m);
    var t := Apply(s, m);
    forall i | 0 <= i < |t.cols| ensures ColumnDescends(init, t.cols[i]) {
      assert ColumnDescends(init, s.cols[i]);
      MovedColumn(init, s, m, i);
    }
  }

  lemma MovedColumn(init: Position, s: Position, m: Move, i: nat)
    requires Legal(s, m) && (m.dst == Home || Exposed(s, m.src).value.rank != 1)
    requires i < |s.cols| && ColumnDescends(init, s.cols[i])
    ensures ColumnDescends(init, Apply(s, m).cols[i])
  {
    var col, longer := s.cols[i], Apply(s, m).cols[i];
    forall k | 0 <= k < |longer| ensures OnOriginal(init, longer, k) || PlacedAt(longer, k) {
      if k < |col| {
        assert longer[..k + 1] == col[..k + 1];
        PrefixDescends(init, col, longer, k);
      }
    }
  }

  lemma {:induction false} PruneDescends(init: Position, s: Position)
    requires Descends(init, s)
    ensures Descends(init, Prune(FC_SOLVE_SLACK, s))
    decreases Missing(s.found)
  {
    if !IsPruned(FC_SOLVE_SLACK, s) {
      var p := Choice(FC_SOLVE_SLACK, s);
      MoveDescends(init, s, Move(p, Home));
      PruneDescends(init, SendHome(s, p));
    }
  }

  lemma DescendsFromItself(init: Position)
    requires FullDeck(init) && IsPruned(FC_SOLVE_SLACK, init)
    ensures Descends(init, init)
  {
    forall i, k | 0 <= i < |init.cols| && 0 <= k < |init.cols[i]| ensures OnOriginal(init, init.cols[i], k) {
      assert init.cols[i][..k + 1] == init.cols[i][..k + 1];
    }
    forall j | 0 <= j < |init.cells| && init.cells[j].Some? ensures init.cells[j].value.rank != 1 {
      PrunedExposesNoAce(init, Cell(j));
    }
  }

  // ---- Placement does not matter ----

  lemma AlikeFullDeck(s: Position, t: Position)
    requires Alike(s, t) && FullDeck(s)
    ensures FullDeck(t) && |t.cols| == |s.cols| && |t.cells| == |s.cells|
  {
    SameTableau(s.cols, t.cols);
    forall c: Card ensures Copies(t, c) == Copies(s, c) {}
    assert |multiset(s.cols)| == |s.cols| && |multiset(t.cols)| == |t.cols|;
    assert |multiset(s.cells)| == |s.cells| && |multiset(t.cells)| == |t.cells|;
  }

  lemma AlikeExposed(s: Position, t: Position, p: Place) returns (q: Place)
    requires Alike(s, t) && Exposed(t, p).Some?
    ensures Exposed(s, q) == Exposed(t, p)
  {
    if p.Col? {
      assert t.cols[p.i] in multiset(s.cols);
      var i :| 0 <= i < |s.cols| && s.cols[i] == t.cols[p.i];
      q := Col(i);
    } else {
      assert t.cells[p.j] in multiset(s.cells);
      var j :| 0 <= j < |s.cells| && s.cells[j] == t.cells[p.j];
      q := Cell(j);
    }
  }

  lemma AlikePruned(s: Position, t: Position)
    requires Alike(s, t) && IsPruned(FC_SOLVE_SLACK, s)
    ensures IsPruned(FC_SOLVE_SLACK, t)
  {
    forall p: Place ensures !SafeAt(FC_SOLVE_SLACK, t, p) {
      if SafeAt(FC_SOLVE_SLACK, t, p) {
        var q := AlikeExposed(s, t, p);
        assert SafeAt(FC_SOLVE_SLACK, s, q);
      }
    }
  }

  lemma AlikeDescends(init: Position, s: Position, t: Position)
    requires Alike(s, t) && Descends(init, s)
    ensures Descends(init, t)
  {
    AlikeFullDeck(s, t);
    forall i | 0 <= i < |t.cols| ensures ColumnDescends(init, t.cols[i]) {
      assert t.cols[i] in multiset(s.cols);
      var i' :| 0 <= i' < |s.cols| && s.cols[i'] == t.cols[i];
      assert ColumnDescends(init, s.cols[i']);
    }
    forall j | 0 <= j < |t.cells| && t.cells[j].Some? ensures t.cells[j].value.rank != 1 {
      assert t.cells[j] in multiset(s.cells);
      var j' :| 0 <= j' < |s.cells| && s.cells[j'] == t.cells[j];
    }
  }

  // ---- Keys of the search ----

  // The key of a pruned position that comes from the initial one.
  ghost predicate GoodKey(init: Position, key: Key) {
    exists s :: Descends(init, s) && IsPruned(FC_SOLVE_SLACK, s) && key == EncodeKey(s)
  }

  lemma GoodKeyDecodes(init: Position, key: Key)
    requires GoodKey(init, key)
    ensures var t := DecodeKey(init, key);
            Descends(init, t) && IsPruned(FC_SOLVE_SLACK, t) && EncodeKey(t) == key
  {
    var s :| Descends(init, s) && IsPruned(FC_SOLVE_SLACK, s) && key == EncodeKey(s);
    var t := DecodeKey(init, key);
    KeyRoundTrip(init, s);
    AlikeSymmetric(t, s);
    AlikeDescends(init, s, t);
    AlikePruned(s, t);
    SameKeyIffAlike(init, t, s);
  }

  lemma AlikeSymmetric(s: Position, t: Position)
    requires Alike(s, t)
    ensures Alike(t, s)
  {
  }

  // The position a generated move leads to in the search.
  ghost function NextState(s: Position, m: Move): Position
    requires Legal(s, m)
  {
    Prune(FC_SOLVE_SLACK, Apply(s, m))
  }

  lemma NextIsGood(init: Position, s: Position, m: Move)
    requires Descends(init, s) && IsPruned(FC_SOLVE_SLACK, s) && Legal(s, m)
    ensures var t := NextState(s, m);
            Descends(init, t) && IsPruned(FC_SOLVE_SLACK, t) && GoodKey(init, EncodeKey(t))
  {
    PrunedExposesNoAce(s, m.src);
    MoveDescends(init, s, m);
    PruneDescends(init, Apply(s, m));
    PruneIsPlay(FC_SOLVE_SLACK, Apply(s, m));
  }

  // One derived key with its count of irreversible moves.
  datatype Child = Child(key: Key, count: nat)

  ghost function ChildOfMove(s: Position, m: Move): Child
    requires FullDeck(s) && Legal(s, m)
  {
    MoveKeepsDeck(s, m);
    PruneIsPlay(FC_SOLVE_SLACK, Apply(s, m));
    Child(EncodeKey(NextState(s, m)), PrunedEntry(s, m).total)
  }

  ghost function Children(s: Position, moves: seq<Move>): (children: seq<Child>)
    requires FullDeck(s) && forall m :: m in moves ==> Legal(s, m)
    ensures |children| == |moves|
  {
    if moves == [] then [] else [ChildOfMove(s, moves[0])] + Children(s, moves[1..])
  }

  lemma {:induction false} ChildrenAt(s: Position, moves: seq<Move>, k: nat)
    requires FullDeck(s) && (forall m :: m in moves ==> Legal(s, m)) && k < |moves|
    ensures Children(s, moves)[k] == ChildOfMove(s, moves[k])
  {
    if k == 0 {
    } else {
      ChildrenAt(s, moves[1..], k - 1);
    }
  }

  // What a worker makes of a key: nothing if the position is solved, else the derived keys.
  ghost function Expand(init: Position, key: Key): Option<seq<Child>> {
    var s := DecodeKey(init, key);
    if Solved(s) then None
    else if FullDeck(s) then
      GeneratedAllLegal(s);
      Some(Children(s, GeneratedMoves(s)))
    else Some([])
  }

  lemma ExpandHolds(init: Position, key: Key, m: Move)
    requires GoodKey(init, key) && Expand(init, key).Some? && Generated(DecodeKey(init, key), m)
    ensures var s := DecodeKey(init, key);
            FullDeck(s) && ChildOfMove(s, m) in Expand(init, key).value
  {
    var s := DecodeKey(init, key);
    ExpandValue(init, key, s);
    GeneratedMovesExact(s, m);
    var k :| 0 <= k < |GeneratedMoves(s)| && GeneratedMoves(s)[k] == m;
    ChildrenAt(s, GeneratedMoves(s), k);
    assert Expand(init, key).value[k] == ChildOfMove(s, m);
  }

  lemma ExpandValue(init: Position, key: Key, s: Position)
    requires GoodKey(init, key) && Expand(init, key).Some? && s == DecodeKey(init, key)
    ensures FullDeck(s) && forall m :: m in GeneratedMoves(s) ==> Legal(s, m)
    ensures Expand(init, key).value == Children(s, GeneratedMoves(s))
  {
    GoodKeyDecodes(init, key);
    GeneratedAllLegal(s);
  }

  lemma FindChild(s: Position, moves: seq<Move>, c: Child) returns (m: Move)
    requires FullDeck(s) && (forall m :: m in moves ==> Legal(s, m)) && c in Children(s, moves)
    ensures m in moves && c == ChildOfMove(s, m)
  {
    var k :| 0 <= k < |moves| && Children(s, moves)[k] == c;
    ChildrenAt(s, moves, k);
    m := moves[k];
  }

  lemma ChildIsMove(init: Position, key: Key, c: Child) returns (m: Move)
    requires GoodKey(init, key) && Expand(init, key).Some? && c in Expand(init, key).value
    ensures var s := DecodeKey(init, key);
            FullDeck(s) && Generated(s, m) && c == ChildOfMove(s, m)
  {
    var s := DecodeKey(init, key);
    ExpandValue(init, key, s);
    m := FindChild(s, GeneratedMoves(s), c);
    GeneratedMovesExact(s, m);
  }

  lemma ChildrenAreGood(init: Position, key: Key, c: Child)
    requires GoodKey(init, key) && Expand(init, key).Some? && c in Expand(init, key).value
    ensures GoodKey(init, c.key)
  {
    var m := ChildIsMove(init, key, c);
    GoodKeyDecodes(init, key);
    NextIsGood(init, DecodeKey(init, key), m);
  }

  // The generated moves solve a position exactly when they solve its pruned image.
  lemma PruneKeepsGeneratedSolvable(s: Position)
    requires FullDeck(s)
    ensures GeneratedSolvable(s) <==> GeneratedSolvable(Prune(FC_SOLVE_SLACK, s))
  {
    PruneKeepsSolvable(FC_SOLVE_SLACK, s);
    SolvableIffGenerated(s);
    SolvableIffGenerated(Prune(FC_SOLVE_SLACK, s));
  }

  // ---- Soundness of both verdicts ----

  // Each key can be expanded, none is solved, and all derived keys are among them.
  ghost predicate Closed(init: Position, keys: set<Key>) {
    forall k :: k in keys ==>
      && GoodKey(init, k) && Expand(init, k).Some?
      && forall c :: c in Expand(init, k).value ==> c.key in keys
  }

  lemma {:induction false} ClosedHasNoSolution(init: Position, keys: set<Key>, key: Key, moves: seq<Move>)
    requires Closed(init, keys) && key in keys
    ensures !IsSolution(DecodeKey(init, key), moves)
    decreases |moves|
  {
    if moves != [] && IsSolution(DecodeKey(init, key), moves) {
      var next, shorter := ShorterSolution(init, key, moves);
      ClosedHasNoSolution(init, keys, next, shorter);
    }
  }

  // A solution of a key leads to a shorter one of the same key or of one derived from it.
  lemma ShorterSolution(init: Position, key: Key, moves: seq<Move>) returns (next: Key, shorter: seq<Move>)
    requires GoodKey(init, key) && Expand(init, key).Some? && moves != [] && IsSolution(DecodeKey(init, key), moves)
    ensures next == key || exists c :: c in Expand(init, key).value && c.key == next
    ensures IsSolution(DecodeKey(init, next), shorter) && |shorter| < |moves|
  {
    var s, m := DecodeKey(init, key), moves[0];
    GoodKeyDecodes(init, key);
    var idle, g, p, q := GeneratedOrIdle(s, m);
    next := key;
    if idle {
      shorter := RearrangedSolves(Apply(s, m), s, p, q, moves[1..]);
    } else {
      var same := RearrangedSolves(Apply(s, m), Apply(s, g), p, q, moves[1..]);
      shorter := SolveNext(init, s, g, same);
      ExpandHolds(init, key, g);
      next := EncodeKey(NextState(s, g));
      assert ChildOfMove(s, g).key == next;
    }
  }

  // A solution after a move carries over to the decoded key of the pruned result.
  lemma SolveNext(init: Position, s: Position, g: Move, moves: seq<Move>) returns (shorter: seq<Move>)
    requires Descends(init, s) && IsPruned(FC_SOLVE_SLACK, s) && Legal(s, g) && IsSolution(Apply(s, g), moves)
    ensures FullDeck(NextState(s, g))
    ensures IsSolution(DecodeKey(init, EncodeKey(NextState(s, g))), shorter) && |shorter| <= |moves|
  {
    MoveKeepsDeck(s, g);
    PruneIsPlay(FC_SOLVE_SLACK, Apply(s, g));
    PruneIsAhead(FC_SOLVE_SLACK, Apply(s, g));
    var t := NextState(s, g);
    shorter := AheadSolves(FC_SOLVE_SLACK, t, Apply(s, g), moves);
    NextIsGood(init, s, g);
    KeyRoundTrip(init, t);
    AlikeSymmetric(DecodeKey(init, EncodeKey(t)), t);
    shorter := AlikeSolves(t, DecodeKey(init, EncodeKey(t)), shorter);
  }

  lemma AlikeSolvable(s: Position, t: Position)
    requires Alike(s, t)
    ensures Solvable(s) <==> Solvable(t)
  {
    AlikeSymmetric(s, t);
    if Solvable(s) {
      var moves :| IsSolution(s, moves);
      var same := AlikeSolves(s, t, moves);
    }
    if Solvable(t) {
      var moves :| IsSolution(t, moves);
      var same := AlikeSolves(t, s, moves);
    }
  }

  // The first key can be solved exactly when the deal can.
  lemma FirstKey(deal: Position)
    requires FullDeck(deal)
    ensures var init := Init(deal);
            && FullDeck(init) && GoodKey(init, EncodeKey(init))
            && (Solvable(DecodeKey(init, EncodeKey(init))) <==> Solvable(deal))
  {
    var init := Init(deal);
    PruneIsPlay(FC_SOLVE_SLACK, deal);
    DescendsFromItself(init);
    KeyRoundTrip(init, init);
    AlikeSolvable(DecodeKey(init, EncodeKey(init)), init);
    PruneKeepsSolvable(FC_SOLVE_SLACK, deal);
  }

  // "Could not solve": a closed set of keys that holds the first one.
  lemma ClosedMeansUnsolvable(deal: Position, keys: set<Key>)
    requires FullDeck(deal) && EncodeKey(Init(deal)) in keys && Closed(Init(deal), keys)
    ensures !Solvable(deal)
  {
    var init := Init(deal);
    FirstKey(deal);
    if Solvable(deal) {
      var moves :| IsSolution(DecodeKey(init, EncodeKey(init)), moves);
      ClosedHasNoSolution(init, keys, EncodeKey(init), moves);
    }
  }

  lemma SolvableBefore(s: Position, m: Move)
    requires Legal(s, m) && Solvable(Apply(s, m))
    ensures Solvable(s)
  {
    var rest :| IsSolution(Apply(s, m), rest);
    PrependMove(s, m, rest);
  }

  lemma KeySolvable(init: Position, s: Position)
    requires Descends(init, s)
    ensures Solvable(DecodeKey(init, EncodeKey(s))) <==> Solvable(s)
  {
    KeyRoundTrip(init, s);
    AlikeSolvable(DecodeKey(init, EncodeKey(s)), s);
  }

  lemma NextSolves(init: Position, s: Position, m: Move)
    requires Descends(init, s) && IsPruned(FC_SOLVE_SLACK, s) && Legal(s, m)
    requires FullDeck(NextState(s, m)) && Solvable(DecodeKey(init, EncodeKey(NextState(s, m))))
    ensures Solvable(s)
  {
    NextIsGood(init, s, m);
    KeySolvable(init, NextState(s, m));
    PruneSolvedBack(FC_SOLVE_SLACK, Apply(s, m));
    SolvableBefore(s, m);
  }

  // "Success": a derived key that can be solved makes its parent solvable.
  lemma ChildSolvesParent(init: Position, key: Key, c: Child)
    requires GoodKey(init, key) && Expand(init, key).Some? && c in Expand(init, key).value
    requires Solvable(DecodeKey(init, c.key))
    ensures Solvable(DecodeKey(init, key))
  {
    var m := ChildIsMove(init, key, c);
    GoodKeyDecodes(init, key);
    var s := DecodeKey(init, key);
    NextIsGood(init, s, m);
    assert c.key == EncodeKey(NextState(s, m));
    NextSolves(init, s, m);
  }

  lemma SolvedIsSolvable(s: Position)
    requires Solved(s)
    ensures Solvable(s)
  {
    assert IsSolution(s, []);
  }

  lemma NothingDerivedMeansSolved(init: Position, key: Key)
    requires Expand(init, key).None?
    ensures Solvable(DecodeKey(init, key))
  {
    SolvedIsSolvable(DecodeKey(init, key));
  }

  lemma DerivedAreGenerated(init: Position, key: Key)
    requires Expand(init, key).Some?
    ensures |Expand(init, key).value| <= |GeneratedMoves(DecodeKey(init, key))|
  {
  }

  // With eight columns and up to twelve freecells no key derives 256 keys.
  lemma DerivedFitByte(deal: Position, key: Key)
    requires FullDeck(deal) && |deal.cols| == 8 && |deal.cells| <= 12 && GoodKey(Init(deal), key)
    ensures Expand(Init(deal), key).Some? ==> |Expand(Init(deal), key).value| < 256
  {
    PruneIsPlay(FC_SOLVE_SLACK, deal);
    GoodKeyDecodes(Init(deal), key);
    var s := DecodeKey(Init(deal), key);
    assert |s.cols| == 8 && |s.cells| <= 12;
    if Expand(Init(deal), key).Some? {
      DerivedAreGenerated(Init(deal), key);
      GeneratedFitByte(s);
    }
  }

  lemma GeneratedFitByte(s: Position)
    requires |s.cols| == 8 && |s.cells| <= 12
    ensures |GeneratedMoves(s)| < 256
  {
    DerivedBound(s);
  }

  // What it means that a search ended this way.
  ghost predicate IsVerdict(flag: Flag, deal: Position) {
    match flag
    case DontTerminate => !Solvable(deal)
    case SolutionFoundTerminate => Solvable(deal)
    case MaxItersTerminate => true
  }
}
