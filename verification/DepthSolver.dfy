/**
 The depth solver: the batch protocol run on the keys of a deal. The depth of a key is the number
 of irreversible moves since the deal, on every path, and stays below the number of collections.
 */
module DepthSolver {
  import opened Cards
  import opened Positions
  import opened HornePrune
  import opened Potential
  import opened Placement
  import opened VarBase
  import opened DebondtRoundTrip
  import opened Keys
  import opened Search
  import opened SolverCommon
  import opened DepthWorkers
  import opened DepthSweep
  import opened DepthTermination
  import opened DepthOrder

  const MAX_FCC_DEPTH := KING * 4 * 1 * 2

  // ---- The range of the potential ----

  lemma {:induction false} ColumnBreaksBound(col: Column)
    ensures ColumnBreaks(col) + (if col == [] then 0 else 1) <= |col|
  {
    if |col| > 1 { ColumnBreaksBound(col[..|col| - 1]); }
  }

  lemma {:induction false} BreaksBound(cols: seq<Column>)
    ensures Breaks(cols) <= |Tableau(cols)|
    ensures |Tableau(cols)| > 0 ==> Breaks(cols) < |Tableau(cols)|
  {
    if cols == [] {
    } else {
      BreaksBound(cols[1..]);
      ColumnBreaksBound(cols[0]);
      assert |multiset(cols[0])| == |cols[0]|;
    }
  }

  lemma PhiRange(s: Position)
    requires FullDeck(s)
    ensures -51 <= Phi(s) <= 52
  {
    assert forall u: Suit :: s.found[u] <= KING;
    BreaksBound(s.cols);
    TableauFitsDeck(s);
  }

  // ---- Depth is a function of the position ----

  ghost function DeepOnly(derived: Option<seq<Child>>): Option<seq<DeepKey<Key>>> {
    match derived
    case None => None
    case Some(children) =>
      Some(seq(|children|, k requires 0 <= k < |children| => DeepKey(children[k].key, children[k].count)))
  }

  ghost predicate FaithfulDeep(e: DeepExpander<Key>, init: Position) {
    forall k: Key {:trigger Expand(init, k)} :: e(k) == DeepOnly(Expand(init, k))
  }

  // What the workers do with a key, given the initial position.
  ghost function DeepKeyExpander(init: Position): DeepExpander<Key> {
    (k: Key) => DeepOnly(Expand(init, k))
  }

  lemma DeepKeyExpanderIsFaithful(init: Position)
    ensures FaithfulDeep(DeepKeyExpander(init), init)
  {
  }

  lemma DeepHasChild(derived: Option<seq<Child>>, c: DeepKey<Key>)
    requires DeepOnly(derived).Some? && c in DeepOnly(derived).value
    ensures derived.Some? && Child(c.key, c.count) in derived.value
  {
    var k :| 0 <= k < |derived.value| && DeepOnly(derived).value[k] == c;
    assert derived.value[k] == Child(c.key, c.count);
  }

  lemma ChildHasDeep(derived: Option<seq<Child>>, c: Child)
    requires derived.Some? && c in derived.value
    ensures DeepKey(c.key, c.count) in DeepOnly(derived).value
  {
    var k :| 0 <= k < |derived.value| && derived.value[k] == c;
    assert DeepOnly(derived).value[k] == DeepKey(c.key, c.count);
  }

  ghost function KeyPhi(init: Position): Key -> int {
    (k: Key) => Phi(DecodeKey(init, k))
  }

  ghost function IsGood(init: Position): Key -> bool {
    (k: Key) => GoodKey(init, k)
  }

  lemma EncodedSamePhi(init: Position, s: Position)
    requires Descends(init, s)
    ensures Phi(DecodeKey(init, EncodeKey(s))) == Phi(s)
  {
    KeyRoundTrip(init, s);
    AlikeSamePhi(DecodeKey(init, EncodeKey(s)), s);
  }

  // The count of a derived key is the growth of the potential.
  lemma CountIsPhi(init: Position, key: Key, c: Child)
    requires GoodKey(init, key) && Expand(init, key).Some? && c in Expand(init, key).value
    ensures GoodKey(init, c.key) && Phi(DecodeKey(init, c.key)) == Phi(DecodeKey(init, key)) + c.count
  {
    ChildrenAreGood(init, key, c);
    var m := ChildIsMove(init, key, c);
    GoodKeyDecodes(init, key);
    var s := DecodeKey(init, key);
    NextIsGood(init, s, m);
    EncodedSamePhi(init, NextState(s, m));
  }

  lemma DepthBelowMax(init: Position, key: Key)
    requires FullDeck(init) && GoodKey(init, key)
    ensures Phi(DecodeKey(init, key)) - Phi(init) < 104 == MAX_FCC_DEPTH
  {
    var t := DecodedDeck(init, key);
    PhiSpan(init, t);
  }

  lemma DecodedDeck(init: Position, key: Key) returns (t: Position)
    requires GoodKey(init, key)
    ensures t == DecodeKey(init, key) && FullDeck(t)
  {
    GoodKeyDecodes(init, key);
    t := DecodeKey(init, key);
  }

  lemma PhiSpan(s: Position, t: Position)
    requires FullDeck(s) && FullDeck(t)
    ensures Phi(t) - Phi(s) < 104 == MAX_FCC_DEPTH
  {
    PhiRange(s);
    PhiRange(t);
  }

  ghost function DealGrading(e: DeepExpander<Key>, init: Position, first: Key): Grading<Key> {
    Grading(e, IsGood(init), KeyPhi(init), Phi(init), MAX_FCC_DEPTH, first)
  }

  lemma DeepChildIsGraded(e: DeepExpander<Key>, init: Position, k: Key, c: DeepKey<Key>)
    requires FaithfulDeep(e, init) && GoodKey(init, k) && e(k).Some? && c in e(k).value
    ensures IsGood(init)(c.key) && KeyPhi(init)(c.key) == KeyPhi(init)(k) + c.count
  {
    DeepHasChild(Expand(init, k), c);
    CountIsPhi(init, k, Child(c.key, c.count));
  }

  lemma GradingHolds(e: DeepExpander<Key>, deal: Position)
    requires FullDeck(deal) && FaithfulDeep(e, Init(deal))
    ensures GradingOk(DealGrading(e, Init(deal), FirstKeyOf(deal)))
  {
    FirstKey(deal);
    var init := Init(deal);
    var g := DealGrading(e, init, EncodeKey(init));
    PruneIsPlay(FC_SOLVE_SLACK, deal);
    DescendsFromItself(init);
    EncodedSamePhi(init, init);
    forall k: Key | g.good(k) && e(k).Some?
      ensures forall c :: c in e(k).value ==> g.good(c.key) && g.phi(c.key) == g.phi(k) + c.count
    {
      forall c | c in e(k).value ensures g.good(c.key) && g.phi(c.key) == g.phi(k) + c.count {
        DeepChildIsGraded(e, init, k, c);
      }
    }
    forall k: Key | g.good(k) ensures g.phi(k) - g.base < g.depths { DepthBelowMax(init, k); }
  }

  // ---- Both verdicts of the depth solver ----

  lemma {:induction false} DeepRecordSolvesFirst(g: Grading<Key>, init: Position, sh: DeepShared<Key>, d: nat, t: nat)
    requires FaithfulDeep(g.e, init) && g.good == IsGood(init) && DeepSharedOk(g, sh)
    requires d < |sh.colls| && t < |sh.colls[d].records| && Solvable(DecodeKey(init, sh.colls[d].records[t].key))
    ensures Solvable(DecodeKey(init, g.first))
    decreases d, t
  {
    assert CollOk(g, sh.colls, d);
    assert RecordOk(g, sh.colls, d, t);
    var r := sh.colls[d].records[t];
    if r.parent.Some? {
      var p := r.parent.value;
      var parent := sh.colls[p.depth].records[p.index].key;
      assert CollOk(g, sh.colls, p.depth);
      assert RecordOk(g, sh.colls, p.depth, p.index);
      var c :| c in g.e(parent).value && c.key == r.key;
      DeepHasChild(Expand(init, parent), c);
      ChildSolvesParent(init, parent, Child(c.key, c.count));
      DeepRecordSolvesFirst(g, init, sh, p.depth, p.index);
    }
  }

  lemma DeepClosed(g: Grading<Key>, init: Position, sh: DeepShared<Key>)
    requires FaithfulDeep(g.e, init) && g.good == IsGood(init) && DeepSharedOk(g, sh)
    requires forall d, t :: 0 <= d < |sh.colls| && 0 <= t < |sh.colls[d].records| ==> DeepExpanded(g, sh.colls, d, t)
    ensures Closed(init, AllDeepKeys(sh.colls))
  {
    forall k | k in AllDeepKeys(sh.colls)
      ensures GoodKey(init, k) && Expand(init, k).Some?
      ensures forall c :: c in Expand(init, k).value ==> c.key in AllDeepKeys(sh.colls)
    {
      var d, r :| 0 <= d < |sh.colls| && r in sh.colls[d].records && r.key == k;
      var t :| 0 <= t < |sh.colls[d].records| && sh.colls[d].records[t] == r;
      assert CollOk(g, sh.colls, d);
      assert RecordOk(g, sh.colls, d, t);
      assert DeepExpanded(g, sh.colls, d, t);
      DeepChildrenStored(g, init, sh, d, t);
    }
  }

  lemma DeepChildrenStored(g: Grading<Key>, init: Position, sh: DeepShared<Key>, d: nat, t: nat)
    requires FaithfulDeep(g.e, init) && d < |sh.colls| && t < |sh.colls[d].records| && DeepExpanded(g, sh.colls, d, t)
    ensures Expand(init, sh.colls[d].records[t].key).Some?
    ensures forall c :: c in Expand(init, sh.colls[d].records[t].key).value ==> c.key in AllDeepKeys(sh.colls)
  {
    var derived := Expand(init, sh.colls[d].records[t].key);
    forall c | c in derived.value ensures c.key in AllDeepKeys(sh.colls) {
      ChildHasDeep(derived, c);
      assert DeepKey(c.key, c.count) in g.e(sh.colls[d].records[t].key).value;
      assert c.key in DeepKeys(sh.colls[d + c.count].records);
    }
  }

  lemma DeepSolved(g: Grading<Key>, init: Position, sh: DeepShared<Key>)
    requires FaithfulDeep(g.e, init) && g.good == IsGood(init) && DeepSharedOk(g, sh) && sh.solution.Some?
    ensures Solvable(DecodeKey(init, g.first))
  {
    var r := sh.solution.value;
    var k := sh.colls[r.depth].records[r.index].key;
    assert Expand(init, k).None?;
    NothingDerivedMeansSolved(init, k);
    DeepRecordSolvesFirst(g, init, sh, r.depth, r.index);
  }

  lemma DeepExhausted(g: Grading<Key>, init: Position, s: DeepSystem<Key>)
    requires FaithfulDeep(g.e, init) && g.good == IsGood(init) && DeepInv(g, s)
    requires s.sh.currDepth == |s.sh.colls| && s.sh.flag == DontTerminate
    ensures Closed(init, AllDeepKeys(s.sh.colls)) && g.first in AllDeepKeys(s.sh.colls)
  {
    DepthIsDrained(g, s);
    DeepClosed(g, init, s.sh);
    assert s.sh.colls[0].records[0] in s.sh.colls[0].records;
  }

  lemma DeepVerdict(e: DeepExpander<Key>, deal: Position, s: DeepSystem<Key>)
    requires FullDeck(deal) && FaithfulDeep(e, Init(deal))
    requires DeepInv(DealGrading(e, Init(deal), FirstKeyOf(deal)), s)
    ensures s.sh.currDepth == MAX_FCC_DEPTH && s.sh.flag == DontTerminate ==> !Solvable(deal)
    ensures s.sh.solution.Some? ==> Solvable(deal)
  {
    var g := DealGrading(e, Init(deal), FirstKeyOf(deal));
    FirstKey(deal);
    if s.sh.currDepth == MAX_FCC_DEPTH && s.sh.flag == DontTerminate {
      DeepExhausted(g, Init(deal), s);
      ClosedMeansUnsolvable(deal, AllDeepKeys(s.sh.colls));
    }
    if s.sh.solution.Some? { DeepSolved(g, Init(deal), s.sh); }
  }

  ghost function FirstSystem(deal: Position, numThreads: nat): DeepSystem<Key>
    requires FullDeck(deal)
  {
    DeepStart(FirstKeyOf(deal), MAX_FCC_DEPTH, numThreads)
  }

  // Every interleaving of any number of workers with any batch size, depth after depth: a search
  // that ends without being called off proves the deal unsolvable, and a reported solution is one.
  lemma EveryDeepRunIsSound(deal: Position, limits: Limits, maxBatch: nat, numThreads: nat, run: seq<DeepStep<Key>>)
    requires FullDeck(deal) && maxBatch > 0 && numThreads > 0
    requires IsDeepRun(DeepKeyExpander(Init(deal)), limits, maxBatch, FirstSystem(deal, numThreads), run)
    ensures var s := DeepEnd(FirstSystem(deal, numThreads), run);
            && (s.sh.currDepth == MAX_FCC_DEPTH && s.sh.flag == DontTerminate ==> !Solvable(deal))
            && (s.sh.flag == SolutionFoundTerminate ==> Solvable(deal))
  {
    var e := DeepKeyExpander(Init(deal));
    var g := DealGrading(e, Init(deal), FirstKeyOf(deal));
    DeepKeyExpanderIsFaithful(Init(deal));
    GradingHolds(e, deal);
    DeepStartHasInv(g, numThreads);
    DeepRunKeepsInv(g, limits, maxBatch, FirstSystem(deal, numThreads), run);
    DeepVerdict(e, deal, DeepEnd(FirstSystem(deal, numThreads), run));
  }

  // ---- How long the workers run ----

  lemma DealHasFewKeys(deal: Position)
    requires FullDeck(deal)
    ensures FewKeys(DealGrading(DeepKeyExpander(Init(deal)), Init(deal), FirstKeyOf(deal)), Power256(KEY_LEN))
  {
    var g := DealGrading(DeepKeyExpander(Init(deal)), Init(deal), FirstKeyOf(deal));
    forall keys: set<Key> | AllGood(g, keys) ensures |keys| <= Power256(KEY_LEN) {
      forall k | k in keys ensures |k| == KEY_LEN { assert g.good(k) && GoodKey(Init(deal), k); }
      KeysAreFew(keys);
    }
  }

  // In every run the steps that are not spurious wake-ups are bounded, and what was processed and what
  // is queued is what is stored, at most as many keys as sixteen bytes tell apart.
  lemma EveryDeepRunEnds(deal: Position, limits: Limits, maxBatch: nat, numThreads: nat, run: seq<DeepStep<Key>>)
    requires FullDeck(deal) && maxBatch > 0 && numThreads > 0
    requires IsDeepRun(DeepKeyExpander(Init(deal)), limits, maxBatch, FirstSystem(deal, numThreads), run)
    ensures |run| <= MAX_FCC_DEPTH * DepthWeight(numThreads) + Power256(KEY_LEN) * ItemWeight(numThreads)
                       + 2 * numThreads + 2 * SpuriousWakeUps(FirstSystem(deal, numThreads), run)
    ensures var sh := DeepEnd(FirstSystem(deal, numThreads), run).sh;
            && sh.numProcessed + sh.numInQueue == sh.numStates == |AllDeepKeys(sh.colls)| <= Power256(KEY_LEN)
            && sh.numInQueue >= 0
  {
    var e := DeepKeyExpander(Init(deal));
    DeepKeyExpanderIsFaithful(Init(deal));
    GradingHolds(e, deal);
    DealHasFewKeys(deal);
    DeepRunsEnd(DealGrading(e, Init(deal), FirstKeyOf(deal)), limits, maxBatch, Power256(KEY_LEN), numThreads, run);
  }

  // After any run the workers can still reach a verdict without spurious wake-ups, and it is right.
  lemma DeepVerdictInReach(deal: Position, limits: Limits, maxBatch: nat, numThreads: nat, run: seq<DeepStep<Key>>)
    returns (rest: seq<DeepStep<Key>>)
    requires FullDeck(deal) && maxBatch > 0 && numThreads > 0
    requires IsDeepRun(DeepKeyExpander(Init(deal)), limits, maxBatch, FirstSystem(deal, numThreads), run)
    ensures IsDeepRun(DeepKeyExpander(Init(deal)), limits, maxBatch, FirstSystem(deal, numThreads), run + rest)
    ensures SpuriousWakeUps(DeepEnd(FirstSystem(deal, numThreads), run), rest) == 0
    ensures var s := DeepEnd(FirstSystem(deal, numThreads), run + rest);
            Over(s) && IsVerdict(s.sh.flag, deal) && LimitsKept(limits, s.sh)
  {
    var e, s := DeepKeyExpander(Init(deal)), FirstSystem(deal, numThreads);
    var g := DealGrading(e, Init(deal), FirstKeyOf(deal));
    DeepKeyExpanderIsFaithful(Init(deal));
    GradingHolds(e, deal);
    DealHasFewKeys(deal);
    rest := DeepFinish(g, limits, maxBatch, Power256(KEY_LEN), numThreads, run);
    OverIsVerdict(deal, limits, maxBatch, numThreads, run + rest);
    EveryDeepRunInOrder(deal, limits, maxBatch, numThreads, run + rest);
  }

  // In every run each depth hands out its records in the order they were stored, and the search is called
  // off for its limits only when one was reached.
  lemma EveryDeepRunInOrder(deal: Position, limits: Limits, maxBatch: nat, numThreads: nat, run: seq<DeepStep<Key>>)
    requires FullDeck(deal)
    requires IsDeepRun(DeepKeyExpander(Init(deal)), limits, maxBatch, FirstSystem(deal, numThreads), run)
    ensures QueuesInOrder(DeepEnd(FirstSystem(deal, numThreads), run).sh.colls)
    ensures LimitsKept(limits, DeepEnd(FirstSystem(deal, numThreads), run).sh)
  {
    StartInOrder(FirstKeyOf(deal), MAX_FCC_DEPTH, numThreads, limits);
    RunInOrder(DeepKeyExpander(Init(deal)), limits, maxBatch, FirstSystem(deal, numThreads), run);
  }

  // With limits that no search can reach the verdict is one of the two that decide the deal.
  lemma DeepSearchDecides(deal: Position, limits: Limits, maxBatch: nat, numThreads: nat, run: seq<DeepStep<Key>>)
    returns (rest: seq<DeepStep<Key>>)
    requires FullDeck(deal) && maxBatch > 0 && numThreads > 0
    requires limits.maxProcessed > Power256(KEY_LEN) && limits.maxStates > Power256(KEY_LEN)
    requires IsDeepRun(DeepKeyExpander(Init(deal)), limits, maxBatch, FirstSystem(deal, numThreads), run)
    ensures IsDeepRun(DeepKeyExpander(Init(deal)), limits, maxBatch, FirstSystem(deal, numThreads), run + rest)
    ensures var s := DeepEnd(FirstSystem(deal, numThreads), run + rest);
            Over(s) && s.sh.flag == if Solvable(deal) then SolutionFoundTerminate else DontTerminate
  {
    rest := DeepVerdictInReach(deal, limits, maxBatch, numThreads, run);
    EveryDeepRunEnds(deal, limits, maxBatch, numThreads, run + rest);
  }

  lemma OverIsVerdict(deal: Position, limits: Limits, maxBatch: nat, numThreads: nat, run: seq<DeepStep<Key>>)
    requires FullDeck(deal) && maxBatch > 0 && numThreads > 0
    requires IsDeepRun(DeepKeyExpander(Init(deal)), limits, maxBatch, FirstSystem(deal, numThreads), run)
    requires var s := DeepEnd(FirstSystem(deal, numThreads), run);
             && Over(s) && |s.sh.colls| == MAX_FCC_DEPTH && s.sh.currDepth <= MAX_FCC_DEPTH
             && (s.sh.flag == SolutionFoundTerminate <==> s.sh.solution.Some?)
    ensures IsVerdict(DeepEnd(FirstSystem(deal, numThreads), run).sh.flag, deal)
  {
    EveryDeepRunIsSound(deal, limits, maxBatch, numThreads, run);
  }

  // ---- Sweeping old records ----

  // With eight columns and up to twelve freecells a byte counts the records derived from one.
  lemma DealFitsByte(e: DeepExpander<Key>, deal: Position)
    requires FullDeck(deal) && |deal.cols| == 8 && |deal.cells| <= 12 && FaithfulDeep(e, Init(deal))
    ensures FitsByte(DealGrading(e, Init(deal), FirstKeyOf(deal)))
  {
    forall k: Key | IsGood(Init(deal))(k) && e(k).Some? ensures |e(k).value| < 256 { KeyFitsByte(e, deal, k); }
  }

  lemma KeyFitsByte(e: DeepExpander<Key>, deal: Position, k: Key)
    requires FullDeck(deal) && |deal.cols| == 8 && |deal.cells| <= 12 && FaithfulDeep(e, Init(deal))
    requires GoodKey(Init(deal), k) && e(k).Some?
    ensures |e(k).value| < 256
  {
    DerivedFitByte(deal, k);
    assert e(k) == DeepOnly(Expand(Init(deal), k));
  }

  // In every run of the depth solver the sweeps leave the counts exact and the traces whole.
  lemma DealSweepsSafely(deal: Position, limits: Limits, maxBatch: nat, numThreads: nat, run: seq<SweepStep<Key>>)
    requires FullDeck(deal) && |deal.cols| == 8 && |deal.cells| <= 12 && maxBatch > 0 && numThreads > 0
    requires IsSweepRun(DeepKeyExpander(Init(deal)), limits, maxBatch, FirstSystem(deal, numThreads), FirstTable(), run)
    ensures var (s, t) := SweepEnd(FirstSystem(deal, numThreads), FirstTable(), run); SweptSafely(s.sh, t)
  {
    var e := DeepKeyExpander(Init(deal));
    DeepKeyExpanderIsFaithful(Init(deal));
    GradingHolds(e, deal);
    DealFitsByte(e, deal);
    EverySweepIsSafe(DealGrading(e, Init(deal), FirstKeyOf(deal)), limits, maxBatch, numThreads, run);
  }
}
