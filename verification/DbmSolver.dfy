/**
 The DBM solver: the worker protocol run on the keys of a deal. Both verdicts are sound in every
 interleaving of any number of threads.
 */
module DbmSolver {
  import opened Cards
  import opened Positions
  import opened DerivedStates
  import opened DeltaStater
  import opened VarBase
  import opened Keys
  import opened Search
  import opened SolverCommon
  import opened Workers
  import opened WorkerTermination
  import opened WorkerOrder

  ghost function ChildKeys(children: seq<Child>): (keys: seq<Key>)
    ensures |keys| == |children|
  {
    seq(|children|, k requires 0 <= k < |children| => children[k].key)
  }

  ghost function KeysOnly(derived: Option<seq<Child>>): Option<seq<Key>> {
    match derived
    case None => None
    case Some(children) => Some(ChildKeys(children))
  }

  // What the threads do with a key, given the initial position.
  ghost function KeyExpander(init: Position): Expander<Key> {
    (k: Key) => KeysOnly(Expand(init, k))
  }

  // e derives what the generator, the prune and the codec derive.
  ghost predicate Faithful(e: Expander<Key>, init: Position) {
    forall k: Key {:trigger Expand(init, k)} :: e(k) == KeysOnly(Expand(init, k))
  }

  lemma KeyExpanderIsFaithful(init: Position)
    ensures Faithful(KeyExpander(init), init)
  {
  }

  lemma KeyHasChild(derived: Option<seq<Child>>, key: Key) returns (c: Child)
    requires KeysOnly(derived).Some? && key in KeysOnly(derived).value
    ensures derived.Some? && c in derived.value && c.key == key
  {
    var k :| 0 <= k < |derived.value| && ChildKeys(derived.value)[k] == key;
    c := derived.value[k];
  }

  lemma ChildHasKey(derived: Option<seq<Child>>, c: Child)
    requires derived.Some? && c in derived.value
    ensures c.key in KeysOnly(derived).value
  {
    var k :| 0 <= k < |derived.value| && derived.value[k] == c;
    assert ChildKeys(derived.value)[k] == c.key;
  }

  lemma ParentHasChild(e: Expander<Key>, init: Position, parent: Key, key: Key) returns (c: Child)
    requires Faithful(e, init) && IsParentOf(e, parent, key)
    ensures Expand(init, parent).Some? && c in Expand(init, parent).value && c.key == key
  {
    c := KeyHasChild(Expand(init, parent), key);
  }

  lemma {:induction false} RecordIsGood(e: Expander<Key>, init: Position, first: Key, records: seq<Record<Key>>, t: nat)
    requires Faithful(e, init) && GoodKey(init, first) && RecordsOk(e, first, records) && t < |records|
    ensures GoodKey(init, records[t].key)
    decreases t
  {
    if t == 0 {
    } else {
      assert LinkOk(e, records, t);
      var p := records[t].parent.value;
      RecordIsGood(e, init, first, records, p);
      var c := ParentHasChild(e, init, records[p].key, records[t].key);
      ChildrenAreGood(init, records[p].key, c);
    }
  }

  lemma {:induction false} RecordSolvesFirst(e: Expander<Key>, init: Position, first: Key, records: seq<Record<Key>>,
                                             t: nat)
    requires Faithful(e, init) && GoodKey(init, first) && RecordsOk(e, first, records) && t < |records|
    requires Solvable(DecodeKey(init, records[t].key))
    ensures Solvable(DecodeKey(init, first))
    decreases t
  {
    if t == 0 {
    } else {
      assert LinkOk(e, records, t);
      var p := records[t].parent.value;
      var c := ParentHasChild(e, init, records[p].key, records[t].key);
      RecordIsGood(e, init, first, records, p);
      ChildSolvesParent(init, records[p].key, c);
      RecordSolvesFirst(e, init, first, records, p);
    }
  }

  lemma ExpandedKey(e: Expander<Key>, init: Position, records: seq<Record<Key>>, t: nat)
    requires Faithful(e, init) && t < |records| && Expanded(e, records, t)
    ensures Expand(init, records[t].key).Some?
    ensures forall c :: c in Expand(init, records[t].key).value ==> c.key in KeysOf(records)
  {
    var derived := Expand(init, records[t].key);
    forall c | c in derived.value ensures c.key in KeysOf(records) { ChildHasKey(derived, c); }
  }

  lemma ExpandedIsClosed(e: Expander<Key>, init: Position, first: Key, records: seq<Record<Key>>)
    requires Faithful(e, init) && GoodKey(init, first) && RecordsOk(e, first, records)
    requires forall t :: 0 <= t < |records| ==> Expanded(e, records, t)
    ensures Closed(init, KeysOf(records))
  {
    forall k | k in KeysOf(records)
      ensures GoodKey(init, k) && Expand(init, k).Some?
      ensures forall c :: c in Expand(init, k).value ==> c.key in KeysOf(records)
    {
      var t :| 0 <= t < |records| && records[t].key == k;
      RecordIsGood(e, init, first, records, t);
      ExpandedKey(e, init, records, t);
    }
  }

  // The verdict on a system that has the invariant: "Could not solve" and "Success".
  lemma VerdictIsSound(e: Expander<Key>, deal: Position, s: System<Key>)
    requires FullDeck(deal) && Faithful(e, Init(deal)) && Inv(e, FirstKeyOf(deal), s)
    ensures s.threads != [] && AllDone(s) && s.sh.flag == DontTerminate ==> !Solvable(deal)
    ensures s.sh.solution.Some? ==> Solvable(deal)
  {
    if s.threads != [] && AllDone(s) && s.sh.flag == DontTerminate {
      DoneIsClosed(e, FirstKeyOf(deal), s);
      AllExpandedMeansUnsolvable(e, deal, s.sh.records);
    }
    if s.sh.solution.Some? {
      SolvedRecordSolvesDeal(e, deal, s.sh.records, s.sh.solution.value);
    }
  }

  lemma AllExpandedMeansUnsolvable(e: Expander<Key>, deal: Position, records: seq<Record<Key>>)
    requires FullDeck(deal) && Faithful(e, Init(deal)) && RecordsOk(e, FirstKeyOf(deal), records)
    requires forall t :: 0 <= t < |records| ==> Expanded(e, records, t)
    ensures !Solvable(deal)
  {
    FirstKey(deal);
    ExpandedIsClosed(e, Init(deal), FirstKeyOf(deal), records);
    assert records[0] in records;
    ClosedMeansUnsolvable(deal, KeysOf(records));
  }

  lemma SolvedRecordSolvesDeal(e: Expander<Key>, deal: Position, records: seq<Record<Key>>, t: nat)
    requires FullDeck(deal) && Faithful(e, Init(deal)) && RecordsOk(e, FirstKeyOf(deal), records) && t < |records|
    requires e(records[t].key).None?
    ensures Solvable(deal)
  {
    FirstKey(deal);
    assert Expand(Init(deal), records[t].key).None?;
    NothingDerivedMeansSolved(Init(deal), records[t].key);
    RecordSolvesFirst(e, Init(deal), FirstKeyOf(deal), records, t);
  }

  // Every interleaving of any number of threads ends with the right verdict: if all threads leave
  // and the search was not called off, the deal has no solution in the full game; if a solution
  // was reported, it has one.
  lemma EveryRunIsSound(deal: Position, limits: Limits, numThreads: nat, run: seq<StepTo<Key>>)
    requires FullDeck(deal) && numThreads > 0
    requires IsRun(KeyExpander(Init(deal)), limits, Start(FirstKeyOf(deal), numThreads), run)
    ensures var s := End(Start(FirstKeyOf(deal), numThreads), run);
            && (AllDone(s) && s.sh.flag == DontTerminate ==> !Solvable(deal) && s.sh.queue == [] && s.sh.inFlight == 0)
            && (s.sh.flag == SolutionFoundTerminate ==> Solvable(deal))
  {
    var e, first := KeyExpander(Init(deal)), FirstKeyOf(deal);
    var s := End(Start(first, numThreads), run);
    StartHasInv(e, first, numThreads);
    RunKeepsInv(e, limits, first, Start(first, numThreads), run);
    KeyExpanderIsFaithful(Init(deal));
    VerdictIsSound(e, deal, s);
    if AllDone(s) && s.sh.flag == DontTerminate { DoneIsClosed(e, first, s); }
  }

  // ---- The solution that is printed ----

  // The trail of the solved record is a chain of generated moves from the first position, so a move
  // from parent to child is always found.
  lemma TraceHasMoves(e: Expander<Key>, init: Position, first: Key, records: seq<Record<Key>>, t: nat, k: nat)
    returns (m: Move)
    requires Faithful(e, init) && GoodKey(init, first) && RecordsOk(e, first, records) && ParentsBefore(records)
    requires t < |records| && 0 < k < |Trace(records, t)|
    ensures var trail := Trace(records, t);
            && trail[k] < |records| && trail[k - 1] < |records|
            && var from := DecodeKey(init, records[trail[k]].key);
               Generated(from, m) && FullDeck(NextState(from, m))
               && EncodeKey(NextState(from, m)) == records[trail[k - 1]].key
  {
    var trail := Trace(records, t);
    TraceIsTrail(e, first, records, t);
    var parent := records[trail[k]].key;
    var c := ParentHasChild(e, init, parent, records[trail[k - 1]].key);
    RecordIsGood(e, init, first, records, trail[k]);
    m := ChildIsMove(init, parent, c);
    GoodKeyDecodes(init, parent);
    NextIsGood(init, DecodeKey(init, parent), m);
  }

  // ---- Reference counts fit a byte ----

  lemma KeysFitByte(e: Expander<Key>, deal: Position, key: Key)
    requires FullDeck(deal) && |deal.cols| == 8 && |deal.cells| <= 12
    requires Faithful(e, Init(deal)) && GoodKey(Init(deal), key)
    ensures e(key).Some? ==> |e(key).value| < 256
  {
    DerivedFitByte(deal, key);
    assert e(key) == KeysOnly(Expand(Init(deal), key));
  }

  lemma ExpanderFitsByte(e: Expander<Key>, deal: Position, records: seq<Record<Key>>, p: nat)
    requires FullDeck(deal) && |deal.cols| == 8 && |deal.cells| <= 12
    requires Faithful(e, Init(deal)) && RecordsOk(e, FirstKeyOf(deal), records) && p < |records|
    ensures e(records[p].key).Some? ==> |e(records[p].key).value| < 256
  {
    FirstKey(deal);
    RecordIsGood(e, Init(deal), FirstKeyOf(deal), records, p);
    KeysFitByte(e, deal, records[p].key);
  }

  // In every run the reference count byte of a record is the number of its children.
  lemma RefcountsAreExact(deal: Position, limits: Limits, numThreads: nat, run: seq<StepTo<Key>>, p: nat)
    requires FullDeck(deal) && |deal.cols| == 8 && |deal.cells| <= 12
    requires IsRun(KeyExpander(Init(deal)), limits, Start(FirstKeyOf(deal), numThreads), run)
    requires p < |End(Start(FirstKeyOf(deal), numThreads), run).sh.records|
    ensures var records := End(Start(FirstKeyOf(deal), numThreads), run).sh.records;
            records[p].refcount == ChildCount(records, p)
  {
    var e, first := KeyExpander(Init(deal)), FirstKeyOf(deal);
    StartHasInv(e, first, numThreads);
    RunKeepsInv(e, limits, first, Start(first, numThreads), run);
    KeyExpanderIsFaithful(Init(deal));
    ExpanderFitsByte(e, deal, End(Start(first, numThreads), run).sh.records, p);
    RefcountNeverWraps(e, limits, first, numThreads, run, p);
  }

  // ---- How long the threads run ----

  lemma RecordsAreFew(e: Expander<Key>, init: Position, first: Key, records: seq<Record<Key>>)
    requires Faithful(e, init) && GoodKey(init, first) && RecordsOk(e, first, records)
    ensures |records| <= Power256(KEY_LEN)
  {
    DistinctKeys(records);
    forall k | k in KeysOf(records) ensures |k| == KEY_LEN {
      var t :| 0 <= t < |records| && records[t].key == k;
      RecordIsGood(e, init, first, records, t);
    }
    KeysAreFew(KeysOf(records));
  }

  lemma DealHasFewRecords(deal: Position)
    requires FullDeck(deal)
    ensures FewRecords(KeyExpander(Init(deal)), FirstKeyOf(deal), Power256(KEY_LEN))
  {
    var e, first := KeyExpander(Init(deal)), FirstKeyOf(deal);
    FirstKey(deal);
    KeyExpanderIsFaithful(Init(deal));
    forall records: seq<Record<Key>> | RecordsOk(e, first, records) ensures |records| <= Power256(KEY_LEN) {
      RecordsAreFew(e, Init(deal), first, records);
    }
  }

  // In every interleaving the steps other than polls of an empty queue are bounded.
  lemma EveryRunEnds(deal: Position, limits: Limits, numThreads: nat, run: seq<StepTo<Key>>)
    requires FullDeck(deal) && IsRun(KeyExpander(Init(deal)), limits, Start(FirstKeyOf(deal), numThreads), run)
    ensures |run| <= 5 * Power256(KEY_LEN) + 2 * numThreads + 2 * Polls(Start(FirstKeyOf(deal), numThreads), run)
  {
    DealHasFewRecords(deal);
    RunsEnd(KeyExpander(Init(deal)), limits, FirstKeyOf(deal), Power256(KEY_LEN), numThreads, run);
  }

  // After any run the threads can still reach a verdict, and it is right.
  lemma VerdictInReach(deal: Position, limits: Limits, numThreads: nat, run: seq<StepTo<Key>>)
    returns (rest: seq<StepTo<Key>>)
    requires FullDeck(deal) && numThreads > 0
    requires IsRun(KeyExpander(Init(deal)), limits, Start(FirstKeyOf(deal), numThreads), run)
    ensures IsRun(KeyExpander(Init(deal)), limits, Start(FirstKeyOf(deal), numThreads), run + rest)
    ensures var s := End(Start(FirstKeyOf(deal), numThreads), run + rest);
            AllDone(s) && IsVerdict(s.sh.flag, deal) && LimitsKept(limits, s.sh)
  {
    var e, first, s := KeyExpander(Init(deal)), FirstKeyOf(deal), Start(FirstKeyOf(deal), numThreads);
    DealHasFewRecords(deal);
    StartHasInv(e, first, numThreads);
    RunKeepsInv(e, limits, first, s, run);
    rest := CanFinish(e, limits, first, Power256(KEY_LEN), End(s, run));
    RunJoin(e, limits, s, run, rest);
    EveryRunIsSound(deal, limits, numThreads, run + rest);
    StartInOrder(first, numThreads, limits);
    RunKeepsLimits(e, limits, s, run + rest);
  }

  // In every interleaving the stored keys are taken in the order they were stored.
  lemma EveryRunInOrder(deal: Position, limits: Limits, numThreads: nat, run: seq<StepTo<Key>>)
    requires FullDeck(deal) && IsRun(KeyExpander(Init(deal)), limits, Start(FirstKeyOf(deal), numThreads), run)
    ensures QueueInOrder(End(Start(FirstKeyOf(deal), numThreads), run).sh)
  {
    StartInOrder(FirstKeyOf(deal), numThreads, limits);
    TakenInOrder(KeyExpander(Init(deal)), limits, Start(FirstKeyOf(deal), numThreads), run);
  }

  lemma StatesAreFew(deal: Position, limits: Limits, numThreads: nat, run: seq<StepTo<Key>>)
    requires FullDeck(deal) && IsRun(KeyExpander(Init(deal)), limits, Start(FirstKeyOf(deal), numThreads), run)
    ensures var sh := End(Start(FirstKeyOf(deal), numThreads), run).sh;
            sh.numProcessed <= sh.numStates <= Power256(KEY_LEN)
  {
    var e, first := KeyExpander(Init(deal)), FirstKeyOf(deal);
    StartHasInv(e, first, numThreads);
    RunKeepsInv(e, limits, first, Start(first, numThreads), run);
    DealHasFewRecords(deal);
    assert RecordsOk(e, first, End(Start(first, numThreads), run).sh.records);
  }

  // With limits that no search can reach the verdict is one of the two that decide the deal.
  lemma SearchDecides(deal: Position, limits: Limits, numThreads: nat, run: seq<StepTo<Key>>)
    returns (rest: seq<StepTo<Key>>)
    requires FullDeck(deal) && numThreads > 0
    requires limits.maxProcessed > Power256(KEY_LEN) && limits.maxStates > Power256(KEY_LEN)
    requires IsRun(KeyExpander(Init(deal)), limits, Start(FirstKeyOf(deal), numThreads), run)
    ensures IsRun(KeyExpander(Init(deal)), limits, Start(FirstKeyOf(deal), numThreads), run + rest)
    ensures var s := End(Start(FirstKeyOf(deal), numThreads), run + rest);
            AllDone(s) && s.sh.flag == if Solvable(deal) then SolutionFoundTerminate else DontTerminate
  {
    rest := VerdictInReach(deal, limits, numThreads, run);
    StatesAreFew(deal, limits, numThreads, run + rest);
    NoLimitReached(deal, limits, End(Start(FirstKeyOf(deal), numThreads), run + rest).sh);
  }

  lemma NoLimitReached(deal: Position, limits: Limits, sh: Shared<Key>)
    requires LimitsKept(limits, sh) && IsVerdict(sh.flag, deal) && sh.numProcessed <= sh.numStates <= Power256(KEY_LEN)
    requires limits.maxProcessed > Power256(KEY_LEN) && limits.maxStates > Power256(KEY_LEN)
    ensures sh.flag == if Solvable(deal) then SolutionFoundTerminate else DontTerminate
  {
  }
}
