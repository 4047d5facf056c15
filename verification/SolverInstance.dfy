/**
 The solver instance as the threads change it, the worker loop run by a single thread, and the
 whole solver for a deal with its verdict.
 */
module SolverInstance {
  import opened Cards
  import opened Positions
  import opened HornePrune
  import opened Boards
  import opened DerivedStates
  import opened VarBase
  import opened DeltaStater
  import opened Keys
  import opened Search
  import opened SolverCommon
  import opened Workers
  import opened WorkerOrder
  import opened DbmSolver

  class Instance {
    const limits: Limits
    var store: set<Key>
    var records: seq<Record<Key>>
    var queue: seq<nat>
    var inFlight: int
    var shouldTerminate: Flag
    var solution: Option<nat>
    var numStates: nat
    var numProcessed: nat
    var numInQueue: int

    function Abs(): Shared<Key>
      reads this
    {
      Shared(records, queue, inFlight, shouldTerminate, solution, numStates, numProcessed, numInQueue)
    }

    ghost predicate Valid()
      reads this
    {
      && store == KeysOf(records)
      && (shouldTerminate == MaxItersTerminate ==> numProcessed >= limits.maxProcessed || numStates >= limits.maxStates)
    }

    // The instance with the first key stored and queued.
    constructor (first: Key, limits: Limits)
      ensures Valid() && Abs() == FirstRecord(first) && this.limits == limits
    {
      this.limits := limits;
      store := {first};
      records, queue := [Record(first, None, 0)], [0];
      inFlight, shouldTerminate, solution := 0, DontTerminate, None;
      numStates, numProcessed, numInQueue := 1, 0, 1;
    }

    method Increment()
      requires Valid()
      modifies this`numInQueue, this`inFlight, this`numProcessed, this`shouldTerminate
      ensures Valid() && numInQueue == old(numInQueue) - 1 && inFlight == old(inFlight) + 1
      ensures numProcessed == old(numProcessed) + 1
      ensures shouldTerminate == if numProcessed >= limits.maxProcessed || numStates >= limits.maxStates
                                 then MaxItersTerminate else old(shouldTerminate)
    {
      numInQueue := numInQueue - 1;
      inFlight := inFlight + 1;
      numProcessed := numProcessed + 1;
      if numProcessed >= limits.maxProcessed || numStates >= limits.maxStates {
        shouldTerminate := MaxItersTerminate;
      }
    }

    // The critical section at the top of the worker loop.
    method TakeItem(hadItem: bool, item: Option<nat>, seen: int, ghost th: Thread<Key>)
      returns (item': Option<nat>, seen': int)
      requires Valid() && th.pc == Top && th.prev.Some? == hadItem && th.item == item && th.seen == seen
      modifies this
      ensures Valid()
      ensures TopStep(limits, old(Abs()), th, Abs(), th.(pc := Check, item := item', seen := seen'))
      ensures old(shouldTerminate == DontTerminate && queue != []) ==>
                item' == Some(old(queue)[0]) && queue == old(queue)[1..] && numProcessed == old(numProcessed) + 1
    {
      item', seen' := item, seen;
      if hadItem {
        inFlight := inFlight - 1;
      }
      if shouldTerminate == DontTerminate {
        if queue != [] {
          item' := Some(queue[0]);
          queue := queue[1..];
          Increment();
        } else {
          item' := None;
        }
        seen' := inFlight;
      }
    }

    // Inserts a key that is not stored yet and counts it with its parent.
    method InsertKeyValue(key: Key, parent: nat) returns (token: Option<nat>)
      requires Valid() && parent < |records|
      modifies this`store, this`records
      ensures Valid()
      ensures token.Some? <==> key !in KeysOf(old(records))
      ensures token.None? ==> records == old(records)
      ensures token.Some? ==>
                && token.value == |old(records)|
                && records == InsertKey(old(Abs()), key, parent).records
    {
      if key in store {
        return None;
      }
      token := Some(|records|);
      var p := records[parent];
      InsertedKeys(records, key, parent);
      records := records[parent := p.(refcount := (p.refcount + 1) % 256)] + [Record(key, Some(parent), 0)];
      store := store + {key};
    }

    method CheckKey(key: Key, parent: nat)
      requires Valid() && parent < |records|
      modifies this
      ensures Valid() && Abs() == InsertKey(old(Abs()), key, parent)
    {
      var token := InsertKeyValue(key, parent);
      if token.Some? {
        numInQueue := numInQueue + 1;
        numStates := numStates + 1;
        queue := queue + [token.value];
      }
    }

    // The critical section that inserts the derived keys.
    method CheckMultipleKeys(keys: seq<Key>, parent: nat)
      requires Valid() && parent < |records|
      modifies this
      ensures Valid() && Abs() == InsertKeys(old(Abs()), keys, parent)
    {
      for k := 0 to |keys|
        invariant Valid() && parent < |records|
        invariant InsertKeys(Abs(), keys[k..], parent) == InsertKeys(old(Abs()), keys, parent)
      {
        assert keys[k..][0] == keys[k] && keys[k..][1..] == keys[k + 1..];
        CheckKey(keys[k], parent);
      }
    }

    method ReportSolution(item: nat)
      requires Valid()
      modifies this`shouldTerminate, this`solution
      ensures Valid() && Abs() == FoundSolution(old(Abs()), item)
    {
      shouldTerminate := SolutionFoundTerminate;
      solution := Some(item);
    }
  }

  lemma InsertedKeys(records: seq<Record<Key>>, key: Key, parent: nat)
    requires parent < |records|
    ensures forall p: Record<Key> :: p.key == records[parent].key ==>
              KeysOf(records[parent := p] + [Record(key, Some(parent), 0)]) == KeysOf(records) + {key}
  {
    forall p: Record<Key> | p.key == records[parent].key
      ensures KeysOf(records[parent := p] + [Record(key, Some(parent), 0)]) == KeysOf(records) + {key}
    {
      var after := records[parent := p] + [Record(key, Some(parent), 0)];
      forall k | k in KeysOf(after) ensures k in KeysOf(records) + {key} {
        var i :| 0 <= i < |after| && after[i].key == k;
        assert i < |records| ==> records[i] in records && records[i].key == k;
      }
      forall k | k in KeysOf(records) + {key} ensures k in KeysOf(after) {
        if k == key {
          assert after[|records|] in after;
        } else {
          var i :| 0 <= i < |records| && records[i].key == k;
          assert after[i] in after && after[i].key == k;
        }
      }
    }
  }

  // ---- The worker loop ----

  // The keys of the positions that the first moves lead to.
  ghost predicate AreEncoded(s: Position, moves: seq<Move>, keys: seq<Key>)
    requires FullDeck(s) && forall m :: m in moves ==> Legal(s, m)
  {
    |keys| <= |moves| && forall k :: 0 <= k < |keys| ==> keys[k] == ChildOfMove(s, moves[k]).key
  }

  lemma EncodedAreChildren(s: Position, moves: seq<Move>, keys: seq<Key>)
    requires FullDeck(s) && forall m :: m in moves ==> Legal(s, m)
    requires AreEncoded(s, moves, keys) && |keys| == |moves|
    ensures ChildKeys(Children(s, moves)) == keys
  {
    forall k | 0 <= k < |keys| ensures ChildKeys(Children(s, moves))[k] == keys[k] {
      ChildrenAt(s, moves, k);
    }
  }

  lemma ExpandIs(init: Position, key: Key, s: Position)
    requires s == DecodeKey(init, key) && FullDeck(s)
    ensures Solved(s) ==> Expand(init, key) == None
    ensures !Solved(s) ==>
              && (forall m :: m in GeneratedMoves(s) ==> Legal(s, m))
              && Expand(init, key) == Some(Children(s, GeneratedMoves(s)))
  {
    GeneratedAllLegal(s);
  }

  lemma EncodedOne(s: Position, m: Move, entry: Derived)
    requires FullDeck(s) && Legal(s, m) && entry == PrunedEntry(s, m)
    ensures FullDeck(entry.state) && EncodeKey(entry.state) == ChildOfMove(s, m).key
  {
    MoveKeepsDeck(s, m);
    PruneIsPlay(FC_SOLVE_SLACK, Apply(s, m));
  }

  lemma EncodedMore(s: Position, moves: seq<Move>, keys: seq<Key>, key: Key)
    requires FullDeck(s) && forall m :: m in moves ==> Legal(s, m)
    requires AreEncoded(s, moves, keys) && |keys| < |moves| && key == ChildOfMove(s, moves[|keys|]).key
    ensures AreEncoded(s, moves, keys + [key])
  {
  }

  method EncodeAll(stater: Stater, s: Position, list: seq<Derived>, ghost moves: seq<Move>) returns (keys: seq<Key>)
    requires stater.cardStates.Length == CARD_ARRAY_LEN && FullDeck(s) && |list| == |moves|
    requires forall m :: m in moves ==> Legal(s, m)
    requires forall k :: 0 <= k < |list| ==> list[k] == PrunedEntry(s, moves[k])
    modifies stater.cardStates
    ensures AreEncoded(s, moves, keys) && |keys| == |moves|
  {
    keys := [];
    for k := 0 to |list|
      invariant |keys| == k && AreEncoded(s, moves, keys)
    {
      EncodedOne(s, moves[k], list[k]);
      var childKey := EncodeIntoBuffer(stater, list[k].state);
      EncodedMore(s, moves, keys, childKey);
      keys := keys + [childKey];
    }
  }

  lemma HandledKeys(e: Expander<Key>, init: Position, key: Key, s: Position)
    requires Faithful(e, init) && s == DecodeKey(init, key) && FullDeck(s)
    ensures forall m :: m in GeneratedMoves(s) ==> Legal(s, m)
    ensures e(key) == if Solved(s) then None else Some(ChildKeys(Children(s, GeneratedMoves(s))))
  {
    ExpandIs(init, key, s);
    GeneratedAllLegal(s);
    assert e(key) == KeysOnly(Expand(init, key));
  }

  method DecodeItem(stater: Stater, key: Key) returns (s: Position)
    requires stater.cardStates.Length == CARD_ARRAY_LEN && GoodKey(stater.init, key)
    modifies stater.cardStates
    ensures s == DecodeKey(stater.init, key) && FullDeck(s)
  {
    GoodKeyDecodes(stater.init, key);
    s := DecodeIntoState(stater, key, DecodeKey(stater.init, key));
  }

  // Decodes an item, derives its states and encodes them: the keys the protocol works with.
  method HandleItem(stater: Stater, key: Key, ghost e: Expander<Key>) returns (solved: bool, keys: seq<Key>)
    requires stater.cardStates.Length == CARD_ARRAY_LEN && Faithful(e, stater.init) && GoodKey(stater.init, key)
    modifies stater.cardStates
    ensures e(key) == if solved then None else Some(keys)
  {
    var s := DecodeItem(stater, key);
    HandledKeys(e, stater.init, key, s);
    var list;
    solved, list := CalcDerivedStates(s, true);
    keys := [];
    if !solved {
      ghost var moves := GeneratedMoves(s);
      keys := EncodeAll(stater, s, list, moves);
      EncodedAreChildren(s, moves, keys);
    }
  }

  // The worker loop of the only thread. Its steps are a run of the protocol, and it ends.
  method RunSolverThread(instance: Instance, stater: Stater, ghost e: Expander<Key>, ghost first: Key)
    returns (ghost run: seq<StepTo<Key>>, ghost th: Thread<Key>)
    requires Faithful(e, stater.init) && GoodKey(stater.init, first) && stater.cardStates.Length == CARD_ARRAY_LEN
    requires instance.Valid() && instance.Abs() == FirstRecord(first)
    modifies instance, stater.cardStates
    ensures instance.Valid() && th.pc == Done
    ensures AloneAt(e, instance.limits, first, run, instance.Abs(), th)
  {
    ghost var limits := instance.limits;
    var item, prevItem, seen := None, None, 0;
    run, th := [], FreshThread();
    AloneStarts(e, limits, first);
    while true
      invariant instance.Valid() && th == Thread(Top, item, prevItem, [], seen)
      invariant AloneAt(e, limits, first, run, instance.Abs(), th)
      decreases Power256(KEY_LEN) - instance.numProcessed
    {
      ProcessedAreFew(e, stater.init, limits, first, run, instance.Abs(), th);
      var leave;
      leave, item, seen, run, th := TakeNext(instance, prevItem, item, seen, e, first, run, th);
      ProcessedAreFew(e, stater.init, limits, first, run, instance.Abs(), th);
      if leave {
        return;
      }
      var solved;
      solved, run, th := Process(instance, stater, item.value, e, first, run, th);
      if solved {
        return;
      }
      prevItem := item;
    }
  }

  lemma ProcessedAreFew(e: Expander<Key>, init: Position, limits: Limits, first: Key, run: seq<StepTo<Key>>,
                        sh: Shared<Key>, th: Thread<Key>)
    requires Faithful(e, init) && GoodKey(init, first) && AloneAt(e, limits, first, run, sh, th)
    ensures sh.numProcessed <= sh.numStates <= Power256(KEY_LEN)
  {
    AloneInv(e, limits, first, run, sh, th);
    RecordsAreFew(e, init, first, sh.records);
  }

  // Gives back the previous item and takes the next, or leaves.
  method TakeNext(instance: Instance, prevItem: Option<nat>, item: Option<nat>, seen: int,
                  ghost e: Expander<Key>, ghost first: Key, ghost run: seq<StepTo<Key>>, ghost th: Thread<Key>)
    returns (leave: bool, item': Option<nat>, seen': int, ghost run': seq<StepTo<Key>>, ghost th': Thread<Key>)
    requires instance.Valid() && th == Thread(Top, item, prevItem, [], seen)
    requires AloneAt(e, instance.limits, first, run, instance.Abs(), th)
    modifies instance
    ensures instance.Valid() && AloneAt(e, instance.limits, first, run', instance.Abs(), th')
    ensures if leave then th'.pc == Done else th' == Thread(Handle, item', prevItem, [], seen') && item'.Some?
    ensures !leave ==> instance.numProcessed > old(instance.numProcessed)
  {
    ghost var before := instance.Abs();
    item', seen' := instance.TakeItem(prevItem.Some?, item, seen, th);
    th' := th.(pc := Check, item := item', seen := seen');
    run' := AloneStep(e, instance.limits, first, run, before, th, instance.Abs(), th');
    ghost var checked := th';
    leave := instance.shouldTerminate != DontTerminate || seen' == 0;
    if leave {
      th' := th'.(pc := Done);
    } else {
      if item'.None? { AloneNeverWaits(e, instance.limits, first, run', instance.Abs(), th'); }
      th' := th'.(pc := Handle);
    }
    run' := AloneStep(e, instance.limits, first, run', instance.Abs(), checked, instance.Abs(), th');
  }

  // Derives the states of an item and inserts them, or reports it as the solution.
  method Process(instance: Instance, stater: Stater, item: nat,
                 ghost e: Expander<Key>, ghost first: Key, ghost run: seq<StepTo<Key>>, ghost th: Thread<Key>)
    returns (solved: bool, ghost run': seq<StepTo<Key>>, ghost th': Thread<Key>)
    requires Faithful(e, stater.init) && GoodKey(stater.init, first) && stater.cardStates.Length == CARD_ARRAY_LEN
    requires instance.Valid() && th.pc == Handle && th.item == Some(item) && th.keys == []
    requires AloneAt(e, instance.limits, first, run, instance.Abs(), th)
    modifies instance, stater.cardStates
    ensures instance.Valid() && AloneAt(e, instance.limits, first, run', instance.Abs(), th')
    ensures th' == if solved then th.(pc := Done) else th.(pc := Top, prev := Some(item))
    ensures instance.numProcessed == old(instance.numProcessed)
  {
    AloneInv(e, instance.limits, first, run, instance.Abs(), th);
    RecordIsGood(e, stater.init, first, instance.records, item);
    var keys;
    solved, keys := HandleItem(stater, instance.records[item].key, e);
    run', th' := Finish(instance, item, solved, keys, e, first, run, th);
  }

  method Finish(instance: Instance, item: nat, solved: bool, keys: seq<Key>,
                ghost e: Expander<Key>, ghost first: Key, ghost run: seq<StepTo<Key>>, ghost th: Thread<Key>)
    returns (ghost run': seq<StepTo<Key>>, ghost th': Thread<Key>)
    requires instance.Valid() && th.pc == Handle && th.item == Some(item) && th.keys == [] && item < |instance.records|
    requires AloneAt(e, instance.limits, first, run, instance.Abs(), th)
    requires e(instance.records[item].key) == if solved then None else Some(keys)
    modifies instance
    ensures instance.Valid() && AloneAt(e, instance.limits, first, run', instance.Abs(), th')
    ensures th' == if solved then th.(pc := Done) else th.(pc := Top, prev := Some(item))
    ensures instance.numProcessed == old(instance.numProcessed)
  {
    ghost var limits, before := instance.limits, instance.Abs();
    if solved {
      th' := th.(pc := Report);
      run' := AloneStep(e, limits, first, run, before, th, before, th');
      instance.ReportSolution(item);
      run' := AloneStep(e, limits, first, run', before, th', instance.Abs(), th.(pc := Done));
      th' := th.(pc := Done);
    } else {
      th' := th;
      run' := run;
      if keys != [] {
        th' := th.(pc := Insert, keys := keys);
        run' := AloneStep(e, limits, first, run, before, th, before, th');
        instance.CheckMultipleKeys(keys, item);
        InsertKeepsProcessed(before, keys, item);
      }
      run' := AloneStep(e, limits, first, run', before, th', instance.Abs(), th.(pc := Top, prev := Some(item)));
      th' := th.(pc := Top, prev := Some(item));
    }
  }

  lemma {:induction false} InsertKeepsProcessed(sh: Shared<Key>, keys: seq<Key>, parent: nat)
    requires parent < |sh.records|
    ensures InsertKeys(sh, keys, parent).numProcessed == sh.numProcessed
    decreases |keys|
  {
    if keys == [] {
    } else {
      InsertKeepsProcessed(InsertKey(sh, keys[0], parent), keys[1..], parent);
    }
  }

  // ---- The solver ----

  datatype Verdict = Success | CouldNotSolve | Intractable

  lemma EndIsVerdict(e: Expander<Key>, deal: Position, limits: Limits, run: seq<StepTo<Key>>, sh: Shared<Key>,
                     th: Thread<Key>)
    requires FullDeck(deal) && Faithful(e, Init(deal)) && th.pc == Done
    requires AloneAt(e, limits, FirstKeyOf(deal), run, sh, th)
    ensures sh.solution.Some? ==> Solvable(deal)
    ensures sh.flag == DontTerminate ==> !Solvable(deal)
    ensures sh.solution.Some? <==> sh.flag == SolutionFoundTerminate
    ensures sh.numProcessed <= sh.numStates <= Power256(KEY_LEN)
  {
    var first := FirstKeyOf(deal);
    AloneInv(e, limits, first, run, sh, th);
    VerdictIsSound(e, deal, System(sh, [th]));
    EndCounts(e, deal, limits, first, run, sh, th);
  }

  lemma EndCounts(e: Expander<Key>, deal: Position, limits: Limits, first: Key, run: seq<StepTo<Key>>, sh: Shared<Key>,
                  th: Thread<Key>)
    requires FullDeck(deal) && Faithful(e, Init(deal)) && first == FirstKeyOf(deal)
             && AloneAt(e, limits, first, run, sh, th)
    ensures sh.numProcessed <= sh.numStates <= Power256(KEY_LEN)
  {
    FirstKey(deal);
    ProcessedAreFew(e, Init(deal), limits, first, run, sh, th);
  }

  // The keys of a record, its parent, and so on up to the first one.
  method CalcTrace(records: seq<Record<Key>>, item: nat) returns (trace: seq<Key>)
    requires ParentsBefore(records) && item < |records|
    ensures trace == TraceKeys(records, item)
  {
    trace := [];
    var t: Option<nat> := Some(item);
    while t.Some?
      invariant t.Some? ==> t.value < |records|
      invariant trace + RestOfTrace(records, t) == TraceKeys(records, item)
      decreases if t.Some? then t.value + 1 else 0
    {
      TraceStep(records, t.value, trace);
      trace := trace + [records[t.value].key];
      t := records[t.value].parent;
    }
  }

  ghost function RestOfTrace(records: seq<Record<Key>>, t: Option<nat>): seq<Key>
    requires ParentsBefore(records) && (t.Some? ==> t.value < |records|)
  {
    if t.Some? then TraceKeys(records, t.value) else []
  }

  lemma TraceStep(records: seq<Record<Key>>, t: nat, done: seq<Key>)
    requires ParentsBefore(records) && t < |records|
    ensures done + TraceKeys(records, t) == (done + [records[t].key]) + RestOfTrace(records, records[t].parent)
  {
    var key, rest := records[t].key, RestOfTrace(records, records[t].parent);
    assert TraceKeys(records, t) == [key] + rest;
    HeadMoves(done, key, rest);
  }

  lemma HeadMoves(a: seq<Key>, x: Key, b: seq<Key>)
    ensures a + ([x] + b) == (a + [x]) + b
  {
  }

  lemma ReportIsShortest(e: Expander<Key>, limits: Limits, first: Key, run: seq<StepTo<Key>>, sh: Shared<Key>,
                         th: Thread<Key>)
    requires AloneAt(e, limits, first, run, sh, th) && sh.solution.Some?
    ensures ParentsBefore(sh.records) && sh.solution.value < |sh.records|
    ensures IsShortestWay(e, first, TraceKeys(sh.records, sh.solution.value))
  {
    TraceIsShortest(e, limits, first, run);
  }

  // Prunes the deal and stores and queues its key.
  method Prepare(deal: Position, limits: Limits) returns (stater: Stater, instance: Instance)
    requires FullDeck(deal)
    ensures fresh(stater) && fresh(stater.cardStates) && fresh(instance)
    ensures stater.init == Init(deal) && stater.cardStates.Length == CARD_ARRAY_LEN
            && GoodKey(Init(deal), FirstKeyOf(deal))
    ensures instance.Valid() && instance.limits == limits && instance.Abs() == FirstRecord(FirstKeyOf(deal))
  {
    FirstKey(deal);
    var board := new Board(deal);
    var count := board.HornePrune();
    stater := new Stater(board.Pos());
    var firstKey := EncodeIntoBuffer(stater, stater.init);
    instance := new Instance(firstKey, limits);
  }

  // Searches with one thread, and reads the verdict and the trace off the instance.
  method RunSearch(deal: Position, limits: Limits, ghost e: Expander<Key>)
    returns (verdict: Verdict, processed: nat, stored: nat, trace: seq<Key>)
    requires FullDeck(deal) && Faithful(e, Init(deal))
    ensures verdict == Success ==> Solvable(deal) && IsShortestWay(e, FirstKeyOf(deal), trace)
    ensures verdict == CouldNotSolve ==> !Solvable(deal)
    ensures verdict == Intractable ==> processed >= limits.maxProcessed || stored >= limits.maxStates
    ensures processed <= stored <= Power256(KEY_LEN)
  {
    var stater, instance := Prepare(deal, limits);
    ghost var run, th := RunSolverThread(instance, stater, e, FirstKeyOf(deal));
    EndIsVerdict(e, deal, limits, run, instance.Abs(), th);
    processed, stored, trace := instance.numProcessed, instance.numStates, [];
    verdict := if instance.solution.Some? then Success
               else if instance.shouldTerminate != DontTerminate then Intractable
               else CouldNotSolve;
    if instance.solution.Some? {
      ReportIsShortest(e, limits, FirstKeyOf(deal), run, instance.Abs(), th);
      trace := CalcTrace(instance.records, instance.solution.value);
    }
  }

  // Prunes a deal, searches, and gives the verdict. Success comes with the keys from the solved position
  // back to the deal, on a shortest way.
  method Solve(deal: Position, limits: Limits)
    returns (verdict: Verdict, processed: nat, stored: nat, trace: seq<Key>)
    requires FullDeck(deal)
    ensures verdict == Success ==> Solvable(deal)
    ensures verdict == Success ==> IsShortestWay(KeyExpander(Init(deal)), FirstKeyOf(deal), trace)
    ensures verdict == CouldNotSolve ==> !Solvable(deal)
    ensures verdict == Intractable ==> processed >= limits.maxProcessed || stored >= limits.maxStates
    ensures processed <= stored <= Power256(KEY_LEN)
  {
    KeyExpanderIsFaithful(Init(deal));
    verdict, processed, stored, trace := RunSearch(deal, limits, KeyExpander(Init(deal)));
  }
}
