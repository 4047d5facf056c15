/**
 The order in which the batch workers take the records of a depth, how many they take, and when they
 call a search off.
 */
module DepthOrder {
  import opened Numbers
  import opened SolverCommon
  import opened DepthWorkers

  // ---- First in, first out ----

  // The queue of a depth holds its last records in the order they were stored.
  ghost predicate CollInOrder<K>(c: Collection<K>) {
    && |c.queue| <= |c.records|
    && forall k :: 0 <= k < |c.queue| ==> c.queue[k] == |c.records| - |c.queue| + k
  }

  ghost predicate QueuesInOrder<K>(colls: seq<Collection<K>>) {
    forall d :: 0 <= d < |colls| ==> CollInOrder(colls[d])
  }

  lemma InsertInOrder<K>(sh: DeepShared<K>, p: Pending<K>)
    requires sh.currDepth + p.derived.count < |sh.colls| && QueuesInOrder(sh.colls)
    ensures QueuesInOrder(InsertDeep(sh, p).colls)
  {
    var d := sh.currDepth + p.derived.count;
    assert CollInOrder(sh.colls[d]);
  }

  lemma {:induction false} InsertAllInOrder<K>(sh: DeepShared<K>, pending: seq<Pending<K>>)
    requires AllFit(sh, pending) && QueuesInOrder(sh.colls)
    ensures QueuesInOrder(InsertAll(sh, pending).colls)
    decreases |pending|
  {
    if pending == [] {
    } else {
      InsertInOrder(sh, pending[0]);
      InsertAllInOrder(InsertDeep(sh, pending[0]), pending[1..]);
    }
  }

  lemma ExtractInOrder<K>(sh: DeepShared<K>, limits: Limits, n: nat)
    requires sh.currDepth < |sh.colls| && n <= |sh.colls[sh.currDepth].queue| && QueuesInOrder(sh.colls)
    ensures QueuesInOrder(ExtractMany(sh, limits, n).colls)
  {
    ExtractManyEffect(sh, limits, n);
    var c := sh.colls[sh.currDepth];
    assert CollInOrder(c);
    assert CollInOrder(c.(queue := c.queue[n..]));
  }

  // The first n of a range.
  ghost predicate IsRange(items: seq<nat>, from: nat) {
    forall k :: 0 <= k < |items| ==> items[k] == from + k
  }

  // How many records of this depth have been taken.
  function TakenAt<K>(sh: DeepShared<K>): int
    requires sh.currDepth < |sh.colls|
  {
    |sh.colls[sh.currDepth].records| - |sh.colls[sh.currDepth].queue|
  }

  lemma StepInOrder<K(!new)>(e: DeepExpander<K>, limits: Limits, maxBatch: nat, s: DeepSystem<K>, s': DeepSystem<K>,
                             who: Actor)
    requires QueuesInOrder(s.sh.colls) && DeepNext(e, limits, maxBatch, s, s', who)
    ensures QueuesInOrder(s'.sh.colls)
  {
    if who.Worker? {
      if TakeStep(limits, maxBatch, s, s', who.i) && s.sh.flag == DontTerminate {
        ExtractInOrder(s.sh, limits, Min(maxBatch, |s.sh.colls[s.sh.currDepth].queue|));
      } else if InsertStep(s, s', who.i) {
        InsertAllInOrder(s.sh, s.threads[who.i].pending);
      }
    }
  }

  // A batch is the next records of the depth, as many as the batch size allows and are stored.
  lemma BatchIsNext<K>(limits: Limits, maxBatch: nat, s: DeepSystem<K>, s': DeepSystem<K>, i: nat)
    requires QueuesInOrder(s.sh.colls) && TakeStep(limits, maxBatch, s, s', i) && s'.threads[i].pc == Working
    ensures 0 <= TakenAt(s.sh) && IsRange(s'.threads[i].batch, TakenAt(s.sh))
    ensures TakenAt(s.sh) + |s'.threads[i].batch| <= |s.sh.colls[s.sh.currDepth].records|
    ensures |s'.threads[i].batch| == maxBatch
            || TakenAt(s.sh) + |s'.threads[i].batch| == |s.sh.colls[s.sh.currDepth].records|
  {
    assert CollInOrder(s.sh.colls[s.sh.currDepth]);
  }

  // ---- Limits ----

  predicate LimitReached<K>(limits: Limits, sh: DeepShared<K>) {
    sh.numProcessed >= limits.maxProcessed || sh.numStates >= limits.maxStates
  }

  // A search is called off for its limits only when one was reached, and the first batch that reaches the
  // limit of items calls it off.
  ghost predicate LimitsKept<K>(limits: Limits, sh: DeepShared<K>) {
    && (sh.flag == MaxItersTerminate ==> LimitReached(limits, sh))
    && (sh.flag == DontTerminate && sh.numProcessed > 0 ==> sh.numProcessed < limits.maxProcessed)
  }

  lemma {:induction false} ExtractFlag<K>(sh: DeepShared<K>, limits: Limits, n: nat)
    requires sh.currDepth < |sh.colls| && n <= |sh.colls[sh.currDepth].queue| && sh.flag != SolutionFoundTerminate
    ensures var sh' := ExtractMany(sh, limits, n);
            && sh'.numProcessed == sh.numProcessed + n && sh'.numStates == sh.numStates
            && (sh'.flag == MaxItersTerminate <==> sh.flag == MaxItersTerminate || (n > 0 && LimitReached(limits, sh')))
            && sh'.flag != SolutionFoundTerminate
    decreases n
  {
    if n == 0 {
    } else {
      var coll := sh.colls[sh.currDepth];
      var processed := sh.numProcessed + 1;
      var taken := sh.(colls := sh.colls[sh.currDepth := coll.(queue := coll.queue[1..])],
                       numInQueue := sh.numInQueue - 1, inFlight := sh.inFlight + 1, numProcessed := processed,
                       flag := if processed >= limits.maxProcessed || sh.numStates >= limits.maxStates
                               then MaxItersTerminate else sh.flag);
      ExtractFlag(taken, limits, n - 1);
    }
  }

  lemma {:induction false} InsertAllLimits<K>(sh: DeepShared<K>, pending: seq<Pending<K>>)
    requires AllFit(sh, pending)
    ensures var sh' := InsertAll(sh, pending);
            sh'.numProcessed == sh.numProcessed && sh'.numStates >= sh.numStates && sh'.flag == sh.flag
    decreases |pending|
  {
    if pending == [] {
    } else {
      InsertAllLimits(InsertDeep(sh, pending[0]), pending[1..]);
    }
  }

  // Taking a batch calls the search off exactly at a limit.
  lemma BatchAtLimit<K>(limits: Limits, maxBatch: nat, s: DeepSystem<K>, s': DeepSystem<K>, i: nat)
    requires TakeStep(limits, maxBatch, s, s', i) && s'.threads[i].pc == Working
    ensures s.sh.flag == DontTerminate && (s'.sh.flag == MaxItersTerminate <==> LimitReached(limits, s'.sh))
  {
    ExtractFlag(s.sh, limits, Min(maxBatch, |s.sh.colls[s.sh.currDepth].queue|));
  }

  lemma StepKeepsLimits<K(!new)>(e: DeepExpander<K>, limits: Limits, maxBatch: nat, s: DeepSystem<K>,
                                 s': DeepSystem<K>, who: Actor)
    requires LimitsKept(limits, s.sh) && DeepNext(e, limits, maxBatch, s, s', who)
    ensures LimitsKept(limits, s'.sh)
  {
    if who.Worker? {
      if TakeStep(limits, maxBatch, s, s', who.i) && s.sh.flag == DontTerminate {
        ExtractFlag(s.sh, limits, Min(maxBatch, |s.sh.colls[s.sh.currDepth].queue|));
      } else if InsertStep(s, s', who.i) {
        InsertAllLimits(s.sh, s.threads[who.i].pending);
      }
    }
  }

  // ---- Whole runs ----

  // In every run each queue is in the order of storing, and a search is called off only at a limit.
  lemma {:induction false} RunInOrder<K(!new)>(e: DeepExpander<K>, limits: Limits, maxBatch: nat, s: DeepSystem<K>,
                                               run: seq<DeepStep<K>>)
    requires QueuesInOrder(s.sh.colls) && LimitsKept(limits, s.sh) && IsDeepRun(e, limits, maxBatch, s, run)
    ensures QueuesInOrder(DeepEnd(s, run).sh.colls) && LimitsKept(limits, DeepEnd(s, run).sh)
    decreases |run|
  {
    if run == [] {
    } else {
      StepInOrder(e, limits, maxBatch, s, run[0].state, run[0].who);
      StepKeepsLimits(e, limits, maxBatch, s, run[0].state, run[0].who);
      RunInOrder(e, limits, maxBatch, run[0].state, run[1..]);
      DeepEndLater(s, run);
    }
  }

  lemma StartInOrder<K>(key: K, depths: nat, numThreads: nat, limits: Limits)
    requires depths > 0
    ensures QueuesInOrder(DeepStart(key, depths, numThreads).sh.colls)
    ensures LimitsKept(limits, DeepStart(key, depths, numThreads).sh)
  {
  }
}
