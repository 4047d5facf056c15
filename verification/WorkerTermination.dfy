/**
 How long the worker threads can run. A thread that finds the queue empty while another one is at
 work polls again; apart from these polls the number of steps is bounded, and every run can be
 brought to its end.
 */
module WorkerTermination {
  import opened Cards
  import opened Shuffles
  import opened SolverCommon
  import opened Workers

  // The expander derives no more than so many different keys from the first one.
  ghost predicate FewRecords<K(!new)>(e: Expander<K>, first: K, bound: nat) {
    forall records {:trigger RecordsOk(e, first, records)} :: RecordsOk(e, first, records) ==> |records| <= bound
  }

  // The steps a thread has left before it asks for the next item or leaves.
  function Rank<K>(flag: Flag, th: Thread<K>): nat {
    match th.pc
    case Top => 2
    case Check => if flag != DontTerminate || th.item.None? || th.seen == 0 then 1 else 5
    case Handle => 4
    case Insert => 3
    case Report => 3
    case Done => 0
  }

  function TotalRank<K>(flag: Flag, threads: seq<Thread<K>>): nat {
    if threads == [] then 0
    else TotalRank(flag, threads[..|threads| - 1]) + Rank(flag, threads[|threads| - 1])
  }

  lemma {:induction false} RankUpdate<K>(flag: Flag, threads: seq<Thread<K>>, i: nat, th: Thread<K>)
    requires i < |threads|
    ensures TotalRank(flag, threads[i := th]) == TotalRank(flag, threads) - Rank(flag, threads[i]) + Rank(flag, th)
    ensures Rank(flag, threads[i]) <= TotalRank(flag, threads)
  {
    var n := |threads| - 1;
    if i == n {
      assert threads[i := th][..n] == threads[..n];
    } else {
      RankUpdate(flag, threads[..n], i, th);
      assert threads[i := th][..n] == threads[..n][i := th];
    }
  }

  // Calling the search off shortens what every thread has left.
  lemma {:induction false} RankCalledOff<K>(flag: Flag, flag': Flag, threads: seq<Thread<K>>)
    requires flag == DontTerminate || flag' != DontTerminate
    ensures TotalRank(flag', threads) <= TotalRank(flag, threads)
  {
    if threads == [] {
    } else {
      RankCalledOff(flag, flag', threads[..|threads| - 1]);
    }
  }

  // An item that was not taken yet is worth five steps.
  function Measure<K>(bound: nat, s: System<K>): int {
    5 * (bound - s.sh.numProcessed) + TotalRank(s.sh.flag, s.threads)
  }

  // The thread saw an empty queue with items in flight and goes back to look again.
  predicate IsPoll<K>(s: System<K>, i: nat) {
    && i < |s.threads| && s.threads[i].pc == Check && s.threads[i].item.None? && s.threads[i].seen != 0
    && s.sh.flag == DontTerminate
  }

  lemma {:induction false} InsertKeepsProcessed<K>(sh: Shared<K>, keys: seq<K>, parent: nat)
    requires parent < |sh.records|
    ensures InsertKeys(sh, keys, parent).numProcessed == sh.numProcessed
    ensures InsertKeys(sh, keys, parent).flag == sh.flag
    decreases |keys|
  {
    if keys == [] {
    } else {
      InsertKeepsProcessed(InsertKey(sh, keys[0], parent), keys[1..], parent);
    }
  }

  // What a step does to the thread that takes it and to the shared counters.
  lemma StepOfThread<K(!new)>(e: Expander<K>, limits: Limits, sh: Shared<K>, th: Thread<K>, sh': Shared<K>,
                              th': Thread<K>)
    requires ThreadStep(e, limits, sh, th, sh', th')
    ensures sh.flag == DontTerminate || sh'.flag != DontTerminate
    ensures sh.numProcessed <= sh'.numProcessed
    ensures Rank(sh'.flag, th') - 5 * (sh'.numProcessed - sh.numProcessed) <= Rank(sh.flag, th)
              + if th.pc == Check && th.item.None? && th.seen != 0 && sh.flag == DontTerminate then 1 else -1
  {
    if InsertStep(sh, th, sh', th') { InsertKeepsProcessed(sh, th.keys, th.item.value); }
  }

  lemma StepShrinks<K(!new)>(e: Expander<K>, limits: Limits, bound: nat, s: System<K>, s': System<K>, i: nat)
    requires Next(e, limits, s, s', i)
    ensures Measure(bound, s') <= Measure(bound, s) + if IsPoll(s, i) then 1 else -1
  {
    StepOfThread(e, limits, s.sh, s.threads[i], s'.sh, s'.threads[i]);
    RankCalledOff(s.sh.flag, s'.sh.flag, s.threads);
    RankUpdate(s'.sh.flag, s.threads, i, s'.threads[i]);
    RankUpdate(s.sh.flag, s.threads, i, s'.threads[i]);
    OthersShrink(s.sh.flag, s'.sh.flag, s.threads, i, s'.threads[i]);
  }

  lemma OthersShrink<K>(flag: Flag, flag': Flag, threads: seq<Thread<K>>, i: nat, th: Thread<K>)
    requires i < |threads| && (flag == DontTerminate || flag' != DontTerminate)
    ensures TotalRank(flag', threads[i := th]) <= TotalRank(flag, threads) - Rank(flag, threads[i]) + Rank(flag', th)
  {
    var gone := threads[i].(pc := Done);
    RankUpdate(flag, threads, i, gone);
    RankCalledOff(flag, flag', threads[i := gone]);
    RankUpdate(flag', threads[i := gone], i, th);
    assert threads[i := gone][i := th] == threads[i := th];
  }

  ghost function Polls<K>(first: System<K>, run: seq<StepTo<K>>): nat
    decreases |run|
  {
    if run == [] then 0
    else (if IsPoll(first, run[0].thread) then 1 else 0) + Polls(run[0].state, run[1..])
  }

  lemma {:induction false} RunShrinks<K(!new)>(e: Expander<K>, limits: Limits, bound: nat, s: System<K>,
                                               run: seq<StepTo<K>>)
    requires IsRun(e, limits, s, run)
    ensures |run| + Measure(bound, End(s, run)) <= Measure(bound, s) + 2 * Polls(s, run)
    decreases |run|
  {
    if run == [] {
    } else {
      StepShrinks(e, limits, bound, s, run[0].state, run[0].thread);
      RunShrinks(e, limits, bound, run[0].state, run[1..]);
      EndLater(s, run);
    }
  }

  lemma MeasureNotNegative<K(!new)>(e: Expander<K>, first: K, bound: nat, s: System<K>)
    requires FewRecords(e, first, bound) && Inv(e, first, s)
    ensures Measure(bound, s) >= 0
  {
    assert RecordsOk(e, first, s.sh.records);
  }

  lemma {:induction false} FreshRank<K>(flag: Flag, threads: seq<Thread<K>>)
    requires forall i :: 0 <= i < |threads| ==> threads[i] == FreshThread()
    ensures TotalRank(flag, threads) == 2 * |threads|
  {
    if threads == [] {
    } else {
      FreshRank(flag, threads[..|threads| - 1]);
    }
  }

  // In every interleaving the steps other than polls are bounded: five for each key there can be, and
  // two for each thread.
  lemma RunsEnd<K(!new)>(e: Expander<K>, limits: Limits, first: K, bound: nat, numThreads: nat, run: seq<StepTo<K>>)
    requires FewRecords(e, first, bound) && IsRun(e, limits, Start(first, numThreads), run)
    ensures |run| <= 5 * bound + 2 * numThreads + 2 * Polls(Start(first, numThreads), run)
  {
    var s := Start(first, numThreads);
    StartHasInv(e, first, numThreads);
    RunKeepsInv(e, limits, first, s, run);
    MeasureNotNegative(e, first, bound, End(s, run));
    RunShrinks(e, limits, bound, s, run);
    FreshRank(s.sh.flag, s.threads);
  }

  lemma OneStep<K(!new)>(e: Expander<K>, limits: Limits, first: K, bound: nat, s: System<K>, i: nat)
    returns (s': System<K>)
    requires Inv(e, first, s) && i < |s.threads| && s.threads[i].pc != Done
    ensures Next(e, limits, s, s', i) && Inv(e, first, s')
    ensures Measure(bound, s') <= Measure(bound, s) + if IsPoll(s, i) then 1 else -1
  {
    s' := NoDeadlock(e, limits, first, s, i);
    StepShrinks(e, limits, bound, s, s', i);
    StepKeepsInv(e, limits, first, s, s', i);
  }

  lemma ThreeSteps<K(!new)>(e: Expander<K>, limits: Limits, s: System<K>, i: nat, s1: System<K>, s2: System<K>,
                            s3: System<K>) returns (run: seq<StepTo<K>>)
    requires Next(e, limits, s, s1, i) && Next(e, limits, s1, s2, i) && Next(e, limits, s2, s3, i)
    ensures IsRun(e, limits, s, run) && End(s, run) == s3
  {
    var none: seq<StepTo<K>>, last := [], [StepTo(i, s3)];
    assert last[1..] == none && IsRun(e, limits, s2, last);
    var later := [StepTo(i, s2)] + last;
    assert later[1..] == last && IsRun(e, limits, s1, later);
    run := [StepTo(i, s1)] + later;
    assert run[1..] == later;
  }

  // When all that is left is to poll, nothing is in flight, and the poll ends it or finds an item.
  lemma PollEnds<K(!new)>(e: Expander<K>, limits: Limits, first: K, bound: nat, s: System<K>, i: nat)
    returns (run: seq<StepTo<K>>)
    requires Inv(e, first, s) && IsPoll(s, i) && s.sh.inFlight == 0
    ensures IsRun(e, limits, s, run) && Inv(e, first, End(s, run)) && Measure(bound, End(s, run)) < Measure(bound, s)
  {
    var s1 := OneStep(e, limits, first, bound, s, i);
    assert s1.threads[i] == s.threads[i].(pc := Top, prev := None) && s1.sh == s.sh;
    var s2 := OneStep(e, limits, first, bound, s1, i);
    assert s2.threads[i].pc == Check && !IsPoll(s2, i);
    var s3 := OneStep(e, limits, first, bound, s2, i);
    run := ThreeSteps(e, limits, s, i, s1, s2, s3);
  }

  lemma OnlyPollsLeft<K(!new)>(e: Expander<K>, first: K, s: System<K>, i: nat)
    requires Inv(e, first, s) && IsPoll(s, i)
    requires forall j :: 0 <= j < |s.threads| && s.threads[j].pc != Done ==> IsPoll(s, j)
    ensures s.sh.inFlight == 0
  {
    CountNone(s.threads, Owes);
  }

  lemma {:induction false} RunJoin<K(!new)>(e: Expander<K>, limits: Limits, s: System<K>, a: seq<StepTo<K>>,
                                            b: seq<StepTo<K>>)
    requires IsRun(e, limits, s, a) && IsRun(e, limits, End(s, a), b)
    ensures IsRun(e, limits, s, a + b) && End(s, a + b) == End(End(s, a), b)
    decreases |a|
  {
    if a == [] {
      assert a + b == b;
    } else {
      EndLater(s, a);
      RunJoin(e, limits, a[0].state, a[1..], b);
      TailOfSum(a, b);
      EndLater(s, a + b);
    }
  }

  lemma EndLater<K>(s: System<K>, run: seq<StepTo<K>>)
    requires run != []
    ensures End(run[0].state, run[1..]) == End(s, run)
  {
  }

  // Wherever the threads are, they can still bring the search to its end.
  lemma {:induction false} CanFinish<K(!new)>(e: Expander<K>, limits: Limits, first: K, bound: nat, s: System<K>)
    returns (run: seq<StepTo<K>>)
    requires FewRecords(e, first, bound) && Inv(e, first, s)
    ensures IsRun(e, limits, s, run) && AllDone(End(s, run))
    decreases Measure(bound, s)
  {
    MeasureNotNegative(e, first, bound, s);
    if AllDone(s) {
      run := [];
    } else {
      var steps := SomeProgress(e, limits, first, bound, s);
      var rest := CanFinish(e, limits, first, bound, End(s, steps));
      RunJoin(e, limits, s, steps, rest);
      run := steps + rest;
    }
  }

  lemma SomeProgress<K(!new)>(e: Expander<K>, limits: Limits, first: K, bound: nat, s: System<K>)
    returns (run: seq<StepTo<K>>)
    requires Inv(e, first, s) && !AllDone(s)
    ensures IsRun(e, limits, s, run) && Inv(e, first, End(s, run)) && Measure(bound, End(s, run)) < Measure(bound, s)
  {
    if i :| 0 <= i < |s.threads| && s.threads[i].pc != Done && !IsPoll(s, i) {
      var s' := OneStep(e, limits, first, bound, s, i);
      run := [StepTo(i, s')];
      assert run[1..] == [];
    } else {
      var i :| 0 <= i < |s.threads| && s.threads[i].pc != Done;
      OnlyPollsLeft(e, first, s, i);
      run := PollEnds(e, limits, first, bound, s, i);
    }
  }
}
