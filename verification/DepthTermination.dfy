/**
 How long the batch workers can run: apart from waits that end without a signal, the number of steps
 is bounded, and every run can be brought to its end without such waits. The counters of the
 instance agree with the collections all along.
 */
module DepthTermination {
  import opened Cards
  import opened Numbers
  import opened Shuffles
  import opened SolverCommon
  import opened DepthWorkers

  // ---- The counters ----

  function Stored<K>(colls: seq<Collection<K>>): nat {
    if colls == [] then 0 else Stored(colls[..|colls| - 1]) + |colls[|colls| - 1].records|
  }

  function Queued<K>(colls: seq<Collection<K>>): nat {
    if colls == [] then 0 else Queued(colls[..|colls| - 1]) + |colls[|colls| - 1].queue|
  }

  // What was extracted and what is queued is what is stored.
  predicate Counted<K>(sh: DeepShared<K>) {
    && sh.numStates == Stored(sh.colls) && sh.numInQueue == Queued(sh.colls)
    && sh.numProcessed + sh.numInQueue == sh.numStates
  }

  lemma {:induction false} CollUpdate<K>(colls: seq<Collection<K>>, d: nat, c: Collection<K>)
    requires d < |colls|
    ensures Stored(colls[d := c]) == Stored(colls) - |colls[d].records| + |c.records|
    ensures Queued(colls[d := c]) == Queued(colls) - |colls[d].queue| + |c.queue|
  {
    var n := |colls| - 1;
    if d == n {
      assert colls[d := c][..n] == colls[..n];
    } else {
      CollUpdate(colls[..n], d, c);
      assert colls[d := c][..n] == colls[..n][d := c];
    }
  }

  lemma {:induction false} ExtractCounts<K>(sh: DeepShared<K>, limits: Limits, n: nat)
    requires sh.currDepth < |sh.colls| && n <= |sh.colls[sh.currDepth].queue| && Counted(sh)
    ensures Counted(ExtractMany(sh, limits, n)) && ExtractMany(sh, limits, n).numProcessed == sh.numProcessed + n
    decreases n
  {
    if n == 0 {
    } else {
      var coll := sh.colls[sh.currDepth];
      var processed := sh.numProcessed + 1;
      var taken := sh.(colls := sh.colls[sh.currDepth := coll.(queue := coll.queue[1..])],
                       numInQueue := sh.numInQueue - 1, inFlight := sh.inFlight + 1, numProcessed := processed,
                       flag := if processed >= limits.maxProcessed || sh.numStates >= limits.maxStates
                               then MaxItersTerminate else sh.flag);
      CollUpdate(sh.colls, sh.currDepth, coll.(queue := coll.queue[1..]));
      ExtractCounts(taken, limits, n - 1);
    }
  }

  lemma InsertCounts<K>(sh: DeepShared<K>, p: Pending<K>)
    requires sh.currDepth + p.derived.count < |sh.colls| && Counted(sh)
    ensures Counted(InsertDeep(sh, p)) && InsertDeep(sh, p).numProcessed == sh.numProcessed
    ensures InsertDeep(sh, p).currDepth == sh.currDepth
  {
    var d := sh.currDepth + p.derived.count;
    var coll, record := sh.colls[d], DeepRecord(p.derived.key, Some(Ref(sh.currDepth, p.parent)));
    CollUpdate(sh.colls, d, Collection(coll.records + [record], coll.queue + [|coll.records|]));
  }

  lemma {:induction false} InsertAllCounts<K>(sh: DeepShared<K>, pending: seq<Pending<K>>)
    requires AllFit(sh, pending) && Counted(sh)
    ensures Counted(InsertAll(sh, pending)) && InsertAll(sh, pending).numProcessed == sh.numProcessed
    ensures InsertAll(sh, pending).currDepth == sh.currDepth
    decreases |pending|
  {
    if pending == [] {
    } else {
      InsertCounts(sh, pending[0]);
      InsertAllCounts(InsertDeep(sh, pending[0]), pending[1..]);
    }
  }

  lemma StepCounts<K(!new)>(e: DeepExpander<K>, limits: Limits, maxBatch: nat, s: DeepSystem<K>, s': DeepSystem<K>,
                            who: Actor)
    requires Counted(s.sh) && DeepNext(e, limits, maxBatch, s, s', who)
    ensures Counted(s'.sh) && s.sh.numProcessed <= s'.sh.numProcessed
  {
    if who.Worker? {
      if TakeStep(limits, maxBatch, s, s', who.i) && s.sh.flag == DontTerminate {
        ExtractCounts(s.sh, limits, Min(maxBatch, |s.sh.colls[s.sh.currDepth].queue|));
      } else if InsertStep(s, s', who.i) {
        InsertAllCounts(s.sh, s.threads[who.i].pending);
      }
    }
  }

  lemma {:induction false} NothingStored<K>(colls: seq<Collection<K>>)
    requires forall d :: 0 <= d < |colls| ==> colls[d] == Collection([], [])
    ensures Stored(colls) == Queued(colls) == 0
  {
    if colls == [] {
    } else {
      NothingStored(colls[..|colls| - 1]);
    }
  }

  lemma StartCounts<K>(key: K, depths: nat, numThreads: nat)
    requires depths > 0
    ensures Counted(DeepStart(key, depths, numThreads).sh)
  {
    var empty: Collection<K> := Collection([], []);
    var colls := seq(depths, _ => empty);
    NothingStored(colls);
    CollUpdate(colls, 0, Collection([DeepRecord(key, None)], [0]));
    assert DeepStart(key, depths, numThreads).sh.colls == colls[0 := Collection([DeepRecord(key, None)], [0])];
  }

  // ---- The stored keys are different ----

  lemma {:induction false} DifferentRecords<K>(records: seq<DeepRecord<K>>)
    requires forall i, j :: 0 <= i < j < |records| ==> records[i].key != records[j].key
    ensures |DeepKeys(records)| == |records|
  {
    if records == [] {
    } else {
      var n := |records| - 1;
      DifferentRecords(records[..n]);
      KeysOfMore(records[..n], records[n]);
      assert records == records[..n] + [records[n]];
    }
  }

  lemma KeysOfMore<K>(records: seq<DeepRecord<K>>, r: DeepRecord<K>)
    requires forall i :: 0 <= i < |records| ==> records[i].key != r.key
    ensures DeepKeys(records + [r]) == DeepKeys(records) + {r.key} && r.key !in DeepKeys(records)
  {
    forall k | k in DeepKeys(records) + {r.key} ensures k in DeepKeys(records + [r]) {
      assert r in records + [r];
      if k in DeepKeys(records) {
        var q :| q in records && q.key == k;
        assert q in records + [r];
      }
    }
  }

  ghost predicate OneRefPerKey<K(!new)>(colls: seq<Collection<K>>) {
    forall r, q :: ValidRef(colls, r) && ValidRef(colls, q) && KeyAt(colls, r) == KeyAt(colls, q) ==> r == q
  }

  function KeyAt<K>(colls: seq<Collection<K>>, r: Ref): K
    requires r.depth < |colls| && r.index < |colls[r.depth].records|
  {
    colls[r.depth].records[r.index].key
  }

  lemma KeysOfAll<K>(colls: seq<Collection<K>>, k: K)
    requires k in AllDeepKeys(colls)
    ensures exists r :: ValidRef(colls, r) && KeyAt(colls, r) == k
  {
    var d, x :| 0 <= d < |colls| && x in colls[d].records && x.key == k;
    var i :| 0 <= i < |colls[d].records| && colls[d].records[i] == x;
    assert ValidRef(colls, Ref(d, i)) && KeyAt(colls, Ref(d, i)) == k;
  }

  lemma {:induction false} StoredAreKeys<K(!new)>(colls: seq<Collection<K>>)
    requires OneRefPerKey(colls)
    ensures |AllDeepKeys(colls)| == Stored(colls)
  {
    if colls == [] {
    } else {
      var n := |colls| - 1;
      var low, last := colls[..n], colls[n].records;
      assert OneRefPerKey(low) by {
        forall r, q | ValidRef(low, r) && ValidRef(low, q) && KeyAt(low, r) == KeyAt(low, q) ensures r == q {
          assert ValidRef(colls, r) && ValidRef(colls, q) && KeyAt(colls, r) == KeyAt(colls, q);
        }
      }
      StoredAreKeys(low);
      LastDiffers(colls);
      DifferentRecords(last);
      assert |AllDeepKeys(low) + DeepKeys(last)| == |AllDeepKeys(low)| + |DeepKeys(last)|;
    }
  }

  lemma OtherKey<K(!new)>(colls: seq<Collection<K>>, r: Ref, q: Ref)
    requires OneRefPerKey(colls) && ValidRef(colls, r) && ValidRef(colls, q) && r != q
    ensures KeyAt(colls, r) != KeyAt(colls, q)
  {
  }

  lemma LastDiffers<K(!new)>(colls: seq<Collection<K>>)
    requires OneRefPerKey(colls) && colls != []
    ensures var n := |colls| - 1;
            && AllDeepKeys(colls) == AllDeepKeys(colls[..n]) + DeepKeys(colls[n].records)
            && AllDeepKeys(colls[..n]) !! DeepKeys(colls[n].records)
            && forall i, j :: 0 <= i < j < |colls[n].records| ==> colls[n].records[i].key != colls[n].records[j].key
  {
    var n := |colls| - 1;
    var low, last := colls[..n], colls[n].records;
    forall k | k in AllDeepKeys(low) ensures k !in DeepKeys(last) && k in AllDeepKeys(colls) {
      KeysOfAll(low, k);
      var r :| ValidRef(low, r) && KeyAt(low, r) == k;
      assert low[r.depth] == colls[r.depth] && colls[r.depth].records[r.index] in colls[r.depth].records;
      forall x | x in last ensures x.key != k {
        var i :| 0 <= i < |last| && last[i] == x;
        OtherKey(colls, r, Ref(n, i));
      }
    }
    forall k | k in AllDeepKeys(colls) ensures k in AllDeepKeys(low) + DeepKeys(last) {
      KeysOfAll(colls, k);
      var r :| ValidRef(colls, r) && KeyAt(colls, r) == k;
      assert colls[r.depth].records[r.index] in colls[r.depth].records;
      if r.depth < n { assert low[r.depth] == colls[r.depth]; }
    }
    forall i, j | 0 <= i < j < |last| ensures last[i].key != last[j].key {
      assert ValidRef(colls, Ref(n, i)) && ValidRef(colls, Ref(n, j));
    }
  }

  ghost predicate AllGood<K(!new)>(g: Grading<K>, keys: set<K>) {
    forall k :: k in keys ==> g.good(k)
  }

  // There are no more good keys than that.
  ghost predicate FewKeys<K(!new)>(g: Grading<K>, bound: nat) {
    forall keys {:trigger AllGood(g, keys)} :: AllGood(g, keys) ==> |keys| <= bound
  }

  lemma StoredAreFew<K(!new)>(g: Grading<K>, sh: DeepShared<K>, bound: nat)
    requires DeepSharedOk(g, sh) && FewKeys(g, bound)
    ensures Stored(sh.colls) == |AllDeepKeys(sh.colls)| <= bound
  {
    forall r, q | ValidRef(sh.colls, r) && ValidRef(sh.colls, q) && KeyAt(sh.colls, r) == KeyAt(sh.colls, q)
      ensures r == q
    {
      OneDepthPerKey(g, sh, r, q);
    }
    StoredAreKeys(sh.colls);
    forall k | k in AllDeepKeys(sh.colls) ensures g.good(k) {
      KeysOfAll(sh.colls, k);
      var r :| ValidRef(sh.colls, r) && KeyAt(sh.colls, r) == k;
      assert CollOk(g, sh.colls, r.depth) && RecordOk(g, sh.colls, r.depth, r.index);
    }
    assert AllGood(g, AllDeepKeys(sh.colls));
  }

  // ---- The steps that are left ----

  // The steps a thread has left before it waits or leaves. n is the number of threads: giving back a
  // batch, inserting and reporting can wake all others.
  function Rank<K>(n: nat, th: DeepThread<K>): nat {
    match th.pc
    case Left => 0
    case Waiting => 1
    case AtLock => if th.prevSize == 0 then 2 else n + 3
    case Inserting => 2 * n + 4
    case Reporting => n + 1
    case Working => 2 * n + 4 + if th.next < |th.batch| then |th.batch| - th.next else 0
  }

  function TotalRank<K>(n: nat, threads: seq<DeepThread<K>>): nat {
    if threads == [] then 0 else TotalRank(n, threads[..|threads| - 1]) + Rank(n, threads[|threads| - 1])
  }

  lemma {:induction false} RankUpdate<K>(n: nat, threads: seq<DeepThread<K>>, i: nat, th: DeepThread<K>)
    requires i < |threads|
    ensures TotalRank(n, threads[i := th]) == TotalRank(n, threads) - Rank(n, threads[i]) + Rank(n, th)
    ensures Rank(n, threads[i]) <= TotalRank(n, threads)
  {
    var m := |threads| - 1;
    if i == m {
      assert threads[i := th][..m] == threads[..m];
    } else {
      RankUpdate(n, threads[..m], i, th);
      assert threads[i := th][..m] == threads[..m][i := th];
    }
  }

  // A thread that waits has given its batch back.
  ghost predicate OweNothing<K>(threads: seq<DeepThread<K>>) {
    forall i :: 0 <= i < |threads| && threads[i].pc == Waiting ==> threads[i].prevSize == 0
  }

  // A woken thread has one step more, and nobody else has.
  lemma {:induction false} RankWoken<K>(n: nat, threads: seq<DeepThread<K>>, threads': seq<DeepThread<K>>)
    requires Awoken(threads, threads')
    requires OweNothing(threads)
    ensures TotalRank(n, threads) <= TotalRank(n, threads') <= TotalRank(n, threads) + |threads|
  {
    if threads == [] {
    } else {
      RankWoken(n, threads[..|threads| - 1], threads'[..|threads| - 1]);
    }
  }

  lemma {:induction false} RankNone<K>(n: nat, threads: seq<DeepThread<K>>, r: nat)
    requires forall i :: 0 <= i < |threads| ==> Rank(n, threads[i]) == r
    ensures TotalRank(n, threads) == r * |threads|
  {
    if threads == [] {
    } else {
      RankNone(n, threads[..|threads| - 1], r);
      assert r * |threads| == r * (|threads| - 1) + r;
    }
  }

  // The weights of a depth and of an item that was not extracted yet.
  function DepthWeight(n: nat): nat {
    2 * n + 1
  }

  function ItemWeight(n: nat): nat {
    2 * n + 4
  }

  function Measure<K>(depths: nat, bound: nat, s: DeepSystem<K>): int {
    var n := |s.threads|;
    (depths - s.sh.currDepth) * DepthWeight(n) + (bound - s.sh.numProcessed) * ItemWeight(n) + TotalRank(n, s.threads)
  }

  predicate IsSpurious<K>(s: DeepSystem<K>, who: Actor) {
    who.Worker? && who.i < |s.threads| && s.threads[who.i].pc == Waiting
  }

  lemma WaitersOweNothing<K(!new)>(g: Grading<K>, s: DeepSystem<K>, i: nat, th: DeepThread<K>)
    requires DeepInv(g, s) && i < |s.threads| && th.pc != Waiting
    ensures OweNothing(s.threads[i := th])
  {
    var threads := s.threads[i := th];
    forall j | 0 <= j < |threads| && threads[j].pc == Waiting ensures threads[j].prevSize == 0 {
      assert DeepThreadOk(g, s.sh, s.threads[j]);
    }
  }

  // The step leaves less to do, the weights of extracted items counted; d says how much less or more.
  ghost predicate Shrinks<K>(s: DeepSystem<K>, s': DeepSystem<K>, d: int) {
    && |s'.threads| == |s.threads| && s'.sh.currDepth == s.sh.currDepth
    && TotalRank(|s.threads|, s'.threads) <= TotalRank(|s.threads|, s.threads) + d
         + (s'.sh.numProcessed - s.sh.numProcessed) * ItemWeight(|s.threads|)
  }

  lemma NothingTaken(w: nat)
    ensures 0 * w == 0
  {
  }

  // A step that replaces one thread by another and may wake the others.
  lemma WakingStep<K(!new)>(g: Grading<K>, s: DeepSystem<K>, s': DeepSystem<K>, i: nat, th: DeepThread<K>)
    requires DeepInv(g, s) && i < |s.threads| && th.pc != Waiting && Awoken(s.threads[i := th], s'.threads)
    requires Rank(|s.threads|, th) + |s.threads| < Rank(|s.threads|, s.threads[i])
    requires s'.sh.numProcessed == s.sh.numProcessed && s'.sh.currDepth == s.sh.currDepth
    ensures Shrinks(s, s', -1)
  {
    WaitersOweNothing(g, s, i, th);
    WokenLess(|s.threads|, s.threads, i, th, s'.threads);
    NothingTaken(ItemWeight(|s.threads|));
  }

  lemma WokenLess<K>(n: nat, threads: seq<DeepThread<K>>, i: nat, th: DeepThread<K>, threads': seq<DeepThread<K>>)
    requires i < |threads| && Awoken(threads[i := th], threads') && Rank(n, th) + |threads| < Rank(n, threads[i])
    requires OweNothing(threads[i := th])
    ensures TotalRank(n, threads') < TotalRank(n, threads)
  {
    RankUpdate(n, threads, i, th);
    RankWoken(n, threads[i := th], threads');
  }

  lemma ReturnShrinks<K(!new)>(g: Grading<K>, s: DeepSystem<K>, s': DeepSystem<K>, i: nat)
    requires DeepInv(g, s) && ReturnStep(s, s', i)
    ensures Shrinks(s, s', -1)
  {
    WakingStep(g, s, s', i, s.threads[i].(prevSize := 0));
  }

  lemma InsertShrinks<K(!new)>(g: Grading<K>, s: DeepSystem<K>, s': DeepSystem<K>, i: nat)
    requires DeepInv(g, s) && Counted(s.sh) && InsertStep(s, s', i)
    ensures Shrinks(s, s', -1)
  {
    InsertAllCounts(s.sh, s.threads[i].pending);
    WakingStep(g, s, s', i, DeepThread(AtLock, s.threads[i].prevSize, [], 0, []));
  }

  lemma ReportShrinks<K(!new)>(g: Grading<K>, s: DeepSystem<K>, s': DeepSystem<K>, i: nat)
    requires DeepInv(g, s) && ReportStep(s, s', i)
    ensures Shrinks(s, s', -1)
  {
    WakingStep(g, s, s', i, s.threads[i].(pc := Left));
  }

  lemma WorkShrinks<K(!new)>(e: DeepExpander<K>, s: DeepSystem<K>, s': DeepSystem<K>, i: nat)
    requires WorkStep(e, s, s', i)
    ensures Shrinks(s, s', -1)
  {
    RankUpdate(|s.threads|, s.threads, i, s'.threads[i]);
    NothingTaken(ItemWeight(|s.threads|));
  }

  lemma SpuriousGrows<K(!new)>(g: Grading<K>, s: DeepSystem<K>, s': DeepSystem<K>, i: nat)
    requires DeepInv(g, s) && SpuriousStep(s, s', i)
    ensures Shrinks(s, s', 1)
  {
    assert DeepThreadOk(g, s.sh, s.threads[i]);
    RankUpdate(|s.threads|, s.threads, i, WakeOne(s.threads[i]));
    NothingTaken(ItemWeight(|s.threads|));
  }

  // The items of a batch pay for the work on them.
  lemma {:induction false} BatchPays(k: nat, w: nat)
    requires k > 0 && w > 0
    ensures k * w >= w + (k - 1)
  {
    if k == 1 {
    } else {
      BatchPays(k - 1, w);
      assert k * w == (k - 1) * w + w;
    }
  }

  lemma TakeShrinks<K(!new)>(limits: Limits, maxBatch: nat, s: DeepSystem<K>, s': DeepSystem<K>, i: nat)
    requires maxBatch > 0 && Counted(s.sh) && TakeStep(limits, maxBatch, s, s', i)
    ensures Shrinks(s, s', -1)
  {
    var n := |s.threads|;
    var k := if s.sh.flag == DontTerminate then Min(maxBatch, |s.sh.colls[s.sh.currDepth].queue|) else 0;
    ExtractCounts(s.sh, limits, k);
    ExtractManyEffect(s.sh, limits, k);
    RankUpdate(n, s.threads, i, s'.threads[i]);
    if k > 0 { BatchPays(k, ItemWeight(n)); } else { NothingTaken(ItemWeight(n)); }
  }

  lemma TimesLess(a: int, b: int, w: nat)
    ensures (a - b) * w == a * w - b * w
  {
  }

  // Extracting lowers the measure by the weights of the items.
  lemma MeasureOf<K>(depths: nat, bound: nat, s: DeepSystem<K>, s': DeepSystem<K>)
    requires |s'.threads| == |s.threads| && s'.sh.currDepth == s.sh.currDepth
    ensures var n := |s.threads|;
            Measure(depths, bound, s') - Measure(depths, bound, s) ==
            TotalRank(n, s'.threads) - TotalRank(n, s.threads)
              - (s'.sh.numProcessed - s.sh.numProcessed) * ItemWeight(n)
  {
    var w := ItemWeight(|s.threads|);
    TimesLess(bound - s.sh.numProcessed, s'.sh.numProcessed - s.sh.numProcessed, w);
    assert bound - s'.sh.numProcessed == (bound - s.sh.numProcessed) - (s'.sh.numProcessed - s.sh.numProcessed);
  }

  lemma DescendShrinks<K(!new)>(depths: nat, bound: nat, s: DeepSystem<K>, s': DeepSystem<K>)
    requires DescendStep(s, s')
    ensures |s'.threads| == |s.threads| && Measure(depths, bound, s') < Measure(depths, bound, s)
  {
    var n := |s.threads|;
    RankNone(n, s.threads, 0);
    RankNone(n, s'.threads, if s'.sh.currDepth < |s.sh.colls| then 2 else 0);
    TimesLess(depths - s.sh.currDepth, 1, DepthWeight(n));
    assert depths - s'.sh.currDepth == (depths - s.sh.currDepth) - 1;
  }

  lemma WorkerShrinks<K(!new)>(g: Grading<K>, limits: Limits, maxBatch: nat, s: DeepSystem<K>, s': DeepSystem<K>,
                               i: nat)
    requires maxBatch > 0 && DeepInv(g, s) && Counted(s.sh) && DeepNext(g.e, limits, maxBatch, s, s', Worker(i))
    ensures Shrinks(s, s', if IsSpurious(s, Worker(i)) then 1 else -1)
  {
    if ReturnStep(s, s', i) { ReturnShrinks(g, s, s', i); }
    else if TakeStep(limits, maxBatch, s, s', i) { TakeShrinks(limits, maxBatch, s, s', i); }
    else if WorkStep(g.e, s, s', i) { WorkShrinks(g.e, s, s', i); }
    else if InsertStep(s, s', i) { InsertShrinks(g, s, s', i); }
    else if ReportStep(s, s', i) { ReportShrinks(g, s, s', i); }
    else { SpuriousGrows(g, s, s', i); }
  }

  lemma StepShrinks<K(!new)>(g: Grading<K>, limits: Limits, maxBatch: nat, bound: nat, s: DeepSystem<K>,
                             s': DeepSystem<K>, who: Actor)
    requires maxBatch > 0 && DeepInv(g, s) && Counted(s.sh) && DeepNext(g.e, limits, maxBatch, s, s', who)
    ensures |s'.threads| == |s.threads|
    ensures Measure(g.depths, bound, s') <= Measure(g.depths, bound, s) + if IsSpurious(s, who) then 1 else -1
  {
    match who {
      case MainThread => DescendShrinks(g.depths, bound, s, s');
      case Worker(i) =>
        WorkerShrinks(g, limits, maxBatch, s, s', i);
        MeasureOf(g.depths, bound, s, s');
    }
  }

  lemma MeasureNotNegative<K(!new)>(g: Grading<K>, bound: nat, s: DeepSystem<K>)
    requires FewKeys(g, bound) && DeepInv(g, s) && Counted(s.sh)
    ensures Measure(g.depths, bound, s) >= 0
  {
    StoredAreFew(g, s.sh, bound);
    NotNegative(g.depths - s.sh.currDepth, DepthWeight(|s.threads|));
    NotNegative(bound - s.sh.numProcessed, ItemWeight(|s.threads|));
  }

  lemma NotNegative(a: nat, b: nat)
    ensures a * b >= 0
  {
  }

  // ---- Whole runs ----

  ghost function SpuriousWakeUps<K>(first: DeepSystem<K>, run: seq<DeepStep<K>>): nat
    decreases |run|
  {
    if run == [] then 0
    else (if IsSpurious(first, run[0].who) then 1 else 0) + SpuriousWakeUps(run[0].state, run[1..])
  }

  lemma {:induction false} RunShrinks<K(!new)>(g: Grading<K>, limits: Limits, maxBatch: nat, bound: nat,
                                               s: DeepSystem<K>, run: seq<DeepStep<K>>)
    requires GradingOk(g) && maxBatch > 0 && DeepInv(g, s) && Counted(s.sh) && IsDeepRun(g.e, limits, maxBatch, s, run)
    ensures DeepInv(g, DeepEnd(s, run)) && Counted(DeepEnd(s, run).sh)
    ensures |run| + Measure(g.depths, bound, DeepEnd(s, run))
         <= Measure(g.depths, bound, s) + 2 * SpuriousWakeUps(s, run)
    decreases |run|
  {
    if run == [] {
    } else {
      var s', who := run[0].state, run[0].who;
      StepShrinks(g, limits, maxBatch, bound, s, s', who);
      StepCounts(g.e, limits, maxBatch, s, s', who);
      DeepStepKeepsInv(g, limits, maxBatch, s, s', who);
      RunShrinks(g, limits, maxBatch, bound, s', run[1..]);
      DeepEndLater(s, run);
    }
  }

  lemma StartMeasure<K>(g: Grading<K>, bound: nat, numThreads: nat)
    requires g.depths > 0
    ensures Measure(g.depths, bound, DeepStart(g.first, g.depths, numThreads))
         == g.depths * DepthWeight(numThreads) + bound * ItemWeight(numThreads) + 2 * numThreads
  {
    RankNone(numThreads, DeepStart(g.first, g.depths, numThreads).threads, 2);
  }

  // In every run the steps other than spurious wake-ups are bounded, and the counters are right.
  lemma DeepRunsEnd<K(!new)>(g: Grading<K>, limits: Limits, maxBatch: nat, bound: nat, numThreads: nat,
                             run: seq<DeepStep<K>>)
    requires GradingOk(g) && FewKeys(g, bound) && maxBatch > 0 && numThreads > 0
    requires IsDeepRun(g.e, limits, maxBatch, DeepStart(g.first, g.depths, numThreads), run)
    ensures |run| <= g.depths * DepthWeight(numThreads) + bound * ItemWeight(numThreads) + 2 * numThreads
                       + 2 * SpuriousWakeUps(DeepStart(g.first, g.depths, numThreads), run)
    ensures var sh := DeepEnd(DeepStart(g.first, g.depths, numThreads), run).sh;
            sh.numProcessed + sh.numInQueue == sh.numStates == |AllDeepKeys(sh.colls)| <= bound && sh.numInQueue >= 0
  {
    var s := DeepStart(g.first, g.depths, numThreads);
    DeepStartHasInv(g, numThreads);
    StartCounts(g.first, g.depths, numThreads);
    RunShrinks(g, limits, maxBatch, bound, s, run);
    MeasureNotNegative(g, bound, DeepEnd(s, run));
    StartMeasure(g, bound, numThreads);
    StoredAreFew(g, DeepEnd(s, run).sh, bound);
  }

  // The main thread has nothing more to start.
  predicate Over<K>(s: DeepSystem<K>) {
    AllLeft(s) && (s.sh.solution.Some? || s.sh.currDepth >= |s.sh.colls|)
  }

  // Until the search is over some step can be taken that is not a spurious wake-up.
  lemma NextStep<K(!new)>(g: Grading<K>, limits: Limits, maxBatch: nat, s: DeepSystem<K>)
    returns (who: Actor, s': DeepSystem<K>)
    requires GradingOk(g) && DeepInv(g, s) && !Over(s)
    ensures DeepNext(g.e, limits, maxBatch, s, s', who) && !IsSpurious(s, who)
  {
    if AllLeft(s) {
      var sh := s.sh.(currDepth := s.sh.currDepth + 1);
      who := MainThread;
      s' := DeepSystem(sh, if sh.currDepth < |sh.colls| then seq(|s.threads|, _ => NewThread()) else s.threads);
    } else {
      var j;
      j, s' := NoDeepDeadlock(g, limits, maxBatch, s);
      who := Worker(j);
    }
  }

  // Wherever the workers are, they can bring the search to its end without spurious wake-ups.
  lemma {:induction false} DeepCanFinish<K(!new)>(g: Grading<K>, limits: Limits, maxBatch: nat, bound: nat,
                                                  s: DeepSystem<K>) returns (run: seq<DeepStep<K>>)
    requires GradingOk(g) && FewKeys(g, bound) && maxBatch > 0 && DeepInv(g, s) && Counted(s.sh)
    ensures IsDeepRun(g.e, limits, maxBatch, s, run) && Over(DeepEnd(s, run)) && SpuriousWakeUps(s, run) == 0
    decreases Measure(g.depths, bound, s)
  {
    MeasureNotNegative(g, bound, s);
    if Over(s) {
      run := [];
    } else {
      var who, s' := NextStep(g, limits, maxBatch, s);
      StepShrinks(g, limits, maxBatch, bound, s, s', who);
      StepCounts(g.e, limits, maxBatch, s, s', who);
      DeepStepKeepsInv(g, limits, maxBatch, s, s', who);
      var rest := DeepCanFinish(g, limits, maxBatch, bound, s');
      run := [DeepStep(who, s')] + rest;
      assert run[1..] == rest;
      DeepEndLater(s, run);
    }
  }

  lemma {:induction false} DeepRunJoin<K(!new)>(e: DeepExpander<K>, limits: Limits, maxBatch: nat, s: DeepSystem<K>,
                                                a: seq<DeepStep<K>>, b: seq<DeepStep<K>>)
    requires IsDeepRun(e, limits, maxBatch, s, a) && IsDeepRun(e, limits, maxBatch, DeepEnd(s, a), b)
    ensures IsDeepRun(e, limits, maxBatch, s, a + b) && DeepEnd(s, a + b) == DeepEnd(DeepEnd(s, a), b)
    decreases |a|
  {
    if a == [] {
      assert a + b == b;
    } else {
      DeepEndLater(s, a);
      DeepRunJoin(e, limits, maxBatch, a[0].state, a[1..], b);
      TailOfSum(a, b);
      DeepEndLater(s, a + b);
    }
  }

  // Every run can be continued to its end.
  lemma DeepFinish<K(!new)>(g: Grading<K>, limits: Limits, maxBatch: nat, bound: nat, numThreads: nat,
                            run: seq<DeepStep<K>>) returns (rest: seq<DeepStep<K>>)
    requires GradingOk(g) && FewKeys(g, bound) && maxBatch > 0 && numThreads > 0
    requires IsDeepRun(g.e, limits, maxBatch, DeepStart(g.first, g.depths, numThreads), run)
    ensures IsDeepRun(g.e, limits, maxBatch, DeepStart(g.first, g.depths, numThreads), run + rest)
    ensures SpuriousWakeUps(DeepEnd(DeepStart(g.first, g.depths, numThreads), run), rest) == 0
    ensures var s := DeepEnd(DeepStart(g.first, g.depths, numThreads), run + rest);
            && Over(s) && |s.sh.colls| == g.depths && s.sh.currDepth <= g.depths
            && (s.sh.flag == SolutionFoundTerminate <==> s.sh.solution.Some?)
  {
    var s := DeepStart(g.first, g.depths, numThreads);
    DeepStartHasInv(g, numThreads);
    StartCounts(g.first, g.depths, numThreads);
    RunShrinks(g, limits, maxBatch, bound, s, run);
    rest := DeepCanFinish(g, limits, maxBatch, bound, DeepEnd(s, run));
    DeepRunJoin(g.e, limits, maxBatch, s, run, rest);
    DeepRunKeepsInv(g, limits, maxBatch, s, run + rest);
  }
}
