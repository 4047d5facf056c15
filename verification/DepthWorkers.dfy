/**
 The batch workers of the depth solver: one collection for each depth, a condition variable, and a
 main thread that goes to the next depth when all workers have left. One step is one critical
 section or the local work between two of them. What a key expands to is a parameter.
 */
module DepthWorkers {
  import opened Cards
  import opened Numbers
  import opened SolverCommon

  // A derived key and how many irreversible moves lead to it.
  datatype DeepKey<K> = DeepKey(key: K, count: nat)

  type DeepExpander<!K> = K -> Option<seq<DeepKey<K>>>

  // Where a record is: its depth and its index there.
  datatype Ref = Ref(depth: nat, index: nat)

  datatype DeepRecord<K> = DeepRecord(key: K, parent: Option<Ref>)

  datatype Collection<K> = Collection(records: seq<DeepRecord<K>>, queue: seq<nat>)

  datatype DeepShared<K> = DeepShared(
    colls: seq<Collection<K>>, currDepth: nat, inFlight: int, flag: Flag, solution: Option<Ref>,
    numStates: nat, numProcessed: nat, numInQueue: int)

  datatype DeepPC = AtLock | Waiting | Working | Inserting | Reporting | Left

  // A derived key and the index of the item of the batch it comes from.
  datatype Pending<K> = Pending(derived: DeepKey<K>, parent: nat)

  datatype DeepThread<K> = DeepThread(pc: DeepPC, prevSize: nat, batch: seq<nat>, next: nat, pending: seq<Pending<K>>)

  datatype DeepSystem<K> = DeepSystem(sh: DeepShared<K>, threads: seq<DeepThread<K>>)

  function DeepKeys<K>(records: seq<DeepRecord<K>>): set<K> {
    set r | r in records :: r.key
  }

  // ---- The critical sections ----

  function ExtractMany<K>(sh: DeepShared<K>, limits: Limits, n: nat): DeepShared<K>
    requires sh.currDepth < |sh.colls| && n <= |sh.colls[sh.currDepth].queue|
    decreases n
  {
    if n == 0 then sh
    else
      var coll := sh.colls[sh.currDepth];
      var processed := sh.numProcessed + 1;
      var taken := sh.(colls := sh.colls[sh.currDepth := coll.(queue := coll.queue[1..])],
                       numInQueue := sh.numInQueue - 1, inFlight := sh.inFlight + 1, numProcessed := processed,
                       flag := if processed >= limits.maxProcessed || sh.numStates >= limits.maxStates
                               then MaxItersTerminate else sh.flag);
      ExtractMany(taken, limits, n - 1)
  }

  // Inserts a derived key at its depth unless that collection has it.
  function InsertDeep<K(==)>(sh: DeepShared<K>, p: Pending<K>): DeepShared<K>
    requires sh.currDepth + p.derived.count < |sh.colls|
  {
    var d := sh.currDepth + p.derived.count;
    var coll := sh.colls[d];
    if p.derived.key in DeepKeys(coll.records) then sh
    else
      var record := DeepRecord(p.derived.key, Some(Ref(sh.currDepth, p.parent)));
      sh.(colls := sh.colls[d := Collection(coll.records + [record], coll.queue + [|coll.records|])],
          numInQueue := sh.numInQueue + 1, numStates := sh.numStates + 1)
  }

  predicate AllFit<K>(sh: DeepShared<K>, pending: seq<Pending<K>>) {
    forall k :: 0 <= k < |pending| ==> sh.currDepth + pending[k].derived.count < |sh.colls|
  }

  function InsertAll<K(==)>(sh: DeepShared<K>, pending: seq<Pending<K>>): DeepShared<K>
    requires AllFit(sh, pending)
    decreases |pending|
  {
    if pending == [] then sh else InsertAll(InsertDeep(sh, pending[0]), pending[1..])
  }

  function WakeOne<K>(th: DeepThread<K>): DeepThread<K> {
    if th.pc == Waiting then th.(pc := AtLock) else th
  }

  // Broadcast on the monitor.
  function WakeAll<K>(threads: seq<DeepThread<K>>): (woken: seq<DeepThread<K>>)
    ensures |woken| == |threads|
    ensures forall i :: 0 <= i < |threads| ==> woken[i] == WakeOne(threads[i])
  {
    seq(|threads|, i requires 0 <= i < |threads| => WakeOne(threads[i]))
  }

  // Signal on the monitor: some waiting thread wakes up, if there is one.
  ghost predicate Signalled<K>(threads: seq<DeepThread<K>>, threads': seq<DeepThread<K>>) {
    || (threads' == threads && forall i :: 0 <= i < |threads| ==> threads[i].pc != Waiting)
    || exists w :: 0 <= w < |threads| && threads[w].pc == Waiting && threads' == threads[w := WakeOne(threads[w])]
  }

  // ---- Steps of a worker ----

  // Gives back the batch; the last one to do so wakes the others.
  ghost predicate ReturnStep<K>(s: DeepSystem<K>, s': DeepSystem<K>, i: nat) {
    && i < |s.threads| && s.threads[i].pc == AtLock && s.threads[i].prevSize > 0
    && s'.sh == s.sh.(inFlight := s.sh.inFlight - s.threads[i].prevSize)
    && var threads := s.threads[i := s.threads[i].(prevSize := 0)];
       s'.threads == if s'.sh.inFlight == 0 then WakeAll(threads) else threads
  }

  // Takes a batch, waits on the monitor, or leaves.
  ghost predicate TakeStep<K>(limits: Limits, maxBatch: nat, s: DeepSystem<K>, s': DeepSystem<K>, i: nat) {
    && i < |s.threads| && s.threads[i].pc == AtLock && s.threads[i].prevSize == 0 && s.sh.currDepth < |s.sh.colls|
    && var th, queue := s.threads[i], s.sh.colls[s.sh.currDepth].queue;
       if s.sh.flag != DontTerminate then
         s'.sh == s.sh && s'.threads == s.threads[i := th.(pc := Left)]
       else
         var n := Min(maxBatch, |queue|);
         && s'.sh == ExtractMany(s.sh, limits, n)
         && s'.threads == s.threads[i :=
              if n > 0 then DeepThread(Working, n, queue[..n], 0, [])
              else if s'.sh.inFlight == 0 then th.(pc := Left) else th.(pc := Waiting)]
  }

  // Handles the next item of the batch.
  ghost predicate WorkStep<K(!new)>(e: DeepExpander<K>, s: DeepSystem<K>, s': DeepSystem<K>, i: nat) {
    && i < |s.threads| && s.threads[i].pc == Working && s.threads[i].next < |s.threads[i].batch|
    && s.sh.currDepth < |s.sh.colls| && s'.sh == s.sh
    && var th := s.threads[i];
       var t := th.batch[th.next];
       && t < |s.sh.colls[s.sh.currDepth].records|
       && match e(s.sh.colls[s.sh.currDepth].records[t].key)
          case None => s'.threads == s.threads[i := th.(pc := Reporting)]
          case Some(derived) => s'.threads == s.threads[i := AfterItem(th, t, derived)]
  }

  function Pendings<K>(derived: seq<DeepKey<K>>, t: nat): seq<Pending<K>> {
    seq(|derived|, k requires 0 <= k < |derived| => Pending(derived[k], t))
  }

  // A batch of one item without derived keys is not inserted, and nobody is woken.
  function AfterItem<K>(th: DeepThread<K>, t: nat, derived: seq<DeepKey<K>>): DeepThread<K> {
    var pending := th.pending + Pendings(derived, t);
    if th.next + 1 < |th.batch| then th.(next := th.next + 1, pending := pending)
    else if |th.batch| == 1 && pending == [] then DeepThread(AtLock, th.prevSize, [], 0, [])
    else th.(pc := Inserting, next := th.next + 1, pending := pending)
  }

  // Inserts all derived keys of the batch; wakes one waiting thread if the queue has items, all if not.
  ghost predicate InsertStep<K>(s: DeepSystem<K>, s': DeepSystem<K>, i: nat) {
    && i < |s.threads| && s.threads[i].pc == Inserting && AllFit(s.sh, s.threads[i].pending)
    && s.sh.currDepth < |s.sh.colls|
    && s'.sh == InsertAll(s.sh, s.threads[i].pending)
    && s'.sh.currDepth < |s'.sh.colls|
    && var threads := s.threads[i := DeepThread(AtLock, s.threads[i].prevSize, [], 0, [])];
       if s'.sh.colls[s'.sh.currDepth].queue != [] then Signalled(threads, s'.threads)
       else s'.threads == WakeAll(threads)
  }

  // Reports a solution and leaves with the batch in hand.
  ghost predicate ReportStep<K>(s: DeepSystem<K>, s': DeepSystem<K>, i: nat) {
    && i < |s.threads| && s.threads[i].pc == Reporting && s.threads[i].next < |s.threads[i].batch|
    && s'.sh == s.sh.(flag := SolutionFoundTerminate,
                      solution := Some(Ref(s.sh.currDepth, s.threads[i].batch[s.threads[i].next])))
    && s'.threads == WakeAll(s.threads[i := s.threads[i].(pc := Left)])
  }

  // A wait may end without a signal.
  ghost predicate SpuriousStep<K>(s: DeepSystem<K>, s': DeepSystem<K>, i: nat) {
    && i < |s.threads| && s.threads[i].pc == Waiting
    && s'.sh == s.sh && s'.threads == s.threads[i := WakeOne(s.threads[i])]
  }

  predicate AllLeft<K>(s: DeepSystem<K>) {
    forall i :: 0 <= i < |s.threads| ==> s.threads[i].pc == Left
  }

  function NewThread<K>(): DeepThread<K> {
    DeepThread(AtLock, 0, [], 0, [])
  }

  // The main thread goes to the next depth and starts the workers again.
  ghost predicate DescendStep<K>(s: DeepSystem<K>, s': DeepSystem<K>) {
    && AllLeft(s) && s.sh.solution.None? && s.sh.currDepth < |s.sh.colls|
    && s'.sh == s.sh.(currDepth := s.sh.currDepth + 1)
    && s'.threads == if s'.sh.currDepth < |s.sh.colls| then seq(|s.threads|, _ => NewThread()) else s.threads
  }

  datatype Actor = Worker(i: nat) | MainThread

  ghost predicate DeepNext<K(!new)>(e: DeepExpander<K>, limits: Limits, maxBatch: nat, s: DeepSystem<K>,
                                    s': DeepSystem<K>, who: Actor) {
    match who
    case MainThread => DescendStep(s, s')
    case Worker(i) =>
      || ReturnStep(s, s', i) || TakeStep(limits, maxBatch, s, s', i) || WorkStep(e, s, s', i)
      || InsertStep(s, s', i) || ReportStep(s, s', i) || SpuriousStep(s, s', i)
  }

  datatype DeepStep<K> = DeepStep(who: Actor, state: DeepSystem<K>)

  ghost predicate IsDeepRun<K(!new)>(e: DeepExpander<K>, limits: Limits, maxBatch: nat, first: DeepSystem<K>,
                                     run: seq<DeepStep<K>>)
    decreases |run|
  {
    run == [] || (DeepNext(e, limits, maxBatch, first, run[0].state, run[0].who)
                  && IsDeepRun(e, limits, maxBatch, run[0].state, run[1..]))
  }

  function DeepEnd<K>(first: DeepSystem<K>, run: seq<DeepStep<K>>): DeepSystem<K> {
    if run == [] then first else run[|run| - 1].state
  }

  lemma DeepEndLater<K>(first: DeepSystem<K>, run: seq<DeepStep<K>>)
    requires run != []
    ensures DeepEnd(first, run) == DeepEnd(run[0].state, run[1..])
  {
  }

  function DeepStart<K>(key: K, depths: nat, numThreads: nat): DeepSystem<K>
    requires depths > 0
  {
    var empty: Collection<K> := Collection([], []);
    var colls := seq(depths, d => if d == 0 then Collection([DeepRecord(key, None)], [0]) else empty);
    DeepSystem(DeepShared(colls, 0, 0, DontTerminate, None, 1, 0, 1), seq(numThreads, _ => NewThread()))
  }

  // ---- What is assumed of the keys ----

  // The count of a derived key is the growth of a potential that depends on the key alone.
  ghost predicate Graded<K(!new)>(e: DeepExpander<K>, good: K -> bool, phi: K -> int) {
    forall k: K {:trigger e(k)} :: good(k) && e(k).Some? ==>
      forall c :: c in e(k).value ==> good(c.key) && phi(c.key) == phi(k) + c.count
  }

  ghost predicate Bounded<K(!new)>(good: K -> bool, phi: K -> int, base: int, depths: nat) {
    forall k: K {:trigger good(k)} :: good(k) ==> phi(k) - base < depths
  }

  datatype Grading<!K> = Grading(e: DeepExpander<K>, good: K -> bool, phi: K -> int, base: int, depths: nat, first: K)

  ghost predicate GradingOk<K(!new)>(g: Grading<K>) {
    && g.depths > 0 && g.good(g.first) && g.phi(g.first) == g.base
    && Graded(g.e, g.good, g.phi) && Bounded(g.good, g.phi, g.base, g.depths)
  }

  // ---- The invariant ----

  ghost predicate DerivedFrom<K(!new)>(g: Grading<K>, parent: K, key: K) {
    g.e(parent).Some? && exists c :: c in g.e(parent).value && c.key == key
  }

  ghost predicate ValidRef<K>(colls: seq<Collection<K>>, r: Ref) {
    r.depth < |colls| && r.index < |colls[r.depth].records|
  }

  ghost predicate RecordOk<K(!new)>(g: Grading<K>, colls: seq<Collection<K>>, d: nat, t: nat)
    requires d < |colls| && t < |colls[d].records|
  {
    var r := colls[d].records[t];
    && g.good(r.key) && g.phi(r.key) == g.base + d
    && match r.parent
       case None => r.key == g.first
       case Some(p) =>
         && ValidRef(colls, p) && (p.depth < d || (p.depth == d && p.index < t))
         && DerivedFrom(g, colls[p.depth].records[p.index].key, r.key)
  }

  ghost predicate CollOk<K(!new)>(g: Grading<K>, colls: seq<Collection<K>>, d: nat)
    requires d < |colls|
  {
    && (forall t :: t in colls[d].queue ==> t < |colls[d].records|)
    && (forall i, j :: 0 <= i < j < |colls[d].records| ==> colls[d].records[i].key != colls[d].records[j].key)
    && (forall t :: 0 <= t < |colls[d].records| ==> RecordOk(g, colls, d, t))
  }

  ghost predicate DeepSharedOk<K(!new)>(g: Grading<K>, sh: DeepShared<K>) {
    && |sh.colls| == g.depths > 0 && sh.currDepth <= g.depths
    && sh.colls[0].records != [] && sh.colls[0].records[0].key == g.first
    && (forall d :: 0 <= d < |sh.colls| ==> CollOk(g, sh.colls, d))
    && (sh.flag == SolutionFoundTerminate <==> sh.solution.Some?)
    && (sh.solution.Some? ==>
          && ValidRef(sh.colls, sh.solution.value)
          && g.e(sh.colls[sh.solution.value.depth].records[sh.solution.value.index].key).None?)
  }

  ghost predicate DeepExpanded<K(!new)>(g: Grading<K>, colls: seq<Collection<K>>, d: nat, t: nat)
    requires d < |colls| && t < |colls[d].records|
  {
    && g.e(colls[d].records[t].key).Some?
    && forall c :: c in g.e(colls[d].records[t].key).value ==>
         d + c.count < |colls| && c.key in DeepKeys(colls[d + c.count].records)
  }

  predicate Busy<K>(th: DeepThread<K>) {
    th.pc in {Working, Inserting, Reporting}
  }

  ghost predicate IsHolding<K>(threads: seq<DeepThread<K>>, t: nat) {
    exists i :: 0 <= i < |threads| && Busy(threads[i]) && t in threads[i].batch
  }

  // Everything derived from an item of the batch is waiting to be inserted.
  ghost predicate ItemDone<K(!new)>(g: Grading<K>, records: seq<DeepRecord<K>>, th: DeepThread<K>, t: nat)
    requires t < |records|
  {
    g.e(records[t].key).Some? && forall c :: c in g.e(records[t].key).value ==> Pending(c, t) in th.pending
  }

  ghost predicate PendingOk<K(!new)>(g: Grading<K>, records: seq<DeepRecord<K>>, p: Pending<K>) {
    p.parent < |records| && g.e(records[p.parent].key).Some? && p.derived in g.e(records[p.parent].key).value
  }

  ghost predicate BusyOk<K(!new)>(g: Grading<K>, records: seq<DeepRecord<K>>, th: DeepThread<K>) {
    && th.prevSize == |th.batch| > 0
    && (forall k :: 0 <= k < |th.batch| ==> th.batch[k] < |records|)
    && (if th.pc == Inserting then th.next == |th.batch| else th.next < |th.batch|)
    && (forall k :: 0 <= k < th.next ==> ItemDone(g, records, th, th.batch[k]))
    && (forall k :: 0 <= k < |th.pending| ==> PendingOk(g, records, th.pending[k]))
    && (th.pc == Reporting ==> g.e(records[th.batch[th.next]].key).None?)
  }

  ghost predicate DeepThreadOk<K(!new)>(g: Grading<K>, sh: DeepShared<K>, th: DeepThread<K>) {
    && (Busy(th) ==> sh.currDepth < |sh.colls| && BusyOk(g, sh.colls[sh.currDepth].records, th))
    && (th.pc == Waiting ==> th.prevSize == 0)
    && (th.pc == Left && th.prevSize > 0 ==> sh.flag == SolutionFoundTerminate)
    && (th.pc == Left && sh.flag == DontTerminate ==>
          sh.inFlight == 0 && (sh.currDepth < |sh.colls| ==> sh.colls[sh.currDepth].queue == []))
  }

  function SumPrev<K>(threads: seq<DeepThread<K>>): nat {
    if threads == [] then 0 else SumPrev(threads[..|threads| - 1]) + threads[|threads| - 1].prevSize
  }

  ghost predicate Covered<K(!new)>(g: Grading<K>, sh: DeepShared<K>, threads: seq<DeepThread<K>>, d: nat, t: nat)
    requires d < |sh.colls| && t < |sh.colls[d].records|
  {
    t in sh.colls[d].queue || DeepExpanded(g, sh.colls, d, t) || (d == sh.currDepth && IsHolding(threads, t))
  }

  ghost predicate Core<K(!new)>(g: Grading<K>, sh: DeepShared<K>, threads: seq<DeepThread<K>>) {
    && threads != [] && DeepSharedOk(g, sh)
    && sh.inFlight == SumPrev(threads)
    && (forall i :: 0 <= i < |threads| ==> DeepThreadOk(g, sh, threads[i]))
    && (sh.flag == DontTerminate ==> forall d :: 0 <= d < sh.currDepth ==> sh.colls[d].queue == [])
    && (sh.flag == DontTerminate ==>
          forall d, t :: 0 <= d < |sh.colls| && 0 <= t < |sh.colls[d].records| ==> Covered(g, sh, threads, d, t))
    && (sh.currDepth == |sh.colls| ==> forall i :: 0 <= i < |threads| ==> threads[i].pc == Left)
  }

  // Nobody waits unless a batch is out and the search has not been called off by a solution.
  ghost predicate WaitsOk<K>(sh: DeepShared<K>, threads: seq<DeepThread<K>>) {
    forall i :: 0 <= i < |threads| && threads[i].pc == Waiting ==> sh.inFlight > 0 && sh.flag != SolutionFoundTerminate
  }

  ghost predicate DeepInv<K(!new)>(g: Grading<K>, s: DeepSystem<K>) {
    Core(g, s.sh, s.threads) && WaitsOk(s.sh, s.threads)
  }

  // ---- Waking threads ----

  ghost predicate Awoken<K>(threads: seq<DeepThread<K>>, threads': seq<DeepThread<K>>) {
    && |threads| == |threads'|
    && forall i :: 0 <= i < |threads| ==> threads'[i] == threads[i] || threads'[i] == WakeOne(threads[i])
  }

  lemma {:induction false} SumAwoken<K>(threads: seq<DeepThread<K>>, threads': seq<DeepThread<K>>)
    requires Awoken(threads, threads')
    ensures SumPrev(threads') == SumPrev(threads)
  {
    if threads == [] {
    } else {
      SumAwoken(threads[..|threads| - 1], threads'[..|threads| - 1]);
    }
  }

  lemma {:induction false} SumUpdate<K>(threads: seq<DeepThread<K>>, i: nat, th: DeepThread<K>)
    requires i < |threads|
    ensures SumPrev(threads[i := th]) == SumPrev(threads) - threads[i].prevSize + th.prevSize
    ensures threads[i].prevSize <= SumPrev(threads)
  {
    var n := |threads| - 1;
    if i == n {
      assert threads[i := th][..n] == threads[..n];
    } else {
      SumUpdate(threads[..n], i, th);
      assert threads[i := th][..n] == threads[..n][i := th];
    }
  }

  lemma CoreAwoken<K(!new)>(g: Grading<K>, sh: DeepShared<K>, threads: seq<DeepThread<K>>, threads': seq<DeepThread<K>>)
    requires Core(g, sh, threads) && Awoken(threads, threads')
    ensures Core(g, sh, threads')
  {
    SumAwoken(threads, threads');
    forall d, t | 0 <= d < |sh.colls| && 0 <= t < |sh.colls[d].records| && sh.flag == DontTerminate
      ensures Covered(g, sh, threads', d, t)
    {
      assert Covered(g, sh, threads, d, t);
      if IsHolding(threads, t) {
        var i :| 0 <= i < |threads| && Busy(threads[i]) && t in threads[i].batch;
        assert Busy(threads'[i]) && t in threads'[i].batch;
      }
    }
  }

  // ---- Steps that leave the collections alone ----

  // Replacing a thread by one that holds the same items keeps everything covered.
  lemma StillCovered<K(!new)>(g: Grading<K>, sh: DeepShared<K>, sh': DeepShared<K>, threads: seq<DeepThread<K>>, i: nat,
                              th: DeepThread<K>, threads': seq<DeepThread<K>>)
    requires Core(g, sh, threads) && i < |threads| && threads' == threads[i := th]
    requires sh'.colls == sh.colls && sh'.currDepth == sh.currDepth
    requires sh.flag == DontTerminate
    requires forall t :: Busy(threads[i]) && t in threads[i].batch ==>
               (Busy(th) && t in th.batch)
               || (sh.currDepth < |sh.colls| && t < |sh.colls[sh.currDepth].records|
                    && DeepExpanded(g, sh.colls, sh.currDepth, t))
    ensures forall d, t :: 0 <= d < |sh.colls| && 0 <= t < |sh.colls[d].records| ==> Covered(g, sh', threads', d, t)
  {
    forall d, t | 0 <= d < |sh.colls| && 0 <= t < |sh.colls[d].records| ensures Covered(g, sh', threads', d, t) {
      assert Covered(g, sh, threads, d, t);
      if d == sh.currDepth && IsHolding(threads, t) {
        var j :| 0 <= j < |threads| && Busy(threads[j]) && t in threads[j].batch;
        if j != i { assert Busy(threads'[j]) && t in threads'[j].batch; }
        else if Busy(th) && t in th.batch { assert Busy(threads'[i]); }
      }
    }
  }

  lemma ReturnKeepsInv<K(!new)>(g: Grading<K>, s: DeepSystem<K>, s': DeepSystem<K>, i: nat)
    requires DeepInv(g, s) && ReturnStep(s, s', i)
    ensures DeepInv(g, s')
  {
    var th := s.threads[i].(prevSize := 0);
    var threads := s.threads[i := th];
    SumUpdate(s.threads, i, th);
    if s.sh.flag == DontTerminate { StillCovered(g, s.sh, s'.sh, s.threads, i, th, threads); }
    assert Core(g, s'.sh, threads);
    CoreAwoken(g, s'.sh, threads, s'.threads);
  }

  lemma SpuriousKeepsInv<K(!new)>(g: Grading<K>, s: DeepSystem<K>, s': DeepSystem<K>, i: nat)
    requires DeepInv(g, s) && SpuriousStep(s, s', i)
    ensures DeepInv(g, s')
  {
    CoreAwoken(g, s.sh, s.threads, s'.threads);
  }

  lemma ReportKeepsInv<K(!new)>(g: Grading<K>, s: DeepSystem<K>, s': DeepSystem<K>, i: nat)
    requires DeepInv(g, s) && ReportStep(s, s', i)
    ensures DeepInv(g, s')
  {
    var th := s.threads[i].(pc := Left);
    var threads := s.threads[i := th];
    SumUpdate(s.threads, i, th);
    assert DeepThreadOk(g, s.sh, s.threads[i]);
    assert Core(g, s'.sh, threads);
    CoreAwoken(g, s'.sh, threads, s'.threads);
  }

  lemma {:induction false} SumNone<K>(threads: seq<DeepThread<K>>)
    requires forall i :: 0 <= i < |threads| ==> threads[i].prevSize == 0
    ensures SumPrev(threads) == 0
  {
    if threads == [] {
    } else {
      SumNone(threads[..|threads| - 1]);
    }
  }

  lemma DescendKeepsInv<K(!new)>(g: Grading<K>, s: DeepSystem<K>, s': DeepSystem<K>)
    requires DeepInv(g, s) && DescendStep(s, s')
    ensures DeepInv(g, s')
  {
    forall i | 0 <= i < |s.threads| ensures s.threads[i].prevSize == 0 && s.threads[i].pc == Left {
      assert DeepThreadOk(g, s.sh, s.threads[i]);
    }
    SumNone(s.threads);
    SumNone(s'.threads);
    assert DeepThreadOk(g, s.sh, s.threads[0]);
    forall d, t | 0 <= d < |s.sh.colls| && 0 <= t < |s.sh.colls[d].records| && s.sh.flag == DontTerminate
      ensures Covered(g, s'.sh, s'.threads, d, t)
    {
      assert Covered(g, s.sh, s.threads, d, t);
    }
  }

  // ---- Working through a batch ----

  lemma AfterItemOk<K(!new)>(g: Grading<K>, records: seq<DeepRecord<K>>, th: DeepThread<K>, t: nat,
                             derived: seq<DeepKey<K>>)
    requires BusyOk(g, records, th) && th.pc == Working && th.batch[th.next] == t
             && g.e(records[t].key) == Some(derived)
    ensures var th' := AfterItem(th, t, derived);
            && (Busy(th') ==> BusyOk(g, records, th') && th'.batch == th.batch)
            && (!Busy(th') ==> th.batch == [t] && derived == [])
            && th'.prevSize == th.prevSize
  {
    var th', added := AfterItem(th, t, derived), Pendings(derived, t);
    forall c | c in derived ensures Pending(c, t) in th.pending + added {
      var k :| 0 <= k < |derived| && derived[k] == c;
      assert added[k] == Pending(c, t);
    }
    if Busy(th') {
      forall k | 0 <= k < th'.next ensures ItemDone(g, records, th', th'.batch[k]) {
        if k < th.next { assert ItemDone(g, records, th, th.batch[k]); }
      }
    } else {
      assert |added| == |derived| == 0;
    }
  }

  lemma WorkedOk<K(!new)>(g: Grading<K>, sh: DeepShared<K>, th: DeepThread<K>, th': DeepThread<K>)
    requires DeepThreadOk(g, sh, th) && th.pc == Working && th.next < |th.batch| && sh.currDepth < |sh.colls|
    requires th.batch[th.next] < |sh.colls[sh.currDepth].records|
    requires var t := th.batch[th.next];
             match g.e(sh.colls[sh.currDepth].records[t].key)
             case None => th' == th.(pc := Reporting)
             case Some(derived) => th' == AfterItem(th, t, derived)
    ensures DeepThreadOk(g, sh, th') && th'.prevSize == th.prevSize && th'.pc != Waiting && th'.pc != Left
    ensures forall t :: t in th.batch ==>
              (Busy(th') && t in th'.batch)
              || (t < |sh.colls[sh.currDepth].records| && DeepExpanded(g, sh.colls, sh.currDepth, t))
  {
    var t, records := th.batch[th.next], sh.colls[sh.currDepth].records;
    if g.e(records[t].key).Some? { AfterItemOk(g, records, th, t, g.e(records[t].key).value); }
  }

  lemma WorkKeepsInv<K(!new)>(g: Grading<K>, s: DeepSystem<K>, s': DeepSystem<K>, i: nat)
    requires DeepInv(g, s) && WorkStep(g.e, s, s', i)
    ensures DeepInv(g, s')
  {
    var th, th' := s.threads[i], s'.threads[i];
    assert DeepThreadOk(g, s.sh, th);
    SumUpdate(s.threads, i, th');
    WorkedOk(g, s.sh, th, th');
    if s.sh.flag == DontTerminate { StillCovered(g, s.sh, s'.sh, s.threads, i, th', s'.threads); }
  }

  // ---- Taking a batch ----

  lemma {:induction false} ExtractManyEffect<K>(sh: DeepShared<K>, limits: Limits, n: nat)
    requires sh.currDepth < |sh.colls| && n <= |sh.colls[sh.currDepth].queue|
    ensures var d, sh' := sh.currDepth, ExtractMany(sh, limits, n);
            && sh'.colls == sh.colls[d := sh.colls[d].(queue := sh.colls[d].queue[n..])]
            && sh'.currDepth == d && sh'.inFlight == sh.inFlight + n && sh'.solution == sh.solution
            && (sh.flag == DontTerminate ==> sh'.flag != SolutionFoundTerminate) && (n == 0 ==> sh' == sh)
            && (sh.flag == MaxItersTerminate ==> sh'.flag == MaxItersTerminate)
    decreases n
  {
    var d, coll := sh.currDepth, sh.colls[sh.currDepth];
    if n == 0 {
      assert sh.colls[d := coll.(queue := coll.queue[0..])] == sh.colls;
    } else {
      var processed := sh.numProcessed + 1;
      var taken := sh.(colls := sh.colls[d := coll.(queue := coll.queue[1..])],
                       numInQueue := sh.numInQueue - 1, inFlight := sh.inFlight + 1, numProcessed := processed,
                       flag := if processed >= limits.maxProcessed || sh.numStates >= limits.maxStates
                               then MaxItersTerminate else sh.flag);
      ExtractManyEffect(taken, limits, n - 1);
      assert coll.queue[1..][n - 1..] == coll.queue[n..];
    }
  }

  lemma TakenSharedOk<K(!new)>(g: Grading<K>, sh: DeepShared<K>, sh': DeepShared<K>, n: nat)
    requires DeepSharedOk(g, sh) && sh.currDepth < |sh.colls| && n <= |sh.colls[sh.currDepth].queue|
    requires sh'.colls == sh.colls[sh.currDepth := sh.colls[sh.currDepth].(queue := sh.colls[sh.currDepth].queue[n..])]
    requires sh'.currDepth == sh.currDepth && sh'.solution == sh.solution
    requires sh.flag == DontTerminate && sh'.flag != SolutionFoundTerminate
    ensures DeepSharedOk(g, sh')
  {
    forall d | 0 <= d < |sh'.colls| ensures CollOk(g, sh'.colls, d) {
      assert CollOk(g, sh.colls, d);
      forall t | t in sh'.colls[d].queue ensures t in sh.colls[d].queue {}
      forall t | 0 <= t < |sh'.colls[d].records| ensures RecordOk(g, sh'.colls, d, t) {
        assert RecordOk(g, sh.colls, d, t);
      }
    }
  }

  lemma TakenCovered<K(!new)>(g: Grading<K>, s: DeepSystem<K>, s': DeepSystem<K>, i: nat, n: nat)
    requires Core(g, s.sh, s.threads) && s.sh.flag == DontTerminate
    requires i < |s.threads| && !Busy(s.threads[i]) && s.sh.currDepth < |s.sh.colls|
    requires var coll := s.sh.colls[s.sh.currDepth];
             && n <= |coll.queue| && s'.sh.colls == s.sh.colls[s.sh.currDepth := coll.(queue := coll.queue[n..])]
             && s'.sh.currDepth == s.sh.currDepth && |s'.threads| == |s.threads|
             && s'.threads == s.threads[i := s'.threads[i]]
             && (n > 0 ==> Busy(s'.threads[i]) && s'.threads[i].batch == coll.queue[..n])
    ensures forall d, t :: 0 <= d < |s'.sh.colls| && 0 <= t < |s'.sh.colls[d].records| ==>
              Covered(g, s'.sh, s'.threads, d, t)
  {
    forall d, t | 0 <= d < |s'.sh.colls| && 0 <= t < |s'.sh.colls[d].records|
      ensures Covered(g, s'.sh, s'.threads, d, t)
    {
      assert Covered(g, s.sh, s.threads, d, t);
      var queue := s.sh.colls[s.sh.currDepth].queue;
      if d == s.sh.currDepth && t in queue {
        assert queue == queue[..n] + queue[n..];
        if t in queue[..n] { assert Busy(s'.threads[i]) && t in s'.threads[i].batch; }
      } else if d == s.sh.currDepth && IsHolding(s.threads, t) {
        var j :| 0 <= j < |s.threads| && Busy(s.threads[j]) && t in s.threads[j].batch;
        assert Busy(s'.threads[j]) && t in s'.threads[j].batch;
      }
    }
  }

  lemma TakeKeepsInv<K(!new)>(g: Grading<K>, limits: Limits, maxBatch: nat, s: DeepSystem<K>, s': DeepSystem<K>, i: nat)
    requires maxBatch > 0 && DeepInv(g, s) && TakeStep(limits, maxBatch, s, s', i)
    ensures DeepInv(g, s')
  {
    var th', d := s'.threads[i], s.sh.currDepth;
    SumUpdate(s.threads, i, th');
    if s.sh.flag == DontTerminate {
      var queue := s.sh.colls[d].queue;
      var n := Min(maxBatch, |queue|);
      ExtractManyEffect(s.sh, limits, n);
      TakenSharedOk(g, s.sh, s'.sh, n);
      TakenCovered(g, s, s', i, n);
      assert n == 0 ==> queue == [];
      forall k | 0 <= k < n ensures queue[..n][k] < |s.sh.colls[d].records| {
        assert CollOk(g, s.sh.colls, d) && queue[k] in queue;
      }
      forall j | 0 <= j < |s.threads| ensures DeepThreadOk(g, s'.sh, s'.threads[j]) {
        assert DeepThreadOk(g, s.sh, s.threads[j]);
      }
    }
  }

  // ---- Inserting a batch ----

  // Collections only grow, those of earlier depths not at all.
  ghost predicate DeepGrown<K>(sh: DeepShared<K>, sh': DeepShared<K>) {
    && |sh'.colls| == |sh.colls| && sh'.currDepth == sh.currDepth && sh'.inFlight == sh.inFlight
    && sh'.flag == sh.flag && sh'.solution == sh.solution && sh'.numProcessed == sh.numProcessed
    && (forall d :: 0 <= d < |sh.colls| ==> CollGrown(sh.colls[d], sh'.colls[d]))
    && (forall d :: 0 <= d < |sh.colls| && d < sh.currDepth ==> sh'.colls[d] == sh.colls[d])
  }

  ghost predicate CollGrown<K>(c: Collection<K>, c': Collection<K>) {
    && c.records <= c'.records && c.queue <= c'.queue
    && forall t :: |c.records| <= t < |c'.records| ==> t in c'.queue
  }

  lemma CollGrownAgain<K>(a: Collection<K>, b: Collection<K>, c: Collection<K>)
    requires CollGrown(a, b) && CollGrown(b, c)
    ensures CollGrown(a, c)
  {
    forall t | |a.records| <= t < |c.records| ensures t in c.queue {
      if t < |b.records| {
        assert t in b.queue;
        var k :| 0 <= k < |b.queue| && b.queue[k] == t;
        assert c.queue[k] == t;
      }
    }
  }

  lemma DeepGrownAgain<K>(a: DeepShared<K>, b: DeepShared<K>, c: DeepShared<K>)
    requires DeepGrown(a, b) && DeepGrown(b, c)
    ensures DeepGrown(a, c)
  {
    forall d | 0 <= d < |a.colls| ensures CollGrown(a.colls[d], c.colls[d]) {
      CollGrownAgain(a.colls[d], b.colls[d], c.colls[d]);
    }
  }

  lemma GrownDeepKeys<K>(c: Collection<K>, c': Collection<K>)
    requires CollGrown(c, c')
    ensures DeepKeys(c.records) <= DeepKeys(c'.records)
  {
    forall k | k in DeepKeys(c.records) ensures k in DeepKeys(c'.records) {
      var i :| 0 <= i < |c.records| && c.records[i].key == k;
      assert c'.records[i] in c'.records;
    }
  }

  lemma PendingFits<K(!new)>(g: Grading<K>, sh: DeepShared<K>, p: Pending<K>)
    requires GradingOk(g) && DeepSharedOk(g, sh) && sh.currDepth < |sh.colls|
    requires PendingOk(g, sh.colls[sh.currDepth].records, p)
    ensures sh.currDepth + p.derived.count < |sh.colls|
    ensures g.good(p.derived.key) && g.phi(p.derived.key) == g.base + sh.currDepth + p.derived.count
  {
    assert CollOk(g, sh.colls, sh.currDepth);
    assert RecordOk(g, sh.colls, sh.currDepth, p.parent);
    var k := sh.colls[sh.currDepth].records[p.parent].key;
    assert g.e(k).Some? && p.derived in g.e(k).value;
  }

  lemma InsertDeepGrows<K>(sh: DeepShared<K>, p: Pending<K>)
    requires sh.currDepth + p.derived.count < |sh.colls|
    ensures DeepGrown(sh, InsertDeep(sh, p))
    ensures p.derived.key in DeepKeys(InsertDeep(sh, p).colls[sh.currDepth + p.derived.count].records)
  {
    var d, sh' := sh.currDepth + p.derived.count, InsertDeep(sh, p);
    if p.derived.key !in DeepKeys(sh.colls[d].records) {
      var n := |sh.colls[d].records|;
      assert sh'.colls[d].records[n] in sh'.colls[d].records;
      assert sh'.colls[d].queue[|sh.colls[d].queue|] == n;
    }
  }

  // Old records stay valid when collections grow.
  lemma GrownRecordOk<K(!new)>(g: Grading<K>, colls: seq<Collection<K>>, colls': seq<Collection<K>>, d: nat, t: nat)
    requires |colls| == |colls'| && d < |colls| && t < |colls[d].records| && RecordOk(g, colls, d, t)
    requires forall k :: 0 <= k < |colls| ==> colls[k].records <= colls'[k].records
    ensures RecordOk(g, colls', d, t)
  {
  }

  lemma InsertedOk<K(!new)>(g: Grading<K>, sh: DeepShared<K>, p: Pending<K>)
    requires GradingOk(g) && DeepSharedOk(g, sh) && sh.currDepth < |sh.colls|
    requires PendingOk(g, sh.colls[sh.currDepth].records, p)
    ensures sh.currDepth + p.derived.count < |sh.colls|
    ensures DeepSharedOk(g, InsertDeep(sh, p)) && DeepGrown(sh, InsertDeep(sh, p))
    ensures p.derived.key in DeepKeys(InsertDeep(sh, p).colls[sh.currDepth + p.derived.count].records)
  {
    PendingFits(g, sh, p);
    InsertDeepGrows(sh, p);
    var d, sh' := sh.currDepth + p.derived.count, InsertDeep(sh, p);
    if p.derived.key !in DeepKeys(sh.colls[d].records) {
      InsertedCollOk(g, sh, p, sh');
      assert sh'.colls[0].records[0] == sh.colls[0].records[0];
    }
  }

  lemma InsertedCollOk<K(!new)>(g: Grading<K>, sh: DeepShared<K>, p: Pending<K>, sh': DeepShared<K>)
    requires GradingOk(g) && DeepSharedOk(g, sh) && sh.currDepth < |sh.colls|
    requires PendingOk(g, sh.colls[sh.currDepth].records, p) && sh.currDepth + p.derived.count < |sh.colls|
    requires p.derived.key !in DeepKeys(sh.colls[sh.currDepth + p.derived.count].records) && sh' == InsertDeep(sh, p)
    ensures forall d :: 0 <= d < |sh'.colls| ==> CollOk(g, sh'.colls, d)
  {
    PendingFits(g, sh, p);
    var at := sh.currDepth + p.derived.count;
    var n := |sh.colls[at].records|;
    forall d | 0 <= d < |sh'.colls| ensures CollOk(g, sh'.colls, d) {
      assert CollOk(g, sh.colls, d);
      forall t | 0 <= t < |sh.colls[d].records| ensures RecordOk(g, sh'.colls, d, t) {
        assert RecordOk(g, sh.colls, d, t);
        GrownRecordOk(g, sh.colls, sh'.colls, d, t);
      }
      if d == at {
        assert DerivedFrom(g, sh.colls[sh.currDepth].records[p.parent].key, p.derived.key);
        assert RecordOk(g, sh'.colls, d, n);
        forall t | 0 <= t < n ensures sh.colls[d].records[t].key != p.derived.key {
          assert sh.colls[d].records[t] in sh.colls[d].records;
        }
      }
    }
  }

  lemma PendingStillOk<K(!new)>(g: Grading<K>, records: seq<DeepRecord<K>>, records': seq<DeepRecord<K>>, p: Pending<K>)
    requires records <= records' && PendingOk(g, records, p)
    ensures PendingOk(g, records', p)
  {
  }

  ghost predicate AllPendingOk<K(!new)>(g: Grading<K>, sh: DeepShared<K>, pending: seq<Pending<K>>) {
    && GradingOk(g) && DeepSharedOk(g, sh) && sh.currDepth < |sh.colls|
    && forall k :: 0 <= k < |pending| ==> PendingOk(g, sh.colls[sh.currDepth].records, pending[k])
  }

  lemma InsertFirst<K(!new)>(g: Grading<K>, sh: DeepShared<K>, pending: seq<Pending<K>>)
    requires AllPendingOk(g, sh, pending) && pending != []
    ensures AllFit(sh, pending) && AllPendingOk(g, InsertDeep(sh, pending[0]), pending[1..])
    ensures DeepGrown(sh, InsertDeep(sh, pending[0]))
    ensures pending[0].derived.key in
              DeepKeys(InsertDeep(sh, pending[0]).colls[sh.currDepth + pending[0].derived.count].records)
  {
    forall k | 0 <= k < |pending| ensures sh.currDepth + pending[k].derived.count < |sh.colls| {
      PendingFits(g, sh, pending[k]);
    }
    InsertedOk(g, sh, pending[0]);
    var mid, rest := InsertDeep(sh, pending[0]), pending[1..];
    assert CollGrown(sh.colls[sh.currDepth], mid.colls[sh.currDepth]);
    forall k | 0 <= k < |rest| ensures PendingOk(g, mid.colls[mid.currDepth].records, rest[k]) {
      PendingStillOk(g, sh.colls[sh.currDepth].records, mid.colls[sh.currDepth].records, rest[k]);
    }
  }

  lemma {:induction false} InsertAllOk<K(!new)>(g: Grading<K>, sh: DeepShared<K>, pending: seq<Pending<K>>)
    requires AllPendingOk(g, sh, pending)
    ensures AllFit(sh, pending)
    ensures DeepSharedOk(g, InsertAll(sh, pending)) && DeepGrown(sh, InsertAll(sh, pending))
    decreases |pending|
  {
    if pending == [] {
    } else {
      InsertFirst(g, sh, pending);
      InsertAllOk(g, InsertDeep(sh, pending[0]), pending[1..]);
      DeepGrownAgain(sh, InsertDeep(sh, pending[0]), InsertAll(sh, pending));
    }
  }

  lemma {:induction false} InsertAllHas<K(!new)>(g: Grading<K>, sh: DeepShared<K>, pending: seq<Pending<K>>, k: nat,
                                                 at: nat)
    requires AllPendingOk(g, sh, pending) && k < |pending| && at == sh.currDepth + pending[k].derived.count
    ensures AllFit(sh, pending) && |InsertAll(sh, pending).colls| == |sh.colls| && at < |sh.colls|
    ensures pending[k].derived.key in DeepKeys(InsertAll(sh, pending).colls[at].records)
    decreases |pending|
  {
    InsertAllOk(g, sh, pending);
    InsertFirst(g, sh, pending);
    var mid, rest := InsertDeep(sh, pending[0]), pending[1..];
    assert InsertAll(sh, pending) == InsertAll(mid, rest);
    if k == 0 {
      FirstStays(g, mid, rest, at, pending[0].derived.key);
    } else {
      assert rest[k - 1] == pending[k];
      InsertAllHas(g, mid, rest, k - 1, at);
    }
  }

  lemma FirstStays<K(!new)>(g: Grading<K>, sh: DeepShared<K>, pending: seq<Pending<K>>, at: nat, key: K)
    requires AllPendingOk(g, sh, pending) && at < |sh.colls| && key in DeepKeys(sh.colls[at].records)
    ensures AllFit(sh, pending) && |InsertAll(sh, pending).colls| == |sh.colls|
    ensures key in DeepKeys(InsertAll(sh, pending).colls[at].records)
  {
    InsertAllOk(g, sh, pending);
    assert CollGrown(sh.colls[at], InsertAll(sh, pending).colls[at]);
    GrownDeepKeys(sh.colls[at], InsertAll(sh, pending).colls[at]);
  }

  lemma GrownExpanded<K(!new)>(g: Grading<K>, sh: DeepShared<K>, sh': DeepShared<K>, d: nat, t: nat)
    requires DeepGrown(sh, sh') && d < |sh.colls| && t < |sh.colls[d].records| && DeepExpanded(g, sh.colls, d, t)
    ensures t < |sh'.colls[d].records| && DeepExpanded(g, sh'.colls, d, t)
  {
    assert CollGrown(sh.colls[d], sh'.colls[d]);
    forall c | c in g.e(sh.colls[d].records[t].key).value ensures c.key in DeepKeys(sh'.colls[d + c.count].records) {
      GrownDeepKeys(sh.colls[d + c.count], sh'.colls[d + c.count]);
    }
  }

  lemma GrownThreadOk<K(!new)>(g: Grading<K>, sh: DeepShared<K>, sh': DeepShared<K>, th: DeepThread<K>)
    requires DeepGrown(sh, sh') && DeepThreadOk(g, sh, th) && !(th.pc == Left && sh.flag == DontTerminate)
    ensures DeepThreadOk(g, sh', th)
  {
    if Busy(th) {
      assert CollGrown(sh.colls[sh.currDepth], sh'.colls[sh.currDepth]);
      var records, records' := sh.colls[sh.currDepth].records, sh'.colls[sh.currDepth].records;
      forall k | 0 <= k < th.next ensures ItemDone(g, records', th, th.batch[k]) {
        assert ItemDone(g, records, th, th.batch[k]);
      }
    }
  }

  lemma BatchExpanded<K(!new)>(g: Grading<K>, sh: DeepShared<K>, th: DeepThread<K>, t: nat)
    requires GradingOk(g) && DeepSharedOk(g, sh) && DeepThreadOk(g, sh, th) && th.pc == Inserting && t in th.batch
    ensures AllFit(sh, th.pending)
    ensures var colls := InsertAll(sh, th.pending).colls;
            sh.currDepth < |colls| && t < |colls[sh.currDepth].records| && DeepExpanded(g, colls, sh.currDepth, t)
  {
    var records := sh.colls[sh.currDepth].records;
    var k :| 0 <= k < |th.batch| && th.batch[k] == t;
    assert ItemDone(g, records, th, th.batch[k]);
    ItemExpanded(g, sh, th.pending, t);
  }

  lemma ItemExpanded<K(!new)>(g: Grading<K>, sh: DeepShared<K>, pending: seq<Pending<K>>, t: nat)
    requires AllPendingOk(g, sh, pending) && t < |sh.colls[sh.currDepth].records|
    requires var derived := g.e(sh.colls[sh.currDepth].records[t].key);
             derived.Some? && forall c :: c in derived.value ==> Pending(c, t) in pending
    ensures AllFit(sh, pending)
    ensures var colls := InsertAll(sh, pending).colls;
            sh.currDepth < |colls| && t < |colls[sh.currDepth].records| && DeepExpanded(g, colls, sh.currDepth, t)
  {
    InsertAllOk(g, sh, pending);
    var colls := InsertAll(sh, pending).colls;
    assert CollGrown(sh.colls[sh.currDepth], colls[sh.currDepth]);
    forall c | c in g.e(sh.colls[sh.currDepth].records[t].key).value
      ensures sh.currDepth + c.count < |colls| && c.key in DeepKeys(colls[sh.currDepth + c.count].records)
    {
      PendingInserted(g, sh, pending, Pending(c, t));
    }
  }

  lemma PendingInserted<K(!new)>(g: Grading<K>, sh: DeepShared<K>, pending: seq<Pending<K>>, p: Pending<K>)
    requires AllPendingOk(g, sh, pending) && p in pending
    ensures AllFit(sh, pending)
    ensures var colls := InsertAll(sh, pending).colls;
            sh.currDepth + p.derived.count < |colls|
              && p.derived.key in DeepKeys(colls[sh.currDepth + p.derived.count].records)
  {
    var l :| 0 <= l < |pending| && pending[l] == p;
    InsertAllHas(g, sh, pending, l, sh.currDepth + p.derived.count);
  }

  lemma InsertCovers<K(!new)>(g: Grading<K>, s: DeepSystem<K>, sh': DeepShared<K>, threads': seq<DeepThread<K>>, i: nat)
    requires GradingOk(g) && DeepInv(g, s) && i < |s.threads| && s.threads[i].pc == Inserting
             && s.sh.flag == DontTerminate
    requires AllFit(s.sh, s.threads[i].pending) && sh' == InsertAll(s.sh, s.threads[i].pending) && DeepGrown(s.sh, sh')
    requires |threads'| == |s.threads| && threads' == s.threads[i := threads'[i]]
    ensures forall d, t :: 0 <= d < |sh'.colls| && 0 <= t < |sh'.colls[d].records| ==> Covered(g, sh', threads', d, t)
  {
    forall d, t | 0 <= d < |sh'.colls| && 0 <= t < |sh'.colls[d].records| ensures Covered(g, sh', threads', d, t) {
      assert CollGrown(s.sh.colls[d], sh'.colls[d]);
      if t < |s.sh.colls[d].records| {
        assert Covered(g, s.sh, s.threads, d, t);
        if t in s.sh.colls[d].queue {
          var k :| 0 <= k < |s.sh.colls[d].queue| && s.sh.colls[d].queue[k] == t;
          assert sh'.colls[d].queue[k] == t;
        } else if DeepExpanded(g, s.sh.colls, d, t) {
          GrownExpanded(g, s.sh, sh', d, t);
        } else {
          var j :| 0 <= j < |s.threads| && Busy(s.threads[j]) && t in s.threads[j].batch;
          if j == i { BatchExpanded(g, s.sh, s.threads[i], t); }
          else { assert Busy(threads'[j]) && t in threads'[j].batch; }
        }
      }
    }
  }

  lemma InsertKeepsInv<K(!new)>(g: Grading<K>, s: DeepSystem<K>, s': DeepSystem<K>, i: nat)
    requires GradingOk(g) && DeepInv(g, s) && InsertStep(s, s', i)
    ensures DeepInv(g, s')
  {
    var th := DeepThread(AtLock, s.threads[i].prevSize, [], 0, []);
    var threads := s.threads[i := th];
    assert DeepThreadOk(g, s.sh, s.threads[i]);
    SumUpdate(s.threads, i, th);
    InsertAllOk(g, s.sh, s.threads[i].pending);
    forall j | 0 <= j < |threads| ensures DeepThreadOk(g, s'.sh, threads[j]) {
      assert DeepThreadOk(g, s.sh, s.threads[j]);
      if j != i { GrownThreadOk(g, s.sh, s'.sh, threads[j]); }
    }
    if s.sh.flag == DontTerminate { InsertCovers(g, s, s'.sh, threads, i); }
    CoreAwoken(g, s'.sh, threads, s'.threads);
  }

  // ---- What every run keeps ----

  lemma DeepStepKeepsInv<K(!new)>(g: Grading<K>, limits: Limits, maxBatch: nat, s: DeepSystem<K>, s': DeepSystem<K>,
                                  who: Actor)
    requires GradingOk(g) && maxBatch > 0 && DeepInv(g, s) && DeepNext(g.e, limits, maxBatch, s, s', who)
    ensures DeepInv(g, s')
  {
    match who {
      case MainThread => DescendKeepsInv(g, s, s');
      case Worker(i) =>
        if ReturnStep(s, s', i) { ReturnKeepsInv(g, s, s', i); }
        else if TakeStep(limits, maxBatch, s, s', i) { TakeKeepsInv(g, limits, maxBatch, s, s', i); }
        else if WorkStep(g.e, s, s', i) { WorkKeepsInv(g, s, s', i); }
        else if InsertStep(s, s', i) { InsertKeepsInv(g, s, s', i); }
        else if ReportStep(s, s', i) { ReportKeepsInv(g, s, s', i); }
        else { SpuriousKeepsInv(g, s, s', i); }
    }
  }

  lemma DeepStartHasInv<K(!new)>(g: Grading<K>, numThreads: nat)
    requires GradingOk(g) && numThreads > 0
    ensures DeepInv(g, DeepStart(g.first, g.depths, numThreads))
  {
    var s := DeepStart(g.first, g.depths, numThreads);
    SumNone(s.threads);
    assert RecordOk(g, s.sh.colls, 0, 0);
    forall d | 0 <= d < |s.sh.colls| ensures CollOk(g, s.sh.colls, d) {}
    forall d, t | 0 <= d < |s.sh.colls| && 0 <= t < |s.sh.colls[d].records| ensures Covered(g, s.sh, s.threads, d, t) {}
  }

  lemma {:induction false} DeepRunKeepsInv<K(!new)>(g: Grading<K>, limits: Limits, maxBatch: nat, s: DeepSystem<K>,
                                                    run: seq<DeepStep<K>>)
    requires GradingOk(g) && maxBatch > 0 && DeepInv(g, s) && IsDeepRun(g.e, limits, maxBatch, s, run)
    ensures DeepInv(g, DeepEnd(s, run))
    decreases |run|
  {
    if run == [] {
    } else {
      DeepStepKeepsInv(g, limits, maxBatch, s, run[0].state, run[0].who);
      DeepRunKeepsInv(g, limits, maxBatch, run[0].state, run[1..]);
      DeepEndLater(s, run);
    }
  }

  // ---- No deadlock, no lost wakeup ----

  lemma {:induction false} SomeoneHolds<K>(threads: seq<DeepThread<K>>) returns (j: nat)
    requires SumPrev(threads) > 0
    ensures j < |threads| && threads[j].prevSize > 0
  {
    if threads[|threads| - 1].prevSize > 0 { j := |threads| - 1; }
    else { j := SomeoneHolds(threads[..|threads| - 1]); }
  }

  // Whenever a worker waits on the monitor, another one is at work with a batch it has not returned.
  lemma WaiterHasHolder<K(!new)>(g: Grading<K>, s: DeepSystem<K>, i: nat) returns (j: nat)
    requires DeepInv(g, s) && i < |s.threads| && s.threads[i].pc == Waiting
    ensures j < |s.threads| && s.threads[j].prevSize > 0 && s.threads[j].pc !in {Waiting, Left}
  {
    j := SomeoneHolds(s.threads);
    assert DeepThreadOk(g, s.sh, s.threads[j]);
  }

  // A worker that neither waits nor has left can always take its next step.
  lemma WorkerHasStep<K(!new)>(g: Grading<K>, limits: Limits, maxBatch: nat, s: DeepSystem<K>, i: nat)
    returns (s': DeepSystem<K>)
    requires GradingOk(g) && DeepInv(g, s) && i < |s.threads| && s.threads[i].pc !in {Waiting, Left}
    ensures DeepNext(g.e, limits, maxBatch, s, s', Worker(i))
  {
    var th, sh := s.threads[i], s.sh;
    assert DeepThreadOk(g, sh, th);
    match th.pc {
      case AtLock =>
        if th.prevSize > 0 {
          var threads := s.threads[i := th.(prevSize := 0)];
          var sh' := sh.(inFlight := sh.inFlight - th.prevSize);
          s' := DeepSystem(sh', if sh'.inFlight == 0 then WakeAll(threads) else threads);
        } else if sh.flag != DontTerminate {
          s' := DeepSystem(sh, s.threads[i := th.(pc := Left)]);
        } else {
          var queue := sh.colls[sh.currDepth].queue;
          var n := Min(maxBatch, |queue|);
          var sh' := ExtractMany(sh, limits, n);
          s' := DeepSystem(sh', s.threads[i := if n > 0 then DeepThread(Working, n, queue[..n], 0, [])
                                               else if sh'.inFlight == 0 then th.(pc := Left) else th.(pc := Waiting)]);
        }
      case Working =>
        var t := th.batch[th.next];
        match g.e(sh.colls[sh.currDepth].records[t].key) {
          case None => s' := DeepSystem(sh, s.threads[i := th.(pc := Reporting)]);
          case Some(derived) => s' := DeepSystem(sh, s.threads[i := AfterItem(th, t, derived)]);
        }
      case Inserting =>
        InsertAllOk(g, sh, th.pending);
        var threads := s.threads[i := DeepThread(AtLock, th.prevSize, [], 0, [])];
        var sh' := InsertAll(sh, th.pending);
        if sh'.colls[sh'.currDepth].queue == [] {
          s' := DeepSystem(sh', WakeAll(threads));
        } else if w :| 0 <= w < |threads| && threads[w].pc == Waiting {
          s' := DeepSystem(sh', threads[w := WakeOne(threads[w])]);
        } else {
          s' := DeepSystem(sh', threads);
        }
      case Reporting =>
        s' := DeepSystem(sh.(flag := SolutionFoundTerminate, solution := Some(Ref(sh.currDepth, th.batch[th.next]))),
                         WakeAll(s.threads[i := th.(pc := Left)]));
    }
  }

  // As long as some worker has not left, some worker that does not wait has a step.
  lemma NoDeepDeadlock<K(!new)>(g: Grading<K>, limits: Limits, maxBatch: nat, s: DeepSystem<K>)
    returns (j: nat, s': DeepSystem<K>)
    requires GradingOk(g) && DeepInv(g, s) && !AllLeft(s)
    ensures j < |s.threads| && s.threads[j].pc !in {Waiting, Left} && DeepNext(g.e, limits, maxBatch, s, s', Worker(j))
  {
    j :| 0 <= j < |s.threads| && s.threads[j].pc != Left;
    if s.threads[j].pc == Waiting { j := WaiterHasHolder(g, s, j); }
    s' := WorkerHasStep(g, limits, maxBatch, s, j);
  }

  // ---- What is true at the end of a depth and of the search ----

  // When all workers leave a depth and the search was not called off, its queue is drained, nothing
  // is in flight, and every record of this depth and the earlier ones is expanded.
  lemma DepthIsDrained<K(!new)>(g: Grading<K>, s: DeepSystem<K>)
    requires DeepInv(g, s) && AllLeft(s) && s.sh.flag == DontTerminate
    ensures s.sh.inFlight == 0
    ensures forall d :: 0 <= d <= s.sh.currDepth && d < |s.sh.colls| ==>
              && s.sh.colls[d].queue == []
              && forall t :: 0 <= t < |s.sh.colls[d].records| ==> DeepExpanded(g, s.sh.colls, d, t)
  {
    assert DeepThreadOk(g, s.sh, s.threads[0]);
    forall d, t | 0 <= d <= s.sh.currDepth && d < |s.sh.colls| && 0 <= t < |s.sh.colls[d].records|
      ensures DeepExpanded(g, s.sh.colls, d, t)
    {
      assert Covered(g, s.sh, s.threads, d, t);
    }
  }

  // The depth of a record is the growth of the potential, so a key is stored at one depth only.
  lemma OneDepthPerKey<K(!new)>(g: Grading<K>, sh: DeepShared<K>, r: Ref, q: Ref)
    requires DeepSharedOk(g, sh) && ValidRef(sh.colls, r) && ValidRef(sh.colls, q)
    requires sh.colls[r.depth].records[r.index].key == sh.colls[q.depth].records[q.index].key
    ensures r == q && r.depth == g.phi(sh.colls[r.depth].records[r.index].key) - g.base
  {
    assert CollOk(g, sh.colls, r.depth) && CollOk(g, sh.colls, q.depth);
    assert RecordOk(g, sh.colls, r.depth, r.index) && RecordOk(g, sh.colls, q.depth, q.index);
  }

  function AllDeepKeys<K>(colls: seq<Collection<K>>): set<K> {
    set d, r | 0 <= d < |colls| && r in colls[d].records :: r.key
  }
}
