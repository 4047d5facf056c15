/**
 The order in which the worker threads take the stored keys, when they call a search off, and, for a
 single thread, why no way to a solved key is shorter than the one reported.
 */
module WorkerOrder {
  import opened Cards
  import opened SolverCommon
  import opened Workers
  import opened WorkerTermination

  // ---- First in, first out ----

  // The queue holds the records that were not taken yet, in the order they were stored.
  ghost predicate QueueInOrder<K>(sh: Shared<K>) {
    && sh.numProcessed + |sh.queue| == |sh.records|
    && forall k :: 0 <= k < |sh.queue| ==> sh.queue[k] == sh.numProcessed + k
  }

  lemma InsertKeyInOrder<K>(sh: Shared<K>, key: K, parent: nat)
    requires QueueInOrder(sh) && parent < |sh.records|
    ensures QueueInOrder(InsertKey(sh, key, parent)) && InsertKey(sh, key, parent).numProcessed == sh.numProcessed
  {
  }

  lemma {:induction false} InsertKeysInOrder<K>(sh: Shared<K>, keys: seq<K>, parent: nat)
    requires QueueInOrder(sh) && parent < |sh.records|
    ensures QueueInOrder(InsertKeys(sh, keys, parent))
    decreases |keys|
  {
    if keys == [] {
    } else {
      InsertKeyInOrder(sh, keys[0], parent);
      InsertKeysInOrder(InsertKey(sh, keys[0], parent), keys[1..], parent);
    }
  }

  lemma StepInOrder<K(!new)>(e: Expander<K>, limits: Limits, s: System<K>, s': System<K>, i: nat)
    requires QueueInOrder(s.sh) && Next(e, limits, s, s', i)
    ensures QueueInOrder(s'.sh)
    ensures s'.sh.numProcessed > s.sh.numProcessed ==>
              s'.sh.numProcessed == s.sh.numProcessed + 1 && s'.threads[i].item == Some(s.sh.numProcessed)
  {
    var th := s.threads[i];
    if InsertStep(s.sh, th, s'.sh, s'.threads[i]) {
      InsertKeysInOrder(s.sh, th.keys, th.item.value);
      InsertKeepsProcessed(s.sh, th.keys, th.item.value);
    }
  }

  // In every interleaving the records are taken in the order they were stored.
  lemma {:induction false} TakenInOrder<K(!new)>(e: Expander<K>, limits: Limits, s: System<K>, run: seq<StepTo<K>>)
    requires QueueInOrder(s.sh) && IsRun(e, limits, s, run)
    ensures QueueInOrder(End(s, run).sh)
    decreases |run|
  {
    if run == [] {
    } else {
      StepInOrder(e, limits, s, run[0].state, run[0].thread);
      TakenInOrder(e, limits, run[0].state, run[1..]);
      EndLater(s, run);
    }
  }

  // ---- Limits ----

  predicate LimitReached<K>(limits: Limits, sh: Shared<K>) {
    sh.numProcessed >= limits.maxProcessed || sh.numStates >= limits.maxStates
  }

  // A search is called off for its limits only when one was reached, and the first item taken at the
  // limit of items calls it off.
  ghost predicate LimitsKept<K>(limits: Limits, sh: Shared<K>) {
    && (sh.flag == MaxItersTerminate ==> LimitReached(limits, sh))
    && (sh.flag == DontTerminate && sh.numProcessed > 0 ==> sh.numProcessed < limits.maxProcessed)
  }

  lemma {:induction false} InsertKeysStates<K>(sh: Shared<K>, keys: seq<K>, parent: nat)
    requires parent < |sh.records|
    ensures InsertKeys(sh, keys, parent).numStates >= sh.numStates
    decreases |keys|
  {
    if keys == [] {
    } else {
      InsertKeysStates(InsertKey(sh, keys[0], parent), keys[1..], parent);
    }
  }

  lemma StepKeepsLimits<K(!new)>(e: Expander<K>, limits: Limits, s: System<K>, s': System<K>, i: nat)
    requires LimitsKept(limits, s.sh) && Next(e, limits, s, s', i)
    ensures LimitsKept(limits, s'.sh)
    // Taking an item calls the search off exactly at a limit.
    ensures s'.sh.numProcessed > s.sh.numProcessed ==>
              (s'.sh.flag == MaxItersTerminate <==> LimitReached(limits, s'.sh))
  {
    var th := s.threads[i];
    if InsertStep(s.sh, th, s'.sh, s'.threads[i]) {
      InsertKeysStates(s.sh, th.keys, th.item.value);
      InsertKeepsProcessed(s.sh, th.keys, th.item.value);
    }
  }

  lemma {:induction false} RunKeepsLimits<K(!new)>(e: Expander<K>, limits: Limits, s: System<K>, run: seq<StepTo<K>>)
    requires LimitsKept(limits, s.sh) && IsRun(e, limits, s, run)
    ensures LimitsKept(limits, End(s, run).sh)
    decreases |run|
  {
    if run == [] {
    } else {
      StepKeepsLimits(e, limits, s, run[0].state, run[0].thread);
      RunKeepsLimits(e, limits, run[0].state, run[1..]);
      EndLater(s, run);
    }
  }

  lemma StartInOrder<K>(first: K, numThreads: nat, limits: Limits)
    ensures QueueInOrder(Start(first, numThreads).sh) && LimitsKept(limits, Start(first, numThreads).sh)
  {
  }

  // ---- A single thread searches breadth first ----

  ghost predicate HasParent<K>(records: seq<Record<K>>, m: nat, p: nat)
    requires m < |records|
  {
    records[m].parent.Some? && records[m].parent.value <= p
  }

  // The keys derived from record j were stored when it was handled or before.
  ghost predicate StoredBy<K(!new)>(e: Expander<K>, records: seq<Record<K>>, j: nat)
    requires j < |records|
  {
    && e(records[j].key).Some?
    && forall k :: k in e(records[j].key).value ==> IsStoredBy(records, k, j)
  }

  ghost predicate IsStoredBy<K>(records: seq<Record<K>>, key: K, j: nat) {
    exists m :: 0 <= m < |records| && records[m].key == key && (m == 0 || HasParent(records, m, j))
  }

  ghost predicate AllStoredBy<K(!new)>(e: Expander<K>, records: seq<Record<K>>, n: nat)
    requires n <= |records|
  {
    forall j {:trigger StoredBy(e, records, j)} :: 0 <= j < n ==> StoredBy(e, records, j)
  }

  // Later records have later parents, all of them taken.
  ghost predicate ParentsAscend<K>(records: seq<Record<K>>, n: nat) {
    && (forall i :: 0 < i < |records| ==> records[i].parent.Some? && records[i].parent.value < n)
    && (forall i, j :: 0 < i < j < |records| ==> records[i].parent.value <= records[j].parent.value)
  }

  // The records that were handled to the end.
  function Handled<K>(sh: Shared<K>, th: Thread<K>): int {
    sh.numProcessed - if th.pc in {Handle, Insert, Report} || (th.pc == Check && th.item.Some?) then 1 else 0
  }

  ghost predicate AloneOk<K(!new)>(e: Expander<K>, sh: Shared<K>, th: Thread<K>) {
    && QueueInOrder(sh) && ParentsAscend(sh.records, sh.numProcessed)
    && (th.pc in {Handle, Insert, Report} ==> sh.flag == DontTerminate)
    && (sh.flag == DontTerminate && th.item.Some? && th.pc in {Check, Handle, Insert, Report} ==>
          th.item.value == sh.numProcessed - 1)
    && (sh.flag == DontTerminate ==>
          0 <= Handled(sh, th) <= |sh.records| && AllStoredBy(e, sh.records, Handled(sh, th)))
    && (sh.solution.Some? ==>
          && sh.flag != DontTerminate && sh.solution.value <= |sh.records|
          && AllStoredBy(e, sh.records, sh.solution.value))
    && (sh.flag != DontTerminate ==> th.pc in {Top, Check, Done})
  }

  // Keys and parents of stored records stay.
  ghost predicate Kept<K>(records: seq<Record<K>>, later: seq<Record<K>>) {
    && |records| <= |later|
    && forall i :: 0 <= i < |records| ==> later[i].key == records[i].key && later[i].parent == records[i].parent
  }

  lemma KeptAgain<K>(a: seq<Record<K>>, b: seq<Record<K>>, c: seq<Record<K>>)
    requires Kept(a, b) && Kept(b, c)
    ensures Kept(a, c)
  {
  }

  lemma StaysStored<K>(records: seq<Record<K>>, later: seq<Record<K>>, key: K, j: nat)
    requires Kept(records, later) && IsStoredBy(records, key, j)
    ensures IsStoredBy(later, key, j)
  {
    var m :| 0 <= m < |records| && records[m].key == key && (m == 0 || HasParent(records, m, j));
    assert later[m].key == key && (m == 0 || HasParent(later, m, j));
  }

  lemma AllStayStored<K(!new)>(e: Expander<K>, records: seq<Record<K>>, later: seq<Record<K>>, n: nat)
    requires Kept(records, later) && n <= |records| && AllStoredBy(e, records, n)
    ensures AllStoredBy(e, later, n)
  {
    forall j | 0 <= j < n ensures StoredBy(e, later, j) {
      assert StoredBy(e, records, j);
      forall k | k in e(later[j].key).value ensures IsStoredBy(later, k, j) { StaysStored(records, later, k, j); }
    }
  }

  // The key is stored now, by this record or by an earlier one.
  lemma InsertAlone<K>(sh: Shared<K>, key: K, item: nat)
    requires item < |sh.records| && ParentsAscend(sh.records, item + 1)
    ensures var later := InsertKey(sh, key, item).records;
            ParentsAscend(later, item + 1) && Kept(sh.records, later) && IsStoredBy(later, key, item)
  {
    var records, later := sh.records, InsertKey(sh, key, item).records;
    if key in KeysOf(records) {
      var m :| 0 <= m < |records| && records[m].key == key;
      assert m == 0 || HasParent(records, m, item);
    } else {
      assert later[|records|].key == key && HasParent(later, |records|, item);
    }
  }

  lemma {:induction false} InsertAllAlone<K>(sh: Shared<K>, keys: seq<K>, item: nat)
    requires item < |sh.records| && ParentsAscend(sh.records, item + 1)
    ensures var later := InsertKeys(sh, keys, item).records;
            && ParentsAscend(later, item + 1) && Kept(sh.records, later)
            && forall k :: k in keys ==> IsStoredBy(later, k, item)
    decreases |keys|
  {
    if keys == [] {
    } else {
      var mid := InsertKey(sh, keys[0], item);
      InsertAlone(sh, keys[0], item);
      InsertAllAlone(mid, keys[1..], item);
      var later := InsertKeys(sh, keys, item).records;
      KeptAgain(sh.records, mid.records, later);
      forall k | k in keys ensures IsStoredBy(later, k, item) {
        if k == keys[0] { StaysStored(mid.records, later, k, item); } else { assert k in keys[1..]; }
      }
    }
  }

  lemma HandledOneMore<K(!new)>(e: Expander<K>, records: seq<Record<K>>, n: nat)
    requires n < |records| && AllStoredBy(e, records, n) && StoredBy(e, records, n)
    ensures AllStoredBy(e, records, n + 1)
  {
  }

  lemma InsertAloneOk<K(!new)>(e: Expander<K>, first: K, sh: Shared<K>, th: Thread<K>, sh': Shared<K>, th': Thread<K>)
    requires ThreadOk(e, sh, th) && AloneOk(e, sh, th) && InsertStep(sh, th, sh', th') && sh.solution.None?
    ensures AloneOk(e, sh', th')
  {
    var item := th.item.value;
    InsertKeysInOrder(sh, th.keys, item);
    InsertKeepsProcessed(sh, th.keys, item);
    InsertAllAlone(sh, th.keys, item);
    AllStayStored(e, sh.records, sh'.records, item);
    InsertKeysSolution(sh, th.keys, item);
    assert StoredBy(e, sh'.records, item);
    HandledOneMore(e, sh'.records, item);
  }

  lemma {:induction false} InsertKeysSolution<K>(sh: Shared<K>, keys: seq<K>, parent: nat)
    requires parent < |sh.records|
    ensures InsertKeys(sh, keys, parent).solution == sh.solution
    decreases |keys|
  {
    if keys == [] {
    } else {
      InsertKeysSolution(InsertKey(sh, keys[0], parent), keys[1..], parent);
    }
  }

  lemma TopAloneOk<K(!new)>(e: Expander<K>, limits: Limits, sh: Shared<K>, th: Thread<K>, sh': Shared<K>,
                            th': Thread<K>)
    requires AloneOk(e, sh, th) && TopStep(limits, sh, th, sh', th')
    ensures AloneOk(e, sh', th')
  {
  }

  lemma HandleAloneOk<K(!new)>(e: Expander<K>, sh: Shared<K>, th: Thread<K>, sh': Shared<K>, th': Thread<K>)
    requires AloneOk(e, sh, th) && HandleStep(e, sh, th, sh', th') && sh.solution.None?
    ensures AloneOk(e, sh', th')
  {
    var item := th.item.value;
    if th'.pc == Top {
      assert StoredBy(e, sh.records, item);
      HandledOneMore(e, sh.records, item);
    }
  }

  lemma StepAlone<K(!new)>(e: Expander<K>, limits: Limits, first: K, s: System<K>, s': System<K>, i: nat)
    requires Inv(e, first, s) && |s.threads| == 1 && AloneOk(e, s.sh, s.threads[0]) && Next(e, limits, s, s', i)
    ensures |s'.threads| == 1 && AloneOk(e, s'.sh, s'.threads[0])
  {
    var sh, th, sh', th' := s.sh, s.threads[0], s'.sh, s'.threads[0];
    assert ThreadOk(e, sh, th);
    if TopStep(limits, sh, th, sh', th') { TopAloneOk(e, limits, sh, th, sh', th'); }
    else if HandleStep(e, sh, th, sh', th') { HandleAloneOk(e, sh, th, sh', th'); }
    else if InsertStep(sh, th, sh', th') { InsertAloneOk(e, first, sh, th, sh', th'); }
  }

  lemma {:induction false} RunAlone<K(!new)>(e: Expander<K>, limits: Limits, first: K, s: System<K>,
                                             run: seq<StepTo<K>>)
    requires Inv(e, first, s) && |s.threads| == 1 && AloneOk(e, s.sh, s.threads[0]) && IsRun(e, limits, s, run)
    ensures Inv(e, first, End(s, run)) && |End(s, run).threads| == 1
    ensures AloneOk(e, End(s, run).sh, End(s, run).threads[0])
    decreases |run|
  {
    if run == [] {
    } else {
      StepKeepsInv(e, limits, first, s, run[0].state, run[0].thread);
      StepAlone(e, limits, first, s, run[0].state, run[0].thread);
      RunAlone(e, limits, first, run[0].state, run[1..]);
      EndLater(s, run);
    }
  }

  // ---- The shortest way ----

  // Keys from the first one on, each derived from the one before.
  ghost predicate IsChain<K(!new)>(e: Expander<K>, first: K, chain: seq<K>) {
    && chain != [] && chain[0] == first
    && forall k :: 0 < k < |chain| ==> IsParentOf(e, chain[k - 1], chain[k])
  }

  lemma RecordsHaveParentsBefore<K(!new)>(e: Expander<K>, first: K, records: seq<Record<K>>)
    requires RecordsOk(e, first, records)
    ensures ParentsBefore(records)
  {
    forall i | 0 < i < |records| ensures records[i].parent.Some? && records[i].parent.value < i {
      assert LinkOk(e, records, i);
    }
  }

  // Later records have no shorter traces.
  lemma {:induction false} TracesAscend<K(!new)>(e: Expander<K>, first: K, records: seq<Record<K>>, n: nat, i: nat,
                                                 j: nat)
    requires RecordsOk(e, first, records) && ParentsBefore(records) && ParentsAscend(records, n)
    requires i <= j < |records|
    ensures |Trace(records, i)| <= |Trace(records, j)|
    decreases j
  {
    if 0 < i < j {
      TracesAscend(e, first, records, n, records[i].parent.value, records[j].parent.value);
    } else if j > 0 {
      assert Trace(records, 0) == [0];
    }
  }

  // Each key of a chain is stored with a trace that is no longer than the chain up to it, as long as
  // these traces are shorter than that of record t.
  lemma {:induction false} ChainIsStored<K(!new)>(e: Expander<K>, first: K, records: seq<Record<K>>, n: nat, t: nat,
                                                  chain: seq<K>, k: nat) returns (j: nat)
    requires RecordsOk(e, first, records) && ParentsBefore(records) && ParentsAscend(records, n)
    requires t < |records| && AllStoredBy(e, records, t) && IsChain(e, first, chain)
    requires k < |chain| < |Trace(records, t)|
    ensures j < t && records[j].key == chain[k] && |Trace(records, j)| <= k + 1 && e(chain[k]).Some?
    decreases k
  {
    if k == 0 {
      j := 0;
    } else {
      var i := ChainIsStored(e, first, records, n, t, chain, k - 1);
      assert StoredBy(e, records, i) && IsParentOf(e, chain[k - 1], chain[k]);
      assert IsStoredBy(records, chain[k], i);
      j :| 0 <= j < |records| && records[j].key == chain[k] && (j == 0 || HasParent(records, j, i));
      if j > 0 { TracesAscend(e, first, records, n, records[j].parent.value, i); }
    }
    if j >= t { TracesAscend(e, first, records, n, t, j); }
    assert StoredBy(e, records, j);
  }

  lemma NoShorterChain<K(!new)>(e: Expander<K>, first: K, records: seq<Record<K>>, n: nat, t: nat, chain: seq<K>)
    requires RecordsOk(e, first, records) && ParentsBefore(records) && ParentsAscend(records, n)
    requires t < |records| && AllStoredBy(e, records, t)
    requires IsChain(e, first, chain) && e(chain[|chain| - 1]).None?
    ensures |Trace(records, t)| <= |chain|
  {
    if |chain| < |Trace(records, t)| {
      var j := ChainIsStored(e, first, records, n, t, chain, |chain| - 1);
      assert false;
    }
  }

  // The keys of a record, its parent, and so on up to the first one.
  ghost function TraceKeys<K>(records: seq<Record<K>>, t: nat): (keys: seq<K>)
    requires ParentsBefore(records) && t < |records|
    ensures |keys| == |Trace(records, t)| && keys[0] == records[t].key
    decreases t
  {
    [records[t].key] + match records[t].parent
                       case None => []
                       case Some(p) => TraceKeys(records, p)
  }

  // From a solved key by derivations backwards to the first key.
  ghost predicate IsWayBack<K(!new)>(e: Expander<K>, first: K, way: seq<K>) {
    && way != [] && e(way[0]).None? && IsTrailOfKeys(e, first, way)
  }

  ghost predicate IsTrailOfKeys<K(!new)>(e: Expander<K>, first: K, way: seq<K>) {
    && way != [] && way[|way| - 1] == first
    && forall k :: 0 < k < |way| ==> IsParentOf(e, way[k], way[k - 1])
  }

  ghost predicate IsShortestWay<K(!new)>(e: Expander<K>, first: K, way: seq<K>) {
    IsWayBack(e, first, way) && forall other :: IsWayBack(e, first, other) ==> |way| <= |other|
  }

  lemma {:induction false} TraceKeysAreTrail<K(!new)>(e: Expander<K>, first: K, records: seq<Record<K>>, t: nat)
    requires RecordsOk(e, first, records) && ParentsBefore(records) && t < |records|
    ensures IsTrailOfKeys(e, first, TraceKeys(records, t))
    decreases t
  {
    if t == 0 {
    } else {
      assert LinkOk(e, records, t);
      var p := records[t].parent.value;
      TraceKeysAreTrail(e, first, records, p);
      LongerTrail(e, first, records[t].key, TraceKeys(records, p));
    }
  }

  lemma LongerTrail<K(!new)>(e: Expander<K>, first: K, key: K, way: seq<K>)
    requires IsTrailOfKeys(e, first, way) && IsParentOf(e, way[0], key)
    ensures IsTrailOfKeys(e, first, [key] + way)
  {
    var longer := [key] + way;
    forall k | 0 < k < |longer| ensures IsParentOf(e, longer[k], longer[k - 1]) {
      if k > 1 { assert IsParentOf(e, way[k - 1], way[k - 2]); }
    }
  }

  function Reversed<K>(keys: seq<K>): (r: seq<K>)
    ensures |r| == |keys| && forall k :: 0 <= k < |keys| ==> r[k] == keys[|keys| - 1 - k]
  {
    seq(|keys|, k requires 0 <= k < |keys| => keys[|keys| - 1 - k])
  }

  lemma WayIsChain<K(!new)>(e: Expander<K>, first: K, way: seq<K>)
    requires IsTrailOfKeys(e, first, way)
    ensures IsChain(e, first, Reversed(way))
  {
    var chain, n := Reversed(way), |way|;
    forall k | 0 < k < n ensures IsParentOf(e, chain[k - 1], chain[k]) {
      assert IsParentOf(e, way[n - k], way[n - k - 1]);
    }
  }

  // With one thread the trace of the solution reported is a shortest way from the first key to a solved one.
  lemma TraceIsShortest<K(!new)>(e: Expander<K>, limits: Limits, first: K, run: seq<StepTo<K>>)
    requires IsRun(e, limits, Start(first, 1), run) && End(Start(first, 1), run).sh.solution.Some?
    ensures var sh := End(Start(first, 1), run).sh;
            && ParentsBefore(sh.records) && sh.solution.value < |sh.records|
            && IsShortestWay(e, first, TraceKeys(sh.records, sh.solution.value))
  {
    var s := Start(first, 1);
    StartHasInv(e, first, 1);
    assert AloneOk(e, s.sh, s.threads[0]);
    RunAlone(e, limits, first, s, run);
    var sh := End(s, run).sh;
    RecordsHaveParentsBefore(e, first, sh.records);
    TraceKeysAreTrail(e, first, sh.records, sh.solution.value);
    var way := TraceKeys(sh.records, sh.solution.value);
    forall other | IsWayBack(e, first, other) ensures |way| <= |other| {
      WayIsChain(e, first, other);
      NoShorterChain(e, first, sh.records, sh.numProcessed, sh.solution.value, Reversed(other));
    }
  }
}
