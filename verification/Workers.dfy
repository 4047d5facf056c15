/**
 The worker threads of the DBM solver as interleaved steps over the shared instance. One step is
 one critical section or the local work between two of them. What a key expands to is a parameter.
 */
module Workers {
  import opened Cards
  import opened Shuffles
  import opened SolverCommon

  // A stored key with the index of the record it was first derived from. The count of records that
  // name this one as parent is a byte.
  datatype Record<K> = Record(key: K, parent: Option<nat>, refcount: nat)

  datatype Shared<K> = Shared(
    records: seq<Record<K>>, queue: seq<nat>, inFlight: int, flag: Flag, solution: Option<nat>,
    numStates: nat, numProcessed: nat, numInQueue: int)

  // What the worker makes of a key: None when it is solved.
  type Expander<!K> = K -> Option<seq<K>>

  function KeysOf<K>(records: seq<Record<K>>): set<K> {
    set r | r in records :: r.key
  }

  function FirstRecord<K>(key: K): Shared<K> {
    Shared([Record(key, None, 0)], [0], 0, DontTerminate, None, 1, 0, 1)
  }

  // ---- The critical sections ----

  // Gives back the previous item and extracts the next one.
  function GiveBack<K>(sh: Shared<K>, hadItem: bool): Shared<K> {
    if hadItem then sh.(inFlight := sh.inFlight - 1) else sh
  }

  function Extract<K>(sh: Shared<K>, limits: Limits): Shared<K>
    requires sh.queue != []
  {
    var processed := sh.numProcessed + 1;
    sh.(queue := sh.queue[1..], numInQueue := sh.numInQueue - 1, inFlight := sh.inFlight + 1, numProcessed := processed,
        flag := if processed >= limits.maxProcessed || sh.numStates >= limits.maxStates then MaxItersTerminate
                else sh.flag)
  }

  // Inserts a key that is not stored yet, with its parent, and queues it.
  function InsertKey<K(==)>(sh: Shared<K>, key: K, parent: nat): Shared<K>
    requires parent < |sh.records|
  {
    if key in KeysOf(sh.records) then sh
    else
      var p := sh.records[parent];
      var counted := sh.records[parent := p.(refcount := (p.refcount + 1) % 256)];
      sh.(records := counted + [Record(key, Some(parent), 0)], queue := sh.queue + [|sh.records|],
          numInQueue := sh.numInQueue + 1, numStates := sh.numStates + 1)
  }

  function InsertKeys<K(==)>(sh: Shared<K>, keys: seq<K>, parent: nat): (next: Shared<K>)
    requires parent < |sh.records|
    ensures |sh.records| <= |next.records|
    decreases |keys|
  {
    if keys == [] then sh else InsertKeys(InsertKey(sh, keys[0], parent), keys[1..], parent)
  }

  function FoundSolution<K>(sh: Shared<K>, item: nat): Shared<K> {
    sh.(flag := SolutionFoundTerminate, solution := Some(item))
  }

  // ---- Threads ----

  datatype PC = Top | Check | Handle | Insert | Report | Done

  // item and prev are the local item and prev_item, seen the local copy of the in-flight counter.
  datatype Thread<K> = Thread(pc: PC, item: Option<nat>, prev: Option<nat>, keys: seq<K>, seen: int)

  datatype System<K> = System(sh: Shared<K>, threads: seq<Thread<K>>)

  function FreshThread<K>(): Thread<K> {
    Thread(Top, None, None, [], 0)
  }

  function Start<K>(key: K, numThreads: nat): System<K> {
    System(FirstRecord(key), seq(numThreads, _ => FreshThread()))
  }

  ghost predicate TopStep<K>(limits: Limits, sh: Shared<K>, th: Thread<K>, sh': Shared<K>, th': Thread<K>) {
    && th.pc == Top
    && var back := GiveBack(sh, th.prev.Some?);
       if sh.flag != DontTerminate then sh' == back && th' == th.(pc := Check)
       else if back.queue != [] then
         sh' == Extract(back, limits) && th' == th.(pc := Check, item := Some(back.queue[0]), seen := sh'.inFlight)
       else sh' == back && th' == th.(pc := Check, item := None, seen := sh'.inFlight)
  }

  // The flag is read here without the lock.
  ghost predicate CheckStep<K>(sh: Shared<K>, th: Thread<K>, sh': Shared<K>, th': Thread<K>) {
    && th.pc == Check && sh' == sh
    && th' == if sh.flag != DontTerminate || th.seen == 0 then th.(pc := Done)
              else if th.item.None? then th.(pc := Top, prev := None)
              else th.(pc := Handle)
  }

  ghost predicate HandleStep<K(!new)>(e: Expander<K>, sh: Shared<K>, th: Thread<K>, sh': Shared<K>, th': Thread<K>) {
    && th.pc == Handle && th.item.Some? && th.item.value < |sh.records| && sh' == sh
    && match e(sh.records[th.item.value].key)
       case None => th' == th.(pc := Report)
       case Some(keys) => th' == if keys == [] then th.(pc := Top, prev := th.item) else th.(pc := Insert, keys := keys)
  }

  ghost predicate InsertStep<K>(sh: Shared<K>, th: Thread<K>, sh': Shared<K>, th': Thread<K>) {
    && th.pc == Insert && th.item.Some? && th.item.value < |sh.records|
    && sh' == InsertKeys(sh, th.keys, th.item.value)
    && th' == th.(pc := Top, prev := th.item, keys := [])
  }

  ghost predicate ReportStep<K>(sh: Shared<K>, th: Thread<K>, sh': Shared<K>, th': Thread<K>) {
    && th.pc == Report && th.item.Some?
    && sh' == FoundSolution(sh, th.item.value)
    && th' == th.(pc := Done)
  }

  ghost predicate ThreadStep<K(!new)>(e: Expander<K>, limits: Limits, sh: Shared<K>, th: Thread<K>, sh': Shared<K>,
                                      th': Thread<K>) {
    || TopStep(limits, sh, th, sh', th')
    || CheckStep(sh, th, sh', th')
    || HandleStep(e, sh, th, sh', th')
    || InsertStep(sh, th, sh', th')
    || ReportStep(sh, th, sh', th')
  }

  ghost predicate Next<K(!new)>(e: Expander<K>, limits: Limits, s: System<K>, s': System<K>, i: nat) {
    && i < |s.threads| && |s'.threads| == |s.threads|
    && ThreadStep(e, limits, s.sh, s.threads[i], s'.sh, s'.threads[i])
    && s'.threads == s.threads[i := s'.threads[i]]
  }

  // A run of the system: which thread moves at each step is free.
  datatype StepTo<K> = StepTo(thread: nat, state: System<K>)

  ghost predicate IsRun<K(!new)>(e: Expander<K>, limits: Limits, first: System<K>, run: seq<StepTo<K>>)
    decreases |run|
  {
    run == [] || (Next(e, limits, first, run[0].state, run[0].thread) && IsRun(e, limits, run[0].state, run[1..]))
  }

  function End<K>(first: System<K>, run: seq<StepTo<K>>): System<K> {
    if run == [] then first else run[|run| - 1].state
  }

  predicate AllDone<K>(s: System<K>) {
    forall i :: 0 <= i < |s.threads| ==> s.threads[i].pc == Done
  }

  // ---- The invariant ----

  ghost predicate IsParentOf<K(!new)>(e: Expander<K>, parent: K, child: K) {
    e(parent).Some? && child in e(parent).value
  }

  ghost predicate RecordsOk<K(!new)>(e: Expander<K>, first: K, records: seq<Record<K>>) {
    && records != [] && records[0].key == first && records[0].parent == None
    && (forall i, j :: 0 <= i < j < |records| ==> records[i].key != records[j].key)
    && forall i {:trigger LinkOk(e, records, i)} :: 0 < i < |records| ==> LinkOk(e, records, i)
  }

  // The parent of a record came before it, and the key of the record is derived from its key.
  ghost predicate LinkOk<K(!new)>(e: Expander<K>, records: seq<Record<K>>, i: nat)
    requires i < |records|
  {
    && records[i].parent.Some? && records[i].parent.value < i
    && IsParentOf(e, records[records[i].parent.value].key, records[i].key)
  }

  ghost predicate SharedOk<K(!new)>(e: Expander<K>, first: K, sh: Shared<K>) {
    && RecordsOk(e, first, sh.records)
    && (forall t :: t in sh.queue ==> t < |sh.records|)
    && sh.numStates == |sh.records| && sh.numInQueue == |sh.queue| && sh.numProcessed + |sh.queue| == |sh.records|
    && (sh.flag == SolutionFoundTerminate <==> sh.solution.Some?)
    && (sh.solution.Some? ==> sh.solution.value < |sh.records| && e(sh.records[sh.solution.value].key).None?)
  }

  // All keys derived from this record are stored.
  ghost predicate Expanded<K(!new)>(e: Expander<K>, records: seq<Record<K>>, t: nat)
    requires t < |records|
  {
    e(records[t].key).Some? && forall k :: k in e(records[t].key).value ==> k in KeysOf(records)
  }

  predicate Holds<K>(th: Thread<K>, t: nat) {
    th.item == Some(t) && th.pc in {Check, Handle, Insert, Report}
  }

  // Extracted and not given back yet.
  predicate Owes<K>(th: Thread<K>) {
    || (th.pc == Top && th.prev.Some?)
    || (th.pc in {Check, Handle, Insert, Report} && th.item.Some?)
  }

  // The same once the search has been called off: a thread that notices keeps its item.
  predicate StillOwes<K>(th: Thread<K>) {
    Owes(th) && th.pc != Check
  }

  function Count<K>(threads: seq<Thread<K>>, counts: Thread<K> -> bool): nat {
    if threads == [] then 0 else Count(threads[..|threads| - 1], counts) + if counts(threads[|threads| - 1]) then 1
    else 0
  }

  ghost predicate ThreadOk<K(!new)>(e: Expander<K>, sh: Shared<K>, th: Thread<K>) {
    && (th.item.Some? ==> th.item.value < |sh.records|)
    && (th.prev.Some? ==> th.prev.value < |sh.records|)
    && (th.pc in {Handle, Insert, Report} ==> th.item.Some?)
    && (th.pc == Insert ==> e(sh.records[th.item.value].key) == Some(th.keys))
    && (th.pc == Report ==> e(sh.records[th.item.value].key) == None)
    && (th.pc == Check && sh.flag == DontTerminate && th.item.Some? ==> th.seen > 0)
    && ((th.pc == Done || (th.pc == Check && th.seen == 0)) && sh.flag == DontTerminate ==>
         sh.queue == [] && sh.inFlight == 0)
  }

  ghost predicate Inv<K(!new)>(e: Expander<K>, first: K, s: System<K>) {
    && SharedOk(e, first, s.sh)
    && (forall i :: 0 <= i < |s.threads| ==> ThreadOk(e, s.sh, s.threads[i]))
    && s.sh.inFlight >= Count(s.threads, StillOwes)
    && (s.sh.flag == DontTerminate ==> s.sh.inFlight == Count(s.threads, Owes))
    && (s.sh.flag == DontTerminate ==> forall t :: 0 <= t < |s.sh.records| ==>
          t in s.sh.queue || Expanded(e, s.sh.records, t) || IsHeld(s.threads, t))
  }

  ghost predicate IsHeld<K>(threads: seq<Thread<K>>, t: nat) {
    exists i :: 0 <= i < |threads| && Holds(threads[i], t)
  }

  lemma {:induction false} CountUpdate<K>(threads: seq<Thread<K>>, i: nat, th: Thread<K>, counts: Thread<K> -> bool)
    requires i < |threads|
    ensures Count(threads[i := th], counts) ==
            Count(threads, counts) - (if counts(threads[i]) then 1 else 0) + if counts(th) then 1 else 0
  {
    var n := |threads| - 1;
    if i == n {
      assert threads[i := th][..n] == threads[..n];
    } else {
      CountUpdate(threads[..n], i, th, counts);
      assert threads[i := th][..n] == threads[..n][i := th];
    }
  }

  lemma {:induction false} CountPositive<K>(threads: seq<Thread<K>>, i: nat, counts: Thread<K> -> bool)
    requires i < |threads| && counts(threads[i])
    ensures Count(threads, counts) > 0
  {
    if i < |threads| - 1 { CountPositive(threads[..|threads| - 1], i, counts); }
  }

  lemma {:induction false} StillOwesFewer<K>(threads: seq<Thread<K>>)
    ensures Count(threads, StillOwes) <= Count(threads, Owes)
  {
    if threads == [] {
    } else {
      StillOwesFewer(threads[..|threads| - 1]);
    }
  }

  lemma OwesNothing<K(!new)>(e: Expander<K>, first: K, s: System<K>, i: nat)
    requires Inv(e, first, s) && s.sh.flag == DontTerminate && s.sh.inFlight == 0 && i < |s.threads|
    ensures !Owes(s.threads[i])
  {
    if Owes(s.threads[i]) { CountPositive(s.threads, i, Owes); }
  }

  lemma TopCounts<K(!new)>(e: Expander<K>, limits: Limits, first: K, s: System<K>, s': System<K>, i: nat)
    requires Inv(e, first, s) && i < |s.threads| && |s'.threads| == |s.threads|
    requires s'.threads == s.threads[i := s'.threads[i]]
    requires TopStep(limits, s.sh, s.threads[i], s'.sh, s'.threads[i])
    ensures s'.sh.inFlight >= Count(s'.threads, StillOwes)
    ensures s'.sh.flag == DontTerminate ==> s'.sh.inFlight == Count(s'.threads, Owes)
  {
    CountUpdate(s.threads, i, s'.threads[i], Owes);
    CountUpdate(s.threads, i, s'.threads[i], StillOwes);
    StillOwesFewer(s'.threads);
  }

  lemma TopCovers<K(!new)>(e: Expander<K>, limits: Limits, first: K, s: System<K>, s': System<K>, i: nat)
    requires Inv(e, first, s) && i < |s.threads| && |s'.threads| == |s.threads|
    requires s'.threads == s.threads[i := s'.threads[i]]
    requires TopStep(limits, s.sh, s.threads[i], s'.sh, s'.threads[i])
    requires s'.sh.flag == DontTerminate
    ensures forall t :: 0 <= t < |s.sh.records| ==>
              t in s'.sh.queue || Expanded(e, s'.sh.records, t) || IsHeld(s'.threads, t)
  {
    forall t | 0 <= t < |s.sh.records|
      ensures t in s'.sh.queue || Expanded(e, s'.sh.records, t) || IsHeld(s'.threads, t)
    {
      if s.sh.queue != [] && t == s.sh.queue[0] {
        assert Holds(s'.threads[i], t);
      } else if IsHeld(s.threads, t) {
        var j :| 0 <= j < |s.threads| && Holds(s.threads[j], t);
        assert Holds(s'.threads[j], t);
      }
    }
  }

  lemma TopThreads<K(!new)>(e: Expander<K>, limits: Limits, first: K, s: System<K>, s': System<K>, i: nat)
    requires Inv(e, first, s) && i < |s.threads| && |s'.threads| == |s.threads|
    requires s'.threads == s.threads[i := s'.threads[i]]
    requires TopStep(limits, s.sh, s.threads[i], s'.sh, s'.threads[i])
    ensures forall j :: 0 <= j < |s.threads| ==> ThreadOk(e, s'.sh, s'.threads[j])
  {
    if s.sh.flag == DontTerminate && s.sh.inFlight == 0 { OwesNothing(e, first, s, i); }
    assert s.sh.queue != [] ==> s.sh.queue[0] in s.sh.queue;
    forall j | 0 <= j < |s.threads| ensures ThreadOk(e, s'.sh, s'.threads[j]) {
      assert ThreadOk(e, s.sh, s.threads[j]);
    }
  }

  lemma TopKeepsInv<K(!new)>(e: Expander<K>, limits: Limits, first: K, s: System<K>, s': System<K>, i: nat)
    requires Inv(e, first, s) && i < |s.threads| && |s'.threads| == |s.threads|
    requires s'.threads == s.threads[i := s'.threads[i]]
    requires TopStep(limits, s.sh, s.threads[i], s'.sh, s'.threads[i])
    ensures Inv(e, first, s')
  {
    TopCounts(e, limits, first, s, s', i);
    TopThreads(e, limits, first, s, s', i);
    forall t | t in s'.sh.queue ensures t in s.sh.queue {}
    if s'.sh.flag == DontTerminate { TopCovers(e, limits, first, s, s', i); }
  }

  lemma CheckKeepsInv<K(!new)>(e: Expander<K>, first: K, s: System<K>, s': System<K>, i: nat)
    requires Inv(e, first, s) && i < |s.threads| && |s'.threads| == |s.threads|
    requires s'.threads == s.threads[i := s'.threads[i]]
    requires CheckStep(s.sh, s.threads[i], s'.sh, s'.threads[i])
    ensures Inv(e, first, s')
  {
    CountUpdate(s.threads, i, s'.threads[i], Owes);
    CountUpdate(s.threads, i, s'.threads[i], StillOwes);
    if s.sh.flag == DontTerminate && s.sh.inFlight == 0 { OwesNothing(e, first, s, i); }
    StillOwesFewer(s'.threads);
    forall t | 0 <= t < |s.sh.records| && s'.sh.flag == DontTerminate
      ensures t in s'.sh.queue || Expanded(e, s'.sh.records, t) || IsHeld(s'.threads, t)
    {
      if IsHeld(s.threads, t) {
        var j :| 0 <= j < |s.threads| && Holds(s.threads[j], t);
        assert Holds(s'.threads[j], t);
      }
    }
  }

  lemma HandleKeepsInv<K(!new)>(e: Expander<K>, first: K, s: System<K>, s': System<K>, i: nat)
    requires Inv(e, first, s) && i < |s.threads| && |s'.threads| == |s.threads|
    requires s'.threads == s.threads[i := s'.threads[i]]
    requires HandleStep(e, s.sh, s.threads[i], s'.sh, s'.threads[i])
    ensures Inv(e, first, s')
  {
    CountUpdate(s.threads, i, s'.threads[i], Owes);
    CountUpdate(s.threads, i, s'.threads[i], StillOwes);
    forall t | 0 <= t < |s.sh.records| && s'.sh.flag == DontTerminate
      ensures t in s'.sh.queue || Expanded(e, s'.sh.records, t) || IsHeld(s'.threads, t)
    {
      if IsHeld(s.threads, t) {
        var j :| 0 <= j < |s.threads| && Holds(s.threads[j], t);
        assert j == i || Holds(s'.threads[j], t);
        assert Holds(s'.threads[i], s.threads[i].item.value) || Expanded(e, s.sh.records, s.threads[i].item.value);
      }
    }
  }

  lemma ReportKeepsInv<K(!new)>(e: Expander<K>, first: K, s: System<K>, s': System<K>, i: nat)
    requires Inv(e, first, s) && i < |s.threads| && |s'.threads| == |s.threads|
    requires s'.threads == s.threads[i := s'.threads[i]]
    requires ReportStep(s.sh, s.threads[i], s'.sh, s'.threads[i])
    ensures Inv(e, first, s')
  {
    CountUpdate(s.threads, i, s'.threads[i], StillOwes);
  }

  // ---- Inserting ----

  // Records are only appended; keys and parents of old ones stay.
  ghost predicate Grown<K>(sh: Shared<K>, sh': Shared<K>) {
    && |sh.records| <= |sh'.records| && |sh.queue| <= |sh'.queue|
    && (forall i :: 0 <= i < |sh.records| ==>
          sh'.records[i].key == sh.records[i].key && sh'.records[i].parent == sh.records[i].parent)
    && sh.queue == sh'.queue[..|sh.queue|]
    && (forall t :: |sh.records| <= t < |sh'.records| ==> t in sh'.queue)
    && sh'.inFlight == sh.inFlight && sh'.flag == sh.flag && sh'.solution == sh.solution
    && sh'.numProcessed == sh.numProcessed
  }

  lemma GrownKeys<K>(sh: Shared<K>, sh': Shared<K>)
    requires Grown(sh, sh')
    ensures KeysOf(sh.records) <= KeysOf(sh'.records)
  {
    forall k | k in KeysOf(sh.records) ensures k in KeysOf(sh'.records) {
      var i :| 0 <= i < |sh.records| && sh.records[i].key == k;
      assert sh'.records[i] in sh'.records;
    }
  }

  lemma InsertKeyRecords<K(!new)>(e: Expander<K>, first: K, sh: Shared<K>, key: K, parent: nat)
    requires RecordsOk(e, first, sh.records) && parent < |sh.records| && IsParentOf(e, sh.records[parent].key, key)
    ensures RecordsOk(e, first, InsertKey(sh, key, parent).records)
  {
    if key !in KeysOf(sh.records) {
      forall i | 0 <= i < |sh.records| ensures sh.records[i].key != key {
        assert sh.records[i] in sh.records;
      }
      var after := InsertKey(sh, key, parent).records;
      forall i | 0 < i < |after| ensures LinkOk(e, after, i) {
        assert i < |sh.records| ==> LinkOk(e, sh.records, i);
      }
    }
  }

  lemma InsertKeyOk<K(!new)>(e: Expander<K>, first: K, sh: Shared<K>, key: K, parent: nat)
    requires SharedOk(e, first, sh) && parent < |sh.records| && IsParentOf(e, sh.records[parent].key, key)
    ensures var sh' := InsertKey(sh, key, parent);
            SharedOk(e, first, sh') && Grown(sh, sh') && key in KeysOf(sh'.records)
  {
    InsertKeyRecords(e, first, sh, key, parent);
    var sh' := InsertKey(sh, key, parent);
    if key !in KeysOf(sh.records) {
      assert sh'.records[|sh.records|] in sh'.records;
      assert sh'.queue[|sh.queue|] == |sh.records|;
    }
  }

  lemma {:induction false} InsertKeysOk<K(!new)>(e: Expander<K>, first: K, sh: Shared<K>, keys: seq<K>, parent: nat)
    requires SharedOk(e, first, sh) && parent < |sh.records|
    requires forall k :: k in keys ==> IsParentOf(e, sh.records[parent].key, k)
    ensures var sh' := InsertKeys(sh, keys, parent);
            SharedOk(e, first, sh') && Grown(sh, sh') && forall k :: k in keys ==> k in KeysOf(sh'.records)
    decreases |keys|
  {
    if keys == [] {
    } else {
      var mid := InsertKey(sh, keys[0], parent);
      InsertKeyOk(e, first, sh, keys[0], parent);
      InsertKeysOk(e, first, mid, keys[1..], parent);
      GrownKeys(mid, InsertKeys(sh, keys, parent));
      GrownAgain(sh, mid, InsertKeys(sh, keys, parent));
    }
  }

  lemma GrownAgain<K>(a: Shared<K>, b: Shared<K>, c: Shared<K>)
    requires Grown(a, b) && Grown(b, c)
    ensures Grown(a, c)
  {
    assert c.queue[..|a.queue|] == c.queue[..|b.queue|][..|a.queue|];
    forall t | |a.records| <= t < |c.records| ensures t in c.queue {
      if t < |b.records| {
        assert t in c.queue[..|b.queue|];
      }
    }
  }

  lemma InsertKeepsInv<K(!new)>(e: Expander<K>, first: K, s: System<K>, s': System<K>, i: nat)
    requires Inv(e, first, s) && i < |s.threads| && |s'.threads| == |s.threads|
    requires s'.threads == s.threads[i := s'.threads[i]]
    requires InsertStep(s.sh, s.threads[i], s'.sh, s'.threads[i])
    ensures Inv(e, first, s')
  {
    var th, item := s.threads[i], s.threads[i].item.value;
    CountUpdate(s.threads, i, s'.threads[i], Owes);
    CountUpdate(s.threads, i, s'.threads[i], StillOwes);
    InsertKeysOk(e, first, s.sh, th.keys, item);
    GrownKeys(s.sh, s'.sh);
    CountPositive(s.threads, i, StillOwes);
    forall j | 0 <= j < |s.threads| ensures ThreadOk(e, s'.sh, s'.threads[j]) {
      assert ThreadOk(e, s.sh, s.threads[j]);
    }
    forall t | 0 <= t < |s'.sh.records| && s'.sh.flag == DontTerminate
      ensures t in s'.sh.queue || Expanded(e, s'.sh.records, t) || IsHeld(s'.threads, t)
    {
      if t < |s.sh.records| {
        if t in s.sh.queue {
          assert t in s'.sh.queue[..|s.sh.queue|];
        } else if t == item {
          assert Expanded(e, s'.sh.records, t);
        } else if IsHeld(s.threads, t) {
          var j :| 0 <= j < |s.threads| && Holds(s.threads[j], t);
          assert Holds(s'.threads[j], t);
        }
      }
    }
  }

  // ---- What every run keeps ----

  lemma StepKeepsInv<K(!new)>(e: Expander<K>, limits: Limits, first: K, s: System<K>, s': System<K>, i: nat)
    requires Inv(e, first, s) && Next(e, limits, s, s', i)
    ensures Inv(e, first, s')
  {
    if TopStep(limits, s.sh, s.threads[i], s'.sh, s'.threads[i]) { TopKeepsInv(e, limits, first, s, s', i); }
    else if CheckStep(s.sh, s.threads[i], s'.sh, s'.threads[i]) { CheckKeepsInv(e, first, s, s', i); }
    else if HandleStep(e, s.sh, s.threads[i], s'.sh, s'.threads[i]) { HandleKeepsInv(e, first, s, s', i); }
    else if InsertStep(s.sh, s.threads[i], s'.sh, s'.threads[i]) { InsertKeepsInv(e, first, s, s', i); }
    else { ReportKeepsInv(e, first, s, s', i); }
  }

  lemma {:induction false} CountNone<K>(threads: seq<Thread<K>>, counts: Thread<K> -> bool)
    requires forall i :: 0 <= i < |threads| ==> !counts(threads[i])
    ensures Count(threads, counts) == 0
  {
    if threads == [] {
    } else {
      CountNone(threads[..|threads| - 1], counts);
    }
  }

  lemma StartHasInv<K(!new)>(e: Expander<K>, first: K, numThreads: nat)
    ensures Inv(e, first, Start(first, numThreads))
  {
    var s := Start(first, numThreads);
    CountNone(s.threads, Owes);
    CountNone(s.threads, StillOwes);
  }

  lemma {:induction false} RunKeepsInv<K(!new)>(e: Expander<K>, limits: Limits, first: K, s: System<K>,
                                                run: seq<StepTo<K>>)
    requires Inv(e, first, s) && IsRun(e, limits, s, run)
    ensures Inv(e, first, End(s, run)) && |End(s, run).threads| == |s.threads|
    decreases |run|
  {
    if run == [] {
    } else {
      StepKeepsInv(e, limits, first, s, run[0].state, run[0].thread);
      RunKeepsInv(e, limits, first, run[0].state, run[1..]);
      assert End(run[0].state, run[1..]) == End(s, run);
    }
  }

  // In every interleaving the counters agree with the collection: what was processed and what is
  // queued is what is stored, and the in-flight counter never goes below zero.
  lemma Conservation<K(!new)>(e: Expander<K>, limits: Limits, first: K, numThreads: nat, run: seq<StepTo<K>>)
    requires IsRun(e, limits, Start(first, numThreads), run)
    ensures var sh := End(Start(first, numThreads), run).sh;
            && sh.numProcessed + sh.numInQueue == sh.numStates == |sh.records| == |KeysOf(sh.records)|
            && sh.inFlight >= 0
  {
    StartHasInv(e, first, numThreads);
    RunKeepsInv(e, limits, first, Start(first, numThreads), run);
    DistinctKeys(End(Start(first, numThreads), run).sh.records);
  }

  lemma {:induction false} DistinctKeys<K>(records: seq<Record<K>>)
    requires forall i, j :: 0 <= i < j < |records| ==> records[i].key != records[j].key
    ensures |KeysOf(records)| == |records|
  {
    if records == [] {
    } else {
      var n := |records| - 1;
      DistinctKeys(records[..n]);
      assert KeysOf(records) == KeysOf(records[..n]) + {records[n].key} by {
        forall k | k in KeysOf(records) ensures k in KeysOf(records[..n]) + {records[n].key} {
          var i :| 0 <= i < |records| && records[i].key == k;
          assert i < n ==> records[..n][i] in records[..n];
        }
        assert records[n] in records;
      }
      assert records[n].key !in KeysOf(records[..n]);
    }
  }

  // When all threads have left and the search was not called off, the stored keys are closed.
  lemma DoneIsClosed<K(!new)>(e: Expander<K>, first: K, s: System<K>)
    requires Inv(e, first, s) && s.threads != [] && AllDone(s) && s.sh.flag == DontTerminate
    ensures s.sh.queue == [] && s.sh.inFlight == 0
    ensures forall t :: 0 <= t < |s.sh.records| ==> Expanded(e, s.sh.records, t)
  {
    assert ThreadOk(e, s.sh, s.threads[0]);
    forall t | 0 <= t < |s.sh.records| ensures Expanded(e, s.sh.records, t) {
      assert !IsHeld(s.threads, t);
    }
  }

  // As long as a thread has not left, it has a step: no thread waits for another.
  lemma NoDeadlock<K(!new)>(e: Expander<K>, limits: Limits, first: K, s: System<K>, i: nat) returns (s': System<K>)
    requires Inv(e, first, s) && i < |s.threads| && s.threads[i].pc != Done
    ensures Next(e, limits, s, s', i)
  {
    var sh, th := s.sh, s.threads[i];
    assert ThreadOk(e, sh, th);
    var next: (Shared<K>, Thread<K>) :=
      match th.pc
      case Top =>
        var back := GiveBack(sh, th.prev.Some?);
        if sh.flag != DontTerminate then (back, th.(pc := Check))
        else if back.queue != [] then
          var sh' := Extract(back, limits);
          (sh', th.(pc := Check, item := Some(back.queue[0]), seen := sh'.inFlight))
        else (back, th.(pc := Check, item := None, seen := back.inFlight))
      case Check =>
        (sh, if sh.flag != DontTerminate || th.seen == 0 then th.(pc := Done)
             else if th.item.None? then th.(pc := Top, prev := None) else th.(pc := Handle))
      case Handle =>
        (sh, match e(sh.records[th.item.value].key)
             case None => th.(pc := Report)
             case Some(keys) => if keys == [] then th.(pc := Top, prev := th.item) else th.(pc := Insert, keys := keys))
      case Insert => (InsertKeys(sh, th.keys, th.item.value), th.(pc := Top, prev := th.item, keys := []))
      case Report => (FoundSolution(sh, th.item.value), th.(pc := Done))
      case Done => (sh, th);
    s' := System(next.0, s.threads[i := next.1]);
  }

  // ---- The trail of parents ----

  ghost predicate ParentsBefore<K>(records: seq<Record<K>>) {
    forall i :: 0 <= i < |records| && records[i].parent.Some? ==> records[i].parent.value < i
  }

  // The record, its parent, and so on up to the first one.
  ghost function Trace<K>(records: seq<Record<K>>, t: nat): seq<nat>
    requires ParentsBefore(records) && t < |records|
    decreases t
  {
    [t] + match records[t].parent
          case None => []
          case Some(p) => Trace(records, p)
  }

  // Each record of the trail is derived from the next.
  ghost predicate IsTrail<K(!new)>(e: Expander<K>, records: seq<Record<K>>, trail: seq<nat>) {
    && (forall k :: 0 <= k < |trail| ==> trail[k] < |records|)
    && forall k :: 0 < k < |trail| ==> IsParentOf(e, records[trail[k]].key, records[trail[k - 1]].key)
  }

  // The trail of a record leads, derivation by derivation, to the first record.
  lemma {:induction false} TraceIsTrail<K(!new)>(e: Expander<K>, first: K, records: seq<Record<K>>, t: nat)
    requires RecordsOk(e, first, records) && ParentsBefore(records) && t < |records|
    ensures var trail := Trace(records, t);
            trail != [] && trail[0] == t && trail[|trail| - 1] == 0 && IsTrail(e, records, trail)
    decreases t
  {
    if t == 0 {
    } else {
      assert LinkOk(e, records, t);
      TraceIsTrail(e, first, records, records[t].parent.value);
    }
  }

  // ---- Reference counts ----

  function ChildCount<K>(records: seq<Record<K>>, p: nat): nat {
    if records == [] then 0
    else ChildCount(records[..|records| - 1], p) + if records[|records| - 1].parent == Some(p) then 1 else 0
  }

  ghost predicate RefcountsOk<K>(records: seq<Record<K>>) {
    forall p :: 0 <= p < |records| ==> records[p].refcount == ChildCount(records, p) % 256
  }

  lemma {:induction false} ChildCountSame<K>(a: seq<Record<K>>, b: seq<Record<K>>, p: nat)
    requires |a| == |b| && forall i :: 0 <= i < |a| ==> a[i].parent == b[i].parent
    ensures ChildCount(a, p) == ChildCount(b, p)
  {
    if a == [] {
    } else {
      ChildCountSame(a[..|a| - 1], b[..|b| - 1], p);
    }
  }

  lemma {:induction false} NoLaterParents<K>(records: seq<Record<K>>, p: nat)
    requires ParentsBefore(records) && |records| <= p
    ensures ChildCount(records, p) == 0
  {
    if records == [] {
    } else {
      NoLaterParents(records[..|records| - 1], p);
    }
  }

  lemma AppendRefcount<K>(records: seq<Record<K>>, after: seq<Record<K>>, parent: nat, p: nat)
    requires parent < |records| && p <= |records| && |after| == |records| + 1
    requires forall i :: 0 <= i < |records| ==> after[i].parent == records[i].parent
    requires after[|records|].parent == Some(parent)
    ensures ChildCount(after, p) == ChildCount(records, p) + if p == parent then 1 else 0
  {
    ChildCountSame(after[..|records|], records, p);
  }

  lemma OneMore(byte: nat, count: nat)
    requires byte == count % 256
    ensures (byte + 1) % 256 == (count + 1) % 256
  {
  }

  lemma InsertKeyRefcounts<K>(sh: Shared<K>, key: K, parent: nat)
    requires parent < |sh.records| && ParentsBefore(sh.records) && RefcountsOk(sh.records)
    ensures ParentsBefore(InsertKey(sh, key, parent).records) && RefcountsOk(InsertKey(sh, key, parent).records)
  {
    var records, after := sh.records, InsertKey(sh, key, parent).records;
    if key !in KeysOf(records) {
      forall p | 0 <= p < |after| ensures after[p].refcount == ChildCount(after, p) % 256 {
        AppendRefcount(records, after, parent, p);
        if p == |records| { NoLaterParents(records, p); } else { OneMore(records[p].refcount, ChildCount(records, p)); }
      }
    }
  }

  lemma {:induction false} InsertKeysRefcounts<K>(sh: Shared<K>, keys: seq<K>, parent: nat)
    requires parent < |sh.records| && ParentsBefore(sh.records) && RefcountsOk(sh.records)
    ensures ParentsBefore(InsertKeys(sh, keys, parent).records) && RefcountsOk(InsertKeys(sh, keys, parent).records)
    decreases |keys|
  {
    if keys == [] {
    } else {
      InsertKeyRefcounts(sh, keys[0], parent);
      InsertKeysRefcounts(InsertKey(sh, keys[0], parent), keys[1..], parent);
    }
  }

  lemma {:induction false} RunKeepsRefcounts<K(!new)>(e: Expander<K>, limits: Limits, s: System<K>, run: seq<StepTo<K>>)
    requires ParentsBefore(s.sh.records) && RefcountsOk(s.sh.records) && IsRun(e, limits, s, run)
    ensures ParentsBefore(End(s, run).sh.records) && RefcountsOk(End(s, run).sh.records)
    decreases |run|
  {
    if run == [] {
    } else {
      var s', i := run[0].state, run[0].thread;
      if InsertStep(s.sh, s.threads[i], s'.sh, s'.threads[i]) {
        InsertKeysRefcounts(s.sh, s.threads[i].keys, s.threads[i].item.value);
      }
      RunKeepsRefcounts(e, limits, s', run[1..]);
      assert End(s', run[1..]) == End(s, run);
    }
  }

  // The children of a record have different keys, all of them derived from its key.
  lemma {:induction false} ChildrenFewerThanDerived<K(!new)>(e: Expander<K>, records: seq<Record<K>>, n: nat, p: nat)
    returns (keys: set<K>)
    requires n <= |records| && p < |records| && e(records[p].key).Some?
    requires forall i, j :: 0 <= i < j < |records| ==> records[i].key != records[j].key
    requires forall i :: 0 <= i < |records| && records[i].parent == Some(p) ==>
               records[i].key in e(records[p].key).value
    ensures |keys| == ChildCount(records[..n], p)
    ensures forall k :: k in keys ==> k in KeysOf(records[..n]) && k in e(records[p].key).value
  {
    keys := {};
    if n > 0 {
      keys := ChildrenFewerThanDerived(e, records, n - 1, p);
      assert records[..n][..n - 1] == records[..n - 1];
      forall k | k in keys ensures k in KeysOf(records[..n]) && k != records[n - 1].key {
        var i :| 0 <= i < n - 1 && records[..n - 1][i].key == k;
        assert records[..n][i] in records[..n];
      }
      if records[n - 1].parent == Some(p) {
        assert records[..n][n - 1] in records[..n];
        keys := keys + {records[n - 1].key};
      }
    }
  }

  lemma RefcountExact<K(!new)>(e: Expander<K>, first: K, records: seq<Record<K>>, p: nat)
    requires RecordsOk(e, first, records) && RefcountsOk(records) && p < |records|
    requires e(records[p].key).Some? ==> |e(records[p].key).value| < 256
    ensures records[p].refcount == ChildCount(records, p)
  {
    forall i | 0 <= i < |records| && records[i].parent == Some(p)
      ensures IsParentOf(e, records[p].key, records[i].key)
    {
      assert i > 0 ==> LinkOk(e, records, i);
    }
    SmallChildCount(e, records, p);
  }

  lemma SmallChildCount<K(!new)>(e: Expander<K>, records: seq<Record<K>>, p: nat)
    requires p < |records| && forall i, j :: 0 <= i < j < |records| ==> records[i].key != records[j].key
    requires forall i :: 0 <= i < |records| && records[i].parent == Some(p) ==>
               IsParentOf(e, records[p].key, records[i].key)
    requires e(records[p].key).Some? ==> |e(records[p].key).value| < 256
    ensures ChildCount(records, p) < 256
  {
    assert records[..|records|] == records;
    if e(records[p].key).Some? {
      var keys := ChildrenFewerThanDerived(e, records, |records|, p);
      SubsetOfSeq(keys, e(records[p].key).value);
    } else {
      NoChildren(records, p);
    }
  }

  // In every run the stored byte is the number of records that name this one as parent, as long as
  // no key derives 256 or more keys.
  lemma RefcountNeverWraps<K(!new)>(e: Expander<K>, limits: Limits, first: K, numThreads: nat, run: seq<StepTo<K>>,
                                    p: nat)
    requires IsRun(e, limits, Start(first, numThreads), run)
    requires var records := End(Start(first, numThreads), run).sh.records;
             p < |records| && (e(records[p].key).Some? ==> |e(records[p].key).value| < 256)
    ensures var records := End(Start(first, numThreads), run).sh.records;
            records[p].refcount == ChildCount(records, p)
  {
    var s := Start(first, numThreads);
    StartHasInv(e, first, numThreads);
    RunKeepsInv(e, limits, first, s, run);
    FirstRefcount(first);
    RunKeepsRefcounts(e, limits, s, run);
    RefcountExact(e, first, End(s, run).sh.records, p);
  }

  lemma FirstRefcount<K>(key: K)
    ensures ParentsBefore(FirstRecord(key).records) && RefcountsOk(FirstRecord(key).records)
  {
    assert ChildCount(FirstRecord(key).records, 0) == 0;
  }

  lemma {:induction false} NoChildren<K>(records: seq<Record<K>>, p: nat)
    requires forall i :: 0 <= i < |records| ==> records[i].parent != Some(p)
    ensures ChildCount(records, p) == 0
  {
    if records == [] {
    } else {
      NoChildren(records[..|records| - 1], p);
    }
  }

  // ---- One thread alone ----

  ghost predicate AloneAt<K(!new)>(e: Expander<K>, limits: Limits, first: K, run: seq<StepTo<K>>, sh: Shared<K>,
                                   th: Thread<K>) {
    IsRun(e, limits, Start(first, 1), run) && End(Start(first, 1), run) == System(sh, [th])
  }

  lemma {:induction false} ExtendRun<K(!new)>(e: Expander<K>, limits: Limits, first: System<K>, run: seq<StepTo<K>>,
                                              i: nat, next: System<K>)
    requires IsRun(e, limits, first, run) && Next(e, limits, End(first, run), next, i)
    ensures IsRun(e, limits, first, run + [StepTo(i, next)]) && End(first, run + [StepTo(i, next)]) == next
    decreases |run|
  {
    var longer := run + [StepTo(i, next)];
    if run != [] {
      assert longer[1..] == run[1..] + [StepTo(i, next)];
      assert End(run[0].state, run[1..]) == End(first, run);
      ExtendRun(e, limits, run[0].state, run[1..], i, next);
    }
  }

  lemma AloneStarts<K(!new)>(e: Expander<K>, limits: Limits, first: K)
    ensures AloneAt(e, limits, first, [], FirstRecord(first), FreshThread())
  {
    assert Start(first, 1).threads == [FreshThread()];
  }

  lemma AloneStep<K(!new)>(e: Expander<K>, limits: Limits, first: K, run: seq<StepTo<K>>, sh: Shared<K>, th: Thread<K>,
                           sh': Shared<K>, th': Thread<K>) returns (run': seq<StepTo<K>>)
    requires AloneAt(e, limits, first, run, sh, th) && ThreadStep(e, limits, sh, th, sh', th')
    ensures AloneAt(e, limits, first, run', sh', th')
  {
    var s, s' := System(sh, [th]), System(sh', [th']);
    assert s'.threads == s.threads[0 := th'];
    assert Next(e, limits, s, s', 0);
    ExtendRun(e, limits, Start(first, 1), run, 0, s');
    run' := run + [StepTo(0, s')];
  }

  lemma AloneInv<K(!new)>(e: Expander<K>, limits: Limits, first: K, run: seq<StepTo<K>>, sh: Shared<K>, th: Thread<K>)
    requires AloneAt(e, limits, first, run, sh, th)
    ensures Inv(e, first, System(sh, [th])) && RecordsOk(e, first, sh.records)
            && sh.numProcessed <= |sh.records| == sh.numStates
    ensures th.pc in {Handle, Insert, Report} ==> th.item.Some? && th.item.value < |sh.records|
  {
    StartHasInv(e, first, 1);
    RunKeepsInv(e, limits, first, Start(first, 1), run);
    assert ThreadOk(e, sh, System(sh, [th]).threads[0]);
  }

  // A single thread that finds the queue empty finds nothing in flight either: it never sleeps.
  lemma AloneNeverWaits<K(!new)>(e: Expander<K>, limits: Limits, first: K, run: seq<StepTo<K>>, sh: Shared<K>,
                                 th: Thread<K>)
    requires AloneAt(e, limits, first, run, sh, th) && th.pc == Check && th.item.None? && sh.flag == DontTerminate
    ensures sh.inFlight == 0
  {
    AloneInv(e, limits, first, run, sh, th);
    CountNone([th], Owes);
  }
}
