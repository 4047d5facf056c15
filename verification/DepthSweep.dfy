/**
 The reference counts of the depth solver over whole runs: workers store records and count them at
 their parents, and the main thread sweeps a depth out when it is drained, before it goes to the next.
 */
module DepthSweep {
  import opened Cards
  import opened Numbers
  import opened Shuffles
  import opened SolverCommon
  import opened DepthWorkers
  import opened Sweep

  // The records of all depths in the order they were stored, and their counts and flags.
  datatype Table = Table(refs: seq<Ref>, rows: Rows)

  function RecordAt<K>(colls: seq<Collection<K>>, r: Ref): DeepRecord<K>
    requires r.depth < |colls| && r.index < |colls[r.depth].records|
  {
    colls[r.depth].records[r.index]
  }

  // The row names the record's parent; only records of earlier depths are taken out.
  ghost predicate RowFits<K>(colls: seq<Collection<K>>, currDepth: nat, t: Table, n: nat)
    requires n < |t.refs| == |t.rows.parent| == |t.rows.dead|
  {
    && ValidRef(colls, t.refs[n])
    && (t.rows.dead[n] ==> t.refs[n].depth < currDepth)
    && match RecordAt(colls, t.refs[n]).parent
       case None => t.rows.parent[n] == None
       case Some(p) =>
         t.rows.parent[n].Some? && t.rows.parent[n].value < |t.refs| && t.refs[t.rows.parent[n].value] == p
  }

  // The table holds each record once, with an exact count.
  ghost predicate TableOk<K>(colls: seq<Collection<K>>, currDepth: nat, t: Table) {
    && |t.refs| == |t.rows.parent| && RowsOk(t.rows)
    && (forall n {:trigger t.refs[n]} :: 0 <= n < |t.refs| ==> RowFits(colls, currDepth, t, n))
    && Distinct(t.refs)
    && (forall r :: ValidRef(colls, r) ==> r in t.refs)
  }

  ghost function RowOf(t: Table, r: Ref): (n: nat)
    requires r in t.refs
    ensures n < |t.refs| && t.refs[n] == r
  {
    var n :| 0 <= n < |t.refs| && t.refs[n] == r;
    n
  }

  // A record that can still get children is never taken out.
  lemma RowIsLive<K>(colls: seq<Collection<K>>, currDepth: nat, t: Table, r: Ref)
    requires TableOk(colls, currDepth, t) && ValidRef(colls, r) && r.depth >= currDepth
    ensures r in t.refs && !t.rows.dead[RowOf(t, r)]
  {
    assert RowFits(colls, currDepth, t, RowOf(t, r));
  }

  // ---- Storing ----

  ghost function AddTo(t: Table, r: Ref, up: Ref): Table
    requires up in t.refs && |t.rows.refcount| == |t.refs|
  {
    Table(t.refs + [r], AddRow(t.rows, Some(RowOf(t, up))))
  }

  // What storing a derived key does to the table.
  ghost function InsertRow<K(!new)>(sh: DeepShared<K>, t: Table, p: Pending<K>): Table
    requires sh.currDepth + p.derived.count < |sh.colls|
    requires Ref(sh.currDepth, p.parent) in t.refs && |t.rows.refcount| == |t.refs|
  {
    var d := sh.currDepth + p.derived.count;
    if p.derived.key in DeepKeys(sh.colls[d].records) then t
    else AddTo(t, Ref(d, |sh.colls[d].records|), Ref(sh.currDepth, p.parent))
  }

  ghost predicate ParentsStored<K>(sh: DeepShared<K>, t: Table, pending: seq<Pending<K>>) {
    |t.rows.refcount| == |t.refs| && forall k :: 0 <= k < |pending| ==> Ref(sh.currDepth, pending[k].parent) in t.refs
  }

  ghost function InsertRows<K(!new)>(sh: DeepShared<K>, t: Table, pending: seq<Pending<K>>): Table
    requires AllFit(sh, pending) && ParentsStored(sh, t, pending)
    decreases |pending|
  {
    if pending == [] then t else InsertRows(InsertDeep(sh, pending[0]), InsertRow(sh, t, pending[0]), pending[1..])
  }

  // No key derives more keys than a byte counts.
  ghost predicate FitsByte<K(!new)>(g: Grading<K>) {
    forall k: K {:trigger g.e(k)} :: g.good(k) && g.e(k).Some? ==> |g.e(k).value| < 256
  }

  ghost predicate AllValid<K>(colls: seq<Collection<K>>, refs: seq<Ref>) {
    forall m {:trigger refs[m]} :: 0 <= m < |refs| ==> ValidRef(colls, refs[m])
  }

  lemma TableValid<K>(colls: seq<Collection<K>>, currDepth: nat, t: Table)
    requires TableOk(colls, currDepth, t)
    ensures AllValid(colls, t.refs)
  {
    forall m | 0 <= m < |t.refs| ensures ValidRef(colls, t.refs[m]) {
      assert RowFits(colls, currDepth, t, m);
    }
  }

  // The keys of the records below n whose parent is row q.
  ghost function ChildKeySet<K>(colls: seq<Collection<K>>, t: Table, q: nat, n: nat): set<K>
    requires n <= |t.refs| == |t.rows.parent| && AllValid(colls, t.refs)
  {
    if n == 0 then {}
    else
      var r := t.refs[n - 1];
      ChildKeySet(colls, t, q, n - 1) + if t.rows.parent[n - 1] == Some(q) then {RecordAt(colls, r).key} else {}
  }

  lemma {:induction false} ChildKeyIs<K>(colls: seq<Collection<K>>, t: Table, q: nat, n: nat, k: K)
    requires n <= |t.refs| == |t.rows.parent| && AllValid(colls, t.refs)
    ensures k in ChildKeySet(colls, t, q, n) <==>
            exists m :: 0 <= m < n && t.rows.parent[m] == Some(q) && RecordAt(colls, t.refs[m]).key == k
  {
    if n == 0 {
    } else {
      ChildKeyIs(colls, t, q, n - 1, k);
    }
  }

  ghost predicate KeysDiffer<K(!new)>(colls: seq<Collection<K>>, refs: seq<Ref>)
    requires AllValid(colls, refs)
  {
    forall l, m :: 0 <= l < m < |refs| ==> RecordAt(colls, refs[l]).key != RecordAt(colls, refs[m]).key
  }

  lemma DifferentKeys<K(!new)>(g: Grading<K>, sh: DeepShared<K>, t: Table)
    requires DeepSharedOk(g, sh) && TableOk(sh.colls, sh.currDepth, t)
    ensures AllValid(sh.colls, t.refs) && KeysDiffer(sh.colls, t.refs)
  {
    TableValid(sh.colls, sh.currDepth, t);
    forall l, m | 0 <= l < m < |t.refs|
      ensures RecordAt(sh.colls, t.refs[l]).key != RecordAt(sh.colls, t.refs[m]).key
    {
      OtherRef(t.refs, l, m);
      if RecordAt(sh.colls, t.refs[l]).key == RecordAt(sh.colls, t.refs[m]).key {
        OneDepthPerKey(g, sh, t.refs[l], t.refs[m]);
        assert false;
      }
    }
  }

  lemma OtherRef(refs: seq<Ref>, l: nat, m: nat)
    requires Distinct(refs) && l < m < |refs|
    ensures refs[l] != refs[m]
  {
  }

  lemma NewChildKey<K(!new)>(colls: seq<Collection<K>>, t: Table, q: nat, n: nat)
    requires n < |t.refs| == |t.rows.parent| && AllValid(colls, t.refs) && KeysDiffer(colls, t.refs)
    ensures RecordAt(colls, t.refs[n]).key !in ChildKeySet(colls, t, q, n)
  {
    ChildKeyIs(colls, t, q, n, RecordAt(colls, t.refs[n]).key);
  }

  lemma {:induction false} CountsAreKeys<K(!new)>(colls: seq<Collection<K>>, t: Table, q: nat, n: nat)
    requires n <= |t.refs| == |t.rows.parent| == |t.rows.dead|
    requires AllValid(colls, t.refs) && KeysDiffer(colls, t.refs)
    ensures LiveChildren(t.rows.parent, t.rows.dead, q, n) <= |ChildKeySet(colls, t, q, n)|
  {
    if n == 0 {
    } else {
      CountsAreKeys(colls, t, q, n - 1);
      NewChildKey(colls, t, q, n - 1);
      CountStep(colls, t, q, n);
    }
  }

  lemma CountStep<K(!new)>(colls: seq<Collection<K>>, t: Table, q: nat, n: nat)
    requires 0 < n <= |t.refs| == |t.rows.parent| == |t.rows.dead| && AllValid(colls, t.refs)
    requires RecordAt(colls, t.refs[n - 1]).key !in ChildKeySet(colls, t, q, n - 1)
    requires LiveChildren(t.rows.parent, t.rows.dead, q, n - 1) <= |ChildKeySet(colls, t, q, n - 1)|
    ensures LiveChildren(t.rows.parent, t.rows.dead, q, n) <= |ChildKeySet(colls, t, q, n)|
  {
    var before, r := ChildKeySet(colls, t, q, n - 1), t.refs[n - 1];
    if t.rows.parent[n - 1] == Some(q) {
      OneMoreKey(before, RecordAt(colls, r).key);
    } else {
      assert before + {} == before;
    }
  }

  lemma OneMoreKey<K>(keys: set<K>, k: K)
    requires k !in keys
    ensures |keys + {k}| == |keys| + 1
  {
  }

  // The keys of the children are among those the parent derives.
  lemma ChildKeysDerived<K(!new)>(g: Grading<K>, sh: DeepShared<K>, t: Table, q: nat, k: K)
    requires DeepSharedOk(g, sh) && TableOk(sh.colls, sh.currDepth, t) && q < |t.refs| && AllValid(sh.colls, t.refs)
    requires k in ChildKeySet(sh.colls, t, q, |t.refs|)
    ensures DerivedFrom(g, RecordAt(sh.colls, t.refs[q]).key, k)
    ensures exists r :: ValidRef(sh.colls, r) && RecordAt(sh.colls, r).key == k
  {
    ChildKeyIs(sh.colls, t, q, |t.refs|, k);
    var m :| 0 <= m < |t.refs| && t.rows.parent[m] == Some(q) && RecordAt(sh.colls, t.refs[m]).key == k;
    assert RowFits(sh.colls, sh.currDepth, t, m);
    assert CollOk(g, sh.colls, t.refs[m].depth) && RecordOk(g, sh.colls, t.refs[m].depth, t.refs[m].index);
  }

  function KeysIn<K>(list: seq<DeepKey<K>>): (keys: seq<K>)
    ensures |keys| == |list|
  {
    seq(|list|, i requires 0 <= i < |list| => list[i].key)
  }

  lemma KeysInHas<K>(list: seq<DeepKey<K>>, c: DeepKey<K>)
    requires c in list
    ensures c.key in KeysIn(list)
  {
    var i :| 0 <= i < |list| && list[i] == c;
    assert KeysIn(list)[i] == c.key;
  }

  lemma KeyListed<K(!new)>(g: Grading<K>, parent: K, k: K)
    requires DerivedFrom(g, parent, k)
    ensures k in KeysIn(g.e(parent).value)
  {
    var x :| x in g.e(parent).value && x.key == k;
    KeysInHas(g.e(parent).value, x);
  }

  // Every count fits its byte.
  lemma CountFits<K(!new)>(g: Grading<K>, sh: DeepShared<K>, t: Table, q: nat)
    requires FitsByte(g) && DeepSharedOk(g, sh) && TableOk(sh.colls, sh.currDepth, t) && q < |t.refs|
    ensures t.rows.refcount[q] < 256
  {
    DifferentKeys(g, sh, t);
    CountsAreKeys(sh.colls, t, q, |t.refs|);
    var keys, k := ChildKeySet(sh.colls, t, q, |t.refs|), RecordAt(sh.colls, t.refs[q]).key;
    GoodRecord(g, sh, t.refs[q]);
    if keys != {} {
      forall c | c in keys ensures DerivedFrom(g, k, c) && c in KeysIn(g.e(k).value) {
        ChildKeysDerived(g, sh, t, q, c);
        KeyListed(g, k, c);
      }
      var some :| some in keys;
      assert DerivedFrom(g, k, some);
      SubsetOfSeq(keys, KeysIn(g.e(k).value));
    }
  }

  // A key that is not stored yet is not the key of a record.
  lemma NotStored<K(!new)>(g: Grading<K>, sh: DeepShared<K>, p: Pending<K>, r: Ref)
    requires GradingOk(g) && DeepSharedOk(g, sh) && sh.currDepth < |sh.colls|
    requires PendingOk(g, sh.colls[sh.currDepth].records, p) && sh.currDepth + p.derived.count < |sh.colls|
    requires p.derived.key !in DeepKeys(sh.colls[sh.currDepth + p.derived.count].records) && ValidRef(sh.colls, r)
    ensures RecordAt(sh.colls, r).key != p.derived.key
  {
    PendingFits(g, sh, p);
    OneDepthPerKey(g, sh, r, r);
    assert RecordAt(sh.colls, r) in sh.colls[r.depth].records;
  }

  // A new key leaves room for one more child of its parent.
  lemma RoomForOne<K(!new)>(g: Grading<K>, sh: DeepShared<K>, t: Table, p: Pending<K>, q: nat)
    requires GradingOk(g) && FitsByte(g) && DeepSharedOk(g, sh) && TableOk(sh.colls, sh.currDepth, t)
    requires sh.currDepth < |sh.colls| && PendingOk(g, sh.colls[sh.currDepth].records, p)
    requires q < |t.refs| && t.refs[q] == Ref(sh.currDepth, p.parent)
    requires sh.currDepth + p.derived.count < |sh.colls|
    requires p.derived.key !in DeepKeys(sh.colls[sh.currDepth + p.derived.count].records)
    ensures t.rows.refcount[q] < 255
  {
    DifferentKeys(g, sh, t);
    CountsAreKeys(sh.colls, t, q, |t.refs|);
    var keys, k := ChildKeySet(sh.colls, t, q, |t.refs|), RecordAt(sh.colls, t.refs[q]).key;
    forall c | c in keys ensures c in KeysIn(g.e(k).value) && c != p.derived.key {
      ChildKeysDerived(g, sh, t, q, c);
      KeyListed(g, k, c);
      var r :| ValidRef(sh.colls, r) && RecordAt(sh.colls, r).key == c;
      NotStored(g, sh, p, r);
    }
    KeysInHas(g.e(k).value, p.derived);
    GoodRecord(g, sh, t.refs[q]);
    SubsetOfSeq(keys + {p.derived.key}, KeysIn(g.e(k).value));
  }

  lemma GoodRecord<K(!new)>(g: Grading<K>, sh: DeepShared<K>, r: Ref)
    requires DeepSharedOk(g, sh) && ValidRef(sh.colls, r)
    ensures g.good(RecordAt(sh.colls, r).key)
  {
    assert CollOk(g, sh.colls, r.depth) && RecordOk(g, sh.colls, r.depth, r.index);
  }

  // ---- Storing keeps the table ----

  lemma InsertKeepsTable<K(!new)>(g: Grading<K>, sh: DeepShared<K>, t: Table, p: Pending<K>)
    requires GradingOk(g) && FitsByte(g) && DeepSharedOk(g, sh) && TableOk(sh.colls, sh.currDepth, t)
    requires sh.currDepth < |sh.colls| && PendingOk(g, sh.colls[sh.currDepth].records, p)
    ensures sh.currDepth + p.derived.count < |sh.colls| && Ref(sh.currDepth, p.parent) in t.refs
    ensures TableOk(InsertDeep(sh, p).colls, sh.currDepth, InsertRow(sh, t, p))
    ensures t.refs <= InsertRow(sh, t, p).refs
  {
    PendingFits(g, sh, p);
    var d, up := sh.currDepth + p.derived.count, Ref(sh.currDepth, p.parent);
    RowIsLive(sh.colls, sh.currDepth, t, up);
    if p.derived.key !in DeepKeys(sh.colls[d].records) {
      RoomForOne(g, sh, t, p, RowOf(t, up));
      AddRowOk(t.rows, Some(RowOf(t, up)));
      var record := DeepRecord(p.derived.key, Some(up));
      AddKeepsRows(sh.colls, sh.currDepth, t, d, record, InsertDeep(sh, p).colls, up);
    }
  }

  // A record at the end of a collection and its row at the end of the table.
  lemma AddKeepsRows<K>(colls: seq<Collection<K>>, currDepth: nat, t: Table, d: nat, record: DeepRecord<K>,
                        colls': seq<Collection<K>>, up: Ref)
    requires TableOk(colls, currDepth, t) && d < |colls| == |colls'| && record.parent == Some(up) && up in t.refs
    requires forall k :: 0 <= k < |colls| ==>
               colls'[k].records == if k == d then colls[k].records + [record] else colls[k].records
    requires RowsOk(AddRow(t.rows, Some(RowOf(t, up))))
    ensures TableOk(colls', currDepth, AddTo(t, Ref(d, |colls[d].records|), up))
  {
    var r, t' := Ref(d, |colls[d].records|), AddTo(t, Ref(d, |colls[d].records|), up);
    forall n | 0 <= n < |t'.refs| ensures RowFits(colls', currDepth, t', n) {
      if n < |t.refs| {
        assert RowFits(colls, currDepth, t, n);
        StillFits(colls, currDepth, t, n, colls', t');
      }
    }
    NewRefDiffers(colls, currDepth, t, r);
    forall q | ValidRef(colls', q) ensures q in t'.refs {
      if q != r { assert ValidRef(colls, q); }
    }
  }

  lemma StillFits<K>(colls: seq<Collection<K>>, currDepth: nat, t: Table, n: nat, colls': seq<Collection<K>>, t': Table)
    requires |t.refs| == |t.rows.parent| == |t.rows.dead| && |t'.refs| == |t'.rows.parent| == |t'.rows.dead|
    requires n < |t.refs| && RowFits(colls, currDepth, t, n) && |colls| == |colls'|
    requires forall k :: 0 <= k < |colls| ==> colls[k].records <= colls'[k].records
    requires t.refs <= t'.refs && t.rows.parent <= t'.rows.parent && t.rows.dead <= t'.rows.dead
    ensures RowFits(colls', currDepth, t', n)
  {
    assert t'.refs[n] == t.refs[n] && t'.rows.parent[n] == t.rows.parent[n] && t'.rows.dead[n] == t.rows.dead[n];
    var d := t.refs[n].depth;
    assert colls[d].records <= colls'[d].records;
    assert RecordAt(colls', t.refs[n]) == RecordAt(colls, t.refs[n]);
    if t.rows.parent[n].Some? { assert t'.refs[t.rows.parent[n].value] == t.refs[t.rows.parent[n].value]; }
  }

  lemma NewRefDiffers<K>(colls: seq<Collection<K>>, currDepth: nat, t: Table, r: Ref)
    requires TableOk(colls, currDepth, t) && !ValidRef(colls, r)
    ensures Distinct(t.refs + [r])
  {
    TableValid(colls, currDepth, t);
    forall m, n | 0 <= m < n < |t.refs + [r]| ensures (t.refs + [r])[m] != (t.refs + [r])[n] {
      assert ValidRef(colls, t.refs[m]);
      if n < |t.refs| { OtherRef(t.refs, m, n); }
    }
  }

  lemma AllStored<K(!new)>(g: Grading<K>, sh: DeepShared<K>, t: Table, pending: seq<Pending<K>>)
    requires AllPendingOk(g, sh, pending) && TableOk(sh.colls, sh.currDepth, t)
    ensures AllFit(sh, pending) && ParentsStored(sh, t, pending)
  {
    forall k | 0 <= k < |pending|
      ensures Ref(sh.currDepth, pending[k].parent) in t.refs && sh.currDepth + pending[k].derived.count < |sh.colls|
    {
      PendingFits(g, sh, pending[k]);
      assert ValidRef(sh.colls, Ref(sh.currDepth, pending[k].parent));
    }
  }

  lemma {:induction false} InsertRowsOk<K(!new)>(g: Grading<K>, sh: DeepShared<K>, t: Table, pending: seq<Pending<K>>)
    requires AllPendingOk(g, sh, pending) && FitsByte(g) && TableOk(sh.colls, sh.currDepth, t)
    ensures AllFit(sh, pending) && ParentsStored(sh, t, pending)
    ensures TableOk(InsertAll(sh, pending).colls, sh.currDepth, InsertRows(sh, t, pending))
    decreases |pending|
  {
    AllStored(g, sh, t, pending);
    if pending == [] {
    } else {
      InsertFirst(g, sh, pending);
      InsertKeepsTable(g, sh, t, pending[0]);
      InsertRowsOk(g, InsertDeep(sh, pending[0]), InsertRow(sh, t, pending[0]), pending[1..]);
    }
  }

  // ---- Sweeping out a depth ----

  // The rows of a depth.
  function RowsAt(refs: seq<Ref>, d: nat, n: nat): seq<nat>
    requires n <= |refs|
  {
    if n == 0 then [] else RowsAt(refs, d, n - 1) + if refs[n - 1].depth == d then [n - 1] else []
  }

  lemma {:induction false} RowsAtHas(refs: seq<Ref>, d: nat, n: nat, r: nat)
    requires n <= |refs|
    ensures r in RowsAt(refs, d, n) <==> r < n && refs[r].depth == d
  {
    if n == 0 {
    } else {
      RowsAtHas(refs, d, n - 1, r);
    }
  }

  ghost function SweepDepth(t: Table, d: nat): Table
    requires |t.rows.dead| == |t.rows.parent|
  {
    Table(t.refs, SweepRows(t.rows, RowsAt(t.refs, d, |t.refs|)))
  }

  // A parent is never deeper than its child.
  lemma ParentNotDeeper<K(!new)>(g: Grading<K>, sh: DeepShared<K>, t: Table, c: nat, n: nat)
    requires DeepSharedOk(g, sh) && TableOk(sh.colls, sh.currDepth, t)
    requires c < |t.refs| && t.rows.parent[c] == Some(n)
    ensures n < |t.refs| && t.refs[n].depth <= t.refs[c].depth
  {
    assert RowFits(sh.colls, sh.currDepth, t, c);
    assert CollOk(g, sh.colls, t.refs[c].depth) && RecordOk(g, sh.colls, t.refs[c].depth, t.refs[c].index);
  }

  // Only records of this depth and earlier ones go.
  lemma {:induction false} SweptNotDeeper<K(!new)>(g: Grading<K>, sh: DeepShared<K>, t: Table, n: nat)
    requires DeepSharedOk(g, sh) && TableOk(sh.colls, sh.currDepth, t) && n < |t.refs|
    requires SweepDepth(t, sh.currDepth).rows.dead[n] && !t.rows.dead[n]
    ensures t.refs[n].depth <= sh.currDepth
    decreases |t.refs| - n
  {
    var items, dead := RowsAt(t.refs, sh.currDepth, |t.refs|), SweepDepth(t, sh.currDepth).rows.dead;
    SweepRowsOk(t.rows, items);
    RowsAtHas(t.refs, sh.currDepth, |t.refs|, n);
    if n !in items {
      assert LostChild(t.rows.parent, t.rows.dead, dead, n);
      var c :| 0 <= c < |t.refs| && t.rows.parent[c] == Some(n) && dead[c] && !t.rows.dead[c];
      SweptNotDeeper(g, sh, t, c);
      ParentNotDeeper(g, sh, t, c, n);
    }
  }

  lemma SweepKeepsTable<K(!new)>(g: Grading<K>, sh: DeepShared<K>, t: Table)
    requires DeepSharedOk(g, sh) && TableOk(sh.colls, sh.currDepth, t)
    ensures TableOk(sh.colls, sh.currDepth + 1, SweepDepth(t, sh.currDepth))
  {
    var t' := SweepDepth(t, sh.currDepth);
    SweepRowsOk(t.rows, RowsAt(t.refs, sh.currDepth, |t.refs|));
    var next := sh.currDepth + 1;
    forall n | 0 <= n < |t'.refs| ensures RowFits(sh.colls, next, t', n) {
      assert RowFits(sh.colls, sh.currDepth, t, n);
      if t'.rows.dead[n] && !t.rows.dead[n] { SweptNotDeeper(g, sh, t, n); }
    }
  }

  // ---- No record stays for nothing ----

  ghost predicate HasLiveChild(t: Table, n: nat)
    requires |t.rows.parent| == |t.rows.dead|
  {
    exists c :: 0 <= c < |t.rows.parent| && t.rows.parent[c] == Some(n) && !t.rows.dead[c]
  }

  // A live record of an earlier depth has a live record that names it as parent.
  ghost predicate NoGarbage(currDepth: nat, t: Table) {
    && |t.refs| == |t.rows.parent| == |t.rows.dead|
    && forall n :: 0 <= n < |t.refs| && !t.rows.dead[n] && t.refs[n].depth < currDepth ==> HasLiveChild(t, n)
  }

  ghost predicate Longer(currDepth: nat, t: Table, t': Table) {
    && |t'.refs| == |t'.rows.parent| == |t'.rows.dead|
    && t.refs <= t'.refs && t.rows.parent <= t'.rows.parent && t.rows.dead <= t'.rows.dead
    && forall n :: |t.refs| <= n < |t'.refs| ==> t'.refs[n].depth >= currDepth
  }

  lemma LongerIsTidy(currDepth: nat, t: Table, t': Table)
    requires NoGarbage(currDepth, t) && Longer(currDepth, t, t')
    ensures NoGarbage(currDepth, t')
  {
    forall n | 0 <= n < |t'.refs| && !t'.rows.dead[n] && t'.refs[n].depth < currDepth ensures HasLiveChild(t', n) {
      assert t'.refs[n] == t.refs[n] && t'.rows.dead[n] == t.rows.dead[n];
      assert HasLiveChild(t, n);
      var c :| 0 <= c < |t.rows.parent| && t.rows.parent[c] == Some(n) && !t.rows.dead[c];
      assert t'.rows.parent[c] == t.rows.parent[c] && t'.rows.dead[c] == t.rows.dead[c];
    }
  }

  lemma RowIsLonger<K(!new)>(sh: DeepShared<K>, t: Table, p: Pending<K>)
    requires sh.currDepth + p.derived.count < |sh.colls|
    requires Ref(sh.currDepth, p.parent) in t.refs && |t.rows.refcount| == |t.refs|
    requires |t.refs| == |t.rows.parent| == |t.rows.dead|
    ensures Longer(sh.currDepth, t, InsertRow(sh, t, p))
  {
  }

  lemma {:induction false} RowsAreTidy<K(!new)>(g: Grading<K>, sh: DeepShared<K>, t: Table, pending: seq<Pending<K>>)
    requires AllPendingOk(g, sh, pending) && FitsByte(g) && TableOk(sh.colls, sh.currDepth, t)
    requires NoGarbage(sh.currDepth, t)
    ensures AllFit(sh, pending) && ParentsStored(sh, t, pending)
    ensures NoGarbage(sh.currDepth, InsertRows(sh, t, pending))
    decreases |pending|
  {
    AllStored(g, sh, t, pending);
    if pending == [] {
    } else {
      InsertFirst(g, sh, pending);
      InsertKeepsTable(g, sh, t, pending[0]);
      RowIsLonger(sh, t, pending[0]);
      LongerIsTidy(sh.currDepth, t, InsertRow(sh, t, pending[0]));
      RowsAreTidy(g, InsertDeep(sh, pending[0]), InsertRow(sh, t, pending[0]), pending[1..]);
    }
  }

  // The sweep of a drained depth takes out every record of it and before it that has lost its last child.
  lemma SweepIsTidy<K>(colls: seq<Collection<K>>, d: nat, t: Table)
    requires TableOk(colls, d, t) && NoGarbage(d, t)
    ensures NoGarbage(d + 1, SweepDepth(t, d))
  {
    var items, t' := RowsAt(t.refs, d, |t.refs|), SweepDepth(t, d);
    SweepRowsOk(t.rows, items);
    forall n | 0 <= n < |t'.refs| && !t'.rows.dead[n] && t'.refs[n].depth < d + 1 ensures HasLiveChild(t', n) {
      RowsAtHas(t.refs, d, |t.refs|, n);
      if t.refs[n].depth < d {
        assert HasLiveChild(t, n);
        var c :| 0 <= c < |t.rows.parent| && t.rows.parent[c] == Some(n) && !t.rows.dead[c];
        assert t'.rows.dead[c] ==> LostChild(t.rows.parent, t.rows.dead, t'.rows.dead, n);
      }
    }
  }

  // ---- Whole runs ----

  // A step of the protocol and what it does to the table.
  ghost predicate SweepNext<K(!new)>(e: DeepExpander<K>, limits: Limits, maxBatch: nat, s: DeepSystem<K>, t: Table,
                                     s': DeepSystem<K>, t': Table, who: Actor) {
    && DeepNext(e, limits, maxBatch, s, s', who)
    && match who
       case MainThread => |t.rows.dead| == |t.rows.parent| && t' == SweepDepth(t, s.sh.currDepth)
       case Worker(i) =>
         if i < |s.threads| && s.threads[i].pc == Inserting then
           && AllFit(s.sh, s.threads[i].pending) && ParentsStored(s.sh, t, s.threads[i].pending)
           && t' == InsertRows(s.sh, t, s.threads[i].pending)
         else t' == t
  }

  ghost predicate SweepInv<K(!new)>(g: Grading<K>, s: DeepSystem<K>, t: Table) {
    && DeepInv(g, s) && TableOk(s.sh.colls, s.sh.currDepth, t) && NoGarbage(s.sh.currDepth, t)
    && (s.sh.solution.Some? ==> s.sh.solution.value.depth == s.sh.currDepth)
  }

  lemma InsertingIsOk<K(!new)>(g: Grading<K>, s: DeepSystem<K>, i: nat)
    requires GradingOk(g) && DeepInv(g, s) && i < |s.threads| && s.threads[i].pc == Inserting
    ensures AllPendingOk(g, s.sh, s.threads[i].pending)
  {
    assert DeepThreadOk(g, s.sh, s.threads[i]);
  }

  lemma SameRecordsTable<K>(colls: seq<Collection<K>>, colls': seq<Collection<K>>, currDepth: nat, t: Table)
    requires TableOk(colls, currDepth, t) && |colls| == |colls'|
    requires forall d :: 0 <= d < |colls| ==> colls'[d].records == colls[d].records
    ensures TableOk(colls', currDepth, t)
  {
    forall n | 0 <= n < |t.refs| ensures RowFits(colls', currDepth, t, n) {
      assert RowFits(colls, currDepth, t, n);
      StillFits(colls, currDepth, t, n, colls', t);
    }
    forall r | ValidRef(colls', r) ensures r in t.refs { assert ValidRef(colls, r); }
  }

  // A worker that does not insert leaves the records alone.
  lemma RecordsStay<K(!new)>(g: Grading<K>, limits: Limits, maxBatch: nat, s: DeepSystem<K>, s': DeepSystem<K>, i: nat)
    requires DeepInv(g, s) && DeepNext(g.e, limits, maxBatch, s, s', Worker(i))
    requires i < |s.threads| && s.threads[i].pc != Inserting
    ensures s'.sh.currDepth == s.sh.currDepth && |s'.sh.colls| == |s.sh.colls|
    ensures forall d :: 0 <= d < |s.sh.colls| ==> s'.sh.colls[d].records == s.sh.colls[d].records
    ensures s'.sh.solution == s.sh.solution || (s'.sh.solution.Some? && s'.sh.solution.value.depth == s.sh.currDepth)
  {
    if TakeStep(limits, maxBatch, s, s', i) {
      ExtractManyEffect(s.sh, limits,
                        if s.sh.flag == DontTerminate then Min(maxBatch, |s.sh.colls[s.sh.currDepth].queue|) else 0);
    }
  }

  lemma {:induction false} InsertAllSolution<K>(sh: DeepShared<K>, pending: seq<Pending<K>>)
    requires AllFit(sh, pending)
    ensures InsertAll(sh, pending).solution == sh.solution && InsertAll(sh, pending).currDepth == sh.currDepth
    decreases |pending|
  {
    if pending == [] {
    } else {
      InsertAllSolution(InsertDeep(sh, pending[0]), pending[1..]);
    }
  }

  lemma SweepStepKeepsInv<K(!new)>(g: Grading<K>, limits: Limits, maxBatch: nat, s: DeepSystem<K>, t: Table,
                                   s': DeepSystem<K>, t': Table, who: Actor)
    requires GradingOk(g) && FitsByte(g) && maxBatch > 0 && SweepInv(g, s, t)
    requires SweepNext(g.e, limits, maxBatch, s, t, s', t', who)
    ensures SweepInv(g, s', t')
  {
    DeepStepKeepsInv(g, limits, maxBatch, s, s', who);
    StepKeepsTable(g, limits, maxBatch, s, t, s', t', who);
    StepIsTidy(g, limits, maxBatch, s, t, s', t', who);
  }

  lemma StepIsTidy<K(!new)>(g: Grading<K>, limits: Limits, maxBatch: nat, s: DeepSystem<K>, t: Table,
                            s': DeepSystem<K>, t': Table, who: Actor)
    requires GradingOk(g) && FitsByte(g) && SweepInv(g, s, t) && SweepNext(g.e, limits, maxBatch, s, t, s', t', who)
    ensures NoGarbage(s'.sh.currDepth, t')
  {
    match who {
      case MainThread => SweepIsTidy(s.sh.colls, s.sh.currDepth, t);
      case Worker(i) =>
        if s.threads[i].pc == Inserting {
          InsertingIsOk(g, s, i);
          RowsAreTidy(g, s.sh, t, s.threads[i].pending);
          InsertAllSolution(s.sh, s.threads[i].pending);
        } else {
          RecordsStay(g, limits, maxBatch, s, s', i);
        }
    }
  }

  lemma StepKeepsTable<K(!new)>(g: Grading<K>, limits: Limits, maxBatch: nat, s: DeepSystem<K>, t: Table,
                                s': DeepSystem<K>, t': Table, who: Actor)
    requires GradingOk(g) && FitsByte(g) && SweepInv(g, s, t) && SweepNext(g.e, limits, maxBatch, s, t, s', t', who)
    ensures TableOk(s'.sh.colls, s'.sh.currDepth, t')
    ensures s'.sh.solution.Some? ==> s'.sh.solution.value.depth == s'.sh.currDepth
  {
    match who {
      case MainThread => MainKeepsTable(g, limits, maxBatch, s, t, s', t');
      case Worker(i) => WorkerKeepsTable(g, limits, maxBatch, s, t, s', t', i);
    }
  }

  lemma MainKeepsTable<K(!new)>(g: Grading<K>, limits: Limits, maxBatch: nat, s: DeepSystem<K>, t: Table,
                                s': DeepSystem<K>, t': Table)
    requires GradingOk(g) && FitsByte(g) && SweepInv(g, s, t)
    requires SweepNext(g.e, limits, maxBatch, s, t, s', t', MainThread)
    ensures TableOk(s'.sh.colls, s'.sh.currDepth, t')
    ensures s'.sh.solution.Some? ==> s'.sh.solution.value.depth == s'.sh.currDepth
  {
    SweepKeepsTable(g, s.sh, t);
  }

  lemma WorkerKeepsTable<K(!new)>(g: Grading<K>, limits: Limits, maxBatch: nat, s: DeepSystem<K>, t: Table,
                                  s': DeepSystem<K>, t': Table, i: nat)
    requires GradingOk(g) && FitsByte(g) && SweepInv(g, s, t)
    requires SweepNext(g.e, limits, maxBatch, s, t, s', t', Worker(i))
    ensures TableOk(s'.sh.colls, s'.sh.currDepth, t')
    ensures s'.sh.solution.Some? ==> s'.sh.solution.value.depth == s'.sh.currDepth
  {
    if s.threads[i].pc == Inserting {
      InsertingIsOk(g, s, i);
      InsertRowsOk(g, s.sh, t, s.threads[i].pending);
      InsertAllSolution(s.sh, s.threads[i].pending);
    } else {
      RecordsStay(g, limits, maxBatch, s, s', i);
      SameRecordsTable(s.sh.colls, s'.sh.colls, s.sh.currDepth, t);
    }
  }

  // The bookkeeping never gets in the way: each step of the protocol can be taken with it.
  lemma StepHasTable<K(!new)>(g: Grading<K>, limits: Limits, maxBatch: nat, s: DeepSystem<K>, t: Table,
                              s': DeepSystem<K>, who: Actor) returns (t': Table)
    requires GradingOk(g) && FitsByte(g) && SweepInv(g, s, t) && DeepNext(g.e, limits, maxBatch, s, s', who)
    ensures SweepNext(g.e, limits, maxBatch, s, t, s', t', who)
  {
    t' := t;
    match who {
      case MainThread => t' := SweepDepth(t, s.sh.currDepth);
      case Worker(i) =>
        if s.threads[i].pc == Inserting {
          InsertingIsOk(g, s, i);
          AllStored(g, s.sh, t, s.threads[i].pending);
          t' := InsertRows(s.sh, t, s.threads[i].pending);
        }
    }
  }

  datatype SweepStep<K> = SweepStep(who: Actor, state: DeepSystem<K>, table: Table)

  ghost predicate IsSweepRun<K(!new)>(e: DeepExpander<K>, limits: Limits, maxBatch: nat, first: DeepSystem<K>, t: Table,
                                      run: seq<SweepStep<K>>)
    decreases |run|
  {
    run == [] || (SweepNext(e, limits, maxBatch, first, t, run[0].state, run[0].table, run[0].who)
                  && IsSweepRun(e, limits, maxBatch, run[0].state, run[0].table, run[1..]))
  }

  function SweepEnd<K>(first: DeepSystem<K>, t: Table, run: seq<SweepStep<K>>): (DeepSystem<K>, Table) {
    if run == [] then (first, t) else (run[|run| - 1].state, run[|run| - 1].table)
  }

  lemma SweepEndLater<K>(first: DeepSystem<K>, t: Table, run: seq<SweepStep<K>>)
    requires run != []
    ensures SweepEnd(first, t, run) == SweepEnd(run[0].state, run[0].table, run[1..])
  {
  }

  // The table of the first record, which has no parent.
  function FirstTable(): Table {
    Table([Ref(0, 0)], Rows([None], [0], [false]))
  }

  lemma FirstTableOk<K(!new)>(g: Grading<K>, numThreads: nat)
    requires GradingOk(g) && numThreads > 0
    ensures SweepInv(g, DeepStart(g.first, g.depths, numThreads), FirstTable())
  {
    DeepStartHasInv(g, numThreads);
    var s := DeepStart(g.first, g.depths, numThreads);
    forall r | ValidRef(s.sh.colls, r) ensures r == Ref(0, 0) {}
    assert LiveChildren([None], [false], 0, 1) == LiveChildren([None], [false], 0, 0);
    assert RowFits(s.sh.colls, 0, FirstTable(), 0);
  }

  lemma {:induction false} SweepRunKeepsInv<K(!new)>(g: Grading<K>, limits: Limits, maxBatch: nat, s: DeepSystem<K>,
                                                     t: Table,
                                                      run: seq<SweepStep<K>>)
    requires GradingOk(g) && FitsByte(g) && maxBatch > 0 && SweepInv(g, s, t)
             && IsSweepRun(g.e, limits, maxBatch, s, t, run)
    ensures SweepInv(g, SweepEnd(s, t, run).0, SweepEnd(s, t, run).1)
    decreases |run|
  {
    if run == [] {
    } else {
      SweepStepKeepsInv(g, limits, maxBatch, s, t, run[0].state, run[0].table, run[0].who);
      SweepRunKeepsInv(g, limits, maxBatch, run[0].state, run[0].table, run[1..]);
      SweepEndLater(s, t, run);
    }
  }

  // Every run of the protocol is one with the bookkeeping.
  lemma {:induction false} EveryRunSweeps<K(!new)>(g: Grading<K>, limits: Limits, maxBatch: nat, s: DeepSystem<K>,
                                                   t: Table,
                                                    run: seq<DeepStep<K>>) returns (sweeps: seq<SweepStep<K>>)
    requires GradingOk(g) && FitsByte(g) && maxBatch > 0 && SweepInv(g, s, t)
             && IsDeepRun(g.e, limits, maxBatch, s, run)
    ensures IsSweepRun(g.e, limits, maxBatch, s, t, sweeps) && SweepEnd(s, t, sweeps).0 == DeepEnd(s, run)
    decreases |run|
  {
    if run == [] {
      sweeps := [];
    } else {
      var t' := StepHasTable(g, limits, maxBatch, s, t, run[0].state, run[0].who);
      SweepStepKeepsInv(g, limits, maxBatch, s, t, run[0].state, t', run[0].who);
      var rest := EveryRunSweeps(g, limits, maxBatch, run[0].state, t', run[1..]);
      sweeps := [SweepStep(run[0].who, run[0].state, t')] + rest;
      assert sweeps[1..] == rest;
      SweepEndLater(s, t, sweeps);
      DeepEndLater(s, run);
    }
  }

  // The trace of a stored record: the record, its parent, and so on to the first one.
  ghost predicate IsTrace<K>(colls: seq<Collection<K>>, trace: seq<Ref>) {
    && trace != [] && (forall k {:trigger trace[k]} :: 0 <= k < |trace| ==> ValidRef(colls, trace[k]))
    && (forall k {:trigger trace[k]} :: 0 < k < |trace| ==> RecordAt(colls, trace[k - 1]).parent == Some(trace[k]))
    && RecordAt(colls, trace[|trace| - 1]).parent == None
  }

  ghost predicate IsLiveTrace<K>(colls: seq<Collection<K>>, t: Table, trace: seq<Ref>)
    requires |t.rows.dead| == |t.refs|
  {
    IsTrace(colls, trace) && forall k {:trigger trace[k]} :: 0 <= k < |trace| ==> LiveRef(t, trace[k])
  }

  ghost predicate LiveRef(t: Table, r: Ref)
    requires |t.rows.dead| == |t.refs|
  {
    r in t.refs && !t.rows.dead[RowOf(t, r)]
  }

  lemma LongerTrace<K>(colls: seq<Collection<K>>, t: Table, r: Ref, rest: seq<Ref>)
    requires |t.rows.dead| == |t.refs| && LiveRef(t, r) && IsLiveTrace(colls, t, rest)
    requires ValidRef(colls, r) && RecordAt(colls, r).parent == Some(rest[0])
    ensures IsLiveTrace(colls, t, [r] + rest)
  {
    var trace := [r] + rest;
    forall k {:trigger trace[k]} | 0 <= k < |trace|
      ensures ValidRef(colls, trace[k]) && LiveRef(t, trace[k])
      ensures k > 0 ==> RecordAt(colls, trace[k - 1]).parent == Some(trace[k])
    {
      if k > 0 { assert trace[k] == rest[k - 1]; }
      if k > 1 { assert trace[k - 1] == rest[k - 2]; }
    }
    assert trace[|trace| - 1] == rest[|rest| - 1];
  }

  // A live record has a trace, and it meets live records only.
  lemma {:induction false} TraceIsIntact<K>(colls: seq<Collection<K>>, currDepth: nat, t: Table, n: nat)
    returns (trace: seq<Ref>)
    requires TableOk(colls, currDepth, t) && n < |t.refs| && !t.rows.dead[n]
    ensures IsLiveTrace(colls, t, trace) && trace[0] == t.refs[n]
    decreases n
  {
    assert RowFits(colls, currDepth, t, n);
    RowOfIs(t, n);
    match t.rows.parent[n] {
      case None => trace := [t.refs[n]];
      case Some(p) =>
        LiveChildCounts(t.rows.parent, t.rows.dead, n, p, |t.refs|);
        var rest := TraceIsIntact(colls, currDepth, t, p);
        LongerTrace(colls, t, t.refs[n], rest);
        trace := [t.refs[n]] + rest;
    }
  }

  lemma RowOfIs(t: Table, n: nat)
    requires n < |t.refs| && Distinct(t.refs)
    ensures RowOf(t, t.refs[n]) == n
  {
    assert t.refs[RowOf(t, t.refs[n])] == t.refs[n];
  }

  // Each count is the number of live records that name this one as parent and fits its byte. A record is
  // live exactly if it is not of an earlier depth or a live record names it as parent: so all that is
  // queued or held by a worker is live, and the reported solution with its whole trace.
  ghost predicate SweptSafely<K>(sh: DeepShared<K>, t: Table) {
    && TableOk(sh.colls, sh.currDepth, t)
    && (forall q :: 0 <= q < |t.refs| ==>
          t.rows.refcount[q] == LiveChildren(t.rows.parent, t.rows.dead, q, |t.refs|) < 256)
    && (forall n {:trigger t.refs[n]} :: 0 <= n < |t.refs| ==>
          (!t.rows.dead[n] <==> t.refs[n].depth >= sh.currDepth || HasLiveChild(t, n)))
    && (forall r :: ValidRef(sh.colls, r) && r.depth >= sh.currDepth ==> LiveRef(t, r))
    && (sh.solution.Some? ==> exists trace :: IsLiveTrace(sh.colls, t, trace) && trace[0] == sh.solution.value)
  }

  // In every run, after any number of sweeps.
  lemma EverySweepIsSafe<K(!new)>(g: Grading<K>, limits: Limits, maxBatch: nat, numThreads: nat, run: seq<SweepStep<K>>)
    requires GradingOk(g) && FitsByte(g) && maxBatch > 0 && numThreads > 0
    requires IsSweepRun(g.e, limits, maxBatch, DeepStart(g.first, g.depths, numThreads), FirstTable(), run)
    ensures var (s, t) := SweepEnd(DeepStart(g.first, g.depths, numThreads), FirstTable(), run);
            SweptSafely(s.sh, t)
  {
    FirstTableOk(g, numThreads);
    SweepRunKeepsInv(g, limits, maxBatch, DeepStart(g.first, g.depths, numThreads), FirstTable(), run);
    var (s, t) := SweepEnd(DeepStart(g.first, g.depths, numThreads), FirstTable(), run);
    InvIsSafe(g, s, t);
  }

  lemma DeadHasNone<K>(colls: seq<Collection<K>>, currDepth: nat, t: Table, n: nat)
    requires TableOk(colls, currDepth, t) && n < |t.refs| && t.rows.dead[n]
    ensures t.refs[n].depth < currDepth && !HasLiveChild(t, n)
  {
    assert RowFits(colls, currDepth, t, n);
    if HasLiveChild(t, n) {
      var c :| 0 <= c < |t.rows.parent| && t.rows.parent[c] == Some(n) && !t.rows.dead[c];
      LiveChildCounts(t.rows.parent, t.rows.dead, c, n, |t.refs|);
      assert false;
    }
  }

  lemma InvIsSafe<K(!new)>(g: Grading<K>, s: DeepSystem<K>, t: Table)
    requires GradingOk(g) && FitsByte(g) && SweepInv(g, s, t)
    ensures SweptSafely(s.sh, t)
  {
    forall q | 0 <= q < |t.refs|
      ensures t.rows.refcount[q] == LiveChildren(t.rows.parent, t.rows.dead, q, |t.refs|) < 256
    {
      CountFits(g, s.sh, t, q);
    }
    forall n {:trigger t.refs[n]} | 0 <= n < |t.refs|
      ensures !t.rows.dead[n] <==> t.refs[n].depth >= s.sh.currDepth || HasLiveChild(t, n)
    {
      if t.rows.dead[n] { DeadHasNone(s.sh.colls, s.sh.currDepth, t, n); }
    }
    forall r | ValidRef(s.sh.colls, r) && r.depth >= s.sh.currDepth ensures LiveRef(t, r) {
      RowIsLive(s.sh.colls, s.sh.currDepth, t, r);
    }
    if s.sh.solution.Some? {
      RowIsLive(s.sh.colls, s.sh.currDepth, t, s.sh.solution.value);
      var trace := TraceIsIntact(s.sh.colls, s.sh.currDepth, t, RowOf(t, s.sh.solution.value));
    }
  }
}
