/** Sweeping out the records of a depth that no live record is derived from. */
module Sweep {
  import opened Cards

  // Records are numbered as they were stored, so a parent has a smaller number.
  predicate ParentsFirst(parent: seq<Option<nat>>) {
    forall i :: 0 <= i < |parent| && parent[i].Some? ==> parent[i].value < i
  }

  function LiveChildren(parent: seq<Option<nat>>, dead: seq<bool>, p: nat, n: nat): nat
    requires |parent| == |dead| && n <= |parent|
  {
    if n == 0 then 0
    else LiveChildren(parent, dead, p, n - 1) + if !dead[n - 1] && parent[n - 1] == Some(p) then 1 else 0
  }

  lemma {:induction false} OneDies(parent: seq<Option<nat>>, dead: seq<bool>, i: nat, p: nat, n: nat)
    requires |parent| == |dead| && n <= |parent| && i < |parent| && !dead[i]
    ensures LiveChildren(parent, dead[i := true], p, n) + (if i < n && parent[i] == Some(p) then 1 else 0)
         == LiveChildren(parent, dead, p, n)
  {
    if n == 0 {
    } else {
      OneDies(parent, dead, i, p, n - 1);
    }
  }

  lemma {:induction false} LiveChildCounts(parent: seq<Option<nat>>, dead: seq<bool>, i: nat, p: nat, n: nat)
    requires |parent| == |dead| && i < n <= |parent| && !dead[i] && parent[i] == Some(p)
    ensures LiveChildren(parent, dead, p, n) > 0
  {
    if i < n - 1 { LiveChildCounts(parent, dead, i, p, n - 1); }
  }

  lemma {:induction false} NoLiveChild(parent: seq<Option<nat>>, dead: seq<bool>, p: nat, n: nat)
    requires |parent| == |dead| && n <= |parent|
    requires forall i :: 0 <= i < n && parent[i] == Some(p) ==> dead[i]
    ensures LiveChildren(parent, dead, p, n) == 0
  {
    if n == 0 {
    } else {
      NoLiveChild(parent, dead, p, n - 1);
    }
  }

  // Reference counts are exact, and a dead record has no live child.
  ghost predicate CountsOk(parent: seq<Option<nat>>, dead: seq<bool>, refcount: seq<nat>) {
    && |dead| == |parent| && |refcount| == |parent|
    && (forall p :: 0 <= p < |parent| ==> refcount[p] == LiveChildren(parent, dead, p, |parent|))
    && (forall p :: 0 <= p < |parent| && dead[p] ==> refcount[p] == 0)
  }

  // The record and its parents up to the first one.
  ghost function Chain(parent: seq<Option<nat>>, i: nat): seq<nat>
    requires ParentsFirst(parent) && i < |parent|
    decreases i
  {
    [i] + match parent[i]
          case None => []
          case Some(p) => Chain(parent, p)
  }

  // The trace of a live record meets live records only.
  lemma {:induction false} LiveTrace(parent: seq<Option<nat>>, dead: seq<bool>, refcount: seq<nat>, i: nat)
    requires ParentsFirst(parent) && CountsOk(parent, dead, refcount) && i < |parent| && !dead[i]
    ensures forall k :: 0 <= k < |Chain(parent, i)| ==> Chain(parent, i)[k] < |parent| && !dead[Chain(parent, i)[k]]
    decreases i
  {
    if parent[i].Some? {
      LiveChildCounts(parent, dead, i, parent[i].value, |parent|);
      LiveTrace(parent, dead, refcount, parent[i].value);
    }
  }

  // ---- Which records a sweep takes ----

  ghost predicate LostChild(parent: seq<Option<nat>>, dead0: seq<bool>, dead: seq<bool>, r: nat)
    requires |parent| == |dead0| == |dead|
  {
    exists c :: 0 <= c < |parent| && parent[c] == Some(r) && dead[c] && !dead0[c]
  }

  predicate AllChildrenDead(parent: seq<Option<nat>>, dead: seq<bool>, r: nat)
    requires |parent| == |dead|
  {
    forall c :: 0 <= c < |parent| && parent[c] == Some(r) ==> dead[c]
  }

  // A live record goes exactly when it has no live child left and either it is one of the records
  // swept over or it lost a child.
  ghost predicate IsSwept(parent: seq<Option<nat>>, dead0: seq<bool>, items: seq<nat>, dead: seq<bool>) {
    && |dead0| == |parent| && |dead| == |parent|
    && (forall r :: 0 <= r < |parent| && dead0[r] ==> dead[r])
    && forall r :: 0 <= r < |parent| && !dead0[r] ==>
         (dead[r] <==> AllChildrenDead(parent, dead, r) && (r in items || LostChild(parent, dead0, dead, r)))
  }

  // So the order of the sweep does not matter.
  lemma {:induction false} SweptOnce(parent: seq<Option<nat>>, dead0: seq<bool>, items: seq<nat>, items': seq<nat>,
                                     a: seq<bool>, b: seq<bool>, n: nat)
    requires ParentsFirst(parent) && IsSwept(parent, dead0, items, a) && IsSwept(parent, dead0, items', b)
    requires (forall r :: r in items <==> r in items') && n <= |parent|
    ensures forall r :: n <= r < |parent| ==> a[r] == b[r]
    decreases |parent| - n
  {
    if n < |parent| {
      SweptOnce(parent, dead0, items, items', a, b, n + 1);
      SameChildren(parent, dead0, a, b, n);
      SameChildren(parent, dead0, b, a, n);
    }
  }

  lemma SameChildren(parent: seq<Option<nat>>, dead0: seq<bool>, a: seq<bool>, b: seq<bool>, r: nat)
    requires ParentsFirst(parent) && |dead0| == |parent| == |a| == |b| && r < |parent|
    requires forall i :: r < i < |parent| ==> a[i] == b[i]
    ensures AllChildrenDead(parent, a, r) ==> AllChildrenDead(parent, b, r)
    ensures LostChild(parent, dead0, a, r) ==> LostChild(parent, dead0, b, r)
  {
    forall c | 0 <= c < |parent| && parent[c] == Some(r) ensures c > r && a[c] == b[c] {}
    if LostChild(parent, dead0, a, r) {
      var c :| 0 <= c < |parent| && parent[c] == Some(r) && a[c] && !dead0[c];
      assert b[c];
    }
  }

  // ---- What a sweep leaves ----

  // The flags once the records from n on have been decided, the last one first.
  ghost function SweptFlags(parent: seq<Option<nat>>, dead0: seq<bool>, items: seq<nat>, n: nat): (dead: seq<bool>)
    requires |dead0| == |parent| && n <= |parent|
    ensures |dead| == |parent| && forall r :: 0 <= r < n ==> dead[r] == dead0[r]
    decreases |parent| - n
  {
    if n == |parent| then dead0
    else
      var dead := SweptFlags(parent, dead0, items, n + 1);
      dead[n := dead0[n] || MustGo(parent, dead0, dead, items, n)]
  }

  ghost predicate MustGo(parent: seq<Option<nat>>, dead0: seq<bool>, dead: seq<bool>, items: seq<nat>, r: nat)
    requires |parent| == |dead0| == |dead|
  {
    AllChildrenDead(parent, dead, r) && (r in items || LostChild(parent, dead0, dead, r))
  }

  lemma {:induction false} SweptFlagsAt(parent: seq<Option<nat>>, dead0: seq<bool>, items: seq<nat>, n: nat, r: nat)
    requires ParentsFirst(parent) && |dead0| == |parent| && n <= r < |parent|
    ensures var dead := SweptFlags(parent, dead0, items, n);
            dead[r] == (dead0[r] || MustGo(parent, dead0, dead, items, r))
    decreases |parent| - n
  {
    var dead, before := SweptFlags(parent, dead0, items, n), SweptFlags(parent, dead0, items, n + 1);
    if n < r { SweptFlagsAt(parent, dead0, items, n + 1, r); }
    assert forall i :: r < i < |parent| ==> dead[i] == before[i];
    SameChildren(parent, dead0, dead, before, r);
    SameChildren(parent, dead0, before, dead, r);
  }

  // A record: the number of its parent, the byte that counts the records derived from it, and whether it was taken out.
  datatype Rows = Rows(parent: seq<Option<nat>>, refcount: seq<nat>, dead: seq<bool>)

  ghost predicate RowsOk(t: Rows) {
    ParentsFirst(t.parent) && CountsOk(t.parent, t.dead, t.refcount)
  }

  // A new record; its parent's count goes up, in eight bits.
  function AddRow(t: Rows, up: Option<nat>): Rows
    requires up.Some? ==> up.value < |t.refcount|
  {
    Rows(t.parent + [up],
         (if up.Some? then t.refcount[up.value := (t.refcount[up.value] + 1) % 256] else t.refcount) + [0],
         t.dead + [false])
  }

  lemma {:induction false} LiveChildrenAdd(t: Rows, up: Option<nat>, p: nat, n: nat)
    requires |t.parent| == |t.dead| && n <= |t.parent|
    ensures LiveChildren(t.parent + [up], t.dead + [false], p, n) == LiveChildren(t.parent, t.dead, p, n)
  {
    if n == 0 {
    } else {
      LiveChildrenAdd(t, up, p, n - 1);
    }
  }

  lemma AddRowOk(t: Rows, up: Option<nat>)
    requires RowsOk(t)
    requires up.Some? ==> up.value < |t.parent| && !t.dead[up.value] && t.refcount[up.value] < 255
    ensures RowsOk(AddRow(t, up))
  {
    var t' := AddRow(t, up);
    forall p | 0 <= p < |t'.parent| ensures t'.refcount[p] == LiveChildren(t'.parent, t'.dead, p, |t'.parent|) {
      LiveChildrenAdd(t, up, p, |t.parent|);
      if p == |t.parent| { NoLiveChild(t.parent, t.dead, p, |t.parent|); }
    }
  }

  ghost function SweepRows(t: Rows, items: seq<nat>): (swept: Rows)
    requires |t.dead| == |t.parent|
    ensures |swept.dead| == |swept.refcount| == |swept.parent| && swept.parent == t.parent
  {
    var dead := SweptFlags(t.parent, t.dead, items, 0);
    Rows(t.parent, seq(|t.parent|, p requires 0 <= p < |t.parent| => LiveChildren(t.parent, dead, p, |t.parent|)), dead)
  }

  lemma SweepRowsOk(t: Rows, items: seq<nat>)
    requires RowsOk(t)
    ensures RowsOk(SweepRows(t, items)) && IsSwept(t.parent, t.dead, items, SweepRows(t, items).dead)
  {
    var swept := SweepRows(t, items);
    forall r | 0 <= r < |t.parent|
      ensures swept.dead[r] == (t.dead[r] || MustGo(t.parent, t.dead, swept.dead, items, r))
    {
      SweptFlagsAt(t.parent, t.dead, items, 0, r);
    }
    forall p | 0 <= p < |t.parent| && swept.dead[p] ensures swept.refcount[p] == 0 {
      forall i | 0 <= i < |t.parent| && t.parent[i] == Some(p) ensures swept.dead[i] {
        if t.dead[p] && !t.dead[i] { LiveChildCounts(t.parent, t.dead, i, p, |t.parent|); }
      }
      NoLiveChild(t.parent, swept.dead, p, |t.parent|);
    }
  }

  // Whatever order the records are swept in, the outcome is the same.
  lemma SweepIsExact(t: Rows, items: seq<nat>, dead: seq<bool>, refcount: seq<nat>)
    requires RowsOk(t) && IsSwept(t.parent, t.dead, items, dead) && CountsOk(t.parent, dead, refcount)
    ensures Rows(t.parent, refcount, dead) == SweepRows(t, items)
  {
    SweepRowsOk(t, items);
    SweptOnce(t.parent, t.dead, items, items, dead, SweepRows(t, items).dead, 0);
    assert dead == SweepRows(t, items).dead;
  }

  // ---- One record after the other ----

  // What holds during the sweep: the records gone so far had to go, and all that have to go are gone,
  // except perhaps the one looked at now.
  ghost predicate SoFar(parent: seq<Option<nat>>, dead0: seq<bool>, dead: seq<bool>, refcount: seq<nat>,
                        done: seq<nat>, now: Option<nat>) {
    && CountsOk(parent, dead, refcount) && |dead0| == |parent|
    && (forall r :: 0 <= r < |parent| && dead0[r] ==> dead[r])
    && (forall r :: 0 <= r < |parent| && !dead0[r] && dead[r] ==> r in done || LostChild(parent, dead0, dead, r))
    && (forall r | 0 <= r < |parent| && !dead[r] && refcount[r] == 0 ::
         r in done || LostChild(parent, dead0, dead, r) ==> now == Some(r))
    && (now.Some? ==> now.value in done || LostChild(parent, dead0, dead, now.value))
  }

  lemma OneMoreItem(parent: seq<Option<nat>>, dead0: seq<bool>, dead: seq<bool>, refcount: seq<nat>, done: seq<nat>,
                    item: nat)
    requires SoFar(parent, dead0, dead, refcount, done, None) && item < |parent| && dead[item]
    ensures SoFar(parent, dead0, dead, refcount, done + [item], None)
  {
  }

  lemma Started(parent: seq<Option<nat>>, dead0: seq<bool>, dead: seq<bool>, refcount: seq<nat>, done: seq<nat>,
                item: nat)
    requires SoFar(parent, dead0, dead, refcount, done, None) && item < |parent| && !dead[item]
    ensures SoFar(parent, dead0, dead, refcount, done + [item], Some(item))
  {
  }

  // The record goes and its parent loses a reference.
  lemma Falls(parent: seq<Option<nat>>, dead0: seq<bool>, dead: seq<bool>, refcount: seq<nat>, done: seq<nat>, r: nat)
    requires ParentsFirst(parent) && SoFar(parent, dead0, dead, refcount, done, Some(r)) && r < |parent| && !dead[r]
             && refcount[r] == 0
    ensures parent[r].Some? ==> refcount[parent[r].value] > 0 && !dead[parent[r].value]
    ensures var refcount' := if parent[r].Some? then refcount[parent[r].value := refcount[parent[r].value] - 1]
                             else refcount;
            CountsOk(parent, dead[r := true], refcount')
              && SoFar(parent, dead0, dead[r := true], refcount', done, parent[r])
  {
    var dead' := dead[r := true];
    if parent[r].Some? { LiveChildCounts(parent, dead, r, parent[r].value, |parent|); }
    var refcount' := if parent[r].Some? then refcount[parent[r].value := refcount[parent[r].value] - 1] else refcount;
    forall p | 0 <= p < |parent| ensures refcount'[p] == LiveChildren(parent, dead', p, |parent|) {
      OneDies(parent, dead, r, p, |parent|);
    }
    forall p | 0 <= p < |parent| && dead'[p] ensures refcount'[p] == 0 {}
    forall s | 0 <= s < |parent| && LostChild(parent, dead0, dead, s) ensures LostChild(parent, dead0, dead', s) {
      var c :| 0 <= c < |parent| && parent[c] == Some(s) && dead[c] && !dead0[c];
      assert dead'[c];
    }
    forall s | 0 <= s < |parent| && LostChild(parent, dead0, dead', s) && parent[r] != Some(s)
      ensures LostChild(parent, dead0, dead, s)
    {
      var c :| 0 <= c < |parent| && parent[c] == Some(s) && dead'[c] && !dead0[c];
      assert c != r && dead[c];
    }
    if parent[r].Some? { assert dead'[r] && !dead0[r] && parent[r] == Some(parent[r].value); }
  }

  lemma SweptAtEnd(parent: seq<Option<nat>>, dead0: seq<bool>, dead: seq<bool>, refcount: seq<nat>, items: seq<nat>)
    requires SoFar(parent, dead0, dead, refcount, items, None)
    ensures IsSwept(parent, dead0, items, dead)
    ensures forall i :: i in items && i < |parent| ==> dead[i] || refcount[i] > 0
  {
    forall r | 0 <= r < |parent| ensures refcount[r] == 0 <==> AllChildrenDead(parent, dead, r) {
      if AllChildrenDead(parent, dead, r) {
        NoLiveChild(parent, dead, r, |parent|);
      } else {
        var c :| 0 <= c < |parent| && parent[c] == Some(r) && !dead[c];
        LiveChildCounts(parent, dead, c, r, |parent|);
      }
    }
  }
}
