/**
 The nodes that hold the records. A record that was taken out leaves its node in the bin, where the
 next record finds it; seen from the records, the nodes are used once each.
 */
module SweepNodes {
  import opened Cards
  import opened Shuffles
  import opened Sweep

  // Of each node the node of the record's parent, the count and the flag; and the vacant nodes.
  datatype Nodes = Nodes(parent: seq<Option<nat>>, refcount: seq<nat>, decommissioned: seq<bool>, bin: seq<nat>)

  predicate Sized(nodes: Nodes) {
    |nodes.parent| == |nodes.refcount| == |nodes.decommissioned|
  }

  predicate IsLive(t: Rows, r: nat)
    requires |t.parent| == |t.dead|
  {
    r < |t.parent| && !t.dead[r]
  }

  function PlaceOf(place: seq<nat>, r: Option<nat>): Option<nat>
    requires r.Some? ==> r.value < |place|
  {
    match r
    case None => None
    case Some(p) => Some(place[p])
  }

  // place has the node each record was given, holder the live record each node has.
  datatype Lodging = Lodging(place: seq<nat>, holder: seq<Option<nat>>)

  // A node is vacant, or it shows its record's count and the node of the record's parent.
  ghost predicate NodeOk(nodes: Nodes, t: Rows, l: Lodging, n: nat)
    requires RowsOk(t) && |l.place| == |t.parent| && Sized(nodes) && n < |nodes.parent| == |l.holder|
  {
    match l.holder[n]
    case None => nodes.decommissioned[n]
    case Some(r) =>
      && IsLive(t, r) && l.place[r] == n && !nodes.decommissioned[n]
      && nodes.refcount[n] == t.refcount[r] && nodes.parent[n] == PlaceOf(l.place, t.parent[r])
  }

  ghost predicate RecordOk(t: Rows, l: Lodging, r: nat)
    requires |t.parent| == |t.dead| == |l.place|
  {
    IsLive(t, r) ==> l.place[r] < |l.holder| && l.holder[l.place[r]] == Some(r)
  }

  ghost predicate NodesOk(nodes: Nodes, t: Rows, l: Lodging) {
    && RowsOk(t) && |l.place| == |t.parent| && Sized(nodes) && |nodes.parent| == |l.holder|
    && (forall n {:trigger NodeOk(nodes, t, l, n)} :: 0 <= n < |nodes.parent| ==> NodeOk(nodes, t, l, n))
    && (forall r {:trigger RecordOk(t, l, r)} :: 0 <= r < |t.parent| ==> RecordOk(t, l, r))
    && (forall n :: n in nodes.bin <==> 0 <= n < |nodes.parent| && nodes.decommissioned[n])
    && Distinct(nodes.bin)
  }

  // The parent of a live record is live.
  lemma LiveParent(t: Rows, r: nat)
    requires RowsOk(t) && IsLive(t, r) && t.parent[r].Some?
    ensures IsLive(t, t.parent[r].value) && t.refcount[t.parent[r].value] > 0
  {
    LiveChildCounts(t.parent, t.dead, r, t.parent[r].value, |t.parent|);
  }

  // No live record names a vacant node as its parent, so a node can be used again.
  lemma NoVacantParent(nodes: Nodes, t: Rows, l: Lodging, n: nat)
    requires NodesOk(nodes, t, l) && n < |nodes.parent| && !nodes.decommissioned[n] && nodes.parent[n].Some?
    ensures nodes.parent[n].value < |nodes.parent| && !nodes.decommissioned[nodes.parent[n].value]
    ensures nodes.parent[n].value !in nodes.bin && nodes.refcount[nodes.parent[n].value] > 0
  {
    assert NodeOk(nodes, t, l, n);
    var r := l.holder[n].value;
    LiveParent(t, r);
    var p := t.parent[r].value;
    assert RecordOk(t, l, p);
    assert NodeOk(nodes, t, l, l.place[p]);
  }

  // ---- A record more ----

  // The first vacant node, or a new one.
  function NewNode(nodes: Nodes): nat {
    if nodes.bin != [] then nodes.bin[0] else |nodes.parent|
  }

  function WithNode(nodes: Nodes, up: Option<nat>): (r: Nodes)
    requires Sized(nodes) && (nodes.bin != [] ==> nodes.bin[0] < |nodes.parent|)
    ensures Sized(r) && |r.parent| >= |nodes.parent|
  {
    if nodes.bin == [] then
      Nodes(nodes.parent + [up], nodes.refcount + [0], nodes.decommissioned + [false], [])
    else
      var n := nodes.bin[0];
      Nodes(nodes.parent[n := up], nodes.refcount[n := 0], nodes.decommissioned[n := false], nodes.bin[1..])
  }

  function CountUp(nodes: Nodes, up: Option<nat>): (r: Nodes)
    requires up.Some? ==> up.value < |nodes.refcount|
    ensures Sized(nodes) ==> Sized(r)
  {
    if up.Some? then nodes.(refcount := nodes.refcount[up.value := (nodes.refcount[up.value] + 1) % 256]) else nodes
  }

  function Settled(l: Lodging, n: nat): Lodging
    requires n <= |l.holder|
  {
    var r := Some(|l.place|);
    Lodging(l.place + [n], if n == |l.holder| then l.holder + [r] else l.holder[n := r])
  }

  // The node a record gets was vacant or did not exist.
  lemma NewNodeIsFree(nodes: Nodes, t: Rows, l: Lodging)
    requires NodesOk(nodes, t, l)
    ensures NewNode(nodes) <= |nodes.parent| && (nodes.bin != [] ==> nodes.bin[0] < |nodes.parent|)
    ensures NewNode(nodes) < |nodes.parent| ==> nodes.decommissioned[NewNode(nodes)] && l.holder[NewNode(nodes)] == None
  {
    if nodes.bin != [] {
      assert nodes.bin[0] in nodes.bin;
      assert NodeOk(nodes, t, l, nodes.bin[0]);
    }
  }

  lemma BinShrinks(nodes: Nodes, t: Rows, l: Lodging, up: Option<nat>)
    requires NodesOk(nodes, t, l)
    ensures nodes.bin != [] ==> nodes.bin[0] < |nodes.parent|
    ensures var r := WithNode(nodes, up);
            Distinct(r.bin) && forall n :: n in r.bin <==> 0 <= n < |r.parent| && r.decommissioned[n]
  {
    NewNodeIsFree(nodes, t, l);
    if nodes.bin != [] {
      TailDistinct(nodes.bin);
      assert nodes.bin == [nodes.bin[0]] + nodes.bin[1..];
    }
  }

  lemma RecordAdded(nodes: Nodes, t: Rows, l: Lodging, up: Option<nat>)
    requires NodesOk(nodes, t, l)
    requires up.Some? ==> IsLive(t, up.value) && t.refcount[up.value] < 255
    ensures nodes.bin != [] ==> nodes.bin[0] < |nodes.parent|
    ensures NewNode(nodes) <= |l.holder|
    ensures var at, more := PlaceOf(l.place, up), WithNode(nodes, PlaceOf(l.place, up));
            && (at.Some? ==> at.value < |more.refcount|)
            && NodesOk(CountUp(more, at), AddRow(t, up), Settled(l, NewNode(nodes)))
  {
    var at, n := PlaceOf(l.place, up), NewNode(nodes);
    NewNodeIsFree(nodes, t, l);
    var t', l' := AddRow(t, up), Settled(l, n);
    AddRowOk(t, up);
    if up.Some? { LiveHasNode(nodes, t, l, up.value); }
    BinShrinks(nodes, t, l, at);
    var nodes' := CountUp(WithNode(nodes, at), at);
    forall m | 0 <= m < |nodes'.parent| ensures NodeOk(nodes', t', l', m) {
      if m != n { OtherNodeOk(nodes, t, l, up, m); } else { NewNodeOk(nodes, t, l, up); }
    }
    forall r | 0 <= r < |t'.parent| ensures RecordOk(t', l', r) {
      if r < |t.parent| { assert RecordOk(t, l, r); }
    }
  }

  lemma LiveHasNode(nodes: Nodes, t: Rows, l: Lodging, r: nat)
    requires NodesOk(nodes, t, l) && IsLive(t, r)
    ensures l.place[r] < |nodes.parent| && !nodes.decommissioned[l.place[r]] && l.holder[l.place[r]] == Some(r)
    ensures nodes.refcount[l.place[r]] == t.refcount[r] && nodes.parent[l.place[r]] == PlaceOf(l.place, t.parent[r])
  {
    assert RecordOk(t, l, r);
    assert NodeOk(nodes, t, l, l.place[r]);
  }

  lemma OtherNodeOk(nodes: Nodes, t: Rows, l: Lodging, up: Option<nat>, m: nat)
    requires NodesOk(nodes, t, l) && m < |nodes.parent| && m != NewNode(nodes)
    requires up.Some? ==> IsLive(t, up.value) && t.refcount[up.value] < 255
    requires RowsOk(AddRow(t, up)) && NewNode(nodes) <= |nodes.parent|
    requires nodes.bin != [] ==> nodes.bin[0] < |nodes.parent|
    requires up.Some? ==> l.place[up.value] < |nodes.parent| && l.holder[l.place[up.value]] == up
    ensures NodeOk(CountUp(WithNode(nodes, PlaceOf(l.place, up)), PlaceOf(l.place, up)), AddRow(t, up),
                   Settled(l, NewNode(nodes)), m)
  {
    assert NodeOk(nodes, t, l, m);
  }

  lemma NewNodeOk(nodes: Nodes, t: Rows, l: Lodging, up: Option<nat>)
    requires NodesOk(nodes, t, l)
    requires up.Some? ==> IsLive(t, up.value) && t.refcount[up.value] < 255
    requires RowsOk(AddRow(t, up)) && NewNode(nodes) <= |nodes.parent|
    requires nodes.bin != [] ==> nodes.bin[0] < |nodes.parent|
    requires up.Some? ==> l.place[up.value] < |nodes.parent| && l.place[up.value] != NewNode(nodes)
    ensures NodeOk(CountUp(WithNode(nodes, PlaceOf(l.place, up)), PlaceOf(l.place, up)), AddRow(t, up),
                   Settled(l, NewNode(nodes)), NewNode(nodes))
  {
  }

  // ---- A record less ----

  function WithoutNode(nodes: Nodes, n: nat): (r: Nodes)
    requires Sized(nodes) && n < |nodes.parent|
    requires nodes.parent[n].Some? ==>
               nodes.parent[n].value < |nodes.parent| && nodes.refcount[nodes.parent[n].value] > 0
    ensures Sized(r)
  {
    var up := nodes.parent[n];
    Nodes(nodes.parent, if up.Some? then nodes.refcount[up.value := nodes.refcount[up.value] - 1] else nodes.refcount,
          nodes.decommissioned[n := true], [n] + nodes.bin)
  }

  function WithoutRow(t: Rows, r: nat): Rows
    requires r < |t.parent| == |t.dead| == |t.refcount|
    requires t.parent[r].Some? ==> t.parent[r].value < |t.parent| && t.refcount[t.parent[r].value] > 0
  {
    var up := t.parent[r];
    Rows(t.parent, if up.Some? then t.refcount[up.value := t.refcount[up.value] - 1] else t.refcount, t.dead[r := true])
  }

  lemma RecordTakenOut(nodes: Nodes, t: Rows, l: Lodging, r: nat)
    requires NodesOk(nodes, t, l) && IsLive(t, r)
    requires t.parent[r].Some? ==> t.refcount[t.parent[r].value] > 0
    requires RowsOk(WithoutRow(t, r))
    ensures l.place[r] < |nodes.parent| && nodes.parent[l.place[r]] == PlaceOf(l.place, t.parent[r])
    ensures t.parent[r].Some? ==> IsLive(t, t.parent[r].value) && l.place[t.parent[r].value] < |nodes.parent|
                                  && nodes.refcount[l.place[t.parent[r].value]] > 0
    ensures NodesOk(WithoutNode(nodes, l.place[r]), WithoutRow(t, r), l.(holder := l.holder[l.place[r] := None]))
  {
    var n := l.place[r];
    LiveHasNode(nodes, t, l, r);
    if t.parent[r].Some? {
      LiveParent(t, r);
      LiveHasNode(nodes, t, l, t.parent[r].value);
    }
    var nodes', t', l' := WithoutNode(nodes, n), WithoutRow(t, r), l.(holder := l.holder[n := None]);
    forall m | 0 <= m < |nodes'.parent| ensures NodeOk(nodes', t', l', m) {
      assert NodeOk(nodes, t, l, m);
    }
    forall q | 0 <= q < |t'.parent| ensures RecordOk(t', l', q) {
      assert RecordOk(t, l, q);
    }
    AddDistinct(nodes.bin, n);
  }

  // ---- The store and its sweep ----

  class Records {
    var parent: seq<Option<nat>>
    var refcount: seq<nat>
    var decommissioned: seq<bool>
    var recycleBin: seq<nat>
    // The records in the order they were stored, and where they are.
    ghost var rows: Rows
    ghost var lodging: Lodging

    ghost function Abs(): Nodes
      reads this
    {
      Nodes(parent, refcount, decommissioned, recycleBin)
    }

    ghost predicate Valid()
      reads this
    {
      NodesOk(Abs(), rows, lodging)
    }

    constructor ()
      ensures Valid() && rows == Rows([], [], []) && parent == [] && recycleBin == []
    {
      parent, refcount, decommissioned, recycleBin := [], [], [], [];
      rows, lodging := Rows([], [], []), Lodging([], []);
    }

    // Stores a record under record r, which is on the node up.
    method Insert(up: Option<nat>, ghost r: Option<nat>) returns (n: nat)
      requires Valid() && (up.Some? <==> r.Some?)
      requires up.Some? ==> LivesAt(rows, lodging, r.value, up.value) && rows.refcount[r.value] < 255
      modifies this
      ensures Valid() && rows == AddRow(old(rows), r)
      ensures lodging.place == old(lodging.place) + [n] && n < |parent|
      ensures if old(recycleBin) != [] then n == old(recycleBin)[0] && recycleBin == old(recycleBin)[1..]
              else n == old(|parent|) && recycleBin == []
      ensures parent[n] == up && refcount[n] == 0 && !decommissioned[n]
    {
      if up.Some? { LiveHasNode(Abs(), rows, lodging, r.value); }
      RecordAdded(Abs(), rows, lodging, r);
      rows, lodging := AddRow(rows, r), Settled(lodging, NewNode(Abs()));
      n := TakeNode(up);
    }

    // Takes the first vacant node or a new one, and counts it with its parent.
    method TakeNode(up: Option<nat>) returns (n: nat)
      requires Sized(Abs()) && (recycleBin != [] ==> recycleBin[0] < |parent|)
      requires up.Some? ==> up.value < |parent|
      modifies this`parent, this`refcount, this`decommissioned, this`recycleBin
      ensures n == NewNode(old(Abs())) && Abs() == CountUp(WithNode(old(Abs()), up), up)
    {
      if recycleBin != [] {
        n := recycleBin[0];
        recycleBin := recycleBin[1..];
        parent, refcount, decommissioned := parent[n := up], refcount[n := 0], decommissioned[n := false];
      } else {
        n := |parent|;
        parent, refcount, decommissioned := parent + [up], refcount + [0], decommissioned + [false];
      }
      if up.Some? { refcount := refcount[up.value := (refcount[up.value] + 1) % 256]; }
    }

    // Sweeps over the records that the nodes hold.
    method MarkAndSweepOldStates(items: seq<nat>, ghost records: seq<nat>)
      requires Valid() && |records| == |items|
      requires forall k :: 0 <= k < |items| ==> LivesAt(rows, lodging, records[k], items[k])
      modifies this
      ensures Valid() && rows == SweepRows(old(rows), records) && lodging.place == old(lodging.place)
      ensures IsSwept(rows.parent, old(rows.dead), records, rows.dead)
      ensures |parent| == old(|parent|) && parent == old(parent)
    {
      ghost var rows0, l0 := rows, lodging;
      for k := 0 to |items|
        invariant Valid() && rows.parent == rows0.parent && Vacated(lodging, l0) && parent == old(parent)
        invariant SoFar(rows.parent, rows0.dead, rows.dead, rows.refcount, records[..k], None)
      {
        ghost var r := records[k];
        assert records[..k + 1] == records[..k] + [r] && LivesAt(rows0, l0, r, items[k]);
        assert old(Valid());
        StillThere(old(Abs()), rows0, l0, Abs(), rows, lodging, r, items[k]);
        if !decommissioned[items[k]] {
          SweepFrom(items[k], r, rows0.dead, records[..k]);
        } else {
          OneMoreItem(rows.parent, rows0.dead, rows.dead, rows.refcount, records[..k], r);
        }
      }
      assert records[..|items|] == records;
      SweptAtEnd(rows.parent, rows0.dead, rows.dead, rows.refcount, records);
      SweepIsExact(rows0, records, rows.dead, rows.refcount);
    }

    // Takes the record out if nothing is derived from it, then its parent if that was the last child, and so on.
    method SweepFrom(item: nat, ghost r: nat, ghost dead0: seq<bool>, ghost done: seq<nat>)
      requires Valid() && LivesAt(rows, lodging, r, item)
      requires SoFar(rows.parent, dead0, rows.dead, rows.refcount, done, None)
      modifies this
      ensures Valid() && SoFar(rows.parent, dead0, rows.dead, rows.refcount, done + [r], None)
      ensures rows.parent == old(rows.parent) && Vacated(lodging, old(lodging)) && parent == old(parent)
    {
      ghost var start := done + [r];
      Started(rows.parent, dead0, rows.dead, rows.refcount, done, r);
      var ancestor: nat := item;
      ghost var now := r;
      LiveHasNode(Abs(), rows, lodging, r);
      while refcount[ancestor] == 0
        invariant Valid() && LivesAt(rows, lodging, now, ancestor) && ancestor < |refcount|
        invariant SoFar(rows.parent, dead0, rows.dead, rows.refcount, start, Some(now))
        invariant rows.parent == old(rows.parent) && Vacated(lodging, old(lodging)) && parent == old(parent)
        decreases now
      {
        var up := TakeOut(ancestor, now, dead0, start);
        if up == None { return; }
        ancestor := up.value;
        now := rows.parent[now].value;
        LiveHasNode(Abs(), rows, lodging, now);
      }
      LiveHasNode(Abs(), rows, lodging, now);
    }

    // Takes one record out, and a reference from its parent.
    method TakeOut(n: nat, ghost r: nat, ghost dead0: seq<bool>, ghost start: seq<nat>) returns (up: Option<nat>)
      requires Valid() && LivesAt(rows, lodging, r, n) && n < |refcount| && refcount[n] == 0
      requires SoFar(rows.parent, dead0, rows.dead, rows.refcount, start, Some(r))
      modifies this`decommissioned, this`recycleBin, this`refcount, this`rows, this`lodging
      ensures rows.parent == old(rows.parent) && Vacated(lodging, old(lodging))
      ensures Valid() && SoFar(rows.parent, dead0, rows.dead, rows.refcount, start, rows.parent[r])
      ensures up.Some? <==> rows.parent[r].Some?
      ensures up.Some? ==> LivesAt(rows, lodging, rows.parent[r].value, up.value) && rows.parent[r].value < r
      ensures recycleBin == [n] + old(recycleBin) && decommissioned == old(decommissioned)[n := true]
    {
      LiveHasNode(Abs(), rows, lodging, r);
      Falls(rows.parent, dead0, rows.dead, rows.refcount, start, r);
      RecordTakenOut(Abs(), rows, lodging, r);
      ghost var p := rows.parent[r];
      rows, lodging := WithoutRow(rows, r), lodging.(holder := lodging.holder[n := None]);
      up := Decommission(n);
    }

    // Puts the node into the bin and counts it off its parent.
    method Decommission(n: nat) returns (up: Option<nat>)
      requires Sized(Abs()) && n < |parent|
      requires parent[n].Some? ==> parent[n].value < |parent| && refcount[parent[n].value] > 0
      modifies this`decommissioned, this`recycleBin, this`refcount
      ensures Abs() == WithoutNode(old(Abs()), n) && up == parent[n]
    {
      decommissioned := decommissioned[n := true];
      recycleBin := [n] + recycleBin;
      up := parent[n];
      if up.Some? { refcount := refcount[up.value := refcount[up.value] - 1]; }
    }
  }

  // Some records have left their nodes.
  ghost predicate Vacated(l: Lodging, l0: Lodging) {
    && l.place == l0.place && |l.holder| == |l0.holder|
    && forall n :: 0 <= n < |l.holder| ==> l.holder[n] == None || l.holder[n] == l0.holder[n]
  }

  // A node that is not vacant still holds the record it held.
  lemma StillThere(nodes0: Nodes, t0: Rows, l0: Lodging, nodes: Nodes, t: Rows, l: Lodging, r: nat, n: nat)
    requires NodesOk(nodes0, t0, l0) && NodesOk(nodes, t, l) && Vacated(l, l0) && t.parent == t0.parent
    requires LivesAt(t0, l0, r, n)
    ensures n < |nodes.parent| && r < |t.parent|
    ensures if nodes.decommissioned[n] then t.dead[r] else LivesAt(t, l, r, n)
  {
    LiveHasNode(nodes0, t0, l0, r);
    assert NodeOk(nodes, t, l, n) && RecordOk(t, l, r);
  }

  ghost predicate LivesAt(t: Rows, l: Lodging, r: nat, n: nat) {
    |t.parent| == |t.dead| == |l.place| && IsLive(t, r) && l.place[r] == n
  }
}
