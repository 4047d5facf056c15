/** The chained hash table: insertion with growth, and filtered deletion into a list of vacant items. */
module HashTable {
  import opened Numbers
  import opened Shuffles

  // ---- Singly linked chains of nodes; 0 stands for no node ----

  // From head the links run through the nodes, in order, to end.
  ghost predicate IsSegment(next: seq<nat>, head: nat, nodes: seq<nat>, end: nat)
    decreases |nodes|
  {
    if nodes == [] then head == end
    else head == nodes[0] && 0 < head < |next| && IsSegment(next, next[head], nodes[1..], end)
  }

  function HeadOf(nodes: seq<nat>, end: nat): nat {
    if nodes == [] then end else nodes[0]
  }

  lemma {:induction false} SegmentNodes(next: seq<nat>, head: nat, nodes: seq<nat>, end: nat)
    requires IsSegment(next, head, nodes, end)
    ensures head == HeadOf(nodes, end) && forall n :: n in nodes ==> 0 < n < |next|
    decreases |nodes|
  {
    if nodes == [] {
    } else {
      SegmentNodes(next, next[head], nodes[1..], end);
      assert nodes == [nodes[0]] + nodes[1..];
    }
  }

  // Links of other nodes do not matter.
  lemma {:induction false} SegmentFrame(next: seq<nat>, next': seq<nat>, head: nat, nodes: seq<nat>, end: nat)
    requires IsSegment(next, head, nodes, end)
    requires forall n :: n in nodes && n < |next| ==> n < |next'| && next'[n] == next[n]
    ensures IsSegment(next', head, nodes, end)
    decreases |nodes|
  {
    if nodes == [] {
    } else {
      assert nodes[0] in nodes && forall n :: n in nodes[1..] ==> n in nodes;
      SegmentFrame(next, next', next[head], nodes[1..], end);
    }
  }

  lemma {:induction false} SegmentSplit(next: seq<nat>, head: nat, a: seq<nat>, b: seq<nat>, end: nat)
    requires IsSegment(next, head, a + b, end)
    ensures IsSegment(next, head, a, HeadOf(b, end)) && IsSegment(next, HeadOf(b, end), b, end)
    decreases |a|
  {
    if a == [] {
      assert a + b == b;
      SegmentNodes(next, head, b, end);
    } else {
      assert (a + b)[1..] == a[1..] + b;
      SegmentSplit(next, next[head], a[1..], b, end);
    }
  }

  lemma {:induction false} SegmentJoin(next: seq<nat>, head: nat, a: seq<nat>, mid: nat, b: seq<nat>, end: nat)
    requires IsSegment(next, head, a, mid) && IsSegment(next, mid, b, end)
    ensures IsSegment(next, head, a + b, end)
    decreases |a|
  {
    if a == [] {
      assert a + b == b;
    } else {
      assert (a + b)[1..] == a[1..] + b;
      SegmentJoin(next, next[head], a[1..], mid, b, end);
    }
  }

  // The last link of a segment can be turned elsewhere.
  lemma {:induction false} SegmentRedirect(next: seq<nat>, head: nat, a: seq<nat>, end: nat, end': nat)
    requires a != [] && Distinct(a) && IsSegment(next, head, a, end)
    ensures a[|a| - 1] < |next| && IsSegment(next[a[|a| - 1] := end'], head, a, end')
    decreases |a|
  {
    SegmentNodes(next, head, a, end);
    assert a[|a| - 1] in a;
    var next' := next[a[|a| - 1] := end'];
    if |a| == 1 {
      assert a[1..] == [];
    } else {
      assert a[1..][|a| - 2] == a[|a| - 1] && a[0] != a[|a| - 1];
      TailDistinct(a);
      SegmentRedirect(next, next[head], a[1..], end, end');
    }
  }

  // A node in the middle is left out by turning the link before it.
  lemma SegmentSkip(next: seq<nat>, head: nat, kept: seq<nat>, node: nat, rest: seq<nat>)
    requires kept != [] && Distinct(kept + rest) && IsSegment(next, head, kept, node)
             && IsSegment(next, HeadOf(rest, 0), rest, 0)
    ensures kept[|kept| - 1] < |next|
    ensures IsSegment(next[kept[|kept| - 1] := HeadOf(rest, 0)], head, kept + rest, 0)
  {
    var last, all := kept[|kept| - 1], kept + rest;
    forall i | 0 <= i < |rest| ensures rest[i] != last {
      assert all[|kept| - 1] != all[|kept| + i];
    }
    forall i, j | 0 <= i < j < |kept| ensures kept[i] != kept[j] { assert all[i] != all[j]; }
    SegmentRedirect(next, head, kept, node, HeadOf(rest, 0));
    SegmentFrame(next, next[last := HeadOf(rest, 0)], HeadOf(rest, 0), rest, 0);
    SegmentJoin(next[last := HeadOf(rest, 0)], head, kept, HeadOf(rest, 0), rest, 0);
  }

  // ---- The table ----

  datatype Item = Item(key: int, hash: nat)

  datatype Table = Table(entries: seq<nat>, keyOf: seq<int>, hashOf: seq<nat>, next: seq<nat>, vacant: nat)

  function ItemOf(t: Table, n: nat): Item
    requires n < |t.keyOf| && n < |t.hashOf|
  {
    Item(t.keyOf[n], t.hashOf[n])
  }

  // A bucket's chain holds nodes whose stored hash leads to it.
  ghost predicate BucketOk(t: Table, chains: seq<seq<nat>>, b: nat)
    requires b < |t.entries| == |chains| && |t.hashOf| == |t.next|
  {
    && IsSegment(t.next, t.entries[b], chains[b], 0) && Distinct(chains[b])
    && forall n :: n in chains[b] ==> n < |t.next| && t.hashOf[n] % |t.entries| == b
  }

  ghost predicate Sized(t: Table) {
    |t.keyOf| == |t.hashOf| == |t.next| > 0 && |t.entries| > 0
  }

  // The node is in its bucket's chain.
  ghost predicate InChain(t: Table, chains: seq<seq<nat>>, n: nat)
    requires Sized(t) && |chains| == |t.entries| && n < |t.next|
  {
    n in chains[t.hashOf[n] % |t.entries|]
  }

  // Every node is in its bucket or vacant, except those set aside; none is in two places.
  ghost predicate Holds(t: Table, chains: seq<seq<nat>>, free: seq<nat>, aside: set<nat>) {
    && Sized(t) && |chains| == |t.entries|
    && (forall b {:trigger BucketOk(t, chains, b)} :: 0 <= b < |chains| ==> BucketOk(t, chains, b))
    && IsSegment(t.next, t.vacant, free, 0) && Distinct(free)
    && (forall n {:trigger InChain(t, chains, n)} :: 0 < n < |t.next| ==>
         (InChain(t, chains, n) <==> n !in free && n !in aside))
    && (forall n :: n in free ==> n !in aside)
  }

  ghost predicate Live(t: Table, free: seq<nat>, n: nat) {
    0 < n < |t.next| && n !in free
  }

  ghost predicate ItemsDiffer(t: Table, free: seq<nat>)
    requires Sized(t)
  {
    forall m, n :: Live(t, free, m) && Live(t, free, n) && ItemOf(t, m) == ItemOf(t, n) ==> m == n
  }

  // What the table holds.
  ghost function Contents(t: Table, free: seq<nat>): set<Item>
    requires Sized(t)
  {
    set n | 0 <= n < |t.next| && Live(t, free, n) :: ItemOf(t, n)
  }

  lemma ChainNodes(t: Table, chains: seq<seq<nat>>, free: seq<nat>, aside: set<nat>, b: nat, n: nat)
    requires Holds(t, chains, free, aside) && b < |chains| && n in chains[b]
    ensures 0 < n < |t.next| && t.hashOf[n] % |t.entries| == b && n !in free && n !in aside
  {
    assert BucketOk(t, chains, b);
    SegmentNodes(t.next, t.entries[b], chains[b], 0);
    assert InChain(t, chains, n);
  }

  lemma OtherChain(t: Table, chains: seq<seq<nat>>, free: seq<nat>, aside: set<nat>, t': Table, b: nat)
    requires Holds(t, chains, free, aside) && b < |chains| && Sized(t') && |t'.entries| == |t.entries|
    requires |t.next| <= |t'.next| && t'.entries[b] == t.entries[b]
    requires forall n :: n in chains[b] && n < |t.next| ==> t'.next[n] == t.next[n] && t'.hashOf[n] == t.hashOf[n]
    ensures BucketOk(t', chains, b)
  {
    assert BucketOk(t, chains, b);
    SegmentFrame(t.next, t'.next, t.entries[b], chains[b], 0);
  }

  // ---- Finding a node for a new item ----

  function Taken(t: Table): Table
    requires t.vacant < |t.next|
  {
    t.(vacant := t.next[t.vacant])
  }

  lemma TakenHolds(t: Table, chains: seq<seq<nat>>, free: seq<nat>)
    requires Holds(t, chains, free, {}) && free != []
    ensures t.vacant == free[0] && 0 < t.vacant < |t.next|
    ensures Holds(Taken(t), chains, free[1..], {free[0]})
  {
    SegmentNodes(t.next, t.vacant, free, 0);
    TailDistinct(free);
    var t' := Taken(t);
    forall b | 0 <= b < |chains| ensures BucketOk(t', chains, b) { OtherChain(t, chains, free, {}, t', b); }
    assert free == [free[0]] + free[1..];
    forall n | 0 < n < |t'.next|
      ensures InChain(t', chains, n) <==> n !in free[1..] && n !in {free[0]}
    {
      assert InChain(t, chains, n) <==> n !in free;
    }
  }

  function Grown(t: Table): Table {
    t.(keyOf := t.keyOf + [0], hashOf := t.hashOf + [0], next := t.next + [0])
  }

  lemma GrownHolds(t: Table, chains: seq<seq<nat>>, free: seq<nat>)
    requires Holds(t, chains, free, {})
    ensures Holds(Grown(t), chains, free, {|t.next|})
  {
    var t' := Grown(t);
    forall b | 0 <= b < |chains| ensures BucketOk(t', chains, b) { OtherChain(t, chains, free, {}, t', b); }
    SegmentFrame(t.next, t'.next, t.vacant, free, 0);
    SegmentNodes(t.next, t.vacant, free, 0);
    forall n | 0 < n < |t'.next|
      ensures InChain(t', chains, n) <==> n !in free && n !in {|t.next|}
    {
      if n < |t.next| {
        assert InChain(t, chains, n) <==> n !in free;
      } else {
        if InChain(t', chains, n) { ChainNodes(t, chains, free, {}, 0 % |t.entries|, n); }
      }
    }
  }

  // ---- Linking a node ----

  function Filled(t: Table, node: nat, item: Item, link: nat): Table
    requires node < |t.keyOf| && node < |t.hashOf| && node < |t.next|
  {
    t.(keyOf := t.keyOf[node := item.key], hashOf := t.hashOf[node := item.hash], next := t.next[node := link])
  }

  // A node set aside is filled; the chains do not see it.
  lemma FilledHolds(t: Table, chains: seq<seq<nat>>, free: seq<nat>, aside: set<nat>, node: nat, item: Item, link: nat)
    requires Holds(t, chains, free, aside) && node in aside && 0 < node < |t.next|
    ensures Holds(Filled(t, node, item, link), chains, free, aside)
  {
    var t' := Filled(t, node, item, link);
    forall b | 0 <= b < |chains| ensures BucketOk(t', chains, b) {
      forall n | n in chains[b] ensures n != node { ChainNodes(t, chains, free, aside, b, n); }
      OtherChain(t, chains, free, aside, t', b);
    }
    SegmentFrame(t.next, t'.next, t.vacant, free, 0);
    forall n | 0 < n < |t'.next| ensures InChain(t', chains, n) <==> n !in free && n !in aside {
      if n != node {
        assert InChain(t, chains, n) <==> n !in free && n !in aside;
      } else if InChain(t', chains, n) {
        ChainNodes(t, chains, free, aside, t'.hashOf[n] % |t.entries|, n);
        assert false;
      }
    }
  }

  // A chain is replaced by one that also holds the node, which was set aside.
  lemma LinkedHolds(t: Table, chains: seq<seq<nat>>, free: seq<nat>, aside: set<nat>, t': Table, b: nat,
                    chain: seq<nat>, node: nat)
    requires Holds(t, chains, free, aside) && node in aside && 0 < node < |t.next| && b < |chains|
    requires t' == t.(entries := t'.entries, next := t'.next) && |t'.entries| == |t.entries| && |t'.next| == |t.next|
    requires b == t.hashOf[node] % |t.entries| && Distinct(chain)
    requires forall n :: n in chain <==> n in chains[b] || n == node
    requires IsSegment(t'.next, t'.entries[b], chain, 0)
    requires forall c :: 0 <= c < |chains| && c != b ==> t'.entries[c] == t.entries[c]
    requires forall n :: 0 <= n < |t.next| && n !in chain ==> t'.next[n] == t.next[n]
    ensures Holds(t', chains[b := chain], free, aside - {node})
  {
    var chains' := chains[b := chain];
    forall n | n in chains[b] ensures n < |t.next| && t.hashOf[n] % |t.entries| == b && n !in free {
      ChainNodes(t, chains, free, aside, b, n);
    }
    forall c | 0 <= c < |chains'| ensures BucketOk(t', chains', c) {
      if c != b {
        forall n | n in chains[c] ensures n !in chain { ChainNodes(t, chains, free, aside, c, n); }
        assert BucketOk(t, chains, c);
        SegmentFrame(t.next, t'.next, t.entries[c], chains[c], 0);
      } else {
        SegmentNodes(t'.next, t'.entries[b], chain, 0);
      }
    }
    SegmentFrame(t.next, t'.next, t.vacant, free, 0);
    forall n | 0 < n < |t'.next| ensures InChain(t', chains', n) <==> n !in free && n !in aside - {node} {
      assert InChain(t, chains, n) <==> n !in free && n !in aside;
    }
  }

  // After the last node of the chain, or into the empty bucket.
  function AppendedTo(t: Table, b: nat, chain: seq<nat>, node: nat): Table
    requires b < |t.entries| && (chain != [] ==> chain[|chain| - 1] < |t.next|)
  {
    if chain == [] then t.(entries := t.entries[b := node]) else t.(next := t.next[chain[|chain| - 1] := node])
  }

  lemma AppendHolds(t: Table, chains: seq<seq<nat>>, free: seq<nat>, b: nat, node: nat)
    requires Holds(t, chains, free, {node}) && 0 < node < |t.next| && t.next[node] == 0
    requires b == t.hashOf[node] % |t.entries|
    ensures chains[b] != [] ==> chains[b][|chains[b]| - 1] < |t.next|
    ensures Holds(AppendedTo(t, b, chains[b], node), chains[b := chains[b] + [node]], free, {})
  {
    var chain := chains[b];
    assert BucketOk(t, chains, b);
    SegmentNodes(t.next, t.entries[b], chain, 0);
    forall n | n in chain ensures n != node { ChainNodes(t, chains, free, {node}, b, n); }
    if chain != [] { assert chain[|chain| - 1] in chain; }
    var t' := AppendedTo(t, b, chain, node);
    if chain != [] { SegmentRedirect(t.next, t.entries[b], chain, 0, node); }
    assert IsSegment(t'.next, node, [node], 0);
    SegmentJoin(t'.next, t'.entries[b], chain, node, [node], 0);
    AddDistinct(chain, node);
    assert {node} - {node} == {};
    LinkedHolds(t, chains, free, {node}, t', b, chain + [node], node);
  }

  function PushedTo(t: Table, b: nat, node: nat): Table
    requires b < |t.entries| && node < |t.next|
  {
    t.(next := t.next[node := t.entries[b]], entries := t.entries[b := node])
  }

  lemma PushHolds(t: Table, chains: seq<seq<nat>>, free: seq<nat>, aside: set<nat>, b: nat, node: nat)
    requires Holds(t, chains, free, aside) && node in aside && 0 < node < |t.next|
    requires b == t.hashOf[node] % |t.entries|
    ensures Holds(PushedTo(t, b, node), chains[b := [node] + chains[b]], free, aside - {node})
  {
    assert BucketOk(t, chains, b);
    forall n | n in chains[b] ensures n != node { ChainNodes(t, chains, free, aside, b, n); }
    var t', chain := PushedTo(t, b, node), [node] + chains[b];
    SegmentFrame(t.next, t'.next, t.entries[b], chains[b], 0);
    assert chain[1..] == chains[b];
    AddDistinct(chains[b], node);
    LinkedHolds(t, chains, free, aside, t', b, chain, node);
  }

  // ---- Taking a node out ----

  function Unlinked(t: Table, b: nat, kept: seq<nat>, node: nat): Table
    requires b < |t.entries| && node < |t.next| && (kept != [] ==> kept[|kept| - 1] < |t.next|)
  {
    if kept == [] then t.(entries := t.entries[b := t.next[node]])
    else t.(next := t.next[kept[|kept| - 1] := t.next[node]])
  }

  function Released(t: Table, node: nat): Table
    requires node < |t.next|
  {
    t.(next := t.next[node := t.vacant], vacant := node)
  }

  lemma ChainParts(kept: seq<nat>, node: nat, rest: seq<nat>)
    requires Distinct(kept + ([node] + rest))
    ensures Distinct(kept) && Distinct(kept + rest) && node !in kept && node !in rest
  {
    var all := kept + ([node] + rest);
    assert all[|kept|] == node;
    forall i | 0 <= i < |kept| ensures kept[i] == all[i] {}
    forall i | 0 <= i < |rest| ensures rest[i] == all[|kept| + 1 + i] {}
  }

  lemma UnlinkedSegment(t: Table, b: nat, kept: seq<nat>, node: nat, rest: seq<nat>)
    requires b < |t.entries| && Distinct(kept + ([node] + rest))
    requires IsSegment(t.next, t.entries[b], kept + ([node] + rest), 0)
    ensures node < |t.next| && t.next[node] == HeadOf(rest, 0) && (kept != [] ==> kept[|kept| - 1] < |t.next|)
    ensures var t' := Unlinked(t, b, kept, node); IsSegment(t'.next, t'.entries[b], kept + rest, 0)
  {
    ChainParts(kept, node, rest);
    SegmentSplit(t.next, t.entries[b], kept, [node] + rest, 0);
    assert ([node] + rest)[1..] == rest;
    SegmentNodes(t.next, t.next[node], rest, 0);
    if kept == [] {
      assert kept + rest == rest;
    } else {
      SegmentSkip(t.next, t.entries[b], kept, node, rest);
    }
  }

  lemma UnlinkedHolds(t: Table, chains: seq<seq<nat>>, free: seq<nat>, b: nat, kept: seq<nat>, node: nat,
                      rest: seq<nat>)
    requires Holds(t, chains, free, {}) && b < |chains| && chains[b] == kept + ([node] + rest)
    ensures 0 < node < |t.next| && t.next[node] == HeadOf(rest, 0) && (kept != [] ==> kept[|kept| - 1] < |t.next|)
    ensures Holds(Unlinked(t, b, kept, node), chains[b := kept + rest], free, {node})
  {
    assert BucketOk(t, chains, b);
    UnlinkedSegment(t, b, kept, node, rest);
    ChainParts(kept, node, rest);
    var t', chains' := Unlinked(t, b, kept, node), chains[b := kept + rest];
    assert node in chains[b] && forall n :: n in kept + rest ==> n in chains[b];
    forall n | n in chains[b] ensures 0 < n < |t.next| && t.hashOf[n] % |t.entries| == b && n !in free {
      ChainNodes(t, chains, free, {}, b, n);
    }
    forall c | 0 <= c < |chains'| ensures BucketOk(t', chains', c) {
      if c != b {
        forall n | n in chains[c] ensures n !in chains[b] { ChainNodes(t, chains, free, {}, c, n); }
        UnlinkedElsewhere(t, b, kept, node, chains[c]);
        OtherChain(t, chains, free, {}, t', c);
      }
    }
    UnlinkedElsewhere(t, b, kept, node, free);
    SegmentFrame(t.next, t'.next, t.vacant, free, 0);
    forall n | 0 < n < |t'.next| ensures InChain(t', chains', n) <==> n !in free && n !in {node} {
      assert InChain(t, chains, n) <==> n !in free;
    }
  }

  lemma UnlinkedElsewhere(t: Table, b: nat, kept: seq<nat>, node: nat, nodes: seq<nat>)
    requires b < |t.entries| && node < |t.next| && (kept != [] ==> kept[|kept| - 1] < |t.next|)
    requires forall n :: n in nodes ==> n !in kept
    ensures |Unlinked(t, b, kept, node).next| == |t.next|
    ensures forall n :: n in nodes && n < |t.next| ==> Unlinked(t, b, kept, node).next[n] == t.next[n]
  {
    if kept != [] { assert kept[|kept| - 1] in kept; }
  }

  lemma ReleasedHolds(t: Table, chains: seq<seq<nat>>, free: seq<nat>, node: nat)
    requires Holds(t, chains, free, {node}) && 0 < node < |t.next|
    ensures Holds(Released(t, node), chains, [node] + free, {})
  {
    var t', free' := Released(t, node), [node] + free;
    forall b | 0 <= b < |chains| ensures BucketOk(t', chains, b) {
      forall n | n in chains[b] ensures n != node { ChainNodes(t, chains, free, {node}, b, n); }
      OtherChain(t, chains, free, {node}, t', b);
    }
    SegmentFrame(t.next, t'.next, t.vacant, free, 0);
    assert free'[1..] == free;
    forall n | 0 < n < |t'.next| ensures InChain(t', chains, n) <==> n !in free' && n !in {} {
      assert InChain(t, chains, n) <==> n !in free && n !in {node};
    }
  }

  // ---- What the table holds ----

  lemma ContentsAdd(t: Table, free: seq<nat>, t': Table, free': seq<nat>, node: nat, item: Item)
    requires Sized(t) && Sized(t') && !Live(t, free, node) && item !in Contents(t, free) && ItemsDiffer(t, free)
    requires forall n: nat :: Live(t', free', n) <==> Live(t, free, n) || n == node
    requires forall n: nat :: Live(t, free, n) ==> n < |t'.next| && ItemOf(t', n) == ItemOf(t, n)
    requires node < |t'.next| && ItemOf(t', node) == item
    ensures Contents(t', free') == Contents(t, free) + {item} && ItemsDiffer(t', free')
  {
    forall n: nat | Live(t, free, n)
      ensures ItemOf(t', n) in Contents(t, free) && ItemOf(t', n) in Contents(t', free')
    {
      assert Live(t', free', n);
    }
    assert Live(t', free', node);
    forall x | x in Contents(t', free') ensures x in Contents(t, free) + {item} {
      var n :| 0 <= n < |t'.next| && Live(t', free', n) && ItemOf(t', n) == x;
    }
  }

  lemma ContentsRemove(t: Table, free: seq<nat>, t': Table, free': seq<nat>, node: nat)
    requires Sized(t) && Sized(t') && Live(t, free, node) && ItemsDiffer(t, free)
    requires t'.keyOf == t.keyOf && t'.hashOf == t.hashOf
    requires forall n: nat :: Live(t', free', n) <==> Live(t, free, n) && n != node
    ensures Contents(t', free') == Contents(t, free) - {ItemOf(t, node)} && ItemsDiffer(t', free')
  {
    forall x | x in Contents(t', free') ensures x in Contents(t, free) - {ItemOf(t, node)} {
      var n :| 0 <= n < |t'.next| && Live(t', free', n) && ItemOf(t', n) == x;
      assert Live(t, free, n);
    }
    forall x | x in Contents(t, free) - {ItemOf(t, node)} ensures x in Contents(t', free') {
      var n :| 0 <= n < |t.next| && Live(t, free, n) && ItemOf(t, n) == x;
      assert Live(t', free', n);
    }
  }

  lemma SameContents(t: Table, t': Table, free: seq<nat>)
    requires Sized(t) && Sized(t') && t'.keyOf == t.keyOf && t'.hashOf == t.hashOf
    ensures Contents(t', free) == Contents(t, free) && (ItemsDiffer(t, free) ==> ItemsDiffer(t', free))
  {
    assert forall n: nat :: Live(t', free, n) <==> Live(t, free, n);
  }

  // An item of the table is in the chain of its bucket.
  lemma ContentsInChain(t: Table, chains: seq<seq<nat>>, free: seq<nat>, item: Item)
    requires Holds(t, chains, free, {})
    ensures item in Contents(t, free) <==>
            exists n :: n in chains[item.hash % |t.entries|] && n < |t.next| && ItemOf(t, n) == item
  {
    if item in Contents(t, free) {
      var n :| 0 <= n < |t.next| && Live(t, free, n) && ItemOf(t, n) == item;
      assert InChain(t, chains, n);
    }
    if exists n :: n in chains[item.hash % |t.entries|] && n < |t.next| && ItemOf(t, n) == item {
      var n :| n in chains[item.hash % |t.entries|] && n < |t.next| && ItemOf(t, n) == item;
      ChainNodes(t, chains, free, {}, item.hash % |t.entries|, n);
      assert Live(t, free, n);
    }
  }

  // ---- Growing ----

  // The chains not moved yet: what is left of bucket i, and all later ones.
  ghost predicate Remaining(entries: seq<nat>, t: Table, chains: seq<seq<nat>>, aside: set<nat>, i: nat, item: nat,
                            rest: seq<nat>) {
    && Sized(t) && i < |chains| == |entries|
    && IsSegment(t.next, item, rest, 0) && Distinct(rest)
    && (forall n :: n in rest ==> n in aside && n < |t.next| && t.hashOf[n] % |chains| == i)
    && (forall b {:trigger IsLater(entries, t, chains, aside, b)} :: i < b < |chains| ==>
         IsLater(entries, t, chains, aside, b))
    && (forall n :: n in aside ==>
         0 < n < |t.next| && (n in rest || (t.hashOf[n] % |chains| > i && n in chains[t.hashOf[n] % |chains|])))
  }

  ghost predicate IsLater(entries: seq<nat>, t: Table, chains: seq<seq<nat>>, aside: set<nat>, b: nat)
    requires b < |entries| == |chains| && Sized(t)
  {
    && IsSegment(t.next, entries[b], chains[b], 0) && Distinct(chains[b])
    && forall n :: n in chains[b] ==> n in aside && n < |t.next| && t.hashOf[n] % |chains| == b
  }

  lemma RemainingStep(entries: seq<nat>, t: Table, chains: seq<seq<nat>>, aside: set<nat>, i: nat, item: nat,
                      rest: seq<nat>, p: nat)
    requires Remaining(entries, t, chains, aside, i, item, rest) && rest != [] && p < |t.entries|
    ensures item == rest[0] && item in aside && 0 < item < |t.next|
    ensures Remaining(entries, PushedTo(t, p, item), chains, aside - {item}, i, t.next[item], rest[1..])
  {
    var t', rest' := PushedTo(t, p, item), rest[1..];
    TailDistinct(rest);
    assert rest == [rest[0]] + rest';
    SegmentFrame(t.next, t'.next, t.next[item], rest', 0);
    forall b | i < b < |chains| ensures IsLater(entries, t', chains, aside - {item}, b) {
      assert IsLater(entries, t, chains, aside, b);
      SegmentFrame(t.next, t'.next, entries[b], chains[b], 0);
    }
  }

  lemma RemainingNext(entries: seq<nat>, t: Table, chains: seq<seq<nat>>, aside: set<nat>, i: nat, item: nat)
    requires Remaining(entries, t, chains, aside, i, item, [])
    ensures item == 0
    ensures i + 1 < |chains| ==> Remaining(entries, t, chains, aside, i + 1, entries[i + 1], chains[i + 1])
    ensures i + 1 == |chains| ==> aside == {}
  {
    if i + 1 < |chains| {
      assert IsLater(entries, t, chains, aside, i + 1);
    }
  }

  // The nodes that are not vacant.
  ghost function InUse(t: Table, free: seq<nat>): set<nat> {
    set n | 0 <= n < |t.next| && Live(t, free, n)
  }

  function Emptied(t: Table, newSize: nat): Table {
    t.(entries := seq(newSize, _ => 0))
  }

  lemma RehashStarts(t: Table, chains: seq<seq<nat>>, free: seq<nat>, newSize: nat)
    requires Holds(t, chains, free, {}) && newSize > 0
    ensures Holds(Emptied(t, newSize), seq(newSize, _ => []), free, InUse(t, free))
    ensures Remaining(t.entries, Emptied(t, newSize), chains, InUse(t, free), 0, t.entries[0], chains[0])
  {
    var t' := Emptied(t, newSize);
    forall b | 0 <= b < |chains| ensures IsLater(t.entries, t', chains, InUse(t, free), b) {
      assert BucketOk(t, chains, b);
      forall n | n in chains[b] ensures n in InUse(t, free) { ChainNodes(t, chains, free, {}, b, n); }
    }
    assert IsLater(t.entries, t', chains, InUse(t, free), 0);
    forall n | n in InUse(t, free) ensures n in chains[t.hashOf[n] % |chains|] { assert InChain(t, chains, n); }
    SegmentNodes(t.next, t.vacant, free, 0);
  }

  // ---- The operations ----

  const INITIAL_HASH_SIZE := 2048

  // Sizes are machine words of 64 bits.
  const WORD := 0x1_0000_0000_0000_0000
  const SIZE_MAX := WORD - 1

  class Hash {
    var entries: seq<nat>
    var keyOf: seq<int>
    var hashOf: seq<nat>
    var next: seq<nat>
    var vacant: nat
    var size: nat
    var numElems: nat
    var maxNumElemsBeforeResize: nat
    ghost var chains: seq<seq<nat>>
    ghost var free: seq<nat>

    function T(): Table
      reads this
    {
      Table(entries, keyOf, hashOf, next, vacant)
    }

    // Every node is in its bucket or vacant, and the size is a power of two.
    ghost predicate Valid()
      reads this
    {
      && Holds(T(), chains, free, {}) && ItemsDiffer(T(), free) && numElems + |free| == |next| - 1
      && size == |entries| < WORD && exists p :: size == Pow2(p)
    }

    // On average no more than two items in a bucket, as long as the size can still be doubled.
    ghost predicate Loaded()
      reads this
    {
      2 * size < WORD ==> numElems <= 2 * size == maxNumElemsBeforeResize
    }

    ghost function Items(): (items: set<Item>)
      requires Valid()
      reads this
      ensures |items| == numElems
    {
      NumElemsIsSize(T(), chains, free);
      Contents(T(), free)
    }

    constructor ()
      ensures Valid() && Loaded() && Items() == {} && numElems == 0 && size == INITIAL_HASH_SIZE
    {
      size := INITIAL_HASH_SIZE;
      maxNumElemsBeforeResize := 2 * INITIAL_HASH_SIZE;
      numElems, vacant := 0, 0;
      entries := seq(INITIAL_HASH_SIZE, _ => 0);
      keyOf, hashOf, next := [0], [0], [0];
      chains, free := seq(INITIAL_HASH_SIZE, _ => []), [];
      new;
      assert INITIAL_HASH_SIZE == Pow2(11);
      forall b | 0 <= b < |chains| ensures BucketOk(T(), chains, b) {}
    }

    // Walks a chain; without a match, last is where to link a new item.
    method Find(item: Item) returns (existing: nat, last: nat)
      requires Valid()
      ensures existing != 0 <==> item in Items()
      ensures existing != 0 ==>
                existing in chains[item.hash % size] && existing < |next| && ItemOf(T(), existing) == item
      ensures existing == 0 ==> last == LastOf(chains[item.hash % size])
    {
      ContentsInChain(T(), chains, free, item);
      var now := entries[item.hash % size];
      last := 0;
      ghost var chain, done, rest := chains[item.hash % size], [], chains[item.hash % size];
      assert BucketOk(T(), chains, item.hash % size);
      while now != 0
        invariant Walking(T(), chain, item, done, rest, now) && last == LastOf(done)
        decreases |rest|
      {
        WalkNext(T(), chain, item, done, rest, now);
        if hashOf[now] == item.hash && keyOf[now] == item.key {
          existing := now;
          return;
        }
        done, rest := done + [now], rest[1..];
        last := now;
        now := next[now];
      }
      WalkEnds(T(), chain, item, done, rest);
      existing := 0;
    }

    // A vacant node if there is one, else a new one.
    method ClaimNode() returns (node: nat)
      requires Valid()
      modifies this`keyOf, this`hashOf, this`next, this`vacant, this`free
      ensures Holds(T(), chains, free, {node}) && 0 < node < |next| && |next| - |free| == old(|next| - |free|) + 1
      ensures old(keyOf) <= keyOf && old(hashOf) <= hashOf
      ensures !Live(old(T()), old(free), node)
      ensures forall n: nat :: Live(T(), free, n) <==> Live(old(T()), old(free), n) || n == node
    {
      SegmentNodes(next, vacant, free, 0);
      if vacant != 0 {
        TakenHolds(T(), chains, free);
        assert free == [free[0]] + free[1..];
        node := vacant;
        vacant := next[vacant];
        free := free[1..];
      } else {
        GrownHolds(T(), chains, free);
        node := |next|;
        keyOf, hashOf, next := keyOf + [0], hashOf + [0], next + [0];
      }
    }

    // Puts a new item at the end of its chain.
    method Store(item: Item, last: nat)
      requires Valid() && item !in Items() && last == LastOf(chains[item.hash % size])
      modifies this`entries, this`keyOf, this`hashOf, this`next, this`vacant, this`numElems, this`chains, this`free
      ensures Valid() && Items() == old(Items()) + {item} && numElems == old(numElems) + 1
    {
      var node := ClaimNode();
      Link(node, item, last);
      ContentsAdd(old(T()), old(free), T(), free, node, item);
      numElems := numElems + 1;
    }

    method Link(node: nat, item: Item, last: nat)
      requires Holds(T(), chains, free, {node}) && 0 < node < |next| && size == |entries|
      requires last == LastOf(chains[item.hash % size])
      modifies this`entries, this`keyOf, this`hashOf, this`next, this`chains
      ensures Holds(T(), chains, free, {}) && |next| == old(|next|) && |entries| == old(|entries|)
      ensures keyOf == old(keyOf)[node := item.key] && hashOf == old(hashOf)[node := item.hash]
    {
      FilledHolds(T(), chains, free, {node}, node, item, 0);
      keyOf, hashOf, next := keyOf[node := item.key], hashOf[node := item.hash], next[node := 0];
      var b := item.hash % size;
      AppendHolds(T(), chains, free, b, node);
      LastIsNode(T(), chains, free, {node}, b);
      if last == 0 { entries := entries[b := node]; } else { next := next[last := node]; }
      chains := chains[b := chains[b] + [node]];
    }

    // Inserts an item unless it is there; gives the one that is.
    method Insert(key: int, hash: nat) returns (existing: nat)
      requires Valid()
      modifies this
      ensures Valid() && (existing != 0 <==> Item(key, hash) in old(Items()))
      ensures existing != 0 ==>
                T() == old(T()) && Items() == old(Items()) && existing < |keyOf| && keyOf[existing] == key
      ensures existing == 0 ==> Items() == old(Items()) + {Item(key, hash)} && numElems == old(numElems) + 1
      ensures existing == 0 && old(Loaded()) ==> Loaded()
      ensures existing == 0 && old(numElems < maxNumElemsBeforeResize) ==> size == old(size)
    {
      var last;
      existing, last := Find(Item(key, hash));
      if existing == 0 {
        InsertNew(Item(key, hash), last);
      }
    }

    method InsertNew(item: Item, last: nat)
      requires Valid() && item !in Items() && last == LastOf(chains[item.hash % size])
      modifies this
      ensures Valid() && Items() == old(Items()) + {item} && numElems == old(numElems) + 1
      ensures old(Loaded()) ==> Loaded()
      ensures old(numElems < maxNumElemsBeforeResize) ==> size == old(size)
    {
      Store(item, last);
      GrowIfFull();
    }

    method GrowIfFull()
      requires Valid()
      modifies this`entries, this`next, this`size, this`maxNumElemsBeforeResize, this`chains
      ensures Valid() && Items() == old(Items()) && numElems == old(numElems)
      ensures old(2 * size < WORD ==> numElems <= 2 * size + 1 && maxNumElemsBeforeResize == 2 * size) ==> Loaded()
      ensures old(numElems <= maxNumElemsBeforeResize) ==> size == old(size)
    {
      if numElems > maxNumElemsBeforeResize { Rehash(); }
    }

    // Doubles the number of buckets, unless that overflows a word.
    method Rehash()
      requires Valid()
      modifies this`entries, this`next, this`size, this`maxNumElemsBeforeResize, this`chains
      ensures Valid() && Items() == old(Items()) && numElems == old(numElems)
      ensures if 2 * old(size) < WORD then size == 2 * old(size) && maxNumElemsBeforeResize == 2 * size % WORD
              else T() == old(T()) && maxNumElemsBeforeResize == SIZE_MAX
    {
      var newSize := 2 * size % WORD;
      if newSize < size {
        maxNumElemsBeforeResize := SIZE_MAX;
        return;
      }
      NoOverflow(size);
      ghost var p: nat :| size == Pow2(p);
      assert newSize == Pow2(p + 1);
      MoveAll(newSize);
      SameContents(old(T()), T(), free);
      size := newSize;
      maxNumElemsBeforeResize := 2 * newSize % WORD;
    }

    // Deletes the items whose keys are selected; their nodes become vacant.
    method Foreach(shouldDelete: int -> bool)
      requires Valid()
      modifies this`entries, this`next, this`vacant, this`numElems, this`chains, this`free
      ensures Valid() && |next| == old(|next|) && size == old(size) && (old(Loaded()) ==> Loaded())
      ensures Items() == set x | x in old(Items()) && !shouldDelete(x.key)
    {
      ghost var items := Items();
      for i := 0 to size
        invariant Valid() && size == old(size) && |next| == old(|next|)
        invariant Filtering(Items(), items, size, i, shouldDelete, items)
      {
        FilterBucket(i, shouldDelete, items);
      }
      forall x | x in items ensures Gone(x, size, size, shouldDelete, items) <==> shouldDelete(x.key) {}
      FewerItems(Items(), items);
    }

    method FilterBucket(i: nat, shouldDelete: int -> bool, ghost items: set<Item>)
      requires Valid() && i < size && Filtering(Items(), items, size, i, shouldDelete, items)
      modifies this`entries, this`next, this`vacant, this`numElems, this`chains, this`free
      ensures Valid() && size == old(size) && |next| == old(|next|)
      ensures Filtering(Items(), items, size, i + 1, shouldDelete, items)
    {
      var prev: nat, now := 0, entries[i];
      ghost var kept: seq<nat>, rest := [], chains[i];
      FilterStarts(T(), chains, free, items, i, shouldDelete);
      assert kept + rest == chains[i] && BucketOk(T(), chains, i);
      SegmentNodes(next, now, rest, 0);
      KeptNodes(T(), chains, free, i, kept, rest);
      while now != 0
        invariant Valid() && size == old(size) && |next| == old(|next|)
        invariant chains[i] == kept + rest && prev == LastOf(kept) && now == HeadOf(rest, 0)
                  && (now == 0 <==> rest == [])
        invariant Filtering(Items(), items, size, i, shouldDelete, ItemsOf(keyOf, hashOf, rest))
        decreases |rest|
      {
        prev, now, kept := FilterNode(i, prev, now, shouldDelete, items, kept, rest[1..]);
        rest := rest[1..];
      }
      assert ItemsOf(keyOf, hashOf, []) == {};
      FilterEnds(Items(), items, size, i, shouldDelete);
    }

    // Deletes the node if it is selected, else passes it.
    method FilterNode(i: nat, prev: nat, now: nat, shouldDelete: int -> bool, ghost items: set<Item>,
                      ghost kept: seq<nat>,
                      ghost rest: seq<nat>)
      returns (prev': nat, now': nat, ghost kept': seq<nat>)
      requires Valid() && i < size && chains[i] == kept + ([now] + rest) && prev == LastOf(kept)
      requires Filtering(Items(), items, size, i, shouldDelete, ItemsOf(keyOf, hashOf, [now] + rest))
      modifies this`entries, this`next, this`vacant, this`numElems, this`chains, this`free
      ensures Valid() && size == old(size) && |next| == old(|next|)
      ensures chains[i] == kept' + rest && prev' == LastOf(kept') && now' == HeadOf(rest, 0)
              && (now' == 0 <==> rest == [])
      ensures Filtering(Items(), items, size, i, shouldDelete, ItemsOf(keyOf, hashOf, rest))
    {
      FilterNext(T(), chains, free, items, i, shouldDelete, kept, now, rest);
      KeptNodes(T(), chains, free, i, kept, [now] + rest);
      RestNodes(T(), free, now, rest);
      if shouldDelete(keyOf[now]) {
        prev', kept' := prev, kept;
        now' := DeleteAfter(i, prev, now, kept, rest);
      } else {
        StepOver(T(), chains, free, i, kept, now, rest);
        prev', now', kept' := now, next[now], kept + [now];
      }
    }

    // Takes the node out of its chain and makes it vacant; gives the node after it.
    method DeleteAfter(i: nat, prev: nat, node: nat, ghost kept: seq<nat>, ghost rest: seq<nat>) returns (after: nat)
      requires Valid() && i < size && chains[i] == kept + ([node] + rest) && prev == LastOf(kept)
      modifies this`entries, this`next, this`vacant, this`numElems, this`chains, this`free
      ensures Valid() && |next| == old(|next|) && size == old(size)
      ensures chains[i] == kept + rest && after == HeadOf(rest, 0)
      ensures node < |keyOf| && node < |hashOf| && Items() == old(Items()) - {ItemOf(T(), node)}
    {
      UnlinkedHolds(T(), chains, free, i, kept, node, rest);
      ghost var was, wasFree := T(), free;
      KeptNodes(T(), chains, free, i, kept, [node] + rest);
      assert node in [node] + rest;
      LiveLeavesRoom(T(), chains, free, node);
      after := next[node];
      if prev == 0 { entries := entries[i := after]; } else { next := next[prev := after]; }
      chains := chains[i := kept + rest];
      ReleasedHolds(T(), chains, free, node);
      next := next[node := vacant];
      vacant := node;
      free := [node] + free;
      ContentsRemove(was, wasFree, T(), free, node);
      numElems := numElems - 1;
    }

    // Relinks every node, chain by chain, at the front of its new bucket.
    method MoveAll(newSize: nat)
      requires Valid() && newSize > 0
      modifies this`entries, this`next, this`chains
      ensures Holds(T(), chains, free, {}) && |entries| == newSize
      ensures |next| == old(|next|)
    {
      ghost var oldChains, aside := chains, InUse(T(), free);
      RehashStarts(T(), chains, free, newSize);
      var oldEntries := entries;
      entries := seq(newSize, _ => 0);
      chains := seq(newSize, _ => []);
      var i := 0;
      ghost var rest := oldChains[0];
      while i < |oldEntries|
        invariant i <= |oldEntries| == |oldChains| && |entries| == newSize && |next| == old(|next|)
        invariant Holds(T(), chains, free, aside)
        invariant i < |oldEntries| ==> Remaining(oldEntries, T(), oldChains, aside, i, oldEntries[i], oldChains[i])
        invariant i == |oldEntries| ==> aside == {}
      {
        aside := MoveChain(oldEntries, i, newSize, oldChains, aside);
        i := i + 1;
      }
    }

    method MoveChain(oldEntries: seq<nat>, i: nat, newSize: nat, ghost oldChains: seq<seq<nat>>, ghost aside0: set<nat>)
      returns (ghost aside: set<nat>)
      requires i < |oldEntries| == |oldChains| && |entries| == newSize && Holds(T(), chains, free, aside0)
      requires Remaining(oldEntries, T(), oldChains, aside0, i, oldEntries[i], oldChains[i])
      modifies this`entries, this`next, this`chains
      ensures |entries| == newSize && |next| == old(|next|) && Holds(T(), chains, free, aside)
      ensures i + 1 < |oldEntries| ==>
                Remaining(oldEntries, T(), oldChains, aside, i + 1, oldEntries[i + 1], oldChains[i + 1])
      ensures i + 1 == |oldEntries| ==> aside == {}
    {
      var item := oldEntries[i];
      ghost var rest := oldChains[i];
      aside := aside0;
      while item != 0
        invariant |entries| == newSize && |next| == old(|next|) && Holds(T(), chains, free, aside)
        invariant Remaining(oldEntries, T(), oldChains, aside, i, item, rest)
        decreases |rest|
      {
        SegmentNodes(next, item, rest, 0);
        var place := hashOf[item] % newSize;
        RemainingStep(oldEntries, T(), oldChains, aside, i, item, rest, place);
        PushHolds(T(), chains, free, aside, place, item);
        var nextItem := next[item];
        next := next[item := entries[place]];
        entries := entries[place := item];
        chains := chains[place := [item] + chains[place]];
        aside, rest := aside - {item}, rest[1..];
        item := nextItem;
      }
      SegmentNodes(next, item, rest, 0);
      RemainingNext(oldEntries, T(), oldChains, aside, i, item);
    }
  }

  function LastOf(nodes: seq<nat>): nat {
    if nodes == [] then 0 else nodes[|nodes| - 1]
  }

  // The item is not among the nodes passed; the rest of the chain starts here.
  ghost predicate Walking(t: Table, chain: seq<nat>, item: Item, done: seq<nat>, rest: seq<nat>, now: nat) {
    && Sized(t) && chain == done + rest && IsSegment(t.next, now, rest, 0)
    && forall n :: n in done ==> n < |t.next| && ItemOf(t, n) != item
  }

  lemma WalkNext(t: Table, chain: seq<nat>, item: Item, done: seq<nat>, rest: seq<nat>, now: nat)
    requires Walking(t, chain, item, done, rest, now) && now != 0
    ensures rest != [] && now < |t.next| && now in chain
    ensures ItemOf(t, now) != item ==> Walking(t, chain, item, done + [now], rest[1..], t.next[now])
  {
    assert chain == (done + [now]) + rest[1..];
  }

  lemma WalkEnds(t: Table, chain: seq<nat>, item: Item, done: seq<nat>, rest: seq<nat>)
    requires Walking(t, chain, item, done, rest, 0)
    ensures rest == [] && done == chain && forall n :: n in chain ==> n < |t.next| && ItemOf(t, n) != item
  {
  }

  lemma LastIsNode(t: Table, chains: seq<seq<nat>>, free: seq<nat>, aside: set<nat>, b: nat)
    requires Holds(t, chains, free, aside) && b < |chains|
    ensures LastOf(chains[b]) == 0 <==> chains[b] == []
  {
    if chains[b] != [] { ChainNodes(t, chains, free, aside, b, chains[b][|chains[b]| - 1]); }
  }

  lemma {:induction false} FewerItems(some: set<Item>, items: set<Item>)
    requires some <= items
    ensures |some| <= |items|
  {
    assert items == some + (items - some);
  }

  lemma NoOverflow(size: nat)
    requires size < WORD && 2 * size % WORD >= size > 0
    ensures 2 * size % WORD == 2 * size
  {
  }

  lemma KeptNodes(t: Table, chains: seq<seq<nat>>, free: seq<nat>, b: nat, kept: seq<nat>, rest: seq<nat>)
    requires Holds(t, chains, free, {}) && b < |chains| && chains[b] == kept + rest
    ensures LastOf(kept) == 0 <==> kept == []
    ensures forall n :: n in rest ==> Live(t, free, n)
  {
    forall n | n in kept + rest ensures 0 < n < |t.next| && n !in free { ChainNodes(t, chains, free, {}, b, n); }
    if kept != [] { assert kept[|kept| - 1] in kept + rest; }
    forall n | n in rest ensures Live(t, free, n) { assert n in kept + rest; }
  }

  lemma RestNodes(t: Table, free: seq<nat>, node: nat, rest: seq<nat>)
    requires forall n :: n in [node] + rest ==> Live(t, free, n)
    ensures HeadOf(rest, 0) == 0 <==> rest == []
  {
    if rest != [] { assert rest[0] in [node] + rest; }
  }

  // ---- Counting ----

  // How many nodes below n are not among these.
  function CountOthers(nodes: seq<nat>, n: nat): nat {
    if n <= 1 then 0 else CountOthers(nodes, n - 1) + if n - 1 in nodes then 0 else 1
  }

  lemma {:induction false} SameOthers(a: seq<nat>, b: seq<nat>, n: nat)
    requires forall x :: 0 < x < n ==> (x in a <==> x in b)
    ensures CountOthers(a, n) == CountOthers(b, n)
  {
    if n <= 1 {
    } else {
      SameOthers(a, b, n - 1);
    }
  }

  lemma WithoutNode(nodes: seq<nat>, i: nat, n: nat)
    requires Distinct(nodes) && i < |nodes| && nodes[i] == n - 1 && forall x :: x in nodes ==> 0 < x < n
    ensures var rest := nodes[..i] + nodes[i + 1..];
            Distinct(rest) && (forall x :: x in rest ==> 0 < x < n - 1) && forall x :: 0 < x < n - 1 ==>
                (x in nodes <==> x in rest)
  {
    var rest := nodes[..i] + nodes[i + 1..];
    forall j | 0 <= j < |rest| ensures rest[j] == nodes[if j < i then j else j + 1] && 0 < rest[j] < n - 1 {
      var k := if j < i then j else j + 1;
      assert nodes[k] in nodes && nodes[k] != nodes[i];
    }
    forall x | x in nodes && x != n - 1 ensures x in rest {
      var k :| 0 <= k < |nodes| && nodes[k] == x;
      assert rest[if k < i then k else k - 1] == x;
    }
  }

  // Different nodes and the others make up all nodes.
  lemma {:induction false} AllCounted(nodes: seq<nat>, n: nat)
    requires Distinct(nodes) && n > 0 && forall x :: x in nodes ==> 0 < x < n
    ensures CountOthers(nodes, n) + |nodes| == n - 1
  {
    assert nodes != [] ==> nodes[0] in nodes;
    if n == 1 {
    } else if n - 1 in nodes {
      var i :| 0 <= i < |nodes| && nodes[i] == n - 1;
      var rest := nodes[..i] + nodes[i + 1..];
      WithoutNode(nodes, i, n);
      AllCounted(rest, n - 1);
      SameOthers(nodes, rest, n - 1);
    } else {
      AllCounted(nodes, n - 1);
    }
  }

  ghost function ContentsBelow(t: Table, free: seq<nat>, n: nat): set<Item>
    requires Sized(t) && n <= |t.next|
  {
    set m | 0 <= m < n && Live(t, free, m) :: ItemOf(t, m)
  }

  lemma {:induction false} ContentsCount(t: Table, free: seq<nat>, n: nat)
    requires Sized(t) && ItemsDiffer(t, free) && n <= |t.next|
    ensures |ContentsBelow(t, free, n)| == CountOthers(free, n)
  {
    if n <= 1 {
      assert ContentsBelow(t, free, n) == {};
    } else {
      ContentsCount(t, free, n - 1);
      var before := ContentsBelow(t, free, n - 1);
      if Live(t, free, n - 1) {
        NewItem(t, free, n);
        assert ContentsBelow(t, free, n) == before + {ItemOf(t, n - 1)};
      } else {
        assert ContentsBelow(t, free, n) == before;
      }
    }
  }

  lemma NewItem(t: Table, free: seq<nat>, n: nat)
    requires Sized(t) && ItemsDiffer(t, free) && 1 < n <= |t.next| && Live(t, free, n - 1)
    ensures ItemOf(t, n - 1) !in ContentsBelow(t, free, n - 1)
  {
  }

  // The count of elements is the number of items.
  lemma NumElemsIsSize(t: Table, chains: seq<seq<nat>>, free: seq<nat>)
    requires Holds(t, chains, free, {}) && ItemsDiffer(t, free)
    ensures |Contents(t, free)| + |free| == |t.next| - 1
  {
    SegmentNodes(t.next, t.vacant, free, 0);
    AllCounted(free, |t.next|);
    ContentsCount(t, free, |t.next|);
    assert ContentsBelow(t, free, |t.next|) == Contents(t, free);
  }

  lemma LiveLeavesRoom(t: Table, chains: seq<seq<nat>>, free: seq<nat>, node: nat)
    requires Holds(t, chains, free, {}) && Live(t, free, node)
    ensures |free| + 1 <= |t.next| - 1
  {
    SegmentNodes(t.next, t.vacant, free, 0);
    AddDistinct(free, node);
    AllCounted(free + [node], |t.next|);
  }

  lemma StepOver(t: Table, chains: seq<seq<nat>>, free: seq<nat>, b: nat, kept: seq<nat>, node: nat, rest: seq<nat>)
    requires Holds(t, chains, free, {}) && b < |chains| && chains[b] == kept + ([node] + rest)
    ensures node < |t.next| && t.next[node] == HeadOf(rest, 0) && chains[b] == (kept + [node]) + rest
  {
    assert BucketOk(t, chains, b);
    SegmentSplit(t.next, t.entries[b], kept, [node] + rest, 0);
    assert ([node] + rest)[1..] == rest;
    SegmentNodes(t.next, t.next[node], rest, 0);
  }

  ghost function ItemsOf(keyOf: seq<int>, hashOf: seq<nat>, nodes: seq<nat>): set<Item> {
    set n | n in nodes && n < |keyOf| && n < |hashOf| :: Item(keyOf[n], hashOf[n])
  }

  // An item is gone if it is selected and its place has been passed.
  predicate Gone(x: Item, size: nat, i: nat, shouldDelete: int -> bool, left: set<Item>)
    requires size > 0
  {
    shouldDelete(x.key) && (x.hash % size < i || (x.hash % size == i && x !in left))
  }

  ghost predicate Filtering(now: set<Item>, items: set<Item>, size: nat, i: nat, shouldDelete: int -> bool,
                            left: set<Item>) {
    size > 0 && now == set x | x in items && !Gone(x, size, i, shouldDelete, left)
  }

  lemma FilterStarts(t: Table, chains: seq<seq<nat>>, free: seq<nat>, items: set<Item>, i: nat,
                     shouldDelete: int -> bool)
    requires Holds(t, chains, free, {}) && i < |chains|
    requires Filtering(Contents(t, free), items, |t.entries|, i, shouldDelete, items)
    ensures Filtering(Contents(t, free), items, |t.entries|, i, shouldDelete, ItemsOf(t.keyOf, t.hashOf, chains[i]))
  {
    var left := ItemsOf(t.keyOf, t.hashOf, chains[i]);
    forall x | x in items && x.hash % |t.entries| == i ensures x in left {
      assert !Gone(x, |t.entries|, i, shouldDelete, items);
      ContentsInChain(t, chains, free, x);
    }
  }

  lemma FilterEnds(now: set<Item>, items: set<Item>, size: nat, i: nat, shouldDelete: int -> bool)
    requires Filtering(now, items, size, i, shouldDelete, {})
    ensures Filtering(now, items, size, i + 1, shouldDelete, items)
  {
    forall x | x in items
      ensures Gone(x, size, i, shouldDelete, {}) <==> Gone(x, size, i + 1, shouldDelete, items)
    {
    }
  }

  // The first node of the rest: its item is no other's.
  lemma FilterNext(t: Table, chains: seq<seq<nat>>, free: seq<nat>, items: set<Item>, i: nat, shouldDelete: int -> bool,
                   kept: seq<nat>, node: nat, rest: seq<nat>)
    requires Holds(t, chains, free, {}) && ItemsDiffer(t, free) && i < |chains| && chains[i] == kept + ([node] + rest)
    requires Filtering(Contents(t, free), items, |t.entries|, i, shouldDelete,
                       ItemsOf(t.keyOf, t.hashOf, [node] + rest))
    ensures node < |t.next|
    ensures var now, x := Contents(t, free), ItemOf(t, node);
            Filtering(if shouldDelete(x.key) then now - {x} else now, items, |t.entries|, i, shouldDelete,
                      ItemsOf(t.keyOf, t.hashOf, rest))
  {
    assert node in chains[i] && forall n :: n in rest ==> n in chains[i];
    ChainNodes(t, chains, free, {}, i, node);
    assert BucketOk(t, chains, i);
    ChainParts(kept, node, rest);
    var x, left, left' := ItemOf(t, node), ItemsOf(t.keyOf, t.hashOf, [node] + rest), ItemsOf(t.keyOf, t.hashOf, rest);
    forall n | n in rest ensures n < |t.next| && ItemOf(t, n) != x {
      ChainNodes(t, chains, free, {}, i, n);
      assert Live(t, free, node) && Live(t, free, n);
    }
    assert left == left' + {x} && x !in left';
    FilterOne(Contents(t, free), items, |t.entries|, i, shouldDelete, x, left');
  }

  lemma FilterOne(now: set<Item>, items: set<Item>, size: nat, i: nat, shouldDelete: int -> bool, x: Item,
                  left: set<Item>)
    requires Filtering(now, items, size, i, shouldDelete, left + {x}) && x !in left && x.hash % size == i
    ensures Filtering(if shouldDelete(x.key) then now - {x} else now, items, size, i, shouldDelete, left)
  {
    forall y | y in items && y != x
      ensures Gone(y, size, i, shouldDelete, left + {x}) <==> Gone(y, size, i, shouldDelete, left)
    {
    }
  }
}
