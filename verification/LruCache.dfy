/** The cache of recently used keys: a doubly linked list by recency beside a tree by key. */
module LruCache {
  import opened Cards
  import opened Shuffles

  // ---- Recency as a sequence, the most recent key first ----

  function Without(s: seq<int>, k: int): (r: seq<int>)
    ensures k !in r
    ensures forall x :: x in r <==> x in s && x != k
  {
    if s == [] then [] else (if s[0] == k then [] else [s[0]]) + Without(s[1..], k)
  }

  // A hit moves the key to the front.
  function Touched(s: seq<int>, k: int): seq<int> {
    if k in s then [k] + Without(s, k) else s
  }

  // A new key goes to the front; a full cache drops its last key.
  function Inserted(s: seq<int>, k: int, capacity: nat): seq<int> {
    [k] + if |s| >= capacity && s != [] then s[..|s| - 1] else s
  }

  // A key is looked up, and inserted if it is not there.
  function Accessed(s: seq<int>, k: int, capacity: nat): seq<int> {
    if k in s then Touched(s, k) else Inserted(s, k, capacity)
  }

  function After(history: seq<int>, capacity: nat): seq<int> {
    if history == [] then []
    else Accessed(After(history[..|history| - 1], capacity), history[|history| - 1], capacity)
  }

  // The keys of the history by their last use, the latest first.
  function ByLastUse(history: seq<int>): seq<int> {
    if history == [] then []
    else
      var k := history[|history| - 1];
      [k] + Without(ByLastUse(history[..|history| - 1]), k)
  }

  function FirstOf(s: seq<int>, n: nat): seq<int> {
    if |s| <= n then s else s[..n]
  }

  lemma {:induction false} WithoutAt(s: seq<int>, i: nat)
    requires Distinct(s) && i < |s|
    ensures Without(s, s[i]) == s[..i] + s[i + 1..]
  {
    if i == 0 {
      WithoutNone(s[1..], s[0]);
      assert s[..0] + s[1..] == s[1..];
    } else {
      WithoutAt(s[1..], i - 1);
      assert s[..i] + s[i + 1..] == [s[0]] + (s[1..][..i - 1] + s[1..][i..]);
    }
  }

  lemma {:induction false} WithoutNone(s: seq<int>, k: int)
    requires k !in s
    ensures Without(s, k) == s
  {
    if s == [] {
    } else {
      WithoutNone(s[1..], k);
      assert s == [s[0]] + s[1..];
    }
  }

  lemma ConsDistinct(k: int, s: seq<int>)
    requires Distinct(s) && k !in s
    ensures Distinct([k] + s)
  {
  }

  lemma {:induction false} WithoutDistinct(s: seq<int>, k: int)
    requires Distinct(s)
    ensures Distinct(Without(s, k))
  {
    if s == [] {
    } else {
      assert forall i, j :: 0 <= i < j < |s[1..]| ==> s[1..][i] == s[i + 1] && s[1..][j] == s[j + 1];
      WithoutDistinct(s[1..], k);
      if s[0] != k { ConsDistinct(s[0], Without(s[1..], k)); }
    }
  }

  lemma {:induction false} LastUseDistinct(history: seq<int>)
    ensures Distinct(ByLastUse(history))
  {
    if history == [] {
    } else {
      LastUseDistinct(history[..|history| - 1]);
      WithoutDistinct(ByLastUse(history[..|history| - 1]), history[|history| - 1]);
      ConsDistinct(history[|history| - 1], Without(ByLastUse(history[..|history| - 1]), history[|history| - 1]));
    }
  }

  lemma CutAfterFront(x: int, low: seq<int>, mid: seq<int>, high: seq<int>)
    ensures ([x] + (low + (mid + high)))[..1 + |low| + |mid|] == [x] + (low + mid)
  {
  }

  lemma HitCut(s: seq<int>, i: nat, capacity: nat)
    requires i < capacity < |s|
    ensures [s[i]] + (s[..capacity][..i] + s[..capacity][i + 1..]) == ([s[i]] + (s[..i] + s[i + 1..]))[..capacity]
  {
    assert s[..capacity][..i] == s[..i] && s[..capacity][i + 1..] == s[i + 1..capacity];
    assert s[i + 1..] == s[i + 1..capacity] + s[capacity..];
    CutAfterFront(s[i], s[..i], s[i + 1..capacity], s[capacity..]);
  }

  lemma OldCut(s: seq<int>, i: nat, capacity: nat)
    requires 0 < capacity <= i < |s|
    ensures [s[i]] + s[..capacity][..capacity - 1] == ([s[i]] + (s[..i] + s[i + 1..]))[..capacity]
  {
    var low, rest := s[..capacity - 1], s[capacity - 1..i] + s[i + 1..];
    assert s[..capacity][..capacity - 1] == low && s[..i] + s[i + 1..] == [] + (low + rest);
    CutAfterFront(s[i], [], low, rest);
    assert [] + low == low;
  }

  lemma HitKeepsRecent(s: seq<int>, i: nat, capacity: nat)
    requires Distinct(s) && i < |s| && i < capacity
    ensures s[i] in FirstOf(s, capacity)
    ensures [s[i]] + Without(FirstOf(s, capacity), s[i]) == FirstOf([s[i]] + Without(s, s[i]), capacity)
  {
    WithoutAt(s, i);
    if capacity < |s| {
      assert s[..capacity][i] == s[i];
      WithoutAt(s[..capacity], i);
      HitCut(s, i, capacity);
    }
  }

  lemma OldKeepsRecent(s: seq<int>, i: nat, capacity: nat)
    requires Distinct(s) && 0 < capacity <= i < |s|
    ensures s[i] !in FirstOf(s, capacity)
    ensures Inserted(FirstOf(s, capacity), s[i], capacity) == FirstOf([s[i]] + Without(s, s[i]), capacity)
  {
    WithoutAt(s, i);
    OldCut(s, i, capacity);
  }

  lemma NewKeepsRecent(s: seq<int>, k: int, capacity: nat)
    requires k !in s && capacity > 0
    ensures k !in FirstOf(s, capacity)
    ensures Inserted(FirstOf(s, capacity), k, capacity) == FirstOf([k] + Without(s, k), capacity)
  {
    WithoutNone(s, k);
  }

  // One access keeps the most recent keys.
  lemma AccessKeepsRecent(s: seq<int>, k: int, capacity: nat)
    requires Distinct(s) && capacity > 0
    ensures Accessed(FirstOf(s, capacity), k, capacity) == FirstOf([k] + Without(s, k), capacity)
  {
    if k !in s {
      NewKeepsRecent(s, k, capacity);
    } else {
      var i :| 0 <= i < |s| && s[i] == k;
      if i < capacity { HitKeepsRecent(s, i, capacity); } else { OldKeepsRecent(s, i, capacity); }
    }
  }

  // The cache always holds the keys used most recently, as many as it has room for, in the order of their last use.
  lemma {:induction false} HoldsMostRecent(history: seq<int>, capacity: nat)
    requires capacity > 0
    ensures After(history, capacity) == FirstOf(ByLastUse(history), capacity)
  {
    if history == [] {
    } else {
      var before := history[..|history| - 1];
      HoldsMostRecent(before, capacity);
      LastUseDistinct(before);
      AccessKeepsRecent(ByLastUse(before), history[|history| - 1], capacity);
    }
  }

  // ---- The linked list ----

  // The links of each node to the next higher and the next lower one; 0 stands for no node.
  datatype Links = Links(higher: seq<nat>, lower: seq<nat>, highest: nat, lowest: nat)

  function At(order: seq<nat>, i: int): nat {
    if 0 <= i < |order| then order[i] else 0
  }

  ghost predicate NodesOk(order: seq<nat>, n: nat) {
    && (forall i :: 0 <= i < |order| ==> 0 < order[i] < n)
    && Distinct(order)
  }

  // The list runs through the nodes from the highest to the lowest and back.
  ghost predicate Linked(l: Links, order: seq<nat>) {
    && |l.higher| == |l.lower| && NodesOk(order, |l.higher|)
    && l.highest == At(order, 0) && l.lowest == At(order, |order| - 1)
    && forall i {:trigger LinkAt(l, order, i)} :: 0 <= i < |order| ==> LinkAt(l, order, i)
  }

  ghost predicate LinkAt(l: Links, order: seq<nat>, i: int)
    requires |l.higher| == |l.lower| && NodesOk(order, |l.higher|) && 0 <= i < |order|
  {
    l.higher[order[i]] == At(order, i - 1) && l.lower[order[i]] == At(order, i + 1)
  }

  // A node that is not the highest leaves its place and becomes the highest.
  function Promoted(l: Links, node: nat): Links
    requires |l.higher| == |l.lower| && node < |l.higher| && l.highest < |l.higher|
    requires l.higher[node] < |l.higher| && l.lower[node] < |l.higher|
  {
    var up, down := l.higher[node], l.lower[node];
    var lower, higher := l.lower[up := down], if down != 0 then l.higher[down := up] else l.higher;
    Links(higher[l.highest := node][node := 0], lower[node := l.highest], node, if down != 0 then l.lowest else up)
  }

  function Pushed(l: Links, node: nat): Links
    requires |l.higher| == |l.lower| && node < |l.higher| && l.highest < |l.higher|
  {
    if l.highest != 0 then
      Links(l.higher[node := 0][l.highest := node], l.lower[node := l.highest], node, l.lowest)
    else Links(l.higher[node := 0], l.lower[node := 0], node, node)
  }

  function Dropped(l: Links): Links
    requires |l.higher| == |l.lower| && l.lowest < |l.higher| && l.higher[l.lowest] < |l.lower|
  {
    var last := l.higher[l.lowest];
    l.(lower := l.lower[last := 0], lowest := last)
  }

  lemma PushedAt(l: Links, order: seq<nat>, node: nat, j: nat)
    requires Linked(l, order) && node !in order && 0 < node < |l.higher| && j <= |order|
    requires NodesOk([node] + order, |l.higher|)
    ensures LinkAt(Pushed(l, node), [node] + order, j)
  {
    if j > 0 {
      assert LinkAt(l, order, j - 1);
      assert ([node] + order)[j] == order[j - 1];
    }
  }

  lemma PushedLinked(l: Links, order: seq<nat>, node: nat)
    requires Linked(l, order) && node !in order && 0 < node < |l.higher|
    ensures Linked(Pushed(l, node), [node] + order)
  {
    var order' := [node] + order;
    assert NodesOk(order', |l.higher|);
    forall j | 0 <= j < |order'| ensures LinkAt(Pushed(l, node), order', j) { PushedAt(l, order, node, j); }
  }

  lemma DroppedLinked(l: Links, order: seq<nat>)
    requires Linked(l, order) && |order| >= 2
    ensures l.lowest == order[|order| - 1] && l.higher[l.lowest] == order[|order| - 2]
    ensures Linked(Dropped(l), order[..|order| - 1])
  {
    assert LinkAt(l, order, |order| - 1);
    var order' := order[..|order| - 1];
    assert NodesOk(order', |l.higher|);
    forall i | 0 <= i < |order'| ensures LinkAt(Dropped(l), order', i) {
      assert LinkAt(l, order, i);
    }
  }

  function Moved(order: seq<nat>, i: nat): seq<nat>
    requires i < |order|
  {
    [order[i]] + order[..i] + order[i + 1..]
  }

  lemma MovedNodes(order: seq<nat>, i: nat, n: nat)
    requires NodesOk(order, n) && i < |order|
    ensures NodesOk(Moved(order, i), n)
  {
    var order' := Moved(order, i);
    forall j | 0 <= j < |order'| ensures order'[j] == order[if j == 0 then i else if j <= i then j - 1 else j] {}
  }

  lemma PromotedAt(l: Links, order: seq<nat>, i: nat, j: nat)
    requires Linked(l, order) && 0 < i < |order| && j < |order| && NodesOk(Moved(order, i), |l.higher|)
    requires l.higher[order[i]] == order[i - 1] && l.lower[order[i]] == At(order, i + 1) < |l.higher|
             && l.highest == order[0]
    ensures LinkAt(Promoted(l, order[i]), Moved(order, i), j)
  {
    if 0 < j <= i {
      assert LinkAt(l, order, j - 1);
      assert Moved(order, i)[j] == order[j - 1];
    } else if i < j {
      assert LinkAt(l, order, j);
      assert Moved(order, i)[j] == order[j];
    }
  }

  lemma PromotedLinked(l: Links, order: seq<nat>, i: nat)
    requires Linked(l, order) && 0 < i < |order|
    ensures l.higher[order[i]] == order[i - 1] && l.lower[order[i]] == At(order, i + 1)
    ensures l.lower[order[i]] < |l.higher| && l.highest < |l.higher| && Linked(Promoted(l, order[i]), Moved(order, i))
  {
    MovedNodes(order, i, |l.higher|);
    assert LinkAt(l, order, i);
    forall j | 0 <= j < |order|
      ensures LinkAt(Promoted(l, order[i]), Moved(order, i), j)
    {
      PromotedAt(l, order, i, j);
    }
  }

  // ---- The cache ----

  class Cache {
    const maxNumElements: nat
    var key: seq<int>
    var movesToKey: seq<Option<seq<nat>>>
    var higher: seq<nat>
    var lower: seq<nat>
    var highest: nat
    var lowest: nat
    var count: nat
    var tree: map<int, nat>
    ghost var order: seq<nat>

    function List(): Links
      reads this
    {
      Links(higher, lower, highest, lowest)
    }

    ghost predicate Valid()
      reads this
    {
      && maxNumElements >= 2 && |key| == |movesToKey| == |higher| > 0 && Linked(List(), order)
      && count == |order| <= maxNumElements && Indexed(key, order, tree)
    }

    // The keys from the most to the least recently used.
    ghost function Recency(): seq<int>
      requires Valid()
      reads this
    {
      KeysOf(key, order)
    }

    constructor (maxNumElements: nat)
      requires maxNumElements >= 2
      ensures Valid() && this.maxNumElements == maxNumElements && Recency() == []
    {
      this.maxNumElements := maxNumElements;
      key, movesToKey, higher, lower, highest, lowest, count := [0], [None], [0], [0], 0, 0, 0;
      tree, order := map[], [];
    }

    // Finds a key and makes it the most recent one.
    method DoesKeyExist(k: int) returns (found: bool)
      requires Valid()
      modifies this
      ensures Valid() && found == (k in old(Recency())) && Recency() == Touched(old(Recency()), k)
      ensures key == old(key) && movesToKey == old(movesToKey) && tree == old(tree)
    {
      FoundByTree(key, order, tree, k);
      found := k in tree;
      if found {
        ghost var i :| 0 <= i < |order| && order[i] == tree[k];
        Touch(tree[k], i);
      }
    }

    method Touch(existing: nat, ghost i: nat)
      requires Valid() && i < |order| && order[i] == existing
      modifies this
      ensures Valid() && existing < |key| && Recency() == Touched(old(Recency()), key[existing])
      ensures key == old(key) && movesToKey == old(movesToKey) && tree == old(tree)
    {
      assert LinkAt(List(), order, i);
      if higher[existing] != 0 {
        PromotedLinked(List(), order, i);
        MovedIndexed(key, order, tree, i);
        MovedKeys(key, order, tree, i);
        Promote(existing);
        order := Moved(order, i);
      } else {
        TopTouched(key, order, tree, i);
      }
    }

    // Takes a node out of its place and puts it on top.
    method Promote(existing: nat)
      requires |higher| == |lower| && existing < |higher| && highest < |higher|
      requires 0 < higher[existing] < |higher| && lower[existing] < |higher|
      modifies this`higher, this`lower, this`highest, this`lowest
      ensures List() == Promoted(old(List()), existing)
    {
      var up, down := higher[existing], lower[existing];
      lower := lower[up := down];
      if down != 0 {
        higher := higher[down := up];
      } else {
        lowest := up;
        lower := lower[up := 0];
      }
      higher := higher[highest := existing];
      lower := lower[existing := highest];
      highest := existing;
      higher := higher[existing := 0];
    }

    // A node is free for a new key.
    ghost predicate HasRoom(node: nat)
      reads this
    {
      && maxNumElements >= 2 && |key| == |movesToKey| == |higher| > 0 && Linked(List(), order)
      && count == |order| + 1 <= maxNumElements && Indexed(key, order, tree) && node !in order && 0 < node < |key|
    }

    // Takes the least recent key out of a full cache.
    method TakeLowest() returns (cacheKey: nat)
      requires Valid() && count == maxNumElements
      modifies this`tree, this`lowest, this`lower, this`order
      ensures HasRoom(cacheKey) && tree.Keys <= old(tree).Keys
      ensures KeysOf(key, order) == old(Recency())[..old(count) - 1]
    {
      cacheKey := lowest;
      DroppedLinked(List(), order);
      DroppedIndexed(key, order, tree);
      DroppedKeys(key, order);
      tree := tree - {key[cacheKey]};
      lowest := higher[lowest];
      lower := lower[lowest := 0];
      order := order[..|order| - 1];
    }

    method NewNode() returns (cacheKey: nat)
      requires Valid() && count < maxNumElements
      modifies this`key, this`movesToKey, this`higher, this`lower, this`count
      ensures HasRoom(cacheKey) && key == old(key) + [0] && movesToKey == old(movesToKey) + [None]
      ensures KeysOf(key, order) == old(Recency())
    {
      cacheKey := |key|;
      GrownLinked(List(), order);
      GrownIndexed(key, order, tree);
      key, movesToKey, higher, lower := key + [0], movesToKey + [None], higher + [0], lower + [0];
      count := count + 1;
    }

    // A node for a new key: the least recent one if the cache is full, else a new one.
    method MakeRoom() returns (cacheKey: nat)
      requires Valid()
      modifies this
      ensures HasRoom(cacheKey) && tree.Keys <= old(tree).Keys && old(movesToKey) <= movesToKey
      ensures KeysOf(key, order) ==
                if old(count) >= maxNumElements then old(Recency())[..old(count) - 1] else old(Recency())
    {
      if count >= maxNumElements { cacheKey := TakeLowest(); } else { cacheKey := NewNode(); }
    }

    method PushTop(cacheKey: nat)
      requires |higher| == |lower| && cacheKey < |higher| && highest < |higher|
      modifies this`higher, this`lower, this`highest, this`lowest
      ensures List() == Pushed(old(List()), cacheKey)
    {
      if highest != 0 {
        lower := lower[cacheKey := highest];
        higher := higher[cacheKey := 0];
        higher := higher[highest := cacheKey];
        highest := cacheKey;
      } else {
        highest, lowest := cacheKey, cacheKey;
        higher, lower := higher[cacheKey := 0], lower[cacheKey := 0];
      }
    }

    // Stores a key that is not there, in the place of the least recent one if the cache is full.
    method Insert(k: int, movesToParent: Option<seq<nat>>, finalMove: nat) returns (cacheKey: nat)
      requires Valid() && k !in Recency()
      modifies this
      ensures Valid() && Recency() == Inserted(old(Recency()), k, maxNumElements)
      ensures cacheKey < |key| && key[cacheKey] == k && k in tree && tree[k] == cacheKey
      ensures movesToKey[cacheKey] == MovesTo(movesToParent, finalMove)
      ensures |movesToKey| >= |old(movesToKey)|
      ensures forall i :: 0 <= i < |old(movesToKey)| && i != cacheKey ==> movesToKey[i] == old(movesToKey)[i]
    {
      FoundByTree(key, order, tree, k);
      cacheKey := MakeRoom();
      Place(cacheKey, k, movesToParent, finalMove);
    }

    // Fills a free node and puts it on top.
    method Place(cacheKey: nat, k: int, movesToParent: Option<seq<nat>>, finalMove: nat)
      requires HasRoom(cacheKey) && k !in tree
      modifies this
      ensures Valid() && Recency() == [k] + KeysOf(old(key), old(order))
      ensures |key| == old(|key|) && key[cacheKey] == k && k in tree && tree[k] == cacheKey
      ensures movesToKey == old(movesToKey)[cacheKey := MovesTo(movesToParent, finalMove)]
    {
      PushedIndexed(key, order, tree, cacheKey, k);
      PushedKeys(key, order, cacheKey, k);
      PushedLinked(List(), order, cacheKey);
      key := key[cacheKey := k];
      movesToKey := movesToKey[cacheKey := MovesTo(movesToParent, finalMove)];
      PushTop(cacheKey);
      tree := tree[k := cacheKey];
      order := [cacheKey] + order;
    }
  }

  // The tree leads from each key of the list to its node, and from nothing else.
  ghost predicate Indexed(key: seq<int>, order: seq<nat>, tree: map<int, nat>) {
    && (forall i {:trigger HasKey(key, order, tree, i)} :: 0 <= i < |order| ==> HasKey(key, order, tree, i))
    && (forall k {:trigger HasNode(key, order, tree, k)} :: k in tree ==> HasNode(key, order, tree, k))
  }

  ghost predicate HasKey(key: seq<int>, order: seq<nat>, tree: map<int, nat>, i: int)
    requires 0 <= i < |order|
  {
    order[i] < |key| && key[order[i]] in tree && tree[key[order[i]]] == order[i]
  }

  ghost predicate HasNode(key: seq<int>, order: seq<nat>, tree: map<int, nat>, k: int)
    requires k in tree
  {
    tree[k] in order && tree[k] < |key| && key[tree[k]] == k
  }

  ghost function KeysOf(key: seq<int>, order: seq<nat>): seq<int>
    requires forall i :: 0 <= i < |order| ==> order[i] < |key|
  {
    seq(|order|, i requires 0 <= i < |order| => key[order[i]])
  }

  function MovesTo(movesToParent: Option<seq<nat>>, finalMove: nat): Option<seq<nat>> {
    if movesToParent.Some? then Some(movesToParent.value + [finalMove])
    else if finalMove != 0 then Some([finalMove]) else None
  }

  // The list and the tree hold the same keys.
  lemma FoundByTree(key: seq<int>, order: seq<nat>, tree: map<int, nat>, k: int)
    requires Indexed(key, order, tree) && NodesOk(order, |key|)
    ensures k in tree <==> k in KeysOf(key, order)
    ensures k in tree ==> tree[k] in order && tree[k] < |key| && key[tree[k]] == k
  {
    if k in tree {
      assert HasNode(key, order, tree, k);
      var i :| 0 <= i < |order| && order[i] == tree[k];
      assert KeysOf(key, order)[i] == k;
    }
    if k in KeysOf(key, order) {
      var i :| 0 <= i < |order| && KeysOf(key, order)[i] == k;
      assert HasKey(key, order, tree, i);
    }
  }

  lemma KeysDistinct(key: seq<int>, order: seq<nat>, tree: map<int, nat>)
    requires Indexed(key, order, tree) && NodesOk(order, |key|)
    ensures Distinct(KeysOf(key, order))
  {
    forall i, j | 0 <= i < j < |order| ensures key[order[i]] != key[order[j]] {
      assert HasKey(key, order, tree, i) && HasKey(key, order, tree, j);
    }
  }

  lemma MovedSame(order: seq<nat>, i: nat)
    requires i < |order|
    ensures forall n :: n in Moved(order, i) <==> n in order
  {
    forall n | n in order ensures n in Moved(order, i) {
      var j :| 0 <= j < |order| && order[j] == n;
      assert Moved(order, i)[if j < i then j + 1 else if j == i then 0 else j] == n;
    }
  }

  lemma MovedIndexed(key: seq<int>, order: seq<nat>, tree: map<int, nat>, i: nat)
    requires Indexed(key, order, tree) && i < |order|
    ensures Indexed(key, Moved(order, i), tree)
  {
    MovedSame(order, i);
    var order' := Moved(order, i);
    forall j | 0 <= j < |order'| ensures HasKey(key, order', tree, j) {
      assert order'[j] in order;
      var n :| 0 <= n < |order| && order[n] == order'[j];
      assert HasKey(key, order, tree, n);
    }
    forall k | k in tree ensures HasNode(key, order', tree, k) { assert HasNode(key, order, tree, k); }
  }

  lemma MovedKeysAre(key: seq<int>, order: seq<nat>, i: nat)
    requires NodesOk(order, |key|) && i < |order|
    ensures NodesOk(Moved(order, i), |key|)
    ensures KeysOf(key, Moved(order, i)) ==
            [KeysOf(key, order)[i]] + (KeysOf(key, order)[..i] + KeysOf(key, order)[i + 1..])
  {
    MovedNodes(order, i, |key|);
  }

  lemma MovedKeys(key: seq<int>, order: seq<nat>, tree: map<int, nat>, i: nat)
    requires Indexed(key, order, tree) && NodesOk(order, |key|) && i < |order|
    ensures NodesOk(Moved(order, i), |key|)
    ensures KeysOf(key, Moved(order, i)) == Touched(KeysOf(key, order), key[order[i]])
  {
    MovedKeysAre(key, order, i);
    KeysDistinct(key, order, tree);
    WithoutAt(KeysOf(key, order), i);
    assert KeysOf(key, order)[i] in KeysOf(key, order);
  }

  lemma TopTouched(key: seq<int>, order: seq<nat>, tree: map<int, nat>, i: nat)
    requires Indexed(key, order, tree) && NodesOk(order, |key|) && i < |order| && At(order, i - 1) == 0
    ensures Touched(KeysOf(key, order), key[order[i]]) == KeysOf(key, order)
  {
    MovedKeys(key, order, tree, i);
    assert i == 0 && Moved(order, 0) == order;
  }

  lemma DroppedIndexed(key: seq<int>, order: seq<nat>, tree: map<int, nat>)
    requires Indexed(key, order, tree) && NodesOk(order, |key|) && order != []
    ensures Indexed(key, order[..|order| - 1], tree - {key[order[|order| - 1]]})
  {
    var last, order' := order[|order| - 1], order[..|order| - 1];
    var tree' := tree - {key[last]};
    KeysDistinct(key, order, tree);
    forall i | 0 <= i < |order'| ensures HasKey(key, order', tree', i) {
      assert HasKey(key, order, tree, i) && order'[i] == order[i];
      assert KeysOf(key, order)[i] != KeysOf(key, order)[|order| - 1];
    }
    forall k | k in tree' ensures HasNode(key, order', tree', k) {
      assert HasNode(key, order, tree, k);
      var j :| 0 <= j < |order| && order[j] == tree[k];
      assert order'[j] == order[j];
    }
  }

  lemma DroppedKeys(key: seq<int>, order: seq<nat>)
    requires NodesOk(order, |key|) && order != []
    ensures KeysOf(key, order[..|order| - 1]) == KeysOf(key, order)[..|order| - 1]
  {
  }

  lemma GrownLinked(l: Links, order: seq<nat>)
    requires Linked(l, order)
    ensures Linked(l.(higher := l.higher + [0], lower := l.lower + [0]), order)
  {
    var l' := l.(higher := l.higher + [0], lower := l.lower + [0]);
    assert NodesOk(order, |l'.higher|);
    forall i | 0 <= i < |order| ensures LinkAt(l', order, i) { assert LinkAt(l, order, i); }
  }

  lemma GrownIndexed(key: seq<int>, order: seq<nat>, tree: map<int, nat>)
    requires Indexed(key, order, tree)
    ensures Indexed(key + [0], order, tree)
  {
    forall i | 0 <= i < |order| ensures HasKey(key + [0], order, tree, i) { assert HasKey(key, order, tree, i); }
    forall k | k in tree ensures HasNode(key + [0], order, tree, k) { assert HasNode(key, order, tree, k); }
  }

  lemma PushedIndexed(key: seq<int>, order: seq<nat>, tree: map<int, nat>, node: nat, k: int)
    requires Indexed(key, order, tree) && node !in order && node < |key| && k !in tree
    ensures Indexed(key[node := k], [node] + order, tree[k := node])
  {
    var key', order', tree' := key[node := k], [node] + order, tree[k := node];
    forall i | 0 <= i < |order'| ensures HasKey(key', order', tree', i) {
      if i > 0 { assert HasKey(key, order, tree, i - 1) && order'[i] == order[i - 1] && order[i - 1] in order; }
    }
    forall x | x in tree' ensures HasNode(key', order', tree', x) {
      if x != k { assert HasNode(key, order, tree, x); }
    }
  }

  lemma PushedKeys(key: seq<int>, order: seq<nat>, node: nat, k: int)
    requires NodesOk(order, |key|) && node !in order && node < |key|
    ensures KeysOf(key[node := k], [node] + order) == [k] + KeysOf(key, order)
  {
    assert forall i :: 0 <= i < |order| ==> order[i] in order;
  }
}
