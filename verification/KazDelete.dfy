/** What deletion does to the linked nodes, step by step. */
module KazDelete {
  import opened RedBlack
  import opened KazHeap
  import opened KazTree

  // ---- Taking a node out ----

  lemma OneOutView(h: Heap, t: Tree, p: Path)
    requires View(h, t, p) && t.Node? && (t.left.Leaf? || t.right.Leaf?)
    ensures var c := TakeOut(t, p).child;
            && PathId(p) < |h.left| && Id(c) < |h.left| && View(Rehung(h, p, Id(c)), c, p) && TakeOut(t, p).path == p
            && Rehung(h, p, Id(c)).parent[Id(c)] == PathId(p) && t.id !in ViewIds(c, p)
  {
    var c := TakeOut(t, p).child;
    assert Ids(c) <= Ids(t) && t.id !in Ids(c);
    RehungView(h, p, t.id, c, t.id);
  }

  // The path from the successor of the root of t.
  function NextPath(t: Tree, p: Path): Path
    requires t.Node? && t.right.Node?
  {
    LeftPath(t.right, Under(Right, t.id, t.key, t.red, t.left, p))
  }

  // The successor is taken out of the right subtree.
  lemma NextOutView(h: Heap, t: Tree, p: Path)
    requires View(h, t, p) && t.Node? && t.right.Node?
    ensures var n, q := Leftmost(t.right), NextPath(t, p);
            && View(h, n, q) && PathId(q) < |h.left| && Id(n.right) < |h.left| && q.Under?
            && View(Rehung(h, q, Id(n.right)), t.(right := PutLeft(t.right, n.right)), p)
            && Rehung(h, q, Id(n.right)).parent[Id(n.right)] == PathId(q)
            && n.id !in ViewIds(t.(right := PutLeft(t.right, n.right)), p) && IsNode(h, n.id)
  {
    var f := Under(Right, t.id, t.key, t.red, t.left, p);
    assert Join(t.right, f) == t;
    ViewDown(h, t.right, f);
    LeftPathView(h, t.right, f);
    var n, q := Leftmost(t.right), NextPath(t, p);
    OneOutView(h, n, q);
    var h1, r := Rehung(h, q, Id(n.right)), PutLeft(t.right, n.right);
    LeftPathUp(h1, n.right, t.right, f);
    ViewUp(h1, r, f);
    JoinIds(r, f);
    assert Join(r, f) == t.(right := r);
    if t.right.left.Node? { LeftPathId(t.right, f, f); }
  }

  // The successor takes the place of the target.
  lemma NextInView(h: Heap, t: Tree, p: Path, n: Tree)
    requires t.Node? && t.right.Node? && n == Leftmost(t.right)
    requires View(h, t.(right := PutLeft(t.right, n.right)), p) && IsNode(h, n.id) && h.key[n.id] == n.key
    requires n.id !in ViewIds(t.(right := PutLeft(t.right, n.right)), p)
    ensures PathId(p) < |h.left|
    ensures View(Substituted(h, t.id, n.id, p), n.right, TakenPath(t, p, n))
            && t.id !in ViewIds(n.right, TakenPath(t, p, n))
  {
    var t1 := t.(right := PutLeft(t.right, n.right));
    SubstitutedView(h, t1, p, n.id);
    var h2, f := Substituted(h, t.id, n.id, p), Under(Right, n.id, n.key, t.red, t.left, p);
    assert Join(PutLeft(t.right, n.right), f) == t1.(id := n.id, key := n.key);
    ViewDown(h2, PutLeft(t.right, n.right), f);
    LeftPathDown(h2, n.right, t.right, f);
    LeftPathUp(h2, n.right, t.right, f);
    JoinIds(PutLeft(t.right, n.right), f);
  }

  function TakenPath(t: Tree, p: Path, n: Tree): Path
    requires t.Node? && t.right.Node? && n.Node?
  {
    LeftPath(t.right, Under(Right, n.id, n.key, t.red, t.left, p))
  }

  // The link from the moved-up child to its parent is right even if the child is the sentinel.
  lemma ChildLink(h: Heap, t: Tree, p: Path, n: Tree)
    requires t.Node? && t.left.Node? && t.right.Node? && n == Leftmost(t.right)
    requires View(h, t.(right := PutLeft(t.right, n.right)), p) && IsNode(h, n.id) && h.key[n.id] == n.key
    requires n.id !in ViewIds(t.(right := PutLeft(t.right, n.right)), p)
    requires Id(n.right) < |h.parent| && h.parent[Id(n.right)] == PathId(NextPath(t, p))
    ensures PathId(p) < |h.left| && Id(n.right) < |h.left|
    ensures Substituted(h, t.id, n.id, p).parent[Id(n.right)] == PathId(TakenPath(t, p, n))
  {
    NextInView(h, t, p, n);
    var h2 := Substituted(h, t.id, n.id, p);
    if n.right.Leaf? {
      var t1 := t.(right := PutLeft(t.right, n.right));
      assert h.left[t.id] == t.left.id && h.right[t.id] == Id(t1.right);
      assert RepTree(h, t.left, t.id);
      if t.right.left.Node? {
        LeftPathId(t.right, Under(Right, t.id, t.key, t.red, t.left, p), Under(Right, n.id, n.key, t.red, t.left, p));
        assert RepTree(h, t1.right, t.id) && t1.right.Node?;
      }
    }
  }

  // ---- The adjustments, on the tree and on the nodes ----

  // What the links say about the sister.
  predicate KnowsSister(h: Heap, p: Path) {
    && Sized(h) && p.Under? && p.sibling.Node? && 0 < p.id < |h.left| && 0 < p.sibling.id < |h.left|
    && p.id != p.sibling.id
    && (if p.side == Left then h.right[p.id] else h.left[p.id]) == p.sibling.id
    && h.red[p.id] == p.red && h.red[p.sibling.id] == p.sibling.red
    && h.left[p.sibling.id] == Id(p.sibling.left) && h.right[p.sibling.id] == Id(p.sibling.right)
    && h.red[Id(p.sibling.left)] == !Black(p.sibling.left) && h.red[Id(p.sibling.right)] == !Black(p.sibling.right)
    && (p.sibling.left.Node? ==> p.sibling.left.id > 0) && (p.sibling.right.Node? ==> p.sibling.right.id > 0)
  }

  lemma SisterLinks(h: Heap, t: Tree, p: Path)
    requires View(h, t, p) && p.Under? && p.sibling.Node? && !h.red[0]
    ensures KnowsSister(h, p)
  {
    var s := p.sibling;
    assert RepTree(h, s, p.id);
    NoZero(h, s, p.id);
    IdIn(s.left);
    IdIn(s.right);
    TreeInside(h, s.left, s.id);
    TreeInside(h, s.right, s.id);
  }

  // First: a red sister takes the place of the parent.
  function TurnPath(p: Path): Path
    requires p.Under? && p.sibling.Node?
  {
    if p.sibling.red then RedSister(p) else p
  }

  function TurnHeap(h: Heap, p: Path): Heap
    requires KnowsSister(h, p)
  {
    if p.sibling.red then
      var h1 := Painted(Painted(h, p.sibling.id, false), p.id, true);
      if p.side == Left then RotatedLeft(h1, p.id) else RotatedRight(h1, p.id)
    else h
  }

  lemma TurnShows(h: Heap, t: Tree, p: Path, bh: nat)
    requires Shows(h, t, p) && Deleting(t, p, bh) && p.Under? && |h.red| == |h.left| > 0 && !h.red[0]
    ensures p.sibling.Node? && KnowsSister(h, p)
    ensures var q, h' := TurnPath(p), TurnHeap(h, p);
            && Shows(h', t, q) && Deleting(t, q, bh) && q.Under? && q.sibling.Node? && !q.sibling.red
            && KnowsSister(h', q)
            && AllItems(t, q) == AllItems(t, p) && |h'.left| == |h.left| == |h'.red| && !h'.red[0]
            && q.side == p.side && q.id == p.id
            && (p.sibling.red ==> q.red) && (!p.sibling.red ==> q == p)
  {
    Shown(h, t, p);
    SisterLinks(h, t, p);
    if p.sibling.red {
      RedSisterView(h, t, p);
      RedSisterKeeps(t, p, bh);
      TurnedSister(p, bh);
    }
    SisterLinks(TurnHeap(h, p), t, TurnPath(p));
    Shown(TurnHeap(h, p), t, TurnPath(p));
  }

  lemma TurnedSister(p: Path, bh: nat)
    requires p.Under? && Balanced(p.sibling, bh + 1) && p.sibling.Node? && p.sibling.red
    ensures RedSister(p).sibling.Node? && !RedSister(p).sibling.red
  {
  }

  // Second: the sister becomes red, or takes the place of the parent with a red child on the far side.
  predicate BlackNephews(p: Path)
    requires p.Under? && p.sibling.Node?
  {
    Black(p.sibling.left) && Black(p.sibling.right)
  }

  function FarPath(p: Path): Path
    requires p.Under? && p.sibling.Node?
  {
    p.(sibling := FarRed(p))
  }

  function EndTree(t: Tree, p: Path): Tree
    requires p.Under? && p.sibling.Node? && (BlackNephews(p) || Far(p.side, FarRed(p)).Node?)
  {
    if BlackNephews(p) then SisterToRed(t, p) else SisterUp(t, p, FarRed(p))
  }

  lemma FarShows(h: Heap, t: Tree, p: Path, bh: nat)
    requires Shows(h, t, p) && Deleting(t, p, bh) && KnowsSister(h, p) && !p.sibling.red && !BlackNephews(p)
             && !h.red[0]
    ensures var q, h' := FarPath(p), FarRedHeap(h, p);
            && Shows(h', t, q) && q.sibling.Node? && Far(p.side, q.sibling).Node? && KnowsSister(h', q)
            && IsFarRed(p.side, q.sibling, bh) && Items(q.sibling) == Items(p.sibling)
            && |h'.left| == |h.left| == |h'.red| && !h'.red[0]
  {
    Shown(h, t, p);
    FarRedKeeps(p, bh);
    FarRedView(h, t, p);
    SisterLinks(FarRedHeap(h, p), t, FarPath(p));
    Shown(FarRedHeap(h, p), t, FarPath(p));
  }

  lemma UpShows(h: Heap, t: Tree, p: Path)
    requires Shows(h, t, p) && p.Under? && p.sibling.Node? && Far(p.side, p.sibling).Node? && KnowsSister(h, p)
             && !h.red[0]
    ensures Far(p.side, p.sibling).id < |h.left| && SisterUp(t, p, p.sibling).Node?
    ensures Shows(SisterUpHeap(h, p), SisterUp(t, p, p.sibling), p.up)
    ensures |SisterUpHeap(h, p).left| == |h.left| == |SisterUpHeap(h, p).red| && !SisterUpHeap(h, p).red[0]
  {
    Shown(h, t, p);
    SisterUpView(h, t, p);
    Shown(SisterUpHeap(h, p), SisterUp(t, p, p.sibling), p.up);
  }

  // What taking the sister up gives, whatever the subtree on the near side.
  lemma UpKeeps(t: Tree, p: Path, bh: nat)
    requires Deleting(t, p, bh) && p.Under? && p.sibling.Node? && !p.sibling.red && !BlackNephews(p)
    ensures Far(p.side, FarRed(p)).Node?
    ensures var g := if p.red then bh + 1 else bh + 2;
            && Balanced(SisterUp(t, p, FarRed(p)), g) && TakesLoosely(p.up, g)
            && (p.up.Under? && p.up.up.Under? && p.up.red ==> Black(SisterUp(t, p, FarRed(p))))
            && AllItems(SisterUp(t, p, FarRed(p)), p.up) == AllItems(t, p)
  {
    FarRedKeeps(p, bh);
    SisterUpKeeps(t, p, FarRed(p), bh);
  }

  lemma SameUp(t: Tree, p: Path)
    requires p.Under? && p.sibling.Node? && Far(p.side, FarRed(p)).Node?
    ensures SisterUp(t, FarPath(p), FarPath(p).sibling) == SisterUp(t, p, FarRed(p)) && FarPath(p).up == p.up
  {
  }

  lemma ToRedShows(h: Heap, t: Tree, p: Path, bh: nat)
    requires Shows(h, t, p) && Deleting(t, p, bh) && Black(t) && KnowsSister(h, p) && !p.sibling.red && BlackNephews(p)
    ensures Shows(Painted(h, p.sibling.id, true), SisterToRed(t, p), p.up)
    ensures AllItems(SisterToRed(t, p), p.up) == AllItems(t, p)
    ensures !p.red ==> p.up == Top || Deleting(SisterToRed(t, p), p.up, bh + 1)
    ensures p.red ==> Balanced(Paint(SisterToRed(t, p), false), bh + 1) && TakesLoosely(p.up, bh + 1)
  {
    Shown(h, t, p);
    SisterToRedKeeps(t, p, bh);
    SisterToRedView(h, t, p);
    Shown(Painted(h, p.sibling.id, true), SisterToRed(t, p), p.up);
  }

  // ---- One round of the adjustment ----

  function AfterTurn(p: Path): Path {
    if p.Under? && p.sibling.Node? then TurnPath(p) else p
  }

  function AfterUp(p: Path): Path {
    if AfterTurn(p).Under? then AfterTurn(p).up else Top
  }

  predicate BlackNephewsAfter(p: Path) {
    AfterTurn(p).Under? && AfterTurn(p).sibling.Node? && BlackNephews(AfterTurn(p))
  }

  function FixedTree(t: Tree, p: Path): Tree {
    var q := AfterTurn(p);
    if BlackNephewsAfter(p) then SisterToRed(t, q)
    else if q.Under? && q.sibling.Node? && Far(q.side, FarRed(q)).Node? then SisterUp(t, q, FarRed(q))
    else t
  }

  function FixedHeight(p: Path, h: nat): nat {
    var red := AfterTurn(p).Under? && AfterTurn(p).red;
    if BlackNephewsAfter(p) then (if red then h else h + 1) else (if red then h + 1 else h + 2)
  }

  // The subtree is short, or its root is red and only has to become black.
  predicate Pending(t: Tree, p: Path, h: nat) {
    && (Black(t) ==> Deleting(t, p, h) && p.Under? && HasRedRoot(p))
    && (!Black(t) ==> Balanced(BlackRoot(t), h + 1) && TakesLoosely(p, h + 1))
  }

  // Only the root may have the wrong color.
  predicate Settled(t: Tree, p: Path, h: nat) {
    Balanced(t, h) && TakesLoosely(p, h) && (p.Under? && p.up.Under? && p.red ==> Black(t))
  }

  function Depth(p: Path): nat {
    if p == Top then 0 else 1 + Depth(p.up)
  }

  // After a round the view is settled, or pending higher up.
  lemma RoundKeeps(t: Tree, p: Path, h: nat)
    requires Pending(t, p, h) && Black(t)
    ensures var u, q, g := FixedTree(t, p), AfterUp(p), FixedHeight(p, h);
            && u.Node? && AllItems(u, q) == AllItems(t, p)
            && (if BlackNephewsAfter(p) then Pending(u, q, g) && u.id == p.id && (Black(u) ==> Depth(q) < Depth(p))
                else Settled(u, q, g))
  {
    TurnKeeps(t, p, h);
    var q := AfterTurn(p);
    if BlackNephews(q) {
      SisterToRedKeeps(t, q, h);
      assert FixedTree(t, p).red == q.red;
    } else {
      UpKeeps(t, q, h);
    }
  }

  lemma TurnKeeps(t: Tree, p: Path, h: nat)
    requires Pending(t, p, h) && Black(t)
    ensures var q := AfterTurn(p);
            && Deleting(t, q, h) && q.Under? && q.sibling.Node? && !q.sibling.red && q.id == p.id
            && AllItems(t, q) == AllItems(t, p)
            && (q.red || (q == p && p.up.Under? && HasRedRoot(p.up)))
  {
    if p.sibling.red {
      RedSisterKeeps(t, p, h);
      TurnedSister(p, h);
    }
  }

  // ---- Links and colors between the rounds ----

  lemma PendingLinks(h: Heap, t: Tree, p: Path, bh: nat)
    requires Shows(h, t, p) && Pending(t, p, bh) && Black(t)
    ensures p.Under? && 0 < p.id < |h.left| && (Id(t) == h.left[p.id] <==> p.side == Left)
  {
    Shown(h, t, p);
    IdIn(t);
    assert p.sibling.Node?;
    IdIn(p.sibling);
    NoZero(h, p.sibling, p.id);
  }

  lemma ChildKeepsColor(h: Heap, t: Tree, p: Path)
    requires Shows(h, t, p) && KnowsSister(h, p)
    ensures Id(t) < |h.left| && TurnHeap(h, p).red[Id(t)] == h.red[Id(t)]
  {
    Shown(h, t, p);
    IdIn(t);
    IdIn(p.sibling);
    TreeInside(h, t, PathId(p));
  }

  lemma ChildKeepsColorUp(h: Heap, t: Tree, p: Path)
    requires Shows(h, t, p) && KnowsSister(h, p) && Far(p.side, FarRed(p)).Node? && !BlackNephews(p) && !p.sibling.red
    requires var h', q := FarRedHeap(h, p), FarPath(p);
             Sized(h') && |h'.left| == |h.left| && q.sibling.id < |h'.left| && Far(p.side, q.sibling).id < |h'.left|
    ensures Id(t) < |h.left|
    ensures SisterUpHeap(FarRedHeap(h, p), FarPath(p)).red[Id(t)] == h.red[Id(t)]
  {
    ApartFromSister(h, t, p);
    FarRedColor(h, p, Id(t));
    FarIds(p, Id(t));
    SisterUpColor(FarRedHeap(h, p), FarPath(p), Id(t));
  }

  lemma FarIds(p: Path, i: nat)
    requires p.Under? && p.sibling.Node? && !BlackNephews(p) && Far(p.side, FarRed(p)).Node?
    requires i != p.sibling.id
    requires (p.sibling.left.Node? ==> i != p.sibling.left.id) && (p.sibling.right.Node? ==> i != p.sibling.right.id)
    ensures i != FarRed(p).id && i != Far(p.side, FarRed(p)).id
  {
  }

  lemma SisterUpColor(h: Heap, p: Path, i: nat)
    requires Sized(h) && p.Under? && p.sibling.Node? && Far(p.side, p.sibling).Node?
    requires p.id < |h.left| && p.sibling.id < |h.left| && Far(p.side, p.sibling).id < |h.left|
    requires i < |h.left| && i != p.id && i != p.sibling.id && i != Far(p.side, p.sibling).id
    ensures SisterUpHeap(h, p).red[i] == h.red[i]
  {
  }

  lemma ApartFromSister(h: Heap, t: Tree, p: Path)
    requires Shows(h, t, p) && KnowsSister(h, p)
    ensures Id(t) < |h.left| && Id(t) != p.id && Id(t) != p.sibling.id
    ensures p.sibling.left.Node? ==> Id(t) != p.sibling.left.id
    ensures p.sibling.right.Node? ==> Id(t) != p.sibling.right.id
  {
    Shown(h, t, p);
    IdIn(t);
    IdIn(p.sibling.left);
    IdIn(p.sibling.right);
    TreeInside(h, t, PathId(p));
  }

  lemma FarRedColor(h: Heap, p: Path, i: nat)
    requires KnowsSister(h, p) && i < |h.left| && i != p.sibling.id
    requires (p.sibling.left.Node? ==> i != p.sibling.left.id) && (p.sibling.right.Node? ==> i != p.sibling.right.id)
    ensures i < |FarRedHeap(h, p).red| && FarRedHeap(h, p).red[i] == h.red[i]
  {
  }

  lemma FixedIs(h: Heap, t: Tree, p: Path, bh: nat)
    requires Deleting(t, p, bh) && p.Under? && p.sibling.Node?
    requires var q := TurnPath(p);
             q.sibling.Node? && !q.sibling.red && (BlackNephews(q) || Far(q.side, FarRed(q)).Node?)
               && Shows(h, EndTree(t, q), q.up)
    ensures BlackNephewsAfter(p) == BlackNephews(TurnPath(p)) && Shows(h, FixedTree(t, p), AfterUp(p))
  {
  }

  // ---- Before and after the loop ----

  lemma RootLink(h: Heap, t: Tree, p: Path)
    requires Shows(h, t, p)
    ensures |h.left| > 0 && h.left[0] < |h.left| && (h.left[0] == Id(t) <==> p == Top)
  {
    Shown(h, t, p);
    if p.Under? {
      RootInPath(h, p, Id(t));
      NoZeroPath(h, p, Id(t));
      IdIn(t);
    }
  }

  lemma {:induction false} RootInPath(h: Heap, p: Path, child: nat)
    requires RepPath(h, p, child) && p.Under?
    ensures h.left[0] in PathIds(p)
    decreases p
  {
    if p.up == Top { assert h.left[0] == p.id; } else { RootInPath(h, p.up, p.id); }
  }

  lemma OnlyRoot(h: Heap, h': Heap, t: Tree, g: nat)
    requires Shows(h, t, Top) && Balanced(t, g) && |h.left| > 0 && h.left[0] < |h.red| && !h.red[0]
             && h' == h.(red := h'.red) && h'.red == h.red[h.left[0] := false]
    ensures View(h', BlackRoot(t), Top) && IsRedBlack(BlackRoot(t)) && Items(BlackRoot(t)) == AllItems(t, Top)
  {
    Shown(h, t, Top);
    Finish(t, Top, g);
    if t.Node? { PaintView(h, t, Top, false); } else { assert h'.red == h.red; }
  }

  lemma StartFix(h: Heap, t: Tree, p: Path, g: nat)
    requires Shows(h, t, p) && p.Under? && Balanced(t, g) && Takes(p, g + 1) && |h.red| > 0 && !h.red[0]
    ensures |h.left| == |h.red| > 0 && h.left[0] < |h.red|
    ensures var h1, q := Painted(h, h.left[0], true), RedRoot(p);
            && Shows(h1, t, q) && AllItems(t, q) == AllItems(t, p) && Pending(t, q, g) && PathId(q) == PathId(p)
            && Id(t) < |h.red| && h1.red[Id(t)] == !Black(t) && !h1.red[0]
  {
    Shown(h, t, p);
    PaintRootRed(h, t, p);
    RedRootTakes(p, g + 1);
    RootLink(h, t, p);
    RootInPath(h, p, Id(t));
    NoZeroPath(h, p, Id(t));
    Shown(Painted(h, h.left[0], true), t, RedRoot(p));
    TreeInside(h, t, PathId(p));
    IdIn(t);
    assert t.Node? && t.red ==> Balanced(BlackRoot(t), g + 1);
  }
}
