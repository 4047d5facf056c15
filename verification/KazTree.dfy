/** The dictionary of the store: a red-black tree in linked nodes. */
module KazTree {
  import opened RedBlack
  import opened KazHeap

  predicate Sorted(items: seq<Item>) {
    forall i, j :: 0 <= i < j < |items| ==> items[i].key < items[j].key
  }

  ghost predicate IsDict(h: Heap, t: Tree) {
    View(h, t, Top) && !h.red[0] && IsRedBlack(t) && Sorted(Items(t))
  }

  // ---- The view of a node ----

  lemma {:induction false} Focus(h: Heap, t: Tree, p: Path, id: nat) returns (s: Tree, q: Path)
    requires View(h, t, p) && id in Ids(t)
    ensures View(h, s, q) && s.Node? && s.id == id && Plug(s, q) == Plug(t, p) && AllItems(s, q) == AllItems(t, p)
    decreases t
  {
    if t.id == id {
      s, q := t, p;
    } else if id in Ids(t.left) {
      var r := Under(Left, t.id, t.key, t.red, t.right, p);
      assert Join(t.left, r) == t;
      ViewDown(h, t.left, r);
      JoinItems(t.left, r);
      s, q := Focus(h, t.left, r, id);
    } else {
      var r := Under(Right, t.id, t.key, t.red, t.left, p);
      assert Join(t.right, r) == t;
      ViewDown(h, t.right, r);
      JoinItems(t.right, r);
      s, q := Focus(h, t.right, r, id);
    }
  }

  predicate HasId(items: seq<Item>, id: nat) {
    exists i :: 0 <= i < |items| && items[i].id == id
  }

  lemma HasIdIn(a: seq<Item>, b: seq<Item>, id: nat)
    ensures HasId(a + b, id) <==> HasId(a, id) || HasId(b, id)
  {
    var s := a + b;
    if HasId(a, id) { var i :| 0 <= i < |a| && a[i].id == id; assert s[i].id == id; }
    if HasId(b, id) { var i :| 0 <= i < |b| && b[i].id == id; assert s[|a| + i].id == id; }
    if HasId(s, id) {
      var i :| 0 <= i < |s| && s[i].id == id;
      assert if i < |a| then a[i].id == id else b[i - |a|].id == id;
    }
  }

  lemma {:induction false} IdsOfItems(t: Tree, id: nat)
    ensures id in Ids(t) <==> HasId(Items(t), id)
  {
    if t.Node? {
      IdsOfItems(t.left, id);
      IdsOfItems(t.right, id);
      HasIdIn(Items(t.left) + [Item(t.id, t.key)], Items(t.right), id);
      HasIdIn(Items(t.left), [Item(t.id, t.key)], id);
      if id == t.id { assert [Item(t.id, t.key)][0].id == id; }
    }
  }

  // ---- Search order ----

  predicate AllBelow(items: seq<Item>, k: int) {
    forall i :: 0 <= i < |items| ==> items[i].key < k
  }

  predicate AllAbove(items: seq<Item>, k: int) {
    forall i :: 0 <= i < |items| ==> items[i].key > k
  }

  lemma SortedAround(a: seq<Item>, x: Item, b: seq<Item>)
    requires Sorted(a + [x] + b)
    ensures AllBelow(a, x.key) && AllAbove(b, x.key) && Sorted(a) && Sorted(b)
  {
    var s := a + [x] + b;
    forall i | 0 <= i < |a| ensures a[i].key < x.key { assert s[i] == a[i] && s[|a|] == x; }
    forall i | 0 <= i < |b| ensures b[i].key > x.key { assert s[|a| + 1 + i] == b[i] && s[|a|] == x; }
    forall i, j | 0 <= i < j < |a| ensures a[i].key < a[j].key { assert s[i] == a[i] && s[j] == a[j]; }
    forall i, j | 0 <= i < j < |b|
      ensures b[i].key < b[j].key
    {
      assert s[|a| + 1 + i] == b[i] && s[|a| + 1 + j] == b[j];
    }
  }

  lemma SortedWith(a: seq<Item>, x: Item, b: seq<Item>)
    requires Sorted(a + b) && AllBelow(a, x.key) && AllAbove(b, x.key)
    ensures Sorted(a + [x] + b)
  {
    var s, r := a + b, a + [x] + b;
    forall i, j | 0 <= i < j < |r| ensures r[i].key < r[j].key {
      var i', j' := if i > |a| then i - 1 else i, if j > |a| then j - 1 else j;
      if i != |a| && j != |a| { assert r[i] == s[i'] && r[j] == s[j']; }
    }
  }

  lemma SortedWithout(a: seq<Item>, x: Item, b: seq<Item>)
    requires Sorted(a + [x] + b)
    ensures Sorted(a + b)
  {
    var s, r := a + [x] + b, a + b;
    forall i, j | 0 <= i < j < |r| ensures r[i].key < r[j].key {
      assert r[i] == s[if i < |a| then i else i + 1] && r[j] == s[if j < |a| then j else j + 1];
    }
  }

  // The key k belongs into this view, if anywhere.
  predicate Around(p: Path, k: int) {
    AllBelow(Before(p), k) && AllAbove(After(p), k)
  }

  lemma GoLeft(t: Tree, p: Path, k: int)
    requires t.Node? && Sorted(AllItems(t, p)) && Around(p, k) && k < t.key
    ensures var q := Under(Left, t.id, t.key, t.red, t.right, p); Around(q, k) && AllItems(t.left, q) == AllItems(t, p)
  {
    var q := Under(Left, t.id, t.key, t.red, t.right, p);
    JoinItems(t.left, q);
    assert Join(t.left, q) == t;
    var a, x, b := Before(p) + Items(t.left), Item(t.id, t.key), Items(t.right) + After(p);
    assert AllItems(t, p) == a + [x] + b;
    SortedAround(a, x, b);
    assert After(q) == [x] + b;
  }

  lemma GoRight(t: Tree, p: Path, k: int)
    requires t.Node? && Sorted(AllItems(t, p)) && Around(p, k) && k > t.key
    ensures var q := Under(Right, t.id, t.key, t.red, t.left, p); Around(q, k) && AllItems(t.right, q) == AllItems(t, p)
  {
    var q := Under(Right, t.id, t.key, t.red, t.left, p);
    JoinItems(t.right, q);
    assert Join(t.right, q) == t;
    var a, x, b := Before(p) + Items(t.left), Item(t.id, t.key), Items(t.right) + After(p);
    assert AllItems(t, p) == a + [x] + b;
    SortedAround(a, x, b);
    assert Before(q) == a + [x];
  }

  lemma RootItem(t: Tree, p: Path)
    requires t.Node?
    ensures Item(t.id, t.key) in AllItems(t, p)
  {
    assert Item(t.id, t.key) in Items(t);
  }

  // ---- The heap after each adjustment ----

  lemma RedUncleView(h: Heap, t: Tree, p: Path)
    requires View(h, t, p) && p.Under? && p.up.Under? && p.up.sibling.Node?
    ensures IsNode(h, p.id) && IsNode(h, p.up.id) && IsNode(h, p.up.sibling.id)
    ensures View(Painted(Painted(Painted(h, p.id, false), p.up.sibling.id, false), p.up.id, true), RedUncle(t, p),
                 p.up.up)
  {
    assert RepPath(h, p.up, p.id);
    PaintParent(h, t, p, false);
    var h1, black := Painted(h, p.id, false), p.(red := false);
    ViewUp(h1, t, black);
    PaintSibling(h1, Join(t, black), p.up, false);
    var h2, q := Painted(h1, p.up.sibling.id, false), p.up.(sibling := Paint(p.up.sibling, false));
    PaintParent(h2, Join(t, black), q, true);
    ViewUp(Painted(h2, p.up.id, true), Join(t, black), q.(red := true));
  }

  lemma OuterView(h: Heap, t: Tree, p: Path)
    requires View(h, t, p) && t.Node? && p.Under? && p.up.Under?
    ensures View(if p.side == p.up.side then h
                 else if p.side == Right then RotatedLeft(h, p.id) else RotatedRight(h, p.id), Outer(t, p), p.up)
  {
    ViewUp(h, t, p);
    if p.side != p.up.side {
      if p.side == Right { RotateLeftView(h, Join(t, p), p.up); } else { RotateRightView(h, Join(t, p), p.up); }
    }
  }

  lemma BlackUncleView(h: Heap, t: Tree, p: Path)
    requires t.Node? && p.Under? && p.up.Under? && View(h, Outer(t, p), p.up)
    ensures IsNode(h, Outer(t, p).id) && IsNode(h, p.up.id)
    ensures var h' := Painted(Painted(h, Outer(t, p).id, false), p.up.id, true);
            && Sized(h') && p.up.id < |h.left|
            && View(if p.up.side == Left then RotatedRight(h', p.up.id) else RotatedLeft(h', p.up.id),
                    BlackUncle(t, p), p.up.up)
  {
    var o := Outer(t, p);
    PaintView(h, o, p.up, false);
    var h1 := Painted(h, o.id, false);
    PaintParent(h1, Paint(o, false), p.up, true);
    var h2, g := Painted(h1, p.up.id, true), Join(Paint(o, false), p.up.(red := true));
    ViewUp(h2, Paint(o, false), p.up.(red := true));
    if p.up.side == Left { RotateRightView(h2, g, p.up.up); } else { RotateLeftView(h2, g, p.up.up); }
  }

  lemma RedSisterView(h: Heap, t: Tree, p: Path)
    requires View(h, t, p) && p.Under? && p.sibling.Node?
    ensures var h' := Painted(Painted(h, p.sibling.id, false), p.id, true);
            && Sized(h') && p.id < |h.left|
            && View(if p.side == Left then RotatedLeft(h', p.id) else RotatedRight(h', p.id), t, RedSister(p))
  {
    PaintSibling(h, t, p, false);
    var h1, q := Painted(h, p.sibling.id, false), p.(sibling := Paint(p.sibling, false));
    PaintParent(h1, t, q, true);
    var h2, r := Painted(h1, p.id, true), q.(red := true);
    ViewUp(h2, t, r);
    if p.side == Left {
      RotateLeftView(h2, Join(t, r), p.up);
      DownTwice(RotatedLeft(h2, p.id), t, RedSister(p), RotateLeft(Join(t, r)), p.up);
    } else {
      RotateRightView(h2, Join(t, r), p.up);
      DownTwice(RotatedRight(h2, p.id), t, RedSister(p), RotateRight(Join(t, r)), p.up);
    }
  }

  lemma DownTwice(h: Heap, t: Tree, p: Path, u: Tree, top: Path)
    requires p.Under? && p.up.Under? && p.up.up == top && u == Join(Join(t, p), p.up) && View(h, u, top)
    ensures View(h, t, p)
  {
    ViewDown(h, Join(t, p), p.up);
    ViewDown(h, t, p);
  }

  lemma SisterToRedView(h: Heap, t: Tree, p: Path)
    requires View(h, t, p) && p.Under? && p.sibling.Node?
    ensures View(Painted(h, p.sibling.id, true), SisterToRed(t, p), p.up)
  {
    PaintSibling(h, t, p, true);
    ViewUp(Painted(h, p.sibling.id, true), t, p.(sibling := Paint(p.sibling, true)));
  }

  // After the inner child of the sister has taken its place, if need be.
  lemma FarRedView(h: Heap, t: Tree, p: Path)
    requires View(h, t, p) && p.Under? && p.sibling.Node?
    ensures View(FarRedHeap(h, p), t, p.(sibling := FarRed(p)))
  {
    var s, q := p.sibling, Across(t, p);
    ViewAcross(h, t, p);
    if p.side == Left && Black(s.right) && s.left.Node? {
      LeftChildUp(h, s, q);
    } else if p.side == Right && Black(s.left) && s.right.Node? {
      RightChildUp(h, s, q);
    }
    ViewAcross(FarRedHeap(h, p), FarRed(p), q);
    assert Across(FarRed(p), q) == p.(sibling := FarRed(p));
  }

  lemma LeftChildUp(h: Heap, s: Tree, q: Path)
    requires View(h, s, q) && s.Node? && s.left.Node?
    ensures IsNode(h, s.id) && IsNode(h, s.left.id)
    ensures View(RotatedRight(Painted(Painted(h, s.left.id, false), s.id, true), s.id),
                 RotateRight(s.(red := true, left := Paint(s.left, false))), q)
  {
    var r := Under(Left, s.id, s.key, s.red, s.right, q);
    assert Join(s.left, r) == s && RepTree(h, s.left, s.id);
    ViewDown(h, s.left, r);
    PaintView(h, s.left, r, false);
    var h1 := Painted(h, s.left.id, false);
    ViewUp(h1, Paint(s.left, false), r);
    PaintView(h1, Join(Paint(s.left, false), r), q, true);
    RotateRightView(Painted(h1, s.id, true), s.(red := true, left := Paint(s.left, false)), q);
  }

  lemma RightChildUp(h: Heap, s: Tree, q: Path)
    requires View(h, s, q) && s.Node? && s.right.Node?
    ensures IsNode(h, s.id) && IsNode(h, s.right.id)
    ensures View(RotatedLeft(Painted(Painted(h, s.right.id, false), s.id, true), s.id),
                 RotateLeft(s.(red := true, right := Paint(s.right, false))), q)
  {
    var r := Under(Right, s.id, s.key, s.red, s.left, q);
    assert Join(s.right, r) == s && RepTree(h, s.right, s.id);
    ViewDown(h, s.right, r);
    PaintView(h, s.right, r, false);
    var h1 := Painted(h, s.right.id, false);
    ViewUp(h1, Paint(s.right, false), r);
    PaintView(h1, Join(Paint(s.right, false), r), q, true);
    RotateLeftView(Painted(h1, s.id, true), s.(red := true, right := Paint(s.right, false)), q);
  }

  function FarRedHeap(h: Heap, p: Path): Heap
    requires Sized(h) && p.Under? && p.sibling.Node?
  {
    var s := p.sibling;
    if p.side == Left && Black(s.right) && s.left.Node? && s.left.id < |h.red| && s.id < |h.red| then
      RotatedRight(Painted(Painted(h, s.left.id, false), s.id, true), s.id)
    else if p.side == Right && Black(s.left) && s.right.Node? && s.right.id < |h.red| && s.id < |h.red| then
      RotatedLeft(Painted(Painted(h, s.right.id, false), s.id, true), s.id)
    else h
  }

  // The child of the sister on the far side.
  function Far(side: Side, s: Tree): Tree
    requires s.Node?
  {
    if side == Left then s.right else s.left
  }

  function SisterUpHeap(h: Heap, p: Path): Heap
    requires Sized(h) && p.Under? && p.sibling.Node? && Far(p.side, p.sibling).Node?
    requires p.id < |h.left| && p.sibling.id < |h.left| && Far(p.side, p.sibling).id < |h.left|
  {
    var h3 := Painted(Painted(Painted(h, p.sibling.id, p.red), Far(p.side, p.sibling).id, false), p.id, false);
    if p.side == Left then RotatedLeft(h3, p.id) else RotatedRight(h3, p.id)
  }

  lemma SisterUpView(h: Heap, t: Tree, p: Path)
    requires View(h, t, p) && p.Under? && p.sibling.Node? && Far(p.side, p.sibling).Node?
    ensures IsNode(h, p.id) && IsNode(h, p.sibling.id) && IsNode(h, Far(p.side, p.sibling).id)
    ensures View(SisterUpHeap(h, p), SisterUp(t, p, p.sibling), p.up)
  {
    var s := p.sibling;
    assert RepTree(h, s, p.id) && RepTree(h, Far(p.side, s), s.id);
    PaintSibling(h, t, p, p.red);
    var h1, s1 := Painted(h, s.id, p.red), Paint(s, p.red);
    var q := p.(sibling := s1);
    PaintFar(h1, t, q);
    var h2 := Painted(h1, Far(p.side, s).id, false);
    var s2 := if p.side == Left then s1.(right := Paint(s.right, false)) else s1.(left := Paint(s.left, false));
    var r := p.(sibling := s2);
    PaintParent(h2, t, r, false);
    var h3 := Painted(h2, p.id, false);
    ViewUp(h3, t, r.(red := false));
    if p.side == Left {
      RotateLeftView(h3, Join(t, r.(red := false)), p.up);
    } else {
      RotateRightView(h3, Join(t, r.(red := false)), p.up);
    }
  }

  lemma PaintFar(h: Heap, t: Tree, p: Path)
    requires View(h, t, p) && p.Under? && p.sibling.Node? && Far(p.side, p.sibling).Node?
    ensures var s := p.sibling;
            View(Painted(h, Far(p.side, s).id, false), t,
                 p.(sibling := if p.side == Left then s.(right := Paint(s.right, false))
                              else s.(left := Paint(s.left, false))))
  {
    var s, f := p.sibling, Far(p.side, p.sibling);
    ViewAcross(h, t, p);
    var q := Across(t, p);
    var r := if p.side == Left then Under(Right, s.id, s.key, s.red, s.left, q)
             else Under(Left, s.id, s.key, s.red, s.right, q);
    assert Join(f, r) == s;
    ViewDown(h, f, r);
    PaintView(h, f, r, false);
    var h' := Painted(h, f.id, false);
    ViewUp(h', Paint(f, false), r);
    ViewAcross(h', Join(Paint(f, false), r), q);
  }

  // ---- A new leaf ----

  function Linked(h: Heap, p: Path, node: nat): Heap
    requires Sized(h) && node < |h.left| && PathId(p) < |h.left|
  {
    Rehung(h.(left := h.left[node := 0], right := h.right[node := 0], red := h.red[node := true]), p, node)
  }

  lemma LinkedView(h: Heap, p: Path, node: nat)
    requires View(h, Leaf, p) && IsNode(h, node) && node !in PathIds(p)
    ensures PathId(p) < |h.left| && View(Linked(h, p, node), Node(node, h.key[node], true, Leaf, Leaf), p)
  {
    PathIdIn(h, p, 0);
    var h1 := h.(left := h.left[node := 0], right := h.right[node := 0], red := h.red[node := true]);
    PathInside(h, p, 0);
    NoZeroPath(h, p, 0);
    PathStays(h, h1, p, 0);
    var t := Node(node, h.key[node], true, Leaf, Leaf);
    assert RepTree(h1, t, h1.parent[node]);
    RehungView(h1, p, 0, t, h1.parent[node]);
  }
}
