/** Red-black trees in nodes with links to both children and to the parent, and a sentinel node 0. */
module KazHeap {
  import opened RedBlack

  // Node 0 is the sentinel: its left child is the root.
  datatype Heap = Heap(left: seq<nat>, right: seq<nat>, parent: seq<nat>, red: seq<bool>, key: seq<int>)

  predicate Sized(h: Heap) {
    && |h.left| > 0 && |h.left| == |h.right| == |h.parent| == |h.red| == |h.key|
    && (forall i :: 0 <= i < |h.left| ==> h.left[i] < |h.left|)
    && (forall i :: 0 <= i < |h.left| ==> h.right[i] < |h.left|)
    && (forall i :: 0 <= i < |h.left| ==> h.parent[i] < |h.left|)
  }

  function Id(t: Tree): nat {
    if t.Leaf? then 0 else t.id
  }

  function PathId(p: Path): nat {
    if p == Top then 0 else p.id
  }

  predicate IsNode(h: Heap, i: nat) {
    0 < i < |h.left| == |h.right| == |h.parent| == |h.red| == |h.key|
  }

  // The nodes of the heap hold the tree, which hangs under node `up`.
  predicate RepTree(h: Heap, t: Tree, up: nat) {
    match t
    case Leaf => true
    case Node(id, key, red, l, r) =>
      && IsNode(h, id) && h.key[id] == key && h.red[id] == red && h.parent[id] == up
      && h.left[id] == Id(l) && h.right[id] == Id(r) && RepTree(h, l, id) && RepTree(h, r, id)
  }

  // The nodes of the heap hold the path, with `child` in its hole.
  predicate RepPath(h: Heap, p: Path, child: nat) {
    match p
    case Top => |h.left| > 0 && h.left[0] == child
    case Under(side, id, key, red, sib, up) =>
      && IsNode(h, id) && h.key[id] == key && h.red[id] == red && h.parent[id] == PathId(up)
      && (if side == Left then h.left[id] == child && h.right[id] == Id(sib)
           else h.right[id] == child && h.left[id] == Id(sib))
      && RepTree(h, sib, id) && RepPath(h, up, id)
  }

  function Ids(t: Tree): set<nat> {
    match t
    case Leaf => {}
    case Node(id, _, _, l, r) => {id} + Ids(l) + Ids(r)
  }

  function PathIds(p: Path): set<nat> {
    match p
    case Top => {}
    case Under(_, id, _, _, sib, up) => {id} + Ids(sib) + PathIds(up)
  }

  predicate Unique(t: Tree) {
    match t
    case Leaf => true
    case Node(id, _, _, l, r) => id !in Ids(l) && id !in Ids(r) && Ids(l) !! Ids(r) && Unique(l) && Unique(r)
  }

  predicate UniquePath(p: Path) {
    match p
    case Top => true
    case Under(_, id, _, _, sib, up) =>
      id !in Ids(sib) && id !in PathIds(up) && Ids(sib) !! PathIds(up) && Unique(sib) && UniquePath(up)
  }

  predicate Apart(t: Tree, p: Path) {
    Unique(t) && UniquePath(p) && Ids(t) !! PathIds(p)
  }

  predicate View(h: Heap, t: Tree, p: Path) {
    Sized(h) && h.right[0] == 0 && RepTree(h, t, PathId(p)) && RepPath(h, p, Id(t)) && Apart(t, p)
  }

  // The same, to be looked into only on demand.
  ghost predicate Shows(h: Heap, t: Tree, p: Path) {
    forall up {:trigger RepTree(h, t, up)} :: up == PathId(p) ==> View(h, t, p)
  }

  lemma Shown(h: Heap, t: Tree, p: Path)
    ensures Shows(h, t, p) <==> View(h, t, p)
  {
    var held := RepTree(h, t, PathId(p));
    if Shows(h, t, p) && held { assert View(h, t, p); }
  }

  // ---- Moving the view ----

  lemma ViewUp(h: Heap, t: Tree, p: Path)
    requires View(h, t, p) && p.Under?
    ensures View(h, Join(t, p), p.up)
  {
  }

  lemma ViewDown(h: Heap, t: Tree, p: Path)
    requires p.Under? && View(h, Join(t, p), p.up)
    ensures View(h, t, p)
  {
  }

  lemma {:induction false} ViewTop(h: Heap, t: Tree, p: Path)
    requires View(h, t, p)
    ensures View(h, Plug(t, p), Top)
    decreases p
  {
    if p.Under? {
      ViewUp(h, t, p);
      ViewTop(h, Join(t, p), p.up);
    }
  }

  // ---- What a change elsewhere leaves alone ----

  predicate Same(h: Heap, h': Heap, i: nat) {
    IsNode(h, i) ==>
      IsNode(h', i) && h'.left[i] == h.left[i] && h'.right[i] == h.right[i] && h'.parent[i] == h.parent[i]
      && h'.red[i] == h.red[i] && h'.key[i] == h.key[i]
  }

  lemma {:induction false} TreeStays(h: Heap, h': Heap, t: Tree, up: nat)
    requires RepTree(h, t, up) && forall i :: i in Ids(t) ==> Same(h, h', i)
    ensures RepTree(h', t, up)
  {
    if t.Node? {
      assert Same(h, h', t.id);
      TreeStays(h, h', t.left, t.id);
      TreeStays(h, h', t.right, t.id);
    }
  }

  // The same with a new parent for the root.
  lemma TreeMoves(h: Heap, h': Heap, t: Tree, up: nat, up': nat)
    requires RepTree(h, t, up) && Unique(t)
    requires forall i :: i in Ids(t) && i != Id(t) ==> Same(h, h', i)
    requires t.Node? ==> IsNode(h', t.id) && h'.left[t.id] == h.left[t.id] && h'.right[t.id] == h.right[t.id]
                         && h'.red[t.id] == h.red[t.id] && h'.key[t.id] == h.key[t.id] && h'.parent[t.id] == up'
    ensures RepTree(h', t, up')
  {
    if t.Node? {
      TreeStays(h, h', t.left, t.id);
      TreeStays(h, h', t.right, t.id);
    }
  }

  lemma {:induction false} PathStays(h: Heap, h': Heap, p: Path, child: nat)
    requires RepPath(h, p, child) && (forall i :: i in PathIds(p) ==> Same(h, h', i))
    requires |h'.left| > 0 && h'.left[0] == h.left[0]
    ensures RepPath(h', p, child)
  {
    if p.Under? {
      assert Same(h, h', p.id);
      TreeStays(h, h', p.sibling, p.id);
      PathStays(h, h', p.up, p.id);
    }
  }

  // The child link that leads into the hole.
  function Hang(h: Heap, p: Path, child: nat): Heap
    requires PathId(p) < |h.left| == |h.right|
  {
    if p == Top || p.side == Left then h.(left := h.left[PathId(p) := child]) else h.(right := h.right[p.id := child])
  }

  // The path with another child in its hole, after changes outside the path.
  lemma PathTakes(h: Heap, h': Heap, p: Path, child: nat, child': nat)
    requires Sized(h) && RepPath(h, p, child) && UniquePath(p) && |h'.left| > 0
    requires forall i :: i in PathIds(p) && i != PathId(p) ==> Same(h, h', i)
    requires if p == Top then h'.left[0] == child'
             else h'.left[0] == h.left[0] && IsNode(h', p.id) && h'.parent[p.id] == h.parent[p.id]
                  && h'.red[p.id] == h.red[p.id]
                  && h'.key[p.id] == h.key[p.id] && h'.left[p.id] == (if p.side == Left then child' else h.left[p.id])
                  && h'.right[p.id] == (if p.side == Left then h.right[p.id] else child')
    ensures RepPath(h', p, child')
  {
    if p.Under? {
      TreeStays(h, h', p.sibling, p.id);
      PathStays(h, h', p.up, p.id);
    }
  }

  // ---- Painting ----

  function Painted(h: Heap, i: nat, red: bool): (r: Heap)
    requires i < |h.red|
    ensures (Sized(h) ==> Sized(r)) && |r.left| == |h.left| && |r.red| == |h.red|
  {
    h.(red := h.red[i := red])
  }

  lemma PaintView(h: Heap, t: Tree, p: Path, red: bool)
    requires View(h, t, p) && t.Node?
    ensures View(Painted(h, t.id, red), Paint(t, red), p)
  {
    var h' := Painted(h, t.id, red);
    NoZeroPath(h, p, t.id);
    TreeStays(h, h', t.left, t.id);
    TreeStays(h, h', t.right, t.id);
    PathStays(h, h', p, t.id);
  }

  // ---- Rotations ----

  function RotatedLeft(h: Heap, upper: nat): (r: Heap)
    requires Sized(h) && upper < |h.left|
    ensures Sized(r) && |r.left| == |h.left| && r.red == h.red && r.key == h.key
  {
    var lower := h.right[upper];
    var lowleft := h.left[lower];
    var h1 := h.(right := h.right[upper := lowleft], parent := h.parent[lowleft := upper]);
    var upparent := h1.parent[upper];
    var h2 := h1.(parent := h1.parent[lower := upparent]);
    var h3 := if upper == h2.left[upparent] then h2.(left := h2.left[upparent := lower])
              else h2.(right := h2.right[upparent := lower]);
    h3.(left := h3.left[lower := upper], parent := h3.parent[upper := lower])
  }

  function RotatedRight(h: Heap, upper: nat): (r: Heap)
    requires Sized(h) && upper < |h.left|
    ensures Sized(r) && |r.left| == |h.left| && r.red == h.red && r.key == h.key
  {
    var lower := h.left[upper];
    var lowright := h.right[lower];
    var h1 := h.(left := h.left[upper := lowright], parent := h.parent[lowright := upper]);
    var upparent := h1.parent[upper];
    var h2 := h1.(parent := h1.parent[lower := upparent]);
    var h3 := if upper == h2.right[upparent] then h2.(right := h2.right[upparent := lower])
              else h2.(left := h2.left[upparent := lower]);
    h3.(right := h3.right[lower := upper], parent := h3.parent[upper := lower])
  }

  // What the rotation changes: b is the middle subtree, up the parent.
  lemma LeftRotationFields(h: Heap, upper: nat, lower: nat, b: nat, up: nat)
    requires Sized(h) && IsNode(h, upper) && IsNode(h, lower) && b < |h.left| && up < |h.left|
    requires upper != lower && b != upper && b != lower && up != upper && up != lower
    requires h.right[upper] == lower && h.left[lower] == b && h.parent[upper] == up
    ensures var h' := RotatedLeft(h, upper);
            && Sized(h') && |h'.left| == |h.left| && h'.key == h.key && h'.red == h.red
            && h'.parent == h.parent[b := upper][lower := up][upper := lower]
            && (if upper == h.left[up] then h'.left == h.left[up := lower][lower := upper]
                 && h'.right == h.right[upper := b]
                else h'.left == h.left[lower := upper] && h'.right == h.right[upper := b][up := lower])
  {
  }

  lemma RightRotationFields(h: Heap, upper: nat, lower: nat, b: nat, up: nat)
    requires Sized(h) && IsNode(h, upper) && IsNode(h, lower) && b < |h.left| && up < |h.left|
    requires upper != lower && b != upper && b != lower && up != upper && up != lower
    requires h.left[upper] == lower && h.right[lower] == b && h.parent[upper] == up
    ensures var h' := RotatedRight(h, upper);
            && Sized(h') && |h'.left| == |h.left| && h'.key == h.key && h'.red == h.red
            && h'.parent == h.parent[b := upper][lower := up][upper := lower]
            && (if upper == h.right[up] then h'.right == h.right[up := lower][lower := upper]
                 && h'.left == h.left[upper := b]
                else h'.right == h.right[lower := upper] && h'.left == h.left[upper := b][up := lower])
  {
  }

  lemma PathIdIn(h: Heap, p: Path, child: nat)
    requires Sized(h) && RepPath(h, p, child)
    ensures p.Under? ==> PathId(p) in PathIds(p) && PathId(p) > 0
    ensures PathId(p) < |h.left|
  {
  }

  lemma {:induction false} NoZero(h: Heap, t: Tree, up: nat)
    requires RepTree(h, t, up)
    ensures 0 !in Ids(t)
  {
    if t.Node? {
      NoZero(h, t.left, t.id);
      NoZero(h, t.right, t.id);
    }
  }

  lemma {:induction false} NoZeroPath(h: Heap, p: Path, child: nat)
    requires RepPath(h, p, child)
    ensures 0 !in PathIds(p)
  {
    if p.Under? {
      NoZero(h, p.sibling, p.id);
      NoZeroPath(h, p.up, p.id);
    }
  }

  lemma IdIn(t: Tree)
    ensures t.Node? ==> Id(t) in Ids(t)
  {
  }

  // The nodes stay clear of the nodes that a rotation changes.
  predicate Away(ids: set<nat>, upper: nat, lower: nat, b: nat, up: nat) {
    0 !in ids && upper !in ids && lower !in ids && b !in ids && up !in ids
  }

  // h' is h except at the given nodes; of b only the parent changes, of up only the link to a child.
  predicate OnlyRotated(h: Heap, h': Heap, upper: nat, lower: nat, b: nat, up: nat) {
    && Sized(h) && Sized(h') && |h'.left| == |h.left| && h'.key == h.key && h'.red == h.red
    && upper < |h.left| && lower < |h.left| && b < |h.left| && up < |h.left|
    && (forall i :: 0 < i < |h.left| && i != upper && i != lower && i != b && i != up ==> Same(h, h', i))
    && (b != 0 ==> h'.left[b] == h.left[b] && h'.right[b] == h.right[b] && h'.parent[b] == upper)
    && (up != 0 ==> h'.parent[up] == h.parent[up])
    && h'.parent[upper] == lower && h'.parent[lower] == up
    && (up != 0 ==> h'.left[0] == h.left[0]) && h'.right[0] == h.right[0]
  }

  lemma RotationSpares(h: Heap, h': Heap, a: Tree, at: nat, upper: nat, lower: nat, b: nat, up: nat)
    requires OnlyRotated(h, h', upper, lower, b, up) && RepTree(h, a, at) && Away(Ids(a), upper, lower, b, up)
    ensures RepTree(h', a, at)
  {
    TreeInside(h, a, at);
    TreeStays(h, h', a, at);
  }

  lemma RotationMoves(h: Heap, h': Heap, b: Tree, upper: nat, lower: nat, up: nat)
    requires OnlyRotated(h, h', upper, lower, Id(b), up) && RepTree(h, b, lower) && Unique(b)
    requires upper !in Ids(b) && lower !in Ids(b) && 0 !in Ids(b) && up !in Ids(b)
    ensures RepTree(h', b, upper)
  {
    TreeInside(h, b, lower);
    TreeMoves(h, h', b, lower, upper);
  }

  lemma {:induction false} TreeInside(h: Heap, t: Tree, up: nat)
    requires RepTree(h, t, up)
    ensures forall i :: i in Ids(t) ==> IsNode(h, i)
  {
    if t.Node? {
      TreeInside(h, t.left, t.id);
      TreeInside(h, t.right, t.id);
    }
  }

  lemma {:induction false} PathInside(h: Heap, p: Path, child: nat)
    requires RepPath(h, p, child)
    ensures forall i :: i in PathIds(p) ==> IsNode(h, i)
  {
    if p.Under? {
      TreeInside(h, p.sibling, p.id);
      PathInside(h, p.up, p.id);
    }
  }

  lemma RotatedPath(h: Heap, h': Heap, p: Path, upper: nat, lower: nat, b: nat)
    requires OnlyRotated(h, h', upper, lower, b, PathId(p)) && RepPath(h, p, upper) && UniquePath(p)
    requires upper !in PathIds(p) && lower !in PathIds(p) && 0 !in PathIds(p) && b !in PathIds(p)
    requires if p == Top || p.side == Left then h'.left[PathId(p)] == lower && h'.right[PathId(p)] == h.right[PathId(p)]
             else h'.right[p.id] == lower && h'.left[p.id] == h.left[p.id]
    ensures RepPath(h', p, lower)
  {
    PathInside(h, p, upper);
    PathTakes(h, h', p, upper, lower);
  }

  // The parts of a view around a node with a child.
  lemma PartsOfRight(h: Heap, t: Tree, p: Path)
    requires View(h, t, p) && t.Node? && t.right.Node?
    ensures var upper, lower, b := t.id, t.right.id, t.right.left;
            && IsNode(h, upper) && IsNode(h, lower) && h.right[upper] == lower && h.left[lower] == Id(b)
            && h.parent[upper] == PathId(p)
            && h.left[upper] == Id(t.left) && h.right[lower] == Id(t.right.right)
            && h.key[upper] == t.key && h.red[upper] == t.red && h.key[lower] == t.right.key
            && h.red[lower] == t.right.red
    ensures var upper, lower, a, b, c, up := t.id, t.right.id, t.left, t.right.left, t.right.right, PathId(p);
            && upper != lower && up != upper && up != lower && Id(b) != upper && Id(b) != lower && Id(b) < |h.left|
            && up < |h.left|
            && RepTree(h, a, upper) && RepTree(h, b, lower) && RepTree(h, c, lower) && Unique(b)
            && Away(Ids(a), upper, lower, Id(b), up) && Away(Ids(c), upper, lower, Id(b), up)
            && upper !in Ids(b) && lower !in Ids(b) && 0 !in Ids(b) && up !in Ids(b)
            && upper !in PathIds(p) && lower !in PathIds(p) && 0 !in PathIds(p) && Id(b) !in PathIds(p)
  {
    assert RepTree(h, t.right, t.id) && Unique(t.right);
    NoZero(h, t, PathId(p));
    NoZeroPath(h, p, t.id);
    PathIdIn(h, p, t.id);
    IdIn(t.right.left);
    TreeInside(h, t.right.left, t.right.id);
  }

  lemma PartsOfLeft(h: Heap, t: Tree, p: Path)
    requires View(h, t, p) && t.Node? && t.left.Node?
    ensures var upper, lower, b := t.id, t.left.id, t.left.right;
            && IsNode(h, upper) && IsNode(h, lower) && h.left[upper] == lower && h.right[lower] == Id(b)
            && h.parent[upper] == PathId(p)
            && h.right[upper] == Id(t.right) && h.left[lower] == Id(t.left.left)
            && h.key[upper] == t.key && h.red[upper] == t.red && h.key[lower] == t.left.key
            && h.red[lower] == t.left.red
    ensures var upper, lower, a, b, c, up := t.id, t.left.id, t.left.left, t.left.right, t.right, PathId(p);
            && upper != lower && up != upper && up != lower && Id(b) != upper && Id(b) != lower && Id(b) < |h.left|
            && up < |h.left|
            && RepTree(h, a, lower) && RepTree(h, b, lower) && RepTree(h, c, upper) && Unique(b)
            && Away(Ids(a), upper, lower, Id(b), up) && Away(Ids(c), upper, lower, Id(b), up)
            && upper !in Ids(b) && lower !in Ids(b) && 0 !in Ids(b) && up !in Ids(b)
            && upper !in PathIds(p) && lower !in PathIds(p) && 0 !in PathIds(p) && Id(b) !in PathIds(p)
  {
    assert RepTree(h, t.left, t.id) && Unique(t.left);
    NoZero(h, t, PathId(p));
    NoZeroPath(h, p, t.id);
    PathIdIn(h, p, t.id);
    IdIn(t.left.right);
    TreeInside(h, t.left.right, t.left.id);
  }

  // The links that the rotation of `upper` to the left sets.
  predicate LeftLinks(h: Heap, h': Heap, upper: nat, lower: nat, b: nat) {
    && |h'.left| == |h'.right| == |h.left| == |h.right| && upper < |h.left| && lower < |h.left|
    && h'.left[lower] == upper && h'.right[lower] == h.right[lower] && h'.left[upper] == h.left[upper]
    && h'.right[upper] == b
  }

  predicate RightLinks(h: Heap, h': Heap, upper: nat, lower: nat, b: nat) {
    && |h'.left| == |h'.right| == |h.left| == |h.right| && upper < |h.left| && lower < |h.left|
    && h'.right[lower] == upper && h'.left[lower] == h.left[lower] && h'.right[upper] == h.right[upper]
    && h'.left[upper] == b
  }

  // The link to the rotated subtree.
  predicate Relinked(h: Heap, h': Heap, p: Path, lower: nat) {
    && |h'.left| == |h'.right| == |h.left| == |h.right| && PathId(p) < |h.left|
    && if p == Top || p.side == Left then h'.left[PathId(p)] == lower && h'.right[PathId(p)] == h.right[PathId(p)]
       else h'.right[p.id] == lower && h'.left[p.id] == h.left[p.id]
  }

  lemma LeftRotationOnly(h: Heap, upper: nat, lower: nat, b: nat, p: Path)
    requires Sized(h) && h.right[0] == 0 && IsNode(h, upper) && IsNode(h, lower) && b < |h.left| && PathId(p) < |h.left|
    requires upper != lower && b != upper && b != lower && PathId(p) != upper && PathId(p) != lower
             && (b == PathId(p) ==> b == 0)
    requires h.right[upper] == lower && h.left[lower] == b && h.parent[upper] == PathId(p)
    requires p == Top || p.side == Left ==> h.left[PathId(p)] == upper
    requires p.Under? ==> p.id > 0 && (p.side == Right ==> h.right[p.id] == upper && h.left[p.id] != upper)
    ensures var h' := RotatedLeft(h, upper);
            OnlyRotated(h, h', upper, lower, b, PathId(p)) && LeftLinks(h, h', upper, lower, b)
              && Relinked(h, h', p, lower)
  {
    LeftRotationFields(h, upper, lower, b, PathId(p));
  }

  lemma RightRotationOnly(h: Heap, upper: nat, lower: nat, b: nat, p: Path)
    requires Sized(h) && h.right[0] == 0 && IsNode(h, upper) && IsNode(h, lower) && b < |h.left| && PathId(p) < |h.left|
    requires upper != lower && b != upper && b != lower && PathId(p) != upper && PathId(p) != lower
             && (b == PathId(p) ==> b == 0)
    requires h.left[upper] == lower && h.right[lower] == b && h.parent[upper] == PathId(p)
    requires p == Top || p.side == Left ==> h.left[PathId(p)] == upper && h.right[PathId(p)] != upper
    requires p.Under? ==> p.id > 0 && (p.side == Right ==> h.right[p.id] == upper)
    ensures var h' := RotatedRight(h, upper);
            OnlyRotated(h, h', upper, lower, b, PathId(p)) && RightLinks(h, h', upper, lower, b)
              && Relinked(h, h', p, lower)
  {
    RightRotationFields(h, upper, lower, b, PathId(p));
  }

  // The other child of the parent is not this node.
  lemma OneSide(h: Heap, t: Tree, p: Path)
    requires View(h, t, p) && t.Node?
    ensures p == Top || p.side == Left ==> h.left[PathId(p)] == t.id && h.right[PathId(p)] != t.id
    ensures p.Under? && p.side == Right ==> h.right[p.id] == t.id && h.left[p.id] != t.id
  {
    if p.Under? { IdIn(p.sibling); }
  }

  lemma RotateLeftView(h: Heap, t: Tree, p: Path)
    requires View(h, t, p) && t.Node? && t.right.Node?
    ensures View(RotatedLeft(h, t.id), RotateLeft(t), p)
  {
    var h', upper, lower, b := RotatedLeft(h, t.id), t.id, t.right.id, t.right.left;
    PartsOfRight(h, t, p);
    PathIdIn(h, p, upper);
    OneSide(h, t, p);
    LeftRotationOnly(h, upper, lower, Id(b), p);
    RotateLeftTree(h, h', t, p);
    RotatedPath(h, h', p, upper, lower, Id(b));
    RotateLeftApart(t, p);
  }

  lemma RotateLeftTree(h: Heap, h': Heap, t: Tree, p: Path)
    requires View(h, t, p) && t.Node? && t.right.Node?
    requires OnlyRotated(h, h', t.id, t.right.id, Id(t.right.left), PathId(p))
             && LeftLinks(h, h', t.id, t.right.id, Id(t.right.left))
    ensures RepTree(h', RotateLeft(t), PathId(p))
  {
    var upper, lower, b := t.id, t.right.id, t.right.left;
    PartsOfRight(h, t, p);
    RotationSpares(h, h', t.left, upper, upper, lower, Id(b), PathId(p));
    RotationMoves(h, h', b, upper, lower, PathId(p));
    RotationSpares(h, h', t.right.right, lower, upper, lower, Id(b), PathId(p));
    assert RepTree(h', t.(right := b), lower);
  }

  lemma RotateLeftApart(t: Tree, p: Path)
    requires Apart(t, p) && t.Node? && t.right.Node?
    ensures Apart(RotateLeft(t), p)
  {
    var l := t.right;
    assert Unique(l) && Ids(l) == {l.id} + Ids(l.left) + Ids(l.right);
    var low := t.(right := l.left);
    assert Ids(low) == {t.id} + Ids(t.left) + Ids(l.left);
    assert Unique(low);
    assert Ids(RotateLeft(t)) == Ids(t);
  }

  lemma RotateRightView(h: Heap, t: Tree, p: Path)
    requires View(h, t, p) && t.Node? && t.left.Node?
    ensures View(RotatedRight(h, t.id), RotateRight(t), p)
  {
    var h', upper, lower, b := RotatedRight(h, t.id), t.id, t.left.id, t.left.right;
    PartsOfLeft(h, t, p);
    PathIdIn(h, p, upper);
    OneSide(h, t, p);
    RightRotationOnly(h, upper, lower, Id(b), p);
    RotateRightTree(h, h', t, p);
    RotatedPath(h, h', p, upper, lower, Id(b));
    RotateRightApart(t, p);
  }

  lemma RotateRightTree(h: Heap, h': Heap, t: Tree, p: Path)
    requires View(h, t, p) && t.Node? && t.left.Node?
    requires OnlyRotated(h, h', t.id, t.left.id, Id(t.left.right), PathId(p))
             && RightLinks(h, h', t.id, t.left.id, Id(t.left.right))
    ensures RepTree(h', RotateRight(t), PathId(p))
  {
    var upper, lower, b := t.id, t.left.id, t.left.right;
    PartsOfLeft(h, t, p);
    RotationSpares(h, h', t.right, upper, upper, lower, Id(b), PathId(p));
    RotationMoves(h, h', b, upper, lower, PathId(p));
    RotationSpares(h, h', t.left.left, lower, upper, lower, Id(b), PathId(p));
    assert RepTree(h', t.(left := b), lower);
  }

  lemma RotateRightApart(t: Tree, p: Path)
    requires Apart(t, p) && t.Node? && t.left.Node?
    ensures Apart(RotateRight(t), p)
  {
    var l := t.left;
    assert Unique(l) && Ids(l) == {l.id} + Ids(l.left) + Ids(l.right);
    var low := t.(left := l.right);
    assert Ids(low) == {t.id} + Ids(t.right) + Ids(l.right);
    assert Unique(low);
    assert Ids(RotateRight(t)) == Ids(t);
  }

  // ---- Painting other nodes of the view ----

  // The view from the sibling.
  function Across(t: Tree, p: Path): Path
    requires p.Under?
  {
    Under(if p.side == Left then Right else Left, p.id, p.key, p.red, t, p.up)
  }

  lemma ViewAcross(h: Heap, t: Tree, p: Path)
    requires p.Under? && View(h, t, p)
    ensures View(h, p.sibling, Across(t, p))
  {
    ViewUp(h, t, p);
    assert Join(p.sibling, Across(t, p)) == Join(t, p);
    ViewDown(h, p.sibling, Across(t, p));
  }

  lemma PaintSibling(h: Heap, t: Tree, p: Path, red: bool)
    requires p.Under? && View(h, t, p) && p.sibling.Node?
    ensures View(Painted(h, p.sibling.id, red), t, p.(sibling := Paint(p.sibling, red)))
  {
    ViewAcross(h, t, p);
    PaintView(h, p.sibling, Across(t, p), red);
    ViewAcross(Painted(h, p.sibling.id, red), Paint(p.sibling, red), Across(t, p));
  }

  lemma PaintParent(h: Heap, t: Tree, p: Path, red: bool)
    requires p.Under? && View(h, t, p)
    ensures View(Painted(h, p.id, red), t, p.(red := red))
  {
    ViewUp(h, t, p);
    PaintView(h, Join(t, p), p.up, red);
    ViewDown(Painted(h, p.id, red), t, p.(red := red));
  }

  lemma {:induction false} PaintRootRed(h: Heap, t: Tree, p: Path)
    requires View(h, t, p) && p.Under?
    ensures IsNode(h, h.left[0]) && View(Painted(h, h.left[0], true), t, RedRoot(p))
    decreases p
  {
    assert RepPath(h, p.up, p.id);
    if p.up == Top {
      PaintParent(h, t, p, true);
      assert RedRoot(p) == p.(red := true);
    } else {
      ViewUp(h, t, p);
      PaintRootRed(h, Join(t, p), p.up);
      var q := p.(up := RedRoot(p.up));
      assert Join(t, p) == Join(t, q);
      ViewDown(Painted(h, h.left[0], true), t, q);
    }
  }

  // Nodes outside the view may change.
  lemma ViewStays(h: Heap, h': Heap, t: Tree, p: Path)
    requires View(h, t, p) && Sized(h') && h'.left[0] == h.left[0] && h'.right[0] == 0
    requires forall i :: i in Ids(t) || i in PathIds(p) ==> Same(h, h', i)
    ensures View(h', t, p)
  {
    TreeStays(h, h', t, PathId(p));
    PathStays(h, h', p, Id(t));
  }

  // ---- Hanging another subtree into the hole ----

  // u takes the place of t under the path: the link to it and its link up are set.
  function Rehung(h: Heap, p: Path, child: nat): Heap
    requires Sized(h) && PathId(p) < |h.left| && child < |h.left|
  {
    Hang(h, p, child).(parent := h.parent[child := PathId(p)])
  }

  lemma RehungView(h: Heap, p: Path, child: nat, u: Tree, at: nat)
    requires Sized(h) && h.right[0] == 0 && RepPath(h, p, child) && RepTree(h, u, at) && Apart(u, p)
    ensures PathId(p) < |h.left| && Id(u) < |h.left| && View(Rehung(h, p, Id(u)), u, p)
    ensures Rehung(h, p, Id(u)).parent[Id(u)] == PathId(p)
  {
    PathIdIn(h, p, child);
    IdIn(u);
    TreeInside(h, u, at);
    NoZeroPath(h, p, child);
    RehungTree(h, Rehung(h, p, Id(u)), u, at, p);
    RehungPath(h, p, child, Id(u));
  }

  lemma RehungPath(h: Heap, p: Path, child: nat, child': nat)
    requires Sized(h) && PathId(p) < |h.left| && child' < |h.left|
    requires RepPath(h, p, child) && UniquePath(p) && child' !in PathIds(p) && 0 !in PathIds(p)
             && (p.Under? ==> p.id in PathIds(p))
    ensures Sized(Rehung(h, p, child')) && RepPath(Rehung(h, p, child'), p, child')
  {
    var h' := Rehung(h, p, child');
    RehungSized(h, p, child');
    forall i | i in PathIds(p) && i != PathId(p) ensures Same(h, h', i) { RehungSame(h, p, child', i); }
    if p.Under? { RehungAt(h, p, child'); }
    PathTakes(h, h', p, child, child');
  }

  lemma RehungSized(h: Heap, p: Path, child: nat)
    requires Sized(h) && PathId(p) < |h.left| && child < |h.left|
    ensures Sized(Rehung(h, p, child)) && |Rehung(h, p, child).left| == |h.left|
  {
  }

  lemma RehungSame(h: Heap, p: Path, child: nat, i: nat)
    requires Sized(h) && PathId(p) < |h.left| && child < |h.left| && i != PathId(p) && i != child
    ensures Same(h, Rehung(h, p, child), i)
  {
  }

  lemma RehungAt(h: Heap, p: Path, child: nat)
    requires Sized(h) && p.Under? && IsNode(h, p.id) && child < |h.left| && child != p.id
    ensures var h' := Rehung(h, p, child);
            && h'.left[0] == h.left[0] && h'.parent[p.id] == h.parent[p.id] && h'.red == h.red && h'.key == h.key
            && h'.left[p.id] == (if p.side == Left then child else h.left[p.id])
            && h'.right[p.id] == (if p.side == Left then h.right[p.id] else child)
  {
  }

  lemma RehungTree(h: Heap, h': Heap, u: Tree, at: nat, p: Path)
    requires Sized(h) && PathId(p) < |h.left| && Id(u) < |h.left| && h' == Rehung(h, p, Id(u))
    requires RepTree(h, u, at) && Unique(u) && Ids(u) !! PathIds(p) && (p.Under? ==> p.id in PathIds(p))
    ensures RepTree(h', u, PathId(p))
  {
    NoZero(h, u, at);
    IdIn(u);
    TreeMoves(h, h', u, at, PathId(p));
  }

  function ViewIds(t: Tree, p: Path): set<nat> {
    Ids(t) + PathIds(p)
  }

  lemma JoinIds(t: Tree, p: Path)
    requires p.Under?
    ensures ViewIds(Join(t, p), p.up) == ViewIds(t, p)
  {
  }

  // ---- The leftmost node ----

  // The tree with c in the place of its leftmost node.
  function PutLeft(t: Tree, c: Tree): Tree
    requires t.Node?
  {
    if t.left.Leaf? then c else t.(left := PutLeft(t.left, c))
  }

  lemma {:induction false} LeftPathView(h: Heap, t: Tree, p: Path)
    requires View(h, t, p) && t.Node?
    ensures View(h, Leftmost(t), LeftPath(t, p))
    decreases t
  {
    if t.left.Node? {
      var q := Under(Left, t.id, t.key, t.red, t.right, p);
      assert Join(t.left, q) == t;
      ViewDown(h, t.left, q);
      LeftPathView(h, t.left, q);
    }
  }

  lemma {:induction false} LeftPathUp(h: Heap, c: Tree, t: Tree, p: Path)
    requires t.Node? && View(h, c, LeftPath(t, p))
    ensures View(h, PutLeft(t, c), p) && ViewIds(PutLeft(t, c), p) == ViewIds(c, LeftPath(t, p))
    decreases t
  {
    if t.left.Node? {
      var q := Under(Left, t.id, t.key, t.red, t.right, p);
      LeftPathUp(h, c, t.left, q);
      assert Join(PutLeft(t.left, c), q) == PutLeft(t, c);
      ViewUp(h, PutLeft(t.left, c), q);
      JoinIds(PutLeft(t.left, c), q);
    }
  }

  lemma {:induction false} LeftPathDown(h: Heap, c: Tree, t: Tree, p: Path)
    requires t.Node? && View(h, PutLeft(t, c), p)
    ensures View(h, c, LeftPath(t, p))
    decreases t
  {
    if t.left.Node? {
      var q := Under(Left, t.id, t.key, t.red, t.right, p);
      assert Join(PutLeft(t.left, c), q) == PutLeft(t, c);
      ViewDown(h, PutLeft(t.left, c), q);
      LeftPathDown(h, c, t.left, q);
    }
  }

  lemma {:induction false} LeftPathId(t: Tree, p: Path, q: Path)
    requires t.Node? && t.left.Node?
    ensures PathId(LeftPath(t, p)) == PathId(LeftPath(t, q)) && LeftPath(t, p).Under?
    ensures t.left.left.Leaf? ==> PathId(LeftPath(t, p)) == t.id
    decreases t
  {
    if t.left.left.Node? {
      LeftPathId(t.left, Under(Left, t.id, t.key, t.red, t.right, p), Under(Left, t.id, t.key, t.red, t.right, q));
    }
  }

  // ---- Another node in the place of a node ----

  // The node `next` takes over the color and the children of the target.
  function Adopted(h: Heap, target: nat, next: nat): Heap
    requires Sized(h) && target < |h.left| && next < |h.left|
  {
    var l, r := h.left[target], h.right[target];
    h.(left := h.left[next := l], right := h.right[next := r], parent := h.parent[l := next][r := next],
       red := h.red[next := h.red[target]])
  }

  lemma AdoptedTree(h: Heap, t: Tree, p: Path, next: nat)
    requires View(h, t, p) && t.Node? && IsNode(h, next) && next !in ViewIds(t, p)
    ensures RepTree(Adopted(h, t.id, next), t.(id := next, key := h.key[next]), Adopted(h, t.id, next).parent[next])
  {
    var h' := Adopted(h, t.id, next);
    NoZero(h, t, PathId(p));
    IdIn(t.left);
    IdIn(t.right);
    AdoptedChild(h, t, p, next, t.left);
    AdoptedChild(h, t, p, next, t.right);
  }

  // A subtree moves under the next node.
  lemma AdoptedChild(h: Heap, t: Tree, p: Path, next: nat, u: Tree)
    requires View(h, t, p) && t.Node? && IsNode(h, next) && next !in ViewIds(t, p) && (u == t.left || u == t.right)
    ensures RepTree(Adopted(h, t.id, next), u, next)
  {
    NoZero(h, t, PathId(p));
    IdIn(t.left);
    IdIn(t.right);
    TreeInside(h, u, t.id);
    TreeMoves(h, Adopted(h, t.id, next), u, t.id, next);
  }

  lemma AdoptedPath(h: Heap, t: Tree, p: Path, next: nat)
    requires View(h, t, p) && t.Node? && IsNode(h, next) && next !in ViewIds(t, p)
    ensures RepPath(Adopted(h, t.id, next), p, t.id)
  {
    var h' := Adopted(h, t.id, next);
    IdIn(t.left);
    IdIn(t.right);
    NoZeroPath(h, p, t.id);
    PathInside(h, p, t.id);
    PathStays(h, h', p, t.id);
  }

  function Substituted(h: Heap, target: nat, next: nat, p: Path): Heap
    requires Sized(h) && target < |h.left| && next < |h.left| && PathId(p) < |h.left|
  {
    Rehung(Adopted(h, target, next), p, next)
  }

  lemma SubstitutedView(h: Heap, t: Tree, p: Path, next: nat)
    requires View(h, t, p) && t.Node? && IsNode(h, next) && next !in ViewIds(t, p)
    ensures PathId(p) < |h.left| && View(Substituted(h, t.id, next, p), t.(id := next, key := h.key[next]), p)
  {
    PathIdIn(h, p, t.id);
    AdoptedTree(h, t, p, next);
    AdoptedPath(h, t, p, next);
    var u := t.(id := next, key := h.key[next]);
    assert Apart(u, p) && Id(u) == next;
    RehungView(Adopted(h, t.id, next), p, t.id, u, Adopted(h, t.id, next).parent[next]);
  }
}
