/**
 Red-black trees seen from one node: the subtree at that node and the path up to the root. The steps of
 insertion and deletion are changes of such a view.
 */
module RedBlack {
  import opened Numbers

  datatype Tree = Leaf | Node(id: nat, key: int, red: bool, left: Tree, right: Tree)

  datatype Side = Left | Right

  // Where a subtree hangs: on which side of which node, next to which sibling, and so on upwards.
  datatype Path = Top | Under(side: Side, id: nat, key: int, red: bool, sibling: Tree, up: Path)

  datatype Item = Item(id: nat, key: int)

  function Items(t: Tree): seq<Item> {
    match t
    case Leaf => []
    case Node(id, key, _, l, r) => Items(l) + [Item(id, key)] + Items(r)
  }

  // The items before and after the hole of a path.
  function Before(p: Path): seq<Item> {
    match p
    case Top => []
    case Under(Left, _, _, _, _, up) => Before(up)
    case Under(Right, id, key, _, sib, up) => Before(up) + Items(sib) + [Item(id, key)]
  }

  function After(p: Path): seq<Item> {
    match p
    case Top => []
    case Under(Left, id, key, _, sib, up) => [Item(id, key)] + Items(sib) + After(up)
    case Under(Right, _, _, _, _, up) => After(up)
  }

  function AllItems(t: Tree, p: Path): seq<Item> {
    Before(p) + Items(t) + After(p)
  }

  // The node of a frame with a subtree in its hole.
  function Join(t: Tree, p: Path): Tree
    requires p.Under?
  {
    if p.side == Left then Node(p.id, p.key, p.red, t, p.sibling) else Node(p.id, p.key, p.red, p.sibling, t)
  }

  function Plug(t: Tree, p: Path): Tree
    decreases p
  {
    if p == Top then t else Plug(Join(t, p), p.up)
  }

  lemma JoinItems(t: Tree, p: Path)
    requires p.Under?
    ensures AllItems(Join(t, p), p.up) == AllItems(t, p)
  {
    if p.side == Left {
      assert Before(p.up) + (Items(t) + [Item(p.id, p.key)] + Items(p.sibling)) + After(p.up)
          == Before(p.up) + Items(t) + ([Item(p.id, p.key)] + Items(p.sibling) + After(p.up));
    } else {
      assert Before(p.up) + (Items(p.sibling) + [Item(p.id, p.key)] + Items(t)) + After(p.up)
          == (Before(p.up) + Items(p.sibling) + [Item(p.id, p.key)]) + Items(t) + After(p.up);
    }
  }

  lemma {:induction false} PlugItems(t: Tree, p: Path)
    ensures Items(Plug(t, p)) == AllItems(t, p)
    decreases p
  {
    if p.Under? {
      JoinItems(t, p);
      PlugItems(Join(t, p), p.up);
    } else {
      assert [] + Items(t) + [] == Items(t);
    }
  }

  // ---- The red-black rules ----

  predicate Black(t: Tree) {
    t.Leaf? || !t.red
  }

  // Every way down passes h black nodes, and no red node has a red child.
  predicate Balanced(t: Tree, h: nat) {
    match t
    case Leaf => h == 0
    case Node(_, _, red, l, r) =>
      if red then Balanced(l, h) && Balanced(r, h) && Black(l) && Black(r)
      else h > 0 && Balanced(l, h - 1) && Balanced(r, h - 1)
  }

  ghost predicate IsRedBlack(t: Tree) {
    Black(t) && exists h :: Balanced(t, h)
  }

  // The checker of the code: one more than the black height, or zero if a rule is broken.
  function VerifyRedBlack(t: Tree): nat {
    match t
    case Leaf => 1
    case Node(_, _, red, l, r) =>
      var left, right := VerifyRedBlack(l), VerifyRedBlack(r);
      if left == 0 || right == 0 || left != right then 0
      else if red then if l.Node? && l.red then 0 else if r.Node? && r.red then 0 else left
      else left + 1
  }

  lemma {:induction false} VerifyIsBalanced(t: Tree, h: nat)
    ensures Balanced(t, h) <==> VerifyRedBlack(t) == h + 1
  {
    if t.Node? {
      VerifyIsBalanced(t.left, h);
      VerifyIsBalanced(t.right, h);
      if h > 0 {
        VerifyIsBalanced(t.left, h - 1);
        VerifyIsBalanced(t.right, h - 1);
      }
    }
  }

  // The rules kept are those the checker accepts.
  lemma CheckerAccepts(t: Tree)
    ensures IsRedBlack(t) <==> Black(t) && VerifyRedBlack(t) > 0
  {
    forall h: nat ensures Balanced(t, h) <==> VerifyRedBlack(t) == h + 1 { VerifyIsBalanced(t, h); }
    if VerifyRedBlack(t) > 0 { assert Balanced(t, VerifyRedBlack(t) - 1); }
  }

  // How many nodes the longest way down passes.
  function Height(t: Tree): nat {
    match t
    case Leaf => 0
    case Node(_, _, _, l, r) => 1 + if Height(l) > Height(r) then Height(l) else Height(r)
  }

  lemma {:induction false} BalancedIsShallow(t: Tree, h: nat)
    requires Balanced(t, h)
    ensures Height(t) <= 2 * h + if Black(t) then 0 else 1
    ensures Pow2(h) <= |Items(t)| + 1
  {
    if t.Node? {
      BalancedIsShallow(t.left, if t.red then h else h - 1);
      BalancedIsShallow(t.right, if t.red then h else h - 1);
    }
  }

  // No way down is longer than twice the binary logarithm of the number of nodes and one.
  lemma RedBlackIsShallow(t: Tree)
    requires IsRedBlack(t)
    ensures Pow2((Height(t) + 1) / 2) <= |Items(t)| + 1
  {
    var h :| Balanced(t, h);
    BalancedIsShallow(t, h);
    Pow2Monotone(h, (Height(t) + 1) / 2);
  }

  predicate RedFrame(p: Path) {
    p.Under? && p.red
  }

  // The path takes a subtree of black height h, which must be black if the frame is red.
  predicate Takes(p: Path, h: nat) {
    match p
    case Top => true
    case Under(_, _, _, red, sib, up) =>
      Balanced(sib, h) && (red ==> Black(sib) && up.Under? && !up.red) && Takes(up, if red then h else h + 1)
  }

  // As Takes, with the color of the root left open.
  predicate TakesLoosely(p: Path, h: nat) {
    match p
    case Top => true
    case Under(_, _, _, red, sib, up) =>
      Balanced(sib, h)
      && (up.Under? ==>
            (red ==> Black(sib) && (up.up.Under? ==> !up.red)) && TakesLoosely(up, if red then h else h + 1))
  }

  lemma {:induction false} PlugBalanced(t: Tree, p: Path, h: nat)
    requires Balanced(t, h) && Takes(p, h) && (RedFrame(p) ==> Black(t)) && (p == Top ==> Black(t))
    ensures IsRedBlack(Plug(t, p))
    decreases p
  {
    if p.Under? {
      PlugBalanced(Join(t, p), p.up, if p.red then h else h + 1);
    }
  }

  // The view of a red-black tree from one of its nodes.
  lemma {:induction false} ViewOf(t: Tree, p: Path) returns (h: nat)
    requires IsRedBlack(Plug(t, p))
    ensures Balanced(t, h) && Takes(p, h) && (RedFrame(p) ==> Black(t)) && (p == Top ==> Black(t))
    decreases p
  {
    if p.Under? {
      var g := ViewOf(Join(t, p), p.up);
      h := if p.red then g else g - 1;
    } else {
      h :| Balanced(t, h);
    }
  }

  function Paint(t: Tree, red: bool): Tree
    requires t.Node?
  {
    t.(red := red)
  }

  // ---- Insertion ----

  // The view from a red node whose parent may be red too; all other rules hold.
  predicate Inserting(t: Tree, p: Path, h: nat) {
    t.Node? && t.red && Balanced(t, h) && Takes(p, h)
  }

  // Parent and uncle are red: they become black, the grandparent red, and the search goes on there.
  function RedUncle(t: Tree, p: Path): Tree
    requires p.Under? && p.up.Under? && p.up.sibling.Node?
  {
    var parent := Paint(Join(t, p), false);
    Join(parent, p.up.(red := true, sibling := Paint(p.up.sibling, false)))
  }

  lemma RedUncleKeeps(t: Tree, p: Path, h: nat)
    requires Inserting(t, p, h) && RedFrame(p) && !Black(p.up.sibling)
    ensures p.up.Under? && Inserting(RedUncle(t, p), p.up.up, h + 1)
    ensures AllItems(RedUncle(t, p), p.up.up) == AllItems(t, p)
  {
    assert Takes(p.up, h) && Takes(p.up.up, h + 1);
    JoinItems(t, p);
    JoinItems(Join(t, p), p.up);
    var parent := Paint(Join(t, p), false);
    assert Balanced(parent, h + 1) && Balanced(Paint(p.up.sibling, false), h + 1);
    assert Items(parent) == Items(Join(t, p));
    assert Items(RedUncle(t, p)) == Items(Join(Join(t, p), p.up));
  }

  function RotateLeft(t: Tree): Tree
    requires t.Node? && t.right.Node?
  {
    t.right.(left := t.(right := t.right.left))
  }

  function RotateRight(t: Tree): Tree
    requires t.Node? && t.left.Node?
  {
    t.left.(right := t.(left := t.left.right))
  }

  lemma RotateLeftItems(t: Tree)
    requires t.Node? && t.right.Node?
    ensures Items(RotateLeft(t)) == Items(t)
  {
    var l := t.right;
    var x, y, a, b, c := [Item(t.id, t.key)], [Item(l.id, l.key)], Items(t.left), Items(l.left), Items(l.right);
    assert (a + x + b) + y + c == a + x + (b + y + c);
  }

  lemma RotateRightItems(t: Tree)
    requires t.Node? && t.left.Node?
    ensures Items(RotateRight(t)) == Items(t)
  {
    var l := t.left;
    var x, y, a, b, c := [Item(t.id, t.key)], [Item(l.id, l.key)], Items(l.left), Items(l.right), Items(t.right);
    assert a + y + (b + x + c) == (a + y + b) + x + c;
  }

  // The outer child of a red parent: an inner one is rotated out first.
  function Outer(t: Tree, p: Path): Tree
    requires t.Node? && p.Under? && p.up.Under?
  {
    if p.side == p.up.side then Join(t, p)
    else if p.side == Right then RotateLeft(Join(t, p))
    else RotateRight(Join(t, p))
  }

  // Parent red, uncle black: the parent takes the place of the grandparent.
  function BlackUncle(t: Tree, p: Path): Tree
    requires t.Node? && p.Under? && p.up.Under?
  {
    var grandpa := Join(Paint(Outer(t, p), false), p.up.(red := true));
    if p.up.side == Left then RotateRight(grandpa) else RotateLeft(grandpa)
  }

  lemma BlackUncleKeeps(t: Tree, p: Path, h: nat)
    requires Inserting(t, p, h) && RedFrame(p) && Black(p.up.sibling)
    ensures p.up.Under? && Balanced(BlackUncle(t, p), h + 1) && Black(BlackUncle(t, p)) && Takes(p.up.up, h + 1)
    ensures AllItems(BlackUncle(t, p), p.up.up) == AllItems(t, p)
  {
    assert Takes(p.up, h) && Takes(p.up.up, h + 1);
    JoinItems(t, p);
    JoinItems(Join(t, p), p.up);
    var parent := Join(t, p);
    if p.side != p.up.side {
      if p.side == Right { RotateLeftItems(parent); } else { RotateRightItems(parent); }
    }
    var outer := Outer(t, p);
    assert Items(Paint(outer, false)) == Items(outer) == Items(parent);
    OuterIsRed(t, p, h);
    var grandpa := Join(Paint(outer, false), p.up.(red := true));
    if p.up.side == Left { RotateRightItems(grandpa); } else { RotateLeftItems(grandpa); }
    assert Items(grandpa) == Items(Join(parent, p.up));
  }

  // After the inner rotation a red node with a red outer child is left.
  lemma OuterIsRed(t: Tree, p: Path, h: nat)
    requires Inserting(t, p, h) && RedFrame(p) && p.up.Under?
    ensures var o := Outer(t, p);
            && o.Node? && o.red && Balanced(o.left, h) && Balanced(o.right, h)
            && (p.up.side == Left ==> !Black(o.left) && Black(o.right))
            && (p.up.side == Right ==> !Black(o.right) && Black(o.left))
  {
    assert Takes(p.up, h);
  }

  // ---- Deletion ----

  // The leftmost node of a tree, and the path from it.
  function Leftmost(t: Tree): (n: Tree)
    requires t.Node?
    ensures n.Node? && n.left.Leaf?
  {
    if t.left.Leaf? then t else Leftmost(t.left)
  }

  function LeftPath(t: Tree, p: Path): Path
    requires t.Node?
    decreases t
  {
    if t.left.Leaf? then p else LeftPath(t.left, Under(Left, t.id, t.key, t.red, t.right, p))
  }

  lemma {:induction false} LeftPathItems(t: Tree, p: Path)
    requires t.Node?
    ensures AllItems(Leftmost(t), LeftPath(t, p)) == AllItems(t, p)
    decreases t
  {
    if t.left.Node? {
      var q := Under(Left, t.id, t.key, t.red, t.right, p);
      LeftPathItems(t.left, q);
      JoinItems(t.left, q);
    }
  }

  // What comes after the leftmost node.
  function RestOf(t: Tree): seq<Item>
    requires t.Node?
  {
    if t.left.Leaf? then Items(t.right) else RestOf(t.left) + [Item(t.id, t.key)] + Items(t.right)
  }

  lemma {:induction false} LeftPathBefore(t: Tree, p: Path)
    requires t.Node?
    ensures Before(LeftPath(t, p)) == Before(p)
    ensures Items(Leftmost(t).right) + After(LeftPath(t, p)) == RestOf(t) + After(p)
    ensures Items(t) == [Item(Leftmost(t).id, Leftmost(t).key)] + RestOf(t)
    decreases t
  {
    if t.left.Node? {
      var q := Under(Left, t.id, t.key, t.red, t.right, p);
      LeftPathBefore(t.left, q);
      LeftPathStep(Items(Leftmost(t.left).right), After(LeftPath(t.left, q)), RestOf(t.left), [Item(t.id, t.key)],
                   Items(t.right), After(p), [Item(Leftmost(t.left).id, Leftmost(t.left).key)]);
    }
  }

  lemma LeftPathStep(a: seq<Item>, b: seq<Item>, rest: seq<Item>, x: seq<Item>, r: seq<Item>, after: seq<Item>,
                     n: seq<Item>)
    requires a + b == rest + (x + r + after)
    ensures a + b == (rest + x + r) + after
    ensures (n + rest) + x + r == n + (rest + x + r)
  {
  }

  lemma {:induction false} LeftPathTakes(t: Tree, p: Path, h: nat) returns (g: nat)
    requires t.Node? && Balanced(t, h) && Takes(p, h) && (RedFrame(p) ==> Black(t)) && (p == Top ==> Black(t))
    ensures Balanced(Leftmost(t), g) && Takes(LeftPath(t, p), g)
    ensures RedFrame(LeftPath(t, p)) ==> Black(Leftmost(t))
    ensures p.Under? ==> LeftPath(t, p).Under?
    decreases t
  {
    if t.left.Node? {
      var q := Under(Left, t.id, t.key, t.red, t.right, p);
      g := LeftPathTakes(t.left, q, if t.red then h else h - 1);
    } else {
      g := h;
    }
  }

  datatype Removal = Removal(child: Tree, path: Path, red: bool)

  // Takes the root of t out: its only child takes its place, or its successor does, whose right child
  // takes the place of the successor. `red` is the color that goes.
  function TakeOut(t: Tree, p: Path): Removal
    requires t.Node?
  {
    if t.left.Leaf? then Removal(t.right, p, t.red)
    else if t.right.Leaf? then Removal(t.left, p, t.red)
    else
      var next := Leftmost(t.right);
      Removal(next.right, LeftPath(t.right, Under(Right, next.id, next.key, t.red, t.left, p)), next.red)
  }

  // Exactly the target goes.
  lemma TakeOutItems(t: Tree, p: Path)
    requires t.Node?
    ensures var r := TakeOut(t, p); AllItems(r.child, r.path) == Before(p) + Items(t.left) + Items(t.right) + After(p)
  {
    var l, r := Items(t.left), Items(t.right);
    if t.left.Leaf? {
      assert Before(p) + [] == Before(p);
    } else if t.right.Leaf? {
      assert (Before(p) + l) + [] == Before(p) + l;
    } else {
      var next := Leftmost(t.right);
      var q := Under(Right, next.id, next.key, t.red, t.left, p);
      LeftPathBefore(t.right, q);
      NextInPlace(Before(p), l, [Item(next.id, next.key)], RestOf(t.right), After(p),
                  Items(next.right), After(LeftPath(t.right, q)), r);
    }
  }

  lemma NextInPlace(before: seq<Item>, l: seq<Item>, x: seq<Item>, rest: seq<Item>, after: seq<Item>,
                    c: seq<Item>, d: seq<Item>, r: seq<Item>)
    requires c + d == rest + after && r == x + rest
    ensures (before + l + x) + c + d == before + l + r + after
  {
    assert (before + l + x) + c + d == (before + l + x) + (c + d);
    assert before + l + (x + rest) + after == (before + l + x) + (rest + after);
  }

  lemma TakeOutTakes(t: Tree, p: Path) returns (g: nat)
    requires t.Node? && IsRedBlack(Plug(t, p))
    ensures var r := TakeOut(t, p);
            && Balanced(r.child, g) && Takes(r.path, if r.red then g else g + 1)
            && (r.red ==> Black(r.child) && r.path.Under?)
  {
    var h := ViewOf(t, p);
    if t.left.Leaf? {
      g := if t.red then h else h - 1;
    } else if t.right.Leaf? {
      g := if t.red then h else h - 1;
    } else {
      var next := Leftmost(t.right);
      LeftPathItems(t.right, p);
      var q := Under(Right, next.id, next.key, t.red, t.left, p);
      var k := LeftPathTakes(t.right, q, if t.red then h else h - 1);
      g := if next.red then k else k - 1;
    }
  }

  function RedRoot(p: Path): Path {
    if p == Top then Top else if p.up == Top then p.(red := true) else p.(up := RedRoot(p.up))
  }

  predicate HasRedRoot(p: Path) {
    p.Under? && if p.up == Top then p.red else HasRedRoot(p.up)
  }

  lemma {:induction false} RedRootTakes(p: Path, h: nat)
    requires Takes(p, h)
    ensures TakesLoosely(RedRoot(p), h) && (p.Under? ==> HasRedRoot(RedRoot(p)))
    ensures Before(RedRoot(p)) == Before(p) && After(RedRoot(p)) == After(p)
    decreases p
  {
    if p.Under? && p.up.Under? {
      RedRootTakes(p.up, if p.red then h else h + 1);
      if p.up.up == Top { assert p.red ==> !p.up.red; }
    }
  }

  // A view in which all ways through t are one black node short.
  predicate Deleting(t: Tree, p: Path, h: nat) {
    Balanced(t, h) && TakesLoosely(p, h + 1)
  }

  // The sister is red: it takes the place of the parent, which becomes red.
  function RedSister(p: Path): Path
    requires p.Under? && p.sibling.Node?
  {
    var s := p.sibling;
    if p.side == Left then Under(Left, p.id, p.key, true, s.left, Under(Left, s.id, s.key, false, s.right, p.up))
    else Under(Right, p.id, p.key, true, s.right, Under(Right, s.id, s.key, false, s.left, p.up))
  }

  lemma RedSisterKeeps(t: Tree, p: Path, h: nat)
    requires Deleting(t, p, h) && p.Under? && !Black(p.sibling)
    ensures Deleting(t, RedSister(p), h) && Black(RedSister(p).sibling) && AllItems(t, RedSister(p)) == AllItems(t, p)
  {
    var s, x := p.sibling, [Item(p.id, p.key)];
    var y, a, b := [Item(s.id, s.key)], Items(s.left), Items(s.right);
    if p.side == Left {
      assert Items(s) == a + y + b && Before(RedSister(p)) == Before(p);
      assert After(RedSister(p).up) == y + b + After(p.up);
      assert After(RedSister(p)) == x + a + (y + b + After(p.up));
      assert x + (a + y + b) + After(p.up) == x + a + (y + b + After(p.up));
    } else {
      assert Items(s) == a + y + b && After(RedSister(p)) == After(p);
      assert Before(RedSister(p).up) == Before(p.up) + a + y;
      assert Before(RedSister(p)) == (Before(p.up) + a + y) + b + x;
      assert Before(p.up) + (a + y + b) + x == (Before(p.up) + a + y) + b + x;
    }
  }

  // The sister and its children are black: the sister becomes red and the parent is short.
  function SisterToRed(t: Tree, p: Path): Tree
    requires p.Under? && p.sibling.Node?
  {
    Join(t, p.(sibling := Paint(p.sibling, true)))
  }

  lemma SisterToRedKeeps(t: Tree, p: Path, h: nat)
    requires Deleting(t, p, h) && Black(t) && p.Under? && p.sibling.Node? && Black(p.sibling)
    requires Black(p.sibling.left) && Black(p.sibling.right)
    ensures AllItems(SisterToRed(t, p), p.up) == AllItems(t, p)
    ensures !p.red ==> p.up == Top || Deleting(SisterToRed(t, p), p.up, h + 1)
    ensures p.red ==> Balanced(Paint(SisterToRed(t, p), false), h + 1) && TakesLoosely(p.up, h + 1)
  {
    JoinItems(t, p);
    assert Balanced(Paint(p.sibling, true), h);
    assert Items(SisterToRed(t, p)) == Items(Join(t, p));
  }

  // The sister with a red child on the far side.
  function FarRed(p: Path): Tree
    requires p.Under? && p.sibling.Node?
  {
    var s := p.sibling;
    if p.side == Left && Black(s.right) && s.left.Node? then
      RotateRight(s.(red := true, left := Paint(s.left, false)))
    else if p.side == Right && Black(s.left) && s.right.Node? then
      RotateLeft(s.(red := true, right := Paint(s.right, false)))
    else s
  }

  predicate IsFarRed(side: Side, s: Tree, h: nat) {
    && s.Node? && !s.red && Balanced(s, h + 1)
    && if side == Left then !Black(s.right) else !Black(s.left)
  }

  lemma FarRedKeeps(p: Path, h: nat)
    requires p.Under? && Balanced(p.sibling, h + 1) && Black(p.sibling)
    requires !Black(p.sibling.left) || !Black(p.sibling.right)
    ensures IsFarRed(p.side, FarRed(p), h) && Items(FarRed(p)) == Items(p.sibling)
  {
    var s := p.sibling;
    if p.side == Left && Black(s.right) {
      RotateRightItems(s.(red := true, left := Paint(s.left, false)));
    } else if p.side == Right && Black(s.left) {
      RotateLeftItems(s.(red := true, right := Paint(s.right, false)));
    }
  }

  // The sister takes the place and color of the parent, which becomes black and is under it.
  function SisterUp(t: Tree, p: Path, s: Tree): Tree
    requires p.Under? && s.Node?
    requires if p.side == Left then s.right.Node? else s.left.Node?
  {
    if p.side == Left then
      RotateLeft(Join(t, p.(red := false, sibling := s.(red := p.red, right := Paint(s.right, false)))))
    else
      RotateRight(Join(t, p.(red := false, sibling := s.(red := p.red, left := Paint(s.left, false)))))
  }

  lemma SisterUpKeeps(t: Tree, p: Path, s: Tree, h: nat)
    requires Deleting(t, p, h) && p.Under? && IsFarRed(p.side, s, h) && Items(s) == Items(p.sibling)
    ensures Balanced(SisterUp(t, p, s), if p.red then h + 1 else h + 2)
    ensures TakesLoosely(p.up, if p.red then h + 1 else h + 2)
    ensures p.up.Under? && p.up.up.Under? && p.up.red ==> Black(SisterUp(t, p, s))
    ensures AllItems(SisterUp(t, p, s), p.up) == AllItems(t, p)
  {
    SisterUpItems(t, p, s);
    assert Balanced(s.left, h) && Balanced(s.right, h);
    if p.side == Left {
      assert Balanced(Node(p.id, p.key, false, t, s.left), h + 1) && Balanced(Paint(s.right, false), h + 1);
    } else {
      assert Balanced(Node(p.id, p.key, false, s.right, t), h + 1) && Balanced(Paint(s.left, false), h + 1);
    }
  }

  lemma SisterUpItems(t: Tree, p: Path, s: Tree)
    requires p.Under? && s.Node? && Items(s) == Items(p.sibling) && if p.side == Left then s.right.Node?
        else s.left.Node?
    ensures AllItems(SisterUp(t, p, s), p.up) == AllItems(t, p)
  {
    JoinItems(t, p);
    var s' := if p.side == Left then s.(red := p.red, right := Paint(s.right, false))
              else s.(red := p.red, left := Paint(s.left, false));
    assert Items(s') == Items(s);
    var u := Join(t, p.(red := false, sibling := s'));
    assert Items(u) == Items(Join(t, p));
    if p.side == Left { RotateLeftItems(u); } else { RotateRightItems(u); }
  }

  function BlackRoot(t: Tree): Tree {
    if t.Leaf? then t else Paint(t, false)
  }

  lemma {:induction false} Finish(t: Tree, p: Path, h: nat)
    requires Balanced(t, h) && TakesLoosely(p, h) && (p.Under? && p.up.Under? && p.red ==> Black(t))
    ensures IsRedBlack(BlackRoot(Plug(t, p))) && Items(BlackRoot(Plug(t, p))) == AllItems(t, p)
    decreases p
  {
    if p == Top {
      assert t.Node? ==> Balanced(Paint(t, false), if t.red then h + 1 else h);
      assert [] + Items(t) + [] == Items(t);
    } else if p.up == Top {
      var r := BlackRoot(Join(t, p));
      assert Balanced(r, h + 1);
      JoinItems(t, p);
      assert Items(r) == Items(Join(t, p)) && [] + Items(r) + [] == Items(r);
      assert Plug(t, p) == Join(t, p);
    } else {
      JoinItems(t, p);
      Finish(Join(t, p), p.up, if p.red then h else h + 1);
    }
  }
}
