/** Lookup, insertion, deletion and traversal on the linked nodes. */
module KazDict {
  import opened Shuffles
  import opened RedBlack
  import opened KazHeap
  import opened KazTree
  import opened KazDelete

  function Compare(a: int, b: int): int {
    if a < b then -1 else if a > b then 1 else 0
  }

  class Dict {
    var left: seq<nat>
    var right: seq<nat>
    var parent: seq<nat>
    var red: seq<bool>
    var key: seq<int>
    // Nodes that went out of the tree, to be used again.
    var recycleBin: seq<nat>

    function H(): Heap
      reads this
    {
      Heap(left, right, parent, red, key)
    }

    constructor ()
      ensures IsDict(H(), Leaf) && |left| == 1 && AllOwned(|left|, Leaf, recycleBin)
    {
      left, right, parent, red, key, recycleBin := [0], [0], [0], [false], [0], [];
      new;
      assert Balanced(Leaf, 0);
    }

    // ---- Rotations ----

    // Whatever tree the node shows, it shows that tree rotated afterwards, in its place.
    method RotateLeft(upper: nat)
      requires Sized(H()) && upper < |left|
      modifies this`left, this`right, this`parent, this`red, this`key
      ensures H() == RotatedLeft(old(H()), upper)
      ensures forall t, p {:trigger View(old(H()), t, p)} ::
                View(old(H()), t, p) && t.Node? && t.id == upper && t.right.Node? ==>
                  View(H(), RedBlack.RotateLeft(t), p)
    {
      var lower := right[upper];
      var lowleft := left[lower];
      right := right[upper := lowleft];
      parent := parent[lowleft := upper];
      var upparent := parent[upper];
      parent := parent[lower := upparent];
      if upper == left[upparent] {
        left := left[upparent := lower];
      } else {
        right := right[upparent := lower];
      }
      left := left[lower := upper];
      parent := parent[upper := lower];
      forall t, p | View(old(H()), t, p) && t.Node? && t.id == upper && t.right.Node?
        ensures View(H(), RedBlack.RotateLeft(t), p)
      {
        RotateLeftView(old(H()), t, p);
      }
    }

    method RotateRight(upper: nat)
      requires Sized(H()) && upper < |left|
      modifies this`left, this`right, this`parent, this`red, this`key
      ensures H() == RotatedRight(old(H()), upper)
      ensures forall t, p {:trigger View(old(H()), t, p)} ::
                View(old(H()), t, p) && t.Node? && t.id == upper && t.left.Node? ==>
                  View(H(), RedBlack.RotateRight(t), p)
    {
      var lower := left[upper];
      var lowright := right[lower];
      left := left[upper := lowright];
      parent := parent[lowright := upper];
      var upparent := parent[upper];
      parent := parent[lower := upparent];
      if upper == right[upparent] {
        right := right[upparent := lower];
      } else {
        left := left[upparent := lower];
      }
      right := right[lower := upper];
      parent := parent[upper := lower];
      forall t, p | View(old(H()), t, p) && t.Node? && t.id == upper && t.left.Node?
        ensures View(H(), RedBlack.RotateRight(t), p)
      {
        RotateRightView(old(H()), t, p);
      }
    }

    method SetColor(i: nat, c: bool)
      requires i < |red|
      modifies this`red
      ensures H() == Painted(old(H()), i, c)
    {
      red := red[i := c];
    }

    // ---- Lookup ----

    // The node with the key, or 0.
    method Lookup(k: int, ghost tree: Tree) returns (node: nat)
      requires IsDict(H(), tree)
      ensures node != 0 ==> Item(node, k) in Items(tree)
      ensures node == 0 ==> forall i :: 0 <= i < |Items(tree)| ==> Items(tree)[i].key != k
    {
      node := left[0];
      ghost var t, p := tree, Top;
      StartView(H(), tree);
      while node != 0
        invariant View(H(), t, p) && node == Id(t) && AllItems(t, p) == Items(tree) && Around(p, k)
        decreases t
      {
        StepView(H(), t, p);
        var result := Compare(k, key[node]);
        if result < 0 {
          GoLeft(t, p, k);
          node := left[node];
          t, p := t.left, Under(Left, t.id, t.key, t.red, t.right, p);
        } else if result > 0 {
          GoRight(t, p, k);
          node := right[node];
          t, p := t.right, Under(Right, t.id, t.key, t.red, t.left, p);
        } else {
          RootItem(t, p);
          return;
        }
      }
      NotThere(H(), t, p, k);
    }

    // The node with the least key, or 0.
    method First(ghost tree: Tree) returns (node: nat)
      requires IsDict(H(), tree)
      ensures node == if Items(tree) == [] then 0 else Items(tree)[0].id
    {
      StartView(H(), tree);
      node := left[0];
      if node != 0 {
        node := LeftmostNode(node, tree, Top);
        LeftPathBefore(tree, Top);
      }
    }

    // The node with the next key, or 0.
    method Next(node: nat, ghost t: Tree, ghost p: Path) returns (next: nat)
      requires View(H(), t, p) && t.Node? && node == t.id
      ensures var later := Items(t.right) + After(p); next == if later == [] then 0 else later[0].id
    {
      StepView(H(), t, p);
      if right[node] != 0 {
        next := LeftmostNode(right[node], t.right, Under(Right, t.id, t.key, t.red, t.left, p));
        LeftPathBefore(t.right, Under(Right, t.id, t.key, t.red, t.left, p));
      } else {
        next := NextAbove(node, t, p);
        assert [] + After(p) == After(p);
      }
    }

    method LeftmostNode(start: nat, ghost start_t: Tree, ghost start_p: Path) returns (node: nat)
      requires View(H(), start_t, start_p) && start_t.Node? && start == start_t.id
      ensures node == Leftmost(start_t).id
    {
      node := start;
      ghost var t, p := start_t, start_p;
      StepView(H(), t, p);
      while left[node] != 0
        invariant View(H(), t, p) && t.Node? && node == t.id && Leftmost(t) == Leftmost(start_t)
        invariant left[node] == Id(t.left) && (t.left.Leaf? <==> Id(t.left) == 0)
        decreases t
      {
        StepView(H(), t, p);
        node := left[node];
        t, p := t.left, Under(Left, t.id, t.key, t.red, t.right, p);
        StepView(H(), t, p);
      }
    }

    // Goes up while it comes from the right.
    method NextAbove(start: nat, ghost start_t: Tree, ghost start_p: Path) returns (next: nat)
      requires View(H(), start_t, start_p) && start_t.Node? && start == start_t.id
      ensures next == if After(start_p) == [] then 0 else After(start_p)[0].id
    {
      var curr := start;
      ghost var t, p := start_t, start_p;
      ParentLink(H(), t, p);
      next := parent[curr];
      while next != 0 && curr == right[next]
        invariant View(H(), t, p) && t.Node? && curr == t.id && next == PathId(p) && next < |left|
        invariant (p == Top <==> next == 0) && After(p) == After(start_p)
        invariant p.Under? ==> (curr == right[next] <==> p.side == Right)
        decreases p
      {
        ViewUp(H(), t, p);
        curr := next;
        t, p := Join(t, p), p.up;
        ParentLink(H(), t, p);
        next := parent[curr];
      }
    }

    // ---- Insertion ----

    // Inserts an unused node with the key; or returns the node that has it, with the tree unchanged.
    method Insert(node: nat, k: int, ghost tree: Tree) returns (existing: nat, ghost tree': Tree)
      requires IsDict(H(), tree) && IsNode(H(), node) && node !in Ids(tree)
      modifies this`left, this`right, this`parent, this`red, this`key
      ensures IsDict(H(), tree') && |left| == old(|left|) && recycleBin == old(recycleBin)
      ensures existing != 0 ==>
                Item(existing, k) in Items(tree) && tree' == tree && H() == old(H()).(key := old(key)[node := k])
      ensures existing == 0 ==> IsInserted(Items(tree), Item(node, k), Items(tree'))
    {
      key := key[node := k];
      KeyStays(old(H()), H(), tree, node);
      var up, result;
      ghost var p;
      existing, up, result, p := Descend(k, tree);
      tree' := tree;
      if existing == 0 {
        PlaceForNode(H(), tree, p, node, k);
        tree' := InsertAt(node, up, result, p);
      }
    }

    method InsertAt(node: nat, up: nat, result: int, ghost p0: Path) returns (ghost tree: Tree)
      requires Shows(H(), Leaf, p0) && IsNode(H(), node) && node !in PathIds(p0) && !red[0]
      requires up == PathId(p0) && IsSide(p0, result) && Inserting(Node(node, key[node], true, Leaf, Leaf), p0, 0)
      modifies this`left, this`right, this`parent, this`red, this`key
      ensures View(H(), tree, Top) && IsRedBlack(tree) && !red[0] && |left| == old(|left|)
      ensures Items(tree) == AllItems(Node(node, old(key[node]), true, Leaf, Leaf), p0)
    {
      ghost var t, p, h := Node(node, key[node], true, Leaf, Leaf), p0, 0;
      LinkNode(node, up, result, p);
      t, p, h := FixInsert(node, up, t, p, h);
      tree := BlackenRoot(t, p, h);
    }

    // Goes down to where the key belongs.
    method Descend(k: int, ghost tree: Tree) returns (existing: nat, up: nat, result: int, ghost p: Path)
      requires IsDict(H(), tree)
      ensures existing != 0 ==> Item(existing, k) in Items(tree)
      ensures existing == 0 ==>
                && View(H(), Leaf, p) && AllItems(Leaf, p) == Items(tree) && Plug(Leaf, p) == tree && Around(p, k)
                && up == PathId(p) && IsSide(p, result)
    {
      var node := left[0];
      up, result, existing := 0, -1, 0;
      ghost var t := tree;
      p := Top;
      StartView(H(), tree);
      while node != 0
        invariant View(H(), t, p) && node == Id(t) && AllItems(t, p) == Items(tree) && Plug(t, p) == tree
                  && Around(p, k)
        invariant up == PathId(p) && IsSide(p, result)
        decreases t
      {
        StepView(H(), t, p);
        up := node;
        result := Compare(k, key[node]);
        if result == 0 {
          RootItem(t, p);
          existing := node;
          return;
        } else if result < 0 {
          GoLeft(t, p, k);
          node := left[node];
          t, p := t.left, Under(Left, t.id, t.key, t.red, t.right, p);
        } else {
          GoRight(t, p, k);
          node := right[node];
          t, p := t.right, Under(Right, t.id, t.key, t.red, t.left, p);
        }
      }
      NotThere(H(), t, p, k);
    }

    method LinkNode(node: nat, up: nat, result: int, ghost p: Path)
      requires Shows(H(), Leaf, p) && IsNode(H(), node) && node !in PathIds(p) && !red[0]
      requires up == PathId(p) && IsSide(p, result)
      modifies this`left, this`right, this`parent, this`red, this`key
      ensures Shows(H(), Node(node, old(key[node]), true, Leaf, Leaf), p) && up < |left| == old(|left|) == |red|
              && !red[0]
    {
      LinkedShows(H(), p, node);
      ghost var after := Linked(H(), p, node);
      if result < 0 {
        left := left[up := node];
      } else {
        right := right[up := node];
      }
      parent := parent[node := up];
      left := left[node := 0];
      right := right[node := 0];
      red := red[node := true];
      assert H() == after;
    }

    // Red-black adjustments: goes up while the parent is red too.
    method FixInsert(newNode: nat, newUp: nat, ghost t0: Tree, ghost p0: Path, ghost h0: nat)
      returns (ghost t: Tree, ghost p: Path, ghost h: nat)
      requires Shows(H(), t0, p0) && Inserting(t0, p0, h0) && newNode == t0.id && newUp == PathId(p0)
               && newUp < |left| == |red|
      requires !red[0]
      modifies this`left, this`right, this`parent, this`red, this`key
      ensures Shows(H(), t, p) && Balanced(t, h) && Takes(p, h) && (RedFrame(p) ==> Black(t)) && t.Node?
      ensures AllItems(t, p) == AllItems(t0, p0) && |left| == old(|left|) == |red| && !red[0]
    {
      var node, up, done := newNode, newUp, false;
      t, p, h := t0, p0, h0;
      while !done && red[up]
        invariant Fixing(H(), t, p, h) && AllItems(t, p) == AllItems(t0, p0)
        invariant up < |left| && |left| == |red| && |left| == old(|left|) && !red[0]
        invariant !done ==> t.red && node == t.id && up == PathId(p)
        invariant done ==> Black(t)
        decreases p, !done
      {
        InsertStepShows(H(), t, p, h);
        node, up, done := FixInsertStep(node, up, t, p);
        t, p, h := InsertStep(t, p), p.up.up, h + 1;
      }
      if !done { ColorOfPath(H(), t, p); }
    }

    method FixInsertStep(node0: nat, up0: nat, ghost t: Tree, ghost p: Path) returns (node: nat, up: nat, done: bool)
      requires IsFamily(H(), t, p) && (p.id == left[p.up.id] <==> p.up.side == Left) && node0 == t.id && up0 == p.id
      modifies this`left, this`right, this`parent, this`red, this`key
      ensures H() == InsertStepHeap(old(H()), t, p) && done == Black(p.up.sibling) && up < old(|left|)
      ensures !done ==> node == p.up.id && up == PathId(p.up.up)
    {
      if up0 == left[parent[up0]] {
        node, up, done := FixInsertLeft(node0, up0, t, p);
      } else {
        node, up, done := FixInsertRight(node0, up0, t, p);
      }
    }

    method FixInsertLeft(node0: nat, up0: nat, ghost t: Tree, ghost p: Path) returns (node: nat, up: nat, done: bool)
      requires IsFamily(H(), t, p) && p.up.side == Left && node0 == t.id && up0 == p.id
      modifies this`left, this`right, this`parent, this`red, this`key
      ensures H() == InsertStepHeap(old(H()), t, p) && done == Black(p.up.sibling) && up < old(|left|)
      ensures !done ==> node == p.up.id && up == PathId(p.up.up)
    {
      node, up := node0, up0;
      var grandpa := parent[up];
      var uncle := right[grandpa];
      if red[uncle] {
        SetColor(up, false);
        SetColor(uncle, false);
        SetColor(grandpa, true);
        node := grandpa;
        up := parent[grandpa];
        done := false;
      } else {
        if node == right[up] {
          RotateLeft(up);
          up := node;
        }
        SetColor(up, false);
        SetColor(grandpa, true);
        RotateRight(grandpa);
        done := true;
      }
    }

    method FixInsertRight(node0: nat, up0: nat, ghost t: Tree, ghost p: Path) returns (node: nat, up: nat, done: bool)
      requires IsFamily(H(), t, p) && p.up.side == Right && node0 == t.id && up0 == p.id
      modifies this`left, this`right, this`parent, this`red, this`key
      ensures H() == InsertStepHeap(old(H()), t, p) && done == Black(p.up.sibling) && up < old(|left|)
      ensures !done ==> node == p.up.id && up == PathId(p.up.up)
    {
      node, up := node0, up0;
      var grandpa := parent[up];
      var uncle := left[grandpa];
      if red[uncle] {
        SetColor(up, false);
        SetColor(uncle, false);
        SetColor(grandpa, true);
        node := grandpa;
        up := parent[grandpa];
        done := false;
      } else {
        if node == left[up] {
          RotateRight(up);
          up := node;
        }
        SetColor(up, false);
        SetColor(grandpa, true);
        RotateLeft(grandpa);
        done := true;
      }
    }

    method BlackenRoot(ghost t: Tree, ghost p: Path, ghost h: nat) returns (ghost tree: Tree)
      requires Shows(H(), t, p) && Balanced(t, h) && Takes(p, h)
               && (RedFrame(p) ==> Black(t)) && t.Node? && |left| == |red| > 0
      modifies this`left, this`right, this`parent, this`red, this`key
      ensures View(H(), tree, Top) && IsRedBlack(tree) && Items(tree) == AllItems(t, p)
      ensures red[0] == old(red[0]) && |left| == old(|left|) == |red|
    {
      Shown(H(), t, p);
      ViewTop(H(), t, p);
      InsertDone(t, p, h);
      PaintView(H(), Plug(t, p), Top, false);
      SetColor(left[0], false);
      tree := BlackRoot(Plug(t, p));
    }

    // ---- Deletion ----

    // The node goes out; its only child, or its successor, takes its place.
    method TakeOutNode(target: nat, ghost t: Tree, ghost p: Path) returns (child: nat)
      requires Shows(H(), t, p) && t.Node? && target == t.id && |red| > 0 && !red[0]
      modifies this`left, this`right, this`parent, this`red, this`key
      ensures Shows(H(), TakeOut(t, p).child, TakeOut(t, p).path) && child == Id(TakeOut(t, p).child) < |left|
      ensures |left| == old(|left|) && |red| == |left| && |parent| == |left| && |right| == |left|
      ensures 0 < target < |left| && red[target] == TakeOut(t, p).red && !red[0]
      ensures parent[child] == PathId(TakeOut(t, p).path) && target !in ViewIds(TakeOut(t, p).child, TakeOut(t, p).path)
    {
      Shown(H(), t, p);
      StepView(H(), t, p);
      ParentLink(H(), t, p);
      if left[target] != 0 && right[target] != 0 {
        child := TakeOutTwo(target, t, p);
      } else {
        OneOutView(H(), t, p);
        child := if left[target] != 0 then left[target] else right[target];
        Replug(target, child, p);
        Shown(H(), TakeOut(t, p).child, p);
      }
    }

    // The child takes the place of the node under the node's parent.
    method Replug(node: nat, child: nat, ghost p: Path)
      requires Sized(H()) && node < |left| && child < |left| && parent[node] == PathId(p) && !red[0]
      requires p == Top || p.side == Left <==> left[PathId(p)] == node
      modifies this`parent, this`left, this`right
      ensures H() == Rehung(old(H()), p, child)
    {
      var up := parent[node];
      parent := parent[child := up];
      if left[up] == node {
        left := left[up := child];
      } else {
        right := right[up := child];
      }
    }

    method TakeOutTwo(target: nat, ghost t: Tree, ghost p: Path) returns (child: nat)
      requires View(H(), t, p) && t.Node? && t.left.Node? && t.right.Node? && target == t.id && !red[0]
               && IsNode(H(), target)
      modifies this`left, this`right, this`parent, this`red, this`key
      ensures Shows(H(), TakeOut(t, p).child, TakeOut(t, p).path) && child == Id(TakeOut(t, p).child) < |left|
      ensures |left| == old(|left|) && |red| == |left| && |parent| == |left| && |right| == |left|
      ensures 0 < target < |left| && red[target] == TakeOut(t, p).red && !red[0]
      ensures parent[child] == PathId(TakeOut(t, p).path) && target !in ViewIds(TakeOut(t, p).child, TakeOut(t, p).path)
    {
      StepView(H(), t, p);
      NextOutView(H(), t, p);
      ghost var n := Leftmost(t.right);
      var next := Next(target, t, p);
      NextIsLeftmost(t, p);
      var nextColor := red[next];
      StepView(H(), n, NextPath(t, p));
      ParentLink(H(), n, NextPath(t, p));
      child := right[next];
      Replug(next, child, NextPath(t, p));
      SupplantShows(H(), t, p, n);
      Supplant(target, next, p);
      SetColor(target, nextColor);
    }

    // The successor, out of the tree now, takes the place of the target.
    method Supplant(target: nat, next: nat, ghost p: Path)
      requires Sized(H()) && target < |left| && next < |left| && IsTarget(H(), target, next, p)
      modifies this`left, this`right, this`parent, this`red, this`key
      ensures H() == Substituted(old(H()), target, next, p)
    {
      var up := parent[target];
      Adopt(target, next, p);
      if left[up] == target {
        left := left[up := next];
      } else {
        right := right[up := next];
      }
    }

    // The next node takes over the parent, the children and the color of the target.
    method Adopt(target: nat, next: nat, ghost p: Path)
      requires Sized(H()) && target < |left| && next < |left| && IsTarget(H(), target, next, p)
      modifies this`left, this`right, this`parent, this`red
      ensures var h := Adopted(old(H()), target, next); H() == h.(parent := h.parent[next := PathId(p)])
    {
      parent := parent[next := parent[target]];
      left := left[next := left[target]];
      right := right[next := right[target]];
      parent := parent[left[next] := next];
      parent := parent[right[next] := next];
      red := red[next := red[target]];
    }

    // The child is on the left: a red sister takes the place of the parent.
    method TurnLeft(up: nat, ghost p: Path) returns (sister: nat)
      requires KnowsSister(H(), p) && p.side == Left && up == p.id
      modifies this`left, this`right, this`parent, this`red, this`key
      ensures H() == TurnHeap(old(H()), p) && up < |right| && sister == right[up]
    {
      sister := right[up];
      if red[sister] {
        SetColor(sister, false);
        SetColor(up, true);
        RotateLeft(up);
        sister := right[up];
      }
    }

    // The red child of the sister gets to the far side.
    method FarLeft(up: nat, sister0: nat, ghost p: Path) returns (sister: nat)
      requires KnowsSister(H(), p) && p.side == Left && up == p.id && sister0 == p.sibling.id && !BlackNephews(p)
      modifies this`left, this`right, this`parent, this`red, this`key
      ensures H() == FarRedHeap(old(H()), p) && up < |right| && sister == right[up]
    {
      sister := sister0;
      if !red[right[sister]] {
        SetColor(left[sister], false);
        SetColor(sister, true);
        RotateRight(sister);
        sister := right[up];
      }
    }

    method UpLeft(up: nat, sister: nat, ghost p: Path)
      requires KnowsSister(H(), p) && p.side == Left && up == p.id && sister == p.sibling.id && p.sibling.right.Node?
      modifies this`left, this`right, this`parent, this`red, this`key
      ensures Far(Left, p.sibling).id < old(|left|) && H() == SisterUpHeap(old(H()), p)
    {
      SetColor(sister, red[up]);
      SetColor(right[sister], false);
      SetColor(up, false);
      RotateLeft(up);
    }

    method FixDeleteLeft(up: nat, ghost t: Tree, ghost p: Path, ghost h: nat) returns (done: bool)
      requires Shows(H(), t, p) && Deleting(t, p, h) && Black(t) && p.Under? && |red| == |left| && |red| > 0 && !red[0]
      requires p.side == Left && up == p.id
      modifies this`left, this`right, this`parent, this`red, this`key
      ensures |left| == old(|left|) && |red| == |left| && !red[0]
      ensures done == !BlackNephewsAfter(p) && Shows(H(), FixedTree(t, p), AfterUp(p))
      ensures Id(t) < old(|red|) && (done ==> red[Id(t)] == old(red[Id(t)]))
    {
      TurnShows(H(), t, p, h);
      ChildKeepsColor(H(), t, p);
      var sister := TurnLeft(up, p);
      done := EndLeft(up, sister, t, TurnPath(p), h);
      FixedIs(H(), t, p, h);
    }

    // The sister is black.
    method EndLeft(up: nat, sister0: nat, ghost t: Tree, ghost q: Path, ghost h: nat) returns (done: bool)
      requires Shows(H(), t, q) && Deleting(t, q, h) && Black(t) && KnowsSister(H(), q) && !q.sibling.red && !red[0]
      requires q.side == Left && up == q.id && sister0 == q.sibling.id
      modifies this`left, this`right, this`parent, this`red, this`key
      ensures |left| == old(|left|) && |red| == |left| && !red[0] && Id(t) < |red|
      ensures done == !BlackNephews(q) && (done ==> Far(q.side, FarRed(q)).Node? && red[Id(t)] == old(red[Id(t)]))
      ensures Shows(H(), EndTree(t, q), q.up)
    {
      var sister := sister0;
      done := red[left[sister]] || red[right[sister]];
      ApartFromSister(H(), t, q);
      if !done {
        ToRedShows(H(), t, q, h);
        SetColor(sister, true);
      } else {
        FarShows(H(), t, q, h);
        UpShows(FarRedHeap(H(), q), t, FarPath(q));
        ChildKeepsColorUp(H(), t, q);
        SameUp(t, q);
        sister := FarLeft(up, sister, q);
        UpLeft(up, sister, FarPath(q));
      }
    }

    // The child is on the right: a red sister takes the place of the parent.
    method TurnRight(up: nat, ghost p: Path) returns (sister: nat)
      requires KnowsSister(H(), p) && p.side == Right && up == p.id
      modifies this`left, this`right, this`parent, this`red, this`key
      ensures H() == TurnHeap(old(H()), p) && up < |left| && sister == left[up]
    {
      sister := left[up];
      if red[sister] {
        SetColor(sister, false);
        SetColor(up, true);
        RotateRight(up);
        sister := left[up];
      }
    }

    // The red child of the sister gets to the far side.
    method FarRight(up: nat, sister0: nat, ghost p: Path) returns (sister: nat)
      requires KnowsSister(H(), p) && p.side == Right && up == p.id && sister0 == p.sibling.id && !BlackNephews(p)
      modifies this`left, this`right, this`parent, this`red, this`key
      ensures H() == FarRedHeap(old(H()), p) && up < |left| && sister == left[up]
    {
      sister := sister0;
      if !red[left[sister]] {
        SetColor(right[sister], false);
        SetColor(sister, true);
        RotateLeft(sister);
        sister := left[up];
      }
    }

    method UpRight(up: nat, sister: nat, ghost p: Path)
      requires KnowsSister(H(), p) && p.side == Right && up == p.id && sister == p.sibling.id && p.sibling.left.Node?
      modifies this`left, this`right, this`parent, this`red, this`key
      ensures Far(Right, p.sibling).id < old(|left|) && H() == SisterUpHeap(old(H()), p)
    {
      SetColor(sister, red[up]);
      SetColor(left[sister], false);
      SetColor(up, false);
      RotateRight(up);
    }

    method FixDeleteRight(up: nat, ghost t: Tree, ghost p: Path, ghost h: nat) returns (done: bool)
      requires Shows(H(), t, p) && Deleting(t, p, h) && Black(t) && p.Under? && |red| == |left| && |red| > 0 && !red[0]
      requires p.side == Right && up == p.id
      modifies this`left, this`right, this`parent, this`red, this`key
      ensures |left| == old(|left|) && |red| == |left| && !red[0]
      ensures done == !BlackNephewsAfter(p) && Shows(H(), FixedTree(t, p), AfterUp(p))
      ensures Id(t) < old(|red|) && (done ==> red[Id(t)] == old(red[Id(t)]))
    {
      TurnShows(H(), t, p, h);
      ChildKeepsColor(H(), t, p);
      var sister := TurnRight(up, p);
      done := EndRight(up, sister, t, TurnPath(p), h);
      FixedIs(H(), t, p, h);
    }

    // The sister is black.
    method EndRight(up: nat, sister0: nat, ghost t: Tree, ghost q: Path, ghost h: nat) returns (done: bool)
      requires Shows(H(), t, q) && Deleting(t, q, h) && Black(t) && KnowsSister(H(), q) && !q.sibling.red && !red[0]
      requires q.side == Right && up == q.id && sister0 == q.sibling.id
      modifies this`left, this`right, this`parent, this`red, this`key
      ensures |left| == old(|left|) && |red| == |left| && !red[0] && Id(t) < |red|
      ensures done == !BlackNephews(q) && (done ==> Far(q.side, FarRed(q)).Node? && red[Id(t)] == old(red[Id(t)]))
      ensures Shows(H(), EndTree(t, q), q.up)
    {
      var sister := sister0;
      done := red[right[sister]] || red[left[sister]];
      ApartFromSister(H(), t, q);
      if !done {
        ToRedShows(H(), t, q, h);
        SetColor(sister, true);
      } else {
        FarShows(H(), t, q, h);
        UpShows(FarRedHeap(H(), q), t, FarPath(q));
        ChildKeepsColorUp(H(), t, q);
        SameUp(t, q);
        sister := FarRight(up, sister, q);
        UpRight(up, sister, FarPath(q));
      }
    }

    // Red-black adjustments after a black node has gone. The root is red meanwhile, which ends the loop.
    method FixDelete(child0: nat, ghost t0: Tree, ghost p0: Path, ghost g: nat) returns (ghost tree: Tree)
      requires Shows(H(), t0, p0) && Balanced(t0, g) && Takes(p0, g + 1) && |left| == |red| && |left| == |parent|
      requires child0 == Id(t0) && child0 < |left| && parent[child0] == PathId(p0) && !red[0]
      modifies this`left, this`right, this`parent, this`red, this`key
      ensures View(H(), tree, Top) && IsRedBlack(tree) && Items(tree) == AllItems(t0, p0)
      ensures |left| == old(|left|) && |red| == |left| && !red[0]
    {
      RootLink(H(), t0, p0);
      if child0 == left[0] {
        SetColor(left[0], true);
        tree := OnlyChildLeft(child0, old(H()), t0, g);
      } else {
        StartFix(H(), t0, p0, g);
        SetColor(left[0], true);
        var child, done;
        ghost var t, p, h;
        child, done, t, p, h := FixDeleteLoop(child0, t0, RedRoot(p0), g);
        tree := FinishDelete(child, done, t, p, h);
      }
    }

    // The child is the root now.
    method OnlyChildLeft(child: nat, ghost h0: Heap, ghost t: Tree, ghost g: nat) returns (ghost tree: Tree)
      requires Shows(h0, t, Top) && Balanced(t, g) && |h0.left| == |h0.red| && |h0.left| > 0
               && h0.left[0] == child < |h0.red| && !h0.red[0]
      requires H() == Painted(h0, child, true)
      modifies this`left, this`right, this`parent, this`red, this`key
      ensures View(H(), tree, Top) && IsRedBlack(tree) && Items(tree) == AllItems(t, Top)
      ensures |left| == old(|left|) && |red| == |left| && !red[0]
    {
      SetColor(child, false);
      SetColor(left[0], false);
      OnlyRoot(h0, H(), t, g);
      tree := BlackRoot(t);
    }

    method FixDeleteLoop(child0: nat, ghost t0: Tree, ghost p0: Path, ghost h0: nat)
      returns (child: nat, done: bool, ghost t: Tree, ghost p: Path, ghost h: nat)
      requires Shows(H(), t0, p0) && Pending(t0, p0, h0) && |left| == |red| && |left| == |parent|
      requires child0 == Id(t0) && child0 < |left| && parent[child0] == PathId(p0) && red[child0] == !Black(t0)
               && !red[0]
      modifies this`left, this`right, this`parent, this`red, this`key
      ensures Shows(H(), t, p) && AllItems(t, p) == AllItems(t0, p0) && |left| == old(|left|) && |red| == |left|
              && !red[0]
      ensures child < |red| && if done then !red[child] && Settled(t, p, h)
                               else child == Id(t) && !Black(t) && Pending(t, p, h)
    {
      child, done := child0, false;
      t, p, h := t0, p0, h0;
      while !done && !red[child]
        invariant Shows(H(), t, p) && AllItems(t, p) == AllItems(t0, p0)
        invariant |left| == old(|left|) && |red| == |left| && |parent| == |left| && child < |left| && !red[0]
        invariant !done ==>
                    child == Id(t) && red[child] == !Black(t) && Pending(t, p, h)
                      && (Black(t) ==> parent[child] == PathId(p))
        invariant done ==> !red[child] && Settled(t, p, h)
        decreases if done || !Black(t) then 0 else 1 + Depth(p)
      {
        PendingLinks(H(), t, p, h);
        RoundKeeps(t, p, h);
        var up := parent[child];
        if child == left[up] {
          done := FixDeleteLeft(up, t, p, h);
        } else {
          done := FixDeleteRight(up, t, p, h);
        }
        t, p, h := FixedTree(t, p), AfterUp(p), FixedHeight(p, h);
        RootLinks(H(), t, p);
        if !done { child := up; }
      }
    }

    method FinishDelete(child: nat, done: bool, ghost t: Tree, ghost p: Path, ghost h: nat) returns (ghost tree: Tree)
      requires Shows(H(), t, p) && |red| == |left| && |red| > 0 && !red[0]
      requires child < |red| && if done then !red[child] && Settled(t, p, h)
                                else child == Id(t) && !Black(t) && Pending(t, p, h)
      modifies this`left, this`right, this`parent, this`red, this`key
      ensures View(H(), tree, Top) && IsRedBlack(tree) && Items(tree) == AllItems(t, p)
      ensures |left| == old(|left|) && |red| == |left| && !red[0]
    {
      ghost var u, g := if done then t else Paint(t, false), if done then h else h + 1;
      ChildBlack(H(), child, done, t, p, h);
      SetColor(child, false);
      BlackAtRoot(H(), u, p, g);
      SetColor(left[0], false);
      tree := BlackRoot(Plug(u, p));
    }

    // Takes exactly the target out.
    method Delete(target: nat, ghost tree: Tree) returns (ghost tree': Tree)
      requires IsDict(H(), tree) && target in Ids(tree)
      modifies this`left, this`right, this`parent, this`red, this`key
      ensures IsDict(H(), tree') && |left| == old(|left|)
      ensures IsRemoved(Items(tree), target, Items(tree')) && target !in Ids(tree')
      ensures 0 < target < |left|
    {
      ghost var t, p, g := StartDelete(H(), tree, target);
      ghost var r := TakeOut(t, p);
      var child := TakeOutNode(target, t, p);
      ChildIsNot(r.child, r.path, target);
      ClearLinks(target, r.child, r.path);
      tree' := FixAfter(target, child, r, g);
      GoneFromItems(r.child, r.path, target, tree');
    }

    method FixAfter(target: nat, child: nat, ghost r: Removal, ghost g: nat) returns (ghost tree: Tree)
      requires target < |red| && |left| == |red| && |left| == |parent| && !red[0] && red[target] == r.red
      requires Shows(H(), r.child, r.path) && Balanced(r.child, g) && Takes(r.path, if r.red then g else g + 1)
      requires r.red ==> Black(r.child) && r.path.Under?
      requires child == Id(r.child) && child < |left| && parent[child] == PathId(r.path)
      modifies this`left, this`right, this`parent, this`red, this`key
      ensures View(H(), tree, Top) && IsRedBlack(tree) && Items(tree) == AllItems(r.child, r.path)
      ensures |left| == old(|left|) && |red| == |left| && !red[0]
    {
      if !red[target] {
        tree := FixDelete(child, r.child, r.path, g);
      } else {
        RedGone(H(), r.child, r.path, g);
        tree := Plug(r.child, r.path);
      }
    }

    // The node that went out has no links any more.
    method ClearLinks(target: nat, ghost t: Tree, ghost p: Path)
      requires Shows(H(), t, p) && target !in ViewIds(t, p) && 0 < target < |left| && |right| == |left|
               && |parent| == |left|
      modifies this`left, this`right, this`parent
      ensures Shows(H(), t, p) && |left| == old(|left|) && |parent| == |left| && |right| == |left|
      ensures forall i :: 0 <= i < |parent| && i != target ==> parent[i] == old(parent[i])
      ensures left[target] == 0 && right[target] == 0 && parent[target] == 0
    {
      ghost var h := H();
      parent := parent[target := 0];
      right := right[target := 0];
      left := left[target := 0];
      OutsideLinks(h, H(), t, p, target);
    }

    // ---- Allocation ----

    // Takes a node from the recycle bin or a new one, and gives it back if the key is there already.
    method AllocInsert(k: int, ghost tree: Tree) returns (existing: nat, ghost tree': Tree)
      requires IsDict(H(), tree) && AllOwned(|left|, tree, recycleBin)
      modifies this
      ensures IsDict(H(), tree') && AllOwned(|left|, tree', recycleBin)
      ensures existing != 0 ==>
                && Item(existing, k) in Items(tree) && tree' == tree
                && |left| == old(|left|) && recycleBin == old(recycleBin)
      ensures existing == 0 ==> exists node :: IsInserted(Items(tree), Item(node, k), Items(tree'))
    {
      ghost var h0, bin0 := H(), recycleBin;
      var fromBin := recycleBin != [];
      var node := TakeNode(tree);
      existing, tree' := Insert(node, k, tree);
      if existing != 0 {
        GiveBack(fromBin, node, h0, k);
        assert recycleBin == bin0;
      } else {
        assert IsInserted(Items(tree), Item(node, k), Items(tree'));
        NodeUsed(|left|, tree, tree', Item(node, k), bin0, recycleBin, |h0.left|);
      }
    }

    method TakeNode(ghost tree: Tree) returns (node: nat)
      requires IsDict(H(), tree) && AllOwned(|left|, tree, recycleBin)
      modifies this
      ensures IsDict(H(), tree) && IsNode(H(), node) && node !in Ids(tree)
      ensures if old(recycleBin) != [] then node == old(recycleBin)[0] && recycleBin == old(recycleBin)[1..]
                && H() == old(H())
              else recycleBin == [] && node == old(|left|) && IsLonger(old(H()), H())
    {
      if recycleBin != [] {
        assert recycleBin[0] in recycleBin && Sized(H());
        node := recycleBin[0];
        recycleBin := recycleBin[1..];
      } else {
        NewNode(H(), tree);
        node := |left|;
        left, right, parent, red, key := left + [0], right + [0], parent + [0], red + [false], key + [0];
      }
    }

    // The key was there: the node goes back to where it came from.
    method GiveBack(fromBin: bool, node: nat, ghost h0: Heap, ghost k: int)
      requires !fromBin ==> node == |h0.left| && Sized(h0) && IsLongerButKey(h0, H(), k)
      modifies this
      ensures fromBin ==> recycleBin == [node] + old(recycleBin) && H() == old(H())
      ensures !fromBin ==> recycleBin == old(recycleBin) && H() == h0
    {
      if fromBin {
        recycleBin := [node] + recycleBin;
      } else {
        left, right, parent, red, key := left[..node], right[..node], parent[..node], red[..node], key[..node];
      }
    }

    // Takes the node out of the tree and puts it into the recycle bin.
    method DeleteFree(target: nat, ghost tree: Tree) returns (ghost tree': Tree)
      requires IsDict(H(), tree) && AllOwned(|left|, tree, recycleBin) && target in Ids(tree)
      modifies this
      ensures IsDict(H(), tree') && AllOwned(|left|, tree', recycleBin) && IsRemoved(Items(tree), target, Items(tree'))
      ensures |left| == old(|left|) && recycleBin == [target] + old(recycleBin)
    {
      tree' := Delete(target, tree);
      NodeFreed(|left|, tree, tree', target, recycleBin);
      recycleBin := [target] + recycleBin;
    }
  }

  lemma ParentLink(h: Heap, t: Tree, p: Path)
    requires View(h, t, p) && t.Node?
    ensures IsNode(h, t.id) && h.parent[t.id] == PathId(p) < |h.left| && (p == Top <==> PathId(p) == 0)
    ensures p.Under? ==> (t.id == h.right[p.id] <==> p.side == Right) && (t.id == h.left[p.id] <==> p.side == Left)
  {
    PathIdIn(h, p, t.id);
    OneSide(h, t, p);
  }

  lemma StartView(h: Heap, tree: Tree)
    requires View(h, tree, Top)
    ensures AllItems(tree, Top) == Items(tree) && h.left[0] == Id(tree)
    ensures tree.Leaf? ==> Id(tree) == 0
    ensures tree.Node? ==> Id(tree) != 0
  {
    assert [] + Items(tree) + [] == Items(tree);
  }

  // What the links of the node in view say, and the views of its children.
  lemma StepView(h: Heap, t: Tree, p: Path)
    requires View(h, t, p) && t.Node?
    ensures IsNode(h, t.id) && h.key[t.id] == t.key && h.red[t.id] == t.red && h.left[t.id] == Id(t.left)
            && h.right[t.id] == Id(t.right)
    ensures View(h, t.left, Under(Left, t.id, t.key, t.red, t.right, p))
            && View(h, t.right, Under(Right, t.id, t.key, t.red, t.left, p))
    ensures (t.left.Leaf? <==> Id(t.left) == 0) && (t.right.Leaf? <==> Id(t.right) == 0)
  {
    var q, r := Under(Left, t.id, t.key, t.red, t.right, p), Under(Right, t.id, t.key, t.red, t.left, p);
    assert Join(t.left, q) == t && Join(t.right, r) == t;
    ViewDown(h, t.left, q);
    ViewDown(h, t.right, r);
  }

  lemma NotThere(h: Heap, t: Tree, p: Path, k: int)
    requires View(h, t, p) && Id(t) == 0 && Around(p, k)
    ensures t.Leaf? && forall i :: 0 <= i < |AllItems(t, p)| ==> AllItems(t, p)[i].key != k
  {
    assert AllItems(t, p) == Before(p) + After(p);
  }

  lemma LinkedShows(h: Heap, p: Path, node: nat)
    requires Shows(h, Leaf, p) && IsNode(h, node) && node !in PathIds(p)
    ensures Sized(h) && PathId(p) < |h.left| && PathId(p) != node
    ensures Shows(Linked(h, p, node), Node(node, h.key[node], true, Leaf, Leaf), p)
  {
    Shown(h, Leaf, p);
    LinkedView(h, p, node);
    Shown(Linked(h, p, node), Node(node, h.key[node], true, Leaf, Leaf), p);
  }

  lemma PlaceForNode(h: Heap, tree: Tree, p: Path, node: nat, k: int)
    requires IsDict(h, tree) && View(h, Leaf, p) && Plug(Leaf, p) == tree && AllItems(Leaf, p) == Items(tree)
             && Around(p, k)
    requires node !in Ids(tree)
    ensures Shows(h, Leaf, p) && node !in PathIds(p) && Inserting(Node(node, k, true, Leaf, Leaf), p, 0)
    ensures IsInserted(Items(tree), Item(node, k), AllItems(Node(node, k, true, Leaf, Leaf), p))
    ensures Sorted(AllItems(Node(node, k, true, Leaf, Leaf), p))
  {
    Shown(h, Leaf, p);
    PathIdsInTree(h, Leaf, p);
    NewLeafInserting(p, node, k);
    InsertedBetween(p, node, k, Items(tree));
    assert AllItems(Leaf, p) == Before(p) + After(p);
    assert Items(Node(node, k, true, Leaf, Leaf)) == [Item(node, k)];
    SortedWith(Before(p), Item(node, k), After(p));
  }

  // The side on which the new node goes.
  predicate IsSide(p: Path, result: int) {
    p == Top || p.side == Left <==> result < 0
  }

  predicate IsInserted(before: seq<Item>, x: Item, after: seq<Item>) {
    && (forall i :: 0 <= i < |before| ==> before[i].key != x.key)
    && exists n :: 0 <= n <= |before| && after == before[..n] + [x] + before[n..]
  }

  lemma KeyStays(h: Heap, h': Heap, tree: Tree, node: nat)
    requires IsDict(h, tree) && IsNode(h, node) && node !in Ids(tree) && h' == h.(key := h'.key)
    requires |h'.key| == |h.key| && forall i :: 0 <= i < |h.key| && i != node ==> h'.key[i] == h.key[i]
    ensures IsDict(h', tree)
  {
    forall i | i in Ids(tree) || i in PathIds(Top) ensures Same(h, h', i) {}
    ViewStays(h, h', tree, Top);
  }

  lemma InsertedBetween(p: Path, node: nat, k: int, items: seq<Item>)
    requires Around(p, k) && AllItems(Leaf, p) == items
    ensures IsInserted(items, Item(node, k), AllItems(Node(node, k, true, Leaf, Leaf), p))
  {
    var n := |Before(p)|;
    assert items == Before(p) + After(p);
    assert items[..n] == Before(p) && items[n..] == After(p);
    assert Items(Node(node, k, true, Leaf, Leaf)) == [Item(node, k)];
  }

  lemma PathIdsInTree(h: Heap, t: Tree, p: Path)
    requires View(h, t, p)
    ensures PathIds(p) <= Ids(Plug(t, p))
    decreases p
  {
    if p.Under? {
      ViewUp(h, t, p);
      JoinIds(t, p);
      PathIdsInTree(h, Join(t, p), p.up);
      IdsInPlug(Join(t, p), p.up);
    }
  }

  lemma {:induction false} IdsInPlug(t: Tree, p: Path)
    ensures Ids(t) <= Ids(Plug(t, p))
    decreases p
  {
    if p.Under? { IdsInPlug(Join(t, p), p.up); }
  }

  lemma NewLeafInserting(p: Path, node: nat, k: int)
    requires IsRedBlack(Plug(Leaf, p))
    ensures Inserting(Node(node, k, true, Leaf, Leaf), p, 0)
  {
    var h := ViewOf(Leaf, p);
  }

  // A red parent is not the root.
  lemma RedParent(h: Heap, t: Tree, p: Path, bh: nat)
    requires View(h, t, p) && Takes(p, bh) && !h.red[0] && PathId(p) < |h.left| && h.red[PathId(p)]
    ensures RedFrame(p) && p.up.Under? && !p.up.red && PathId(p.up) < |h.left| && h.parent[p.id] == p.up.id
    ensures p.id == h.left[p.up.id] <==> p.up.side == Left
  {
    ViewUp(h, t, p);
    ParentLink(h, Join(t, p), p.up);
  }

  // The node, its red parent, the grandparent and the uncle.
  predicate IsFamily(h: Heap, t: Tree, p: Path) {
    && Sized(h) && !h.red[0] && t.Node? && p.Under? && p.up.Under?
    && t.id < |h.left| && p.id < |h.left| && p.up.id < |h.left| && h.parent[p.id] == p.up.id
    && h.parent[p.up.id] == PathId(p.up.up)
    && (if p.up.side == Left then h.right[p.up.id] else h.left[p.up.id]) == Id(p.up.sibling) < |h.left|
    && h.red[Id(p.up.sibling)] == !Black(p.up.sibling)
    && (t.id == h.right[p.id] <==> p.side == Right) && (t.id == h.left[p.id] <==> p.side == Left)
    && Outer(t, p).id == if p.side == p.up.side then p.id else t.id
  }

  lemma Family(h: Heap, t: Tree, p: Path)
    requires View(h, t, p) && t.Node? && p.Under? && p.up.Under? && !h.red[0]
    ensures IsFamily(h, t, p)
  {
    ViewUp(h, t, p);
    ViewUp(h, Join(t, p), p.up);
    assert RepPath(h, p.up, p.id) && RepTree(h, p.up.sibling, p.up.id);
    ParentLink(h, t, p);
    ParentLink(h, Join(t, p), p.up);
    ParentLink(h, Join(Join(t, p), p.up), p.up.up);
    TreeInside(h, p.up.sibling, p.up.id);
    IdIn(p.up.sibling);
  }

  // One step of the adjustment, on the tree and on the nodes.
  function InsertStep(t: Tree, p: Path): Tree
    requires t.Node? && p.Under? && p.up.Under?
  {
    if Black(p.up.sibling) then BlackUncle(t, p) else RedUncle(t, p)
  }

  function InsertStepHeap(h: Heap, t: Tree, p: Path): Heap
    requires IsFamily(h, t, p)
  {
    if Black(p.up.sibling) then
      var h1 := if p.side == p.up.side then h else if p.side == Right then RotatedLeft(h, p.id)
                else RotatedRight(h, p.id);
      var h2 := Painted(Painted(h1, Outer(t, p).id, false), p.up.id, true);
      if p.up.side == Left then RotatedRight(h2, p.up.id) else RotatedLeft(h2, p.up.id)
    else Painted(Painted(Painted(h, p.id, false), p.up.sibling.id, false), p.up.id, true)
  }

  lemma BlackStepView(h: Heap, t: Tree, p: Path)
    requires View(h, t, p) && IsFamily(h, t, p) && Black(p.up.sibling)
    ensures View(InsertStepHeap(h, t, p), InsertStep(t, p), p.up.up)
  {
    OuterView(h, t, p);
    var h1 := if p.side == p.up.side then h else if p.side == Right then RotatedLeft(h, p.id)
              else RotatedRight(h, p.id);
    BlackUncleView(h1, t, p);
  }

  lemma StepKeepsSize(h: Heap, t: Tree, p: Path)
    requires View(h, t, p) && IsFamily(h, t, p)
    ensures |InsertStepHeap(h, t, p).left| == |h.left| && |InsertStepHeap(h, t, p).red| == |h.red|
    ensures InsertStepHeap(h, t, p).red[0] == h.red[0]
  {
    FamilyIsNodes(h, t, p);
  }

  lemma FamilyIsNodes(h: Heap, t: Tree, p: Path)
    requires View(h, t, p) && IsFamily(h, t, p)
    ensures p.id > 0 && p.up.id > 0 && t.id > 0 && (p.up.sibling.Node? ==> p.up.sibling.id > 0)
  {
    assert RepPath(h, p.up, p.id);
    NoZero(h, p.up.sibling, p.up.id);
    IdIn(p.up.sibling);
  }

  // The tree at the position, whose root is there, fits it.
  ghost predicate Fixing(h: Heap, t: Tree, p: Path, bh: nat) {
    Shows(h, t, p) && t.Node? && Balanced(t, bh) && Takes(p, bh)
  }

  // A step with everything it keeps.
  lemma InsertStepShows(h: Heap, t: Tree, p: Path, bh: nat)
    requires Shows(h, t, p) && Inserting(t, p, bh) && |h.red| == |h.left| > 0 && !h.red[0] && PathId(p) < |h.left|
             && h.red[PathId(p)]
    ensures RedFrame(p) && p.up.Under? && IsFamily(h, t, p) && (p.id == h.left[p.up.id] <==> p.up.side == Left)
    ensures var u, h' := InsertStep(t, p), InsertStepHeap(h, t, p);
            && |h'.left| == |h.left| == |h'.red| && !h'.red[0] && PathId(p.up.up) < |h.left|
            && Fixing(h', u, p.up.up, bh + 1) && AllItems(u, p.up.up) == AllItems(t, p)
            && (u.red <==> !Black(p.up.sibling)) && (u.red ==> u.id == p.up.id)
  {
    Shown(h, t, p);
    RedParent(h, t, p, bh);
    Family(h, t, p);
    AfterFix(t, p, bh);
    StepKeepsSize(h, t, p);
    if Black(p.up.sibling) { BlackStepView(h, t, p); } else { RedUncleView(h, t, p); }
    Shown(InsertStepHeap(h, t, p), InsertStep(t, p), p.up.up);
  }

  lemma ColorOfPath(h: Heap, t: Tree, p: Path)
    requires Shows(h, t, p) && PathId(p) < |h.red|
    ensures p.Under? ==> h.red[PathId(p)] == p.red
  {
    Shown(h, t, p);
  }

  lemma AfterFix(t: Tree, p: Path, h: nat)
    requires Inserting(t, p, h) && RedFrame(p) && p.up.Under?
    ensures var u := InsertStep(t, p);
            && Balanced(u, h + 1) && Takes(p.up.up, h + 1) && AllItems(u, p.up.up) == AllItems(t, p)
            && u.Node? && (u.red <==> !Black(p.up.sibling)) && (u.red ==> u.id == p.up.id)
  {
    if Black(p.up.sibling) { BlackUncleKeeps(t, p, h); } else { RedUncleKeeps(t, p, h); }
  }

  lemma InsertDone(t: Tree, p: Path, h: nat)
    requires Balanced(t, h) && Takes(p, h) && (RedFrame(p) ==> Black(t)) && (p == Top ==> t.Node?)
    ensures Plug(t, p).Node? && IsRedBlack(BlackRoot(Plug(t, p))) && Items(BlackRoot(Plug(t, p))) == AllItems(t, p)
  {
    PlugItems(t, p);
    PlugNode(t, p);
    if p == Top {
      assert Balanced(Paint(t, false), if t.red then h + 1 else h);
    } else {
      PlugBalanced(t, p, h);
      assert BlackRoot(Plug(t, p)) == Plug(t, p);
    }
  }

  lemma {:induction false} PlugNode(t: Tree, p: Path)
    requires p == Top ==> t.Node?
    ensures Plug(t, p).Node?
    decreases p
  {
    if p.Under? { PlugNode(Join(t, p), p.up); }
  }

  lemma NextIsLeftmost(t: Tree, p: Path)
    requires t.Node? && t.right.Node?
    ensures Items(t.right) + After(p) != [] && (Items(t.right) + After(p))[0].id == Leftmost(t.right).id
  {
    LeftPathBefore(t.right, Top);
  }

  // What the links of the target say, with the successor out of the tree.
  predicate IsTarget(h: Heap, target: nat, next: nat, p: Path)
    requires Sized(h) && target < |h.left| && next < |h.left|
  {
    && h.parent[target] == PathId(p) < |h.left| && target != next && PathId(p) != next && target != PathId(p)
    && h.left[target] != next && h.right[target] != next
    && (p == Top || p.side == Left <==> h.left[PathId(p)] == target)
  }

  lemma TargetLinks(h: Heap, t: Tree, p: Path, next: nat)
    requires View(h, t, p) && t.Node? && next !in ViewIds(t, p) && IsNode(h, next)
    ensures IsNode(h, t.id) && IsTarget(h, t.id, next, p)
  {
    PathIdIn(h, p, t.id);
    OneSide(h, t, p);
    IdIn(t.left);
    IdIn(t.right);
  }

  // The successor is out; it takes the place of the target, and then colors are exchanged.
  lemma SupplantShows(h: Heap, t: Tree, p: Path, n: Tree)
    requires t.Node? && t.left.Node? && t.right.Node? && n == Leftmost(t.right)
    requires View(h, t.(right := PutLeft(t.right, n.right)), p) && IsNode(h, n.id) && h.key[n.id] == n.key && !h.red[0]
    requires n.id !in ViewIds(t.(right := PutLeft(t.right, n.right)), p)
    requires Id(n.right) < |h.left| && h.parent[Id(n.right)] == PathId(NextPath(t, p))
    ensures IsNode(h, t.id) && IsTarget(h, t.id, n.id, p)
    ensures var h2 := Substituted(h, t.id, n.id, p);
            && Sized(h2) && |h2.left| == |h.left| && h2.parent[Id(n.right)] == PathId(TakenPath(t, p, n)) && !h2.red[0]
            && t.id !in ViewIds(n.right, TakenPath(t, p, n))
            && forall c :: Shows(Painted(h2, t.id, c), n.right, TakenPath(t, p, n)) && !Painted(h2, t.id, c).red[0]
  {
    var t1 := t.(right := PutLeft(t.right, n.right));
    TargetLinks(h, t1, p, n.id);
    NextInView(h, t, p, n);
    ChildLink(h, t, p, n);
    var h2 := Substituted(h, t.id, n.id, p);
    forall c ensures Shows(Painted(h2, t.id, c), n.right, TakenPath(t, p, n)) {
      OutsidePaint(h2, n.right, TakenPath(t, p, n), t.id, c);
      Shown(Painted(h2, t.id, c), n.right, TakenPath(t, p, n));
    }
  }

  lemma OutsidePaint(h: Heap, t: Tree, p: Path, i: nat, c: bool)
    requires View(h, t, p) && i !in ViewIds(t, p) && i < |h.left|
    ensures View(Painted(h, i, c), t, p)
  {
    ViewStays(h, Painted(h, i, c), t, p);
  }

  lemma RootLinks(h: Heap, t: Tree, p: Path)
    requires Shows(h, t, p) && t.Node?
    ensures |h.parent| == |h.left| && |h.red| == |h.left| && t.id < |h.left| && h.parent[t.id] == PathId(p)
            && h.red[t.id] == t.red
  {
    Shown(h, t, p);
  }

  lemma ChildBlack(h: Heap, child: nat, done: bool, t: Tree, p: Path, bh: nat)
    requires Shows(h, t, p) && |h.red| > 0 && !h.red[0]
    requires child < |h.red| && if done then !h.red[child] && Settled(t, p, bh)
                                else child == Id(t) && !Black(t) && Pending(t, p, bh)
    ensures var u, g := if done then t else Paint(t, false), if done then bh else bh + 1;
            Shows(Painted(h, child, false), u, p) && Settled(u, p, g) && AllItems(u, p) == AllItems(t, p)
              && !Painted(h, child, false).red[0]
  {
    Shown(h, t, p);
    if done {
      assert Painted(h, child, false) == h;
    } else {
      PaintView(h, t, p, false);
      assert Items(Paint(t, false)) == Items(t);
    }
    Shown(Painted(h, child, false), if done then t else Paint(t, false), p);
  }

  lemma BlackAtRoot(h: Heap, t: Tree, p: Path, g: nat)
    requires Shows(h, t, p) && Settled(t, p, g) && |h.left| == |h.red| && |h.left| > 0 && !h.red[0]
    ensures h.left[0] < |h.red| && View(Painted(h, h.left[0], false), BlackRoot(Plug(t, p)), Top)
            && !Painted(h, h.left[0], false).red[0]
    ensures IsRedBlack(BlackRoot(Plug(t, p))) && Items(BlackRoot(Plug(t, p))) == AllItems(t, p)
  {
    Shown(h, t, p);
    ViewTop(h, t, p);
    Finish(t, p, g);
    if Plug(t, p).Node? { PaintView(h, Plug(t, p), Top, false); } else { assert Painted(h, h.left[0], false) == h; }
  }

  lemma ChildIsNot(t: Tree, p: Path, target: nat)
    requires target !in ViewIds(t, p) && target > 0
    ensures Id(t) != target
  {
    IdIn(t);
  }

  lemma {:induction false} PlugIds(t: Tree, p: Path)
    ensures Ids(Plug(t, p)) == ViewIds(t, p)
    decreases p
  {
    if p.Under? {
      PlugIds(Join(t, p), p.up);
      JoinIds(t, p);
    }
  }

  lemma GoneFromItems(t: Tree, p: Path, target: nat, tree: Tree)
    requires target !in ViewIds(t, p) && Items(tree) == AllItems(t, p)
    ensures target !in Ids(tree)
  {
    PlugItems(t, p);
    PlugIds(t, p);
    IdsOfItems(Plug(t, p), target);
    IdsOfItems(tree, target);
  }

  predicate IsRemoved(before: seq<Item>, id: nat, after: seq<Item>) {
    exists n :: 0 <= n < |before| && before[n].id == id && after == before[..n] + before[n + 1..]
  }

  lemma StartDelete(h: Heap, tree: Tree, target: nat) returns (t: Tree, p: Path, g: nat)
    requires IsDict(h, tree) && target in Ids(tree)
    ensures Shows(h, t, p) && t.Node? && target == t.id && 0 < target < |h.left| && |h.red| > 0 && !h.red[0]
    ensures var r := TakeOut(t, p);
            && IsRemoved(Items(tree), target, AllItems(r.child, r.path)) && Sorted(AllItems(r.child, r.path))
            && Balanced(r.child, g) && Takes(r.path,
                                             if r.red then g else g + 1) && (r.red ==> Black(r.child) && r.path.Under?)
  {
    StartView(h, tree);
    t, p := Focus(h, tree, Top, target);
    StepView(h, t, p);
    Shown(h, t, p);
    g := TakeOutTakes(t, p);
    RemovedBetween(tree, t, p);
  }

  lemma RemovedBetween(tree: Tree, t: Tree, p: Path)
    requires t.Node? && AllItems(t, p) == Items(tree) && Sorted(Items(tree))
    ensures var r := TakeOut(t, p);
            IsRemoved(Items(tree), t.id, AllItems(r.child, r.path)) && Sorted(AllItems(r.child, r.path))
  {
    TakeOutItems(t, p);
    RemovedAt(Before(p), Items(t.left), Item(t.id, t.key), Items(t.right), After(p));
  }

  lemma RemovedAt(a: seq<Item>, l: seq<Item>, x: Item, r: seq<Item>, b: seq<Item>)
    requires Sorted(a + (l + [x] + r) + b)
    ensures IsRemoved(a + (l + [x] + r) + b, x.id, a + l + r + b) && Sorted(a + l + r + b)
  {
    var s := a + (l + [x] + r) + b;
    assert s == (a + l) + [x] + (r + b) && a + l + r + b == (a + l) + (r + b);
    SortedWithout(a + l, x, r + b);
    assert s[..|a + l|] == a + l && s[|a + l| + 1..] == r + b && s[|a + l|] == x;
  }

  lemma OutsideLinks(h: Heap, h': Heap, t: Tree, p: Path, target: nat)
    requires Shows(h, t, p) && target !in ViewIds(t, p) && 0 < target < |h.left| && |h.right| == |h.left|
             && |h.parent| == |h.left|
    requires h' == h.(left := h.left[target := 0], right := h.right[target := 0], parent := h.parent[target := 0])
    ensures Shows(h', t, p)
  {
    Shown(h, t, p);
    ViewStays(h, h', t, p);
    Shown(h', t, p);
  }

  lemma RedGone(h: Heap, t: Tree, p: Path, g: nat)
    requires Shows(h, t, p) && Balanced(t, g) && Takes(p, g) && Black(t)
    ensures View(h, Plug(t, p), Top) && IsRedBlack(Plug(t, p)) && Items(Plug(t, p)) == AllItems(t, p)
  {
    Shown(h, t, p);
    ViewTop(h, t, p);
    PlugItems(t, p);
    PlugBalanced(t, p, g);
  }

  // Every node but the sentinel is in the tree or, once, in the bin.
  ghost predicate AllOwned(n: nat, tree: Tree, bin: seq<nat>) {
    && Distinct(bin)
    && (forall i :: i in bin ==> 0 < i < n && i !in Ids(tree))
    && forall i :: 0 < i < n ==> i in Ids(tree) || i in bin
  }

  // h' has one more node, not linked to anything.
  predicate IsLonger(h: Heap, h': Heap) {
    h' == Heap(h.left + [0], h.right + [0], h.parent + [0], h.red + [false], h.key + [0])
  }

  predicate IsLongerButKey(h: Heap, h': Heap, k: int) {
    h' == Heap(h.left + [0], h.right + [0], h.parent + [0], h.red + [false], h.key + [k])
  }

  lemma NewNode(h: Heap, tree: Tree)
    requires IsDict(h, tree)
    ensures var h' := Heap(h.left + [0], h.right + [0], h.parent + [0], h.red + [false], h.key + [0]);
            IsDict(h', tree) && IsNode(h', |h.left|) && |h.left| !in Ids(tree)
  {
    var h' := Heap(h.left + [0], h.right + [0], h.parent + [0], h.red + [false], h.key + [0]);
    TreeInside(h, tree, 0);
    ViewStays(h, h', tree, Top);
  }

  lemma HasIdBetween(a: seq<Item>, x: Item, b: seq<Item>, id: nat)
    ensures HasId(a + [x] + b, id) <==> HasId(a + b, id) || id == x.id
  {
    HasIdIn(a + [x], b, id);
    HasIdIn(a, [x], id);
    HasIdIn(a, b, id);
    if id == x.id { assert [x][0].id == id; }
  }

  lemma InsertedIds(a: seq<Item>, x: Item, b: seq<Item>, n: nat, id: nat)
    requires n <= |a| && b == a[..n] + [x] + a[n..]
    ensures HasId(b, id) <==> HasId(a, id) || id == x.id
  {
    assert a == a[..n] + a[n..];
    HasIdBetween(a[..n], x, a[n..], id);
  }

  lemma IdsAfterInsert(tree: Tree, tree': Tree, x: Item, id: nat)
    requires IsInserted(Items(tree), x, Items(tree'))
    ensures id in Ids(tree') <==> id in Ids(tree) || id == x.id
  {
    IdsOfItems(tree, id);
    IdsOfItems(tree', id);
    var n :| 0 <= n <= |Items(tree)| && Items(tree') == Items(tree)[..n] + [x] + Items(tree)[n..];
    InsertedIds(Items(tree), x, Items(tree'), n, id);
  }

  lemma RemovedIds(a: seq<Item>, b: seq<Item>, n: nat, id: nat)
    requires n < |a| && b == a[..n] + a[n + 1..]
    ensures HasId(a, id) <==> HasId(b, id) || id == a[n].id
  {
    assert a == a[..n] + [a[n]] + a[n + 1..];
    HasIdBetween(a[..n], a[n], a[n + 1..], id);
  }

  lemma IdsAfterRemove(tree: Tree, tree': Tree, target: nat, id: nat)
    requires IsRemoved(Items(tree), target, Items(tree')) && target !in Ids(tree')
    ensures id in Ids(tree') <==> id in Ids(tree) && id != target
  {
    IdsOfItems(tree, id);
    IdsOfItems(tree', id);
    var n :| 0 <= n < |Items(tree)| && Items(tree)[n].id == target
              && Items(tree') == Items(tree)[..n] + Items(tree)[n + 1..];
    RemovedIds(Items(tree), Items(tree'), n, id);
  }

  lemma NodeUsed(n: nat, tree: Tree, tree': Tree, x: Item, bin: seq<nat>, bin': seq<nat>, n0: nat)
    requires AllOwned(n0, tree, bin) && IsInserted(Items(tree), x, Items(tree'))
    requires (bin != [] && x.id == bin[0] && bin' == bin[1..] && n == n0)
             || (bin == [] && bin' == [] && x.id == n0 > 0 && n == n0 + 1)
    ensures AllOwned(n, tree', bin')
  {
    forall i ensures i in Ids(tree') <==> i in Ids(tree) || i == x.id { IdsAfterInsert(tree, tree', x, i); }
    if bin != [] { TailDistinct(bin); }
    forall i | i in bin' ensures i in bin && i != x.id {
      var k :| 0 <= k < |bin'| && bin'[k] == i;
      assert bin[k + 1] == i;
    }
    forall i | 0 < i < n && i !in Ids(tree') ensures i in bin' {
      var k :| 0 <= k < |bin| && bin[k] == i;
      assert bin'[k - 1] == i;
    }
  }

  lemma NodeFreed(n: nat, tree: Tree, tree': Tree, target: nat, bin: seq<nat>)
    requires AllOwned(n, tree, bin) && IsRemoved(Items(tree), target, Items(tree')) && target !in Ids(tree')
             && 0 < target < n
    requires target in Ids(tree)
    ensures AllOwned(n, tree', [target] + bin)
  {
    forall i ensures i in Ids(tree') <==> i in Ids(tree) && i != target { IdsAfterRemove(tree, tree', target, i); }
    assert target !in bin;
    AddDistinct(bin, target);
  }
}
