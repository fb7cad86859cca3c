/** The intrusive red-black tree with parent links, updated in place. */
module RedBlackTree {
  import opened TreeShapes
  import opened TreeMemory

  class Tree {
    var root: Node?
    ghost var nodes: set<Node>   // the node objects in the tree
    ghost var shape: Shape

    constructor ()
      ensures Valid() && Contents() == {}
    {
      root, nodes, shape := null, {}, Leaf;
      new;
      assert Balanced(Leaf, 0);
    }

    ghost predicate Valid()
      reads this, nodes
    {
      At(Top, shape) && RedBlack(shape) && Covers(nodes, Contents())
    }

    /** The key and node pairs in the tree. */
    ghost function Contents(): set<(Key, Node)>
      reads this`shape
    {
      Entries(shape)
    }

    ghost function Memory(): Memory
      reads this`nodes, nodes
    {
      map n | n in nodes :: Fields(n)
    }

    ghost predicate At(path: Path, s: Shape)
      reads this`nodes, this`root, nodes
    {
      Holds(path, s, root, Memory())
    }

    method Paint(node: Node, red: bool, ghost path: Path, ghost s: Shape)
      requires s.Fork? && s.node == node && At(path, s)
      modifies nodes
      ensures At(path, s.(red := red))
    {
      ghost var mem := Memory();
      node.red := red;
      assert Memory() == mem[node := mem[node].(red := red)];
      Painted(path, s, red, root, mem, Memory());
    }

    // ----- rotations

    /** Makes the pointer that led to `node` lead to `next`. */
    method RedirectParent(parent: Node?, node: Node, next: Node?)
      requires parent != node
      modifies this`root, Some(parent)
      ensures root == if parent == null then next else old(root)
      ensures parent != null ==>
        Fields(parent) == if old(parent.left) == node then old(Fields(parent)).(left := next)
          else old(Fields(parent)).(right := next)
    {
      if parent != null {
        if parent.left == node {
          parent.left := next;
        } else {
          parent.right := next;
        }
      } else {
        root := next;
      }
    }

    method SetChild(node: Node, side: Side, kid: Node?)
      modifies node
      ensures Fields(node) == WithKid(old(Fields(node)), side, kid)
    {
      if side.Left? {
        node.left := kid;
      } else {
        node.right := kid;
      }
    }

    method SetLinks(cis: Side, node: Node, ghost top: Node, ghost parent: Node?, ghost mid: Node?)
      requires Kid(Fields(node), cis.Other()) == top && node.parent == parent && Kid(Fields(top), cis) == mid
      requires top != node && parent != node && parent != top && mid != node && mid != top &&
        (mid != null ==> mid != parent)
      modifies this`root, node, top, Some(parent), Some(mid)
      ensures root == if parent == null then top else old(root)
      ensures Fields(node) == WithKid(old(Fields(node)), cis.Other(), mid).(parent := top)
      ensures Fields(top) == WithKid(old(Fields(top)), cis, node).(parent := parent)
      ensures mid != null ==> Fields(mid) == old(Fields(mid)).(parent := node)
      ensures parent != null && old(parent.left) == node ==> Fields(parent) == old(Fields(parent)).(left := top)
      ensures parent != null && old(parent.left) != node ==> Fields(parent) == old(Fields(parent)).(right := top)
    {
      var q := Kid(Fields(node), cis.Other());
      var up := node.parent;
      RedirectParent(up, node, q);
      q.parent := up;
      node.parent := q;
      var inner := Kid(Fields(q), cis);
      SetChild(node, cis.Other(), inner);
      if inner != null {
        inner.parent := node;
      }
      SetChild(q, cis, node);
    }

    method Turn(cis: Side, node: Node, ghost top: Node, ghost parent: Node?, ghost mid: Node?)
      requires {node, top} <= nodes && Some(parent) <= nodes && Some(mid) <= nodes
      requires Kid(Fields(node), cis.Other()) == top && node.parent == parent && Kid(Fields(top), cis) == mid
      requires top != node && parent != node && parent != top && mid != node && mid != top &&
        (mid != null ==> mid != parent)
      modifies this`root, nodes
      ensures root == if parent == null then top else old(root)
      ensures Memory() == Spun(cis, node, old(Memory()))
    {
      hide Spun, Kid, WithKid;
      SpunCells(cis, node, top, mid, parent, Memory());
      ghost var goal := Spun(cis, node, Memory());
      SetLinks(cis, node, top, parent, mid);
      assert forall n | n in nodes :: Fields(n) == goal[n];
    }

    method Rotate(cis: Side, node: Node, ghost path: Path, ghost p: Shape, ghost q: Shape,
                  ghost a: Shape, ghost b: Shape, ghost c: Shape)
      requires p.Fork? && p.node == node && q.Fork?
      requires p == Join(p.node, p.key, p.red, cis, a, q) && q == Join(q.node, q.key, q.red, cis, b, c)
      requires At(path, p)
      modifies this`root, nodes
      ensures At(path, Turned(cis, p, q, a, b, c))
    {
      hide Spun, Kid, WithKid;
      TurnRanges(cis, p, q, a, b, c, Lo(path), Hi(path));
      SpunLinked(cis, Owner(path), p, q, a, b, c, Lo(path), Hi(path), Memory());
      SpunPath(cis, path, node, q.node, Ptr(b), root, Memory());
      Turn(cis, node, q.node, Owner(path), Ptr(b));
    }

    // ----- insertion

    method RecolourAfterInsert(parent: Node, uncle: Node, grandparent: Node, ghost path: Path, ghost s: Shape)
      requires At(path, s) && path.Step? && path.node == parent && path.up.Step? && path.up.node == grandparent
      requires path.up.sibling.Fork? && path.up.sibling.node == uncle
      modifies nodes
      ensures At(path.up.up, Recoloured(path, s))
    {
      hide Holds;
      Climb(path, s, root, Memory());
      Paint(parent, false, path.up, Above(path, s));
      ghost var p := Join(parent, path.key, false, path.side, s, path.sibling);
      Swing(path.up, p, root, Memory());
      Paint(uncle, false, Across(path.up, p), path.up.sibling);
      Climb(Across(path.up, p), Black(path.up.sibling), root, Memory());
      Paint(grandparent, true, path.up.up, Above(Across(path.up, p), Black(path.up.sibling)));
    }

    method Straighten(cis: Side, parent: Node, ghost path: Path, ghost s: Shape)
      requires At(path, s) && s.Fork? && path.Step? && path.node == parent && path.up.Step?
      requires path.up.side == cis && path.side == cis.Other()
      modifies this`root, nodes
      ensures At(StraightPath(path, s), StraightShape(path, s))
      ensures Entries(Plug(StraightPath(path, s), StraightShape(path, s))) == Entries(Plug(path, s))
    {
      hide Holds;
      ghost var a, b, c := path.sibling, Child(s, cis), Child(s, cis.Other());
      Climb(path, s, root, Memory());
      Rotate(cis, parent, path.up, Above(path, s), s, a, b, c);
      Climb(StraightPath(path, s), StraightShape(path, s), root, Memory());
      TurnEntries(cis, Above(path, s), s, a, b, c);
      SameEntries(path.up, Above(path, s), Turned(cis, Above(path, s), s, a, b, c));
    }

    method FinishInsert(cis: Side, parent: Node, grandparent: Node, ghost path: Path, ghost s: Shape)
      requires At(path, s) && path.Step? && path.node == parent && path.up.Step? && path.up.node == grandparent
      requires path.up.side == cis && path.side == cis
      modifies this`root, nodes
      ensures At(FinalPath(path), s)
      ensures Entries(Plug(FinalPath(path), s)) == Entries(Plug(path, s))
    {
      hide Holds;
      ghost var g := path.up;
      Climb(path, s, root, Memory());
      Paint(parent, false, g, Above(path, s));
      ghost var p := Join(parent, path.key, false, cis, s, path.sibling);
      Climb(g, p, root, Memory());
      Paint(grandparent, true, g.up, Above(g, p));
      ghost var whole := Join(grandparent, g.key, true, cis, p, g.sibling);
      Rotate(cis.Other(), grandparent, g.up, whole, p, g.sibling, path.sibling, s);
      Climb(FinalPath(path), s, root, Memory());
      FinalEntries(path, s);
    }

    // ----- descending

    /** The place for the key, if it is not taken, lies within the subtree in focus. */
    ghost predicate Seeking(path: Path, s: Shape, key: Key)
      reads this`nodes, this`root, this`shape, nodes
    {
      At(path, s) && Plug(path, s) == shape && Lo(path) < key < Hi(path)
    }

    lemma {:induction false} SeekStart(key: Key)
      requires Valid()
      ensures Seeking(Top, shape, key) && Ptr(shape) == root
    {
    }

    lemma {:induction false} SeekStep(path: Path, s: Shape, key: Key, side: Side)
      requires Seeking(path, s, key) && s.Fork? && s.node in nodes &&
        if side.Left? then key < s.node.key else key > s.node.key
      ensures Seeking(Below(path, s, side), Child(s, side), key)
      ensures Ptr(Child(s, side)) == (if side.Left? then s.node.left else s.node.right) &&
        1 + Height(Child(s, side)) <= Height(s)
    {
      hide Holds, Plug;
      Focus(path, s, root, Memory());
      Descend(path, s, side, root, Memory());
    }

    lemma {:induction false} SeekNode(path: Path, s: Shape, key: Key)
      requires Seeking(path, s, key) && s.Fork?
      ensures s.node in nodes && (s.node.key == key ==> (key, s.node) in Contents())
    {
      hide Holds, Plug;
      Focus(path, s, root, Memory());
      PlugEntries(path, s);
    }

    lemma {:induction false} SeekEmpty(path: Path, key: Key)
      requires Seeking(path, Leaf, key)
      ensures PathOrdered(path) && PathLinked(path, null, root, Memory()) && forall e | e in Contents() :: e.0 != key
      ensures Plug(path, Leaf) == shape && Lo(path) < key < Hi(path)
    {
      hide PathOrdered, PathLinked, Plug;
      AbsentKey(path, key);
    }

    lemma {:induction false} Topmost(node: Node, mem: Memory)
      ensures PathLinked(Top, node, node, mem)
    {
    }

    /** Links `node` into the empty place at the foot of the path. */
    method Hang(node: Node, parent: Node, side: Side, ghost path: Path, key: Key)
      requires Seeking(path, Leaf, key) && path.Step? && parent == path.node && side == path.side && parent in nodes
      modifies parent
      ensures PathOrdered(path) && Lo(path) < key < Hi(path) && Plug(path, Leaf) == shape
      ensures PathLinked(path, node, root, Memory())
    {
      hide Plug, Lo, Hi;
      ghost var mem := Memory();
      if side.Left? {
        parent.left := node;
      } else {
        parent.right := node;
      }
      Reattach(path, null, node, root, root, mem, Memory());
    }

    /** Links `node` into the empty place for `key`, unless the key is taken. */
    method Attach(node: Node, key: Key) returns (found: bool, parent: Node?, ghost path: Path)
      requires Valid()
      modifies this`root, nodes
      ensures found ==> root == old(root) && Memory() == old(Memory()) && exists n :: (key, n) in Contents()
      ensures !found ==>
        parent == Owner(path) && PathOrdered(path) && Lo(path) < key < Hi(path) && Plug(path, Leaf) == shape
      ensures !found ==> PathLinked(path, node, root, Memory())
    {
      hide Seeking, Plug, Lo, Hi, PathOrdered, PathLinked, RedBlack, Covers, Entries, Holds, Fields;
      SeekStart(key);
      ghost var s := shape;
      path := Top;
      found := false;
      parent := root;
      if parent != null {
        while true
          invariant Seeking(path, s, key) && parent == Ptr(s) && parent != null
          invariant root == old(root) && Memory() == old(Memory())
          decreases s
        {
          SeekNode(path, s, key);
          if key < parent.key {
            SeekStep(path, s, key, Side.Left);
            path, s := Below(path, s, Side.Left), s.left;
            if parent.left != null {
              parent := parent.left;
            } else {
              Hang(node, parent, Side.Left, path, key);
              break;
            }
          } else if key > parent.key {
            SeekStep(path, s, key, Side.Right);
            path, s := Below(path, s, Side.Right), s.right;
            if parent.right != null {
              parent := parent.right;
            } else {
              Hang(node, parent, Side.Right, path, key);
              break;
            }
          } else {
            found := true;
            return;
          }
        }
      } else {
        SeekEmpty(path, key);
        root := node;
        Topmost(node, Memory());
      }
    }

    // ----- adding

    /** Puts the attached node's own fields in order. */
    method Settle(node: Node, key: Key, parent: Node?, ghost path: Path)
      requires node !in nodes && parent == Owner(path) && PathOrdered(path) && Lo(path) < key < Hi(path)
      requires PathLinked(path, node, root, Memory())
      modifies this`nodes, node
      ensures nodes == old(nodes) + {node}
      ensures At(path, Fork(node, key, true, Leaf, Leaf))
    {
      hide PathOrdered, PathLinked;
      ghost var mem := Memory();
      node.key := key;
      node.left, node.right := null, null;
      node.parent := parent;
      node.red := true;
      nodes := nodes + {node};
      PathFrame(path, node, root, mem, Memory());
      ghost var s := Fork(node, key, true, Leaf, Leaf);
      assert Memory()[node] == ShapeCell(s, parent);
      assert Linked(s, parent, Memory());
      assert Ordered(s, Lo(path), Hi(path));
    }

    /** Restores the colours after a red node was attached; on return the parent in focus is black. */
    method RepairAfterInsert(node0: Node, parent0: Node?, ghost path0: Path, ghost s0: Shape, ghost n0: int)
      returns (ghost path: Path, ghost s: Shape, ghost n: int)
      requires At(path0, s0) && s0.Fork? && s0.node == node0 && parent0 == Owner(path0) && Growing(path0, s0, n0)
      modifies this`root, nodes
      ensures At(path, s) && Growing(path, s, n) && !PathRed(path)
      ensures Entries(Plug(path, s)) == Entries(Plug(path0, s0))
    {
      var node, parent := node0, parent0;
      path, s, n := path0, s0, n0;
      while parent != null && parent.red
        invariant At(path, s) && s.Fork? && s.node == node && parent == Owner(path) && Growing(path, s, n)
        invariant Entries(Plug(path, s)) == Entries(Plug(path0, s0))
        decreases Depth(path)
      {
        node, path, s, n := RebalanceAfterInsert(node, parent, path, s, n);
        parent := node.parent;
      }
    }

    method RebalanceAfterInsert(node0: Node, parent0: Node, ghost path0: Path, ghost s0: Shape, ghost n0: int)
      returns (node: Node, ghost path: Path, ghost s: Shape, ghost n: int)
      requires At(path0, s0) && s0.Fork? && s0.node == node0 && parent0 == Owner(path0) && PathRed(path0) &&
        Growing(path0, s0, n0)
      modifies this`root, nodes
      ensures At(path, s) && s.Fork? && s.node == node && node.parent == Owner(path) && Growing(path, s, n)
      ensures Entries(Plug(path, s)) == Entries(Plug(path0, s0))
      ensures Depth(path) < Depth(path0)
    {
      var parent := parent0;
      node, path, s, n := node0, path0, s0, n0;
      Climb(path, s, root, Memory());
      var grandparent := parent.parent;
      SideTest(path.up, parent, root, Memory());
      var cis := if parent == grandparent.left then Side.Left else Side.Right;
      var uncle := if cis.Left? then grandparent.right else grandparent.left;
      SideTest(path, node, root, Memory());
      if uncle != null && uncle.red {
        RecolourAfterInsert(parent, uncle, grandparent, path, s);
        RecolouredGrows(path, s, n);
        RecolouredEntries(path, s);
        node, path, s, n := grandparent, path.up.up, Recoloured(path, s), n + 1;
      } else {
        if node == (if cis.Left? then parent.right else parent.left) {
          Straighten(cis, parent, path, s);
          StraightGrows(path, s, n);
          node, parent, path, s := parent, node, StraightPath(path, s), StraightShape(path, s);
        }
        FinishInsert(cis, parent, grandparent, path, s);
        FinalGrows(path, s, n);
        path := FinalPath(path);
      }
    }

    ghost method Reshape(s: Shape)
      modifies this`shape
      ensures shape == s && Memory() == old(Memory())
    {
      shape := s;
    }

    /** The last statement of an insertion: the root becomes black. */
    method BlackenRoot(ghost path: Path, ghost s: Shape, ghost n: int)
      requires At(path, s) && Growing(path, s, n) && !PathRed(path)
      modifies this`shape, nodes
      ensures At(Top, shape) && RedBlack(shape) && Contents() == Entries(Plug(path, s))
    {
      hide Holds;
      ClimbAll(path, s, root, Memory());
      GrowingDone(path, s, n);
      ghost var whole := Plug(path, s);
      hide Plug, Entries, Balanced, Growing;
      RootPointer(whole, root, Memory());
      BlackEntries(whole);
      Paint(root, false, Top, whole);
      RootPointer(whole.(red := false), root, Memory());
      Reshape(whole.(red := false));
    }

    method Complete(node: Node, key: Key, parent: Node?, ghost path0: Path)
      requires RedBlack(shape) && Covers(nodes, Contents()) && node !in nodes
      requires parent == Owner(path0) && PathOrdered(path0) && Lo(path0) < key < Hi(path0)
      requires Plug(path0, Leaf) == shape && PathLinked(path0, node, root, Memory())
      modifies this, nodes, node
      ensures Valid() && Contents() == old(Contents()) + {(key, node)}
    {
      hide Holds, Growing, Plug, Entries, Balanced, PathRed, Covers;
      ghost var n := StartGrowing(path0, node, key);
      CoversMore(nodes, Contents(), key, node);
      Settle(node, key, parent, path0);
      ghost var path, s, n' := RepairAfterInsert(node, parent, path0, Fork(node, key, true, Leaf, Leaf), n);
      BlackenRoot(path, s, n');
    }

    method Add(node: Node, key: Key) returns (r: int)
      requires Valid() && node !in nodes
      modifies this, nodes, node
      ensures Valid()
      ensures r == -1 <==> exists n :: (key, n) in old(Contents())
      ensures r == -1 ==> shape == old(shape) && root == old(root) && nodes == old(nodes)
      ensures r == -1 ==> Memory() == old(Memory()) && Fields(node) == old(Fields(node))
      ensures r != -1 ==> r == 0 && Contents() == old(Contents()) + {(key, node)}
    {
      var found, parent, path := Attach(node, key);
      if found {
        return -1;
      }
      AbsentKey(path, key);
      Complete(node, key, parent, path);
      return 0;
    }

    // ----- taking a node out

    /** `next` takes over the colour and the left subtree of `node`. */
    method TakeOver(node: Node, next: Node, left: Node) returns (red: bool)
      requires node != next && node != left && next != left
      modifies next, left
      ensures red == old(next.red)
      ensures Fields(next) == old(Fields(next)).(left := left, red := node.red) &&
        Fields(left) == old(Fields(left)).(parent := next)
    {
      red := next.red;
      next.red := node.red;
      next.left := left;
      left.parent := next;
    }

    /** Lifts `next` out of its own place, where its right child stays, and below `up`. */
    method Reseat(next: Node, up: Node?, right: Node, ghost low: Node, ghost kid: Node?)
        returns (parent: Node, child: Node?)
      requires next.right == kid &&
        (if next == right then low == next else next != low && next.parent == low && low.left == next)
      requires kid != null ==> kid != next && kid != right && kid != low
      modifies next, right, low, Some(kid)
      ensures child == kid
      ensures next == right ==> parent == next && Fields(next) == old(Fields(next)).(parent := up)
      ensures next != right ==> parent == low && Fields(next) == old(Fields(next)).(parent := up, right := right)
      ensures next != right && low != right ==>
        Fields(low) == old(Fields(low)).(left := kid) && Fields(right) == old(Fields(right)).(parent := next)
      ensures next != right && low == right ==> Fields(low) == old(Fields(low)).(left := kid, parent := next)
      ensures kid != null ==> Fields(kid) == old(Fields(kid)).(parent := parent)
    {
      if next != right {
        parent := next.parent;
        next.parent := up;
        child := next.right;
        parent.left := child;
        next.right := right;
        right.parent := next;
      } else {
        next.parent := up;
        parent := next;
        child := next.right;
      }
      if child != null {
        child.parent := parent;
      }
    }

    /** The pointer updates that put `next`, the successor of `node`, in the place of `node`. */
    method SpliceLinks(node: Node, next: Node, ghost up: Node?, ghost left: Node, ghost right: Node, ghost low: Node,
        ghost kid: Node?)
      returns (parent: Node, child: Node?, red: bool)
      requires node.parent == up && node.left == left && node.right == right && next.right == kid
      requires if next == right then low == next else next.parent == low && low.left == next
      requires node != next && node != left && node != right && node != low && left != next && left != right &&
        left != low
      requires next != right ==> next != low
      requires up != node && up != next && up != left && up != right && up != low
      requires kid != null ==> kid != node && kid != next && kid != left && kid != right && kid != low && kid != up
      modifies this`root, next, left, right, low, Some(up), Some(kid)
      ensures child == kid && red == old(next.red) && root == if up == null then next else old(root)
      ensures up != null ==>
        Fields(up) == if old(up.left) == node then old(Fields(up)).(left := next) else old(Fields(up)).(right := next)
      ensures Fields(left) == old(Fields(left)).(parent := next)
      ensures next == right ==> parent == next && Fields(next) == Cell(left, kid, up, old(next.key), node.red)
      ensures next != right ==> parent == low && Fields(next) == Cell(left, right, up, old(next.key), node.red)
      ensures next != right && low != right ==>
        Fields(low) == old(Fields(low)).(left := kid) && Fields(right) == old(Fields(right)).(parent := next)
      ensures next != right && low == right ==> Fields(low) == old(Fields(low)).(left := kid, parent := next)
      ensures kid != null ==> Fields(kid) == old(Fields(kid)).(parent := parent)
    {
      var parent0, left0, right0 := node.parent, node.left, node.right;
      RedirectParent(parent0, node, next);
      red := TakeOver(node, next, left0);
      parent, child := Reseat(next, parent0, right0, low, kid);
    }

    method Splice(node: Node, next: Node, ghost up: Node?, ghost left: Node, ghost right: Node, ghost low: Node,
        ghost kid: Node?)
      returns (parent: Node, child: Node?, red: bool)
      requires node.parent == up && node.left == left && node.right == right && next.right == kid
      requires if next == right then low == next else next.parent == low && low.left == next
      requires node != next && node != left && node != right && node != low && left != next && left != right &&
        left != low
      requires next != right ==> next != low
      requires up != node && up != next && up != left && up != right && up != low
      requires kid != null ==> kid != node && kid != next && kid != left && kid != right && kid != low && kid != up
      requires {node, next, left, right, low} <= nodes && Some(up) <= nodes && Some(kid) <= nodes
      modifies this`root, this`nodes, nodes
      ensures nodes == old(nodes) - {node} && root == if up == null then next else old(root)
      ensures child == kid && red == old(next.red) && parent == low
      ensures Spliced(node, next, up, left, right, low, kid, old(Memory()), Memory())
    {
      parent, child, red := SpliceLinks(node, next, up, left, right, low, kid);
      nodes := nodes - {node};
    }

    /** Follows left children down to the successor. */
    method Leftmost(right: Node, ghost b: Path, ghost s0: Shape) returns (next: Node, ghost rel: Path, ghost s: Shape)
      requires s0.Fork? && s0.node == right && At(b, s0)
      ensures LeftSpine(rel) && s.Fork? && s.node == next && s.left.Leaf?
      ensures At(Under(rel, b), s) && Plug(Under(rel, b), s) == Plug(b, s0)
      ensures rel.Top? ==> s == s0
      ensures rel.Step? ==> Outermost(rel) == right
    {
      next, rel, s := right, Top, s0;
      while next.left != null
        invariant LeftSpine(rel) && s.Fork? && s.node == next
        invariant At(Under(rel, b), s) && Plug(Under(rel, b), s) == Plug(b, s0)
        invariant rel.Top? ==> s == s0
        invariant rel.Step? ==> Outermost(rel) == right
        decreases s
      {
        Descend(Under(rel, b), s, Side.Left, root, Memory());
        next := next.left;
        rel, s := Below(rel, s, Side.Left), s.left;
      }
    }

    method SpliceNear(node: Node, next: Node, ghost b: Path, ghost s: Shape)
        returns (parent: Node, child: Node?, red: bool)
      requires b.Step? && b.node == node && b.side.Right? && b.sibling.Fork? && s.Fork? && s.node == next &&
        s.left.Leaf?
      requires At(b, s)
      modifies this`root, this`nodes, nodes
      ensures nodes == old(nodes) - {node}
      ensures At(b.(node := next, key := s.key), s.right)
      ensures parent == next && child == Ptr(s.right) && red == s.red
    {
      hide Holds, Linked, PathLinked, Ordered, PathOrdered;
      NearKeys(b, s, root, Memory());
      ghost var mem, was := Memory(), root;
      parent, child, red := Splice(node, next, Owner(b.up), b.sibling.node, next, next, Ptr(s.right));
      NearSpliced(b, s, mem, Memory());
      NearSuccessor(b, s, was, root, mem, Memory());
    }

    method SpliceFar(node: Node, next: Node, ghost rel: Path, ghost b: Path, ghost s: Shape)
        returns (parent: Node, child: Node?, red: bool)
      requires rel.Step? && LeftSpine(rel) && b.Step? && b.node == node && b.side.Right? && b.sibling.Fork?
      requires s.Fork? && s.node == next && s.left.Leaf?
      requires At(Under(rel, b), s)
      modifies this`root, this`nodes, nodes
      ensures nodes == old(nodes) - {node}
      ensures At(Under(rel, b.(node := next, key := s.key)), s.right)
      ensures parent == rel.node && child == Ptr(s.right) && red == s.red
    {
      hide Holds, Linked, PathLinked, Ordered, PathOrdered, Under, LeftSpine, Outermost;
      FarKeys(rel, b, s, root, Memory());
      FarCells(rel, b, s, root, Memory());
      ghost var mem, was := Memory(), root;
      parent, child, red := Splice(node, next, Owner(b.up), b.sibling.node, Outermost(rel), rel.node, Ptr(s.right));
      FarSpliced(rel, b, s, mem, Memory());
      FarSuccessor(rel, b, s, was, root, mem, Memory());
    }

    /** `node` has at most one child, which takes its place. */
    method Bypass(node: Node, next: Node?, ghost path: Path, ghost s: Shape, ghost x: Shape) returns (parent: Node?)
      requires At(path, s) && s.Fork? && s.node == node
      requires (s.left.Leaf? && x == s.right) || (s.right.Leaf? && x == s.left)
      requires next == Ptr(x)
      modifies this`root, this`nodes, nodes
      ensures nodes == old(nodes) - {node} && parent == Owner(path) && At(path, x)
    {
      hide Holds, Linked, PathLinked, Ordered, PathOrdered;
      BypassKeys(path, s, x, root, Memory());
      ghost var mem, was := Memory(), root;
      parent := node.parent;
      RedirectParent(parent, node, next);
      if next != null {
        next.parent := parent;
      }
      nodes := nodes - {node};
      Bypassed(path, s, x, was, root, mem, Memory());
    }

    /** Takes `node` out of the links; `red` tells the colour that went missing just above `child`. */
    method Unlink(node: Node, ghost path0: Path, ghost s0: Shape)
      returns (parent: Node?, child: Node?, red: bool, ghost path: Path, ghost x: Shape, ghost h: int)
      requires At(path0, s0) && s0.Fork? && s0.node == node && RedBlack(Plug(path0, s0))
      modifies this`root, this`nodes, nodes
      ensures nodes == old(nodes) - {node}
      ensures At(path, x) && parent == Owner(path) && child == Ptr(x)
      ensures PathBalanced(path, h) && (if red then Balanced(x, h) && !IsRed(x) else Balanced(x, h - 1))
      ensures Entries(Plug(path, x)) == Entries(Plug(path0, s0)) - {(s0.key, node)}
    {
      if node.left != null && node.right != null {
        Descend(path0, s0, Side.Right, root, Memory());
        ghost var b := Below(path0, s0, Side.Right);
        ghost var rel, s;
        var next;
        next, rel, s := Leftmost(node.right, b, s0.right);
        h := SuccessorTaken(rel, b, s);
        hide Holds;
        if node.right == next {
          parent, child, red := SpliceNear(node, next, b, s);
        } else {
          parent, child, red := SpliceFar(node, next, rel, b, s);
        }
        path, x := Under(rel, b.(node := next, key := s.key)), s.right;
      } else {
        var next := if node.left == null then node.right else node.left;
        path, x := path0, if s0.left.Leaf? then s0.right else s0.left;
        h := BypassTaken(path0, s0, x);
        red := node.red;
        hide Holds;
        parent := Bypass(node, next, path0, s0, x);
        child := next;
      }
    }

    // ----- removing

    method SinkParent(cis: Side, parent: Node, sibling: Node, ghost path: Path, ghost x: Shape)
      requires At(path, x) && path.Step? && path.node == parent && path.side == cis && path.sibling.Fork? &&
        path.sibling.node == sibling
      requires Child(path.sibling, cis).Fork?
      modifies this`root, nodes
      ensures At(SunkPath(path), x)
    {
      hide Holds;
      ghost var s := path.sibling.(red := false);
      Swing(path, x, root, Memory());
      Paint(sibling, false, Across(path, x), path.sibling);
      Climb(Across(path, x), s, root, Memory());
      Paint(parent, true, path.up, Above(Across(path, x), s));
      Rotate(cis, parent, path.up, Join(parent, path.key, true, cis, x, s), s, x, Child(s, cis), Child(s, cis.Other()));
      Climb(SunkPath(path), x, root, Memory());
      Climb(SunkPath(path).up, Above(SunkPath(path), x), root, Memory());
    }

    method TurnSibling(cis: Side, sibling: Node, ghost path: Path, ghost x: Shape)
      requires At(path, x) && path.Step? && path.side == cis && path.sibling.Fork? && path.sibling.node == sibling
      requires Child(path.sibling, cis).Fork?
      modifies this`root, nodes
      ensures At(path.(sibling := TurnedSibling(path)), x)
    {
      ghost var s, c := path.sibling, Child(path.sibling, cis);
      Swing(path, x, root, Memory());
      Descend(Across(path, x), s, cis, root, Memory());
      var near := if cis.Left? then sibling.left else sibling.right;
      hide Holds;
      Paint(near, false, Below(Across(path, x), s, cis), c);
      Climb(Below(Across(path, x), s, cis), c.(red := false), root, Memory());
      ghost var s1 := Above(Below(Across(path, x), s, cis), c.(red := false));
      Paint(sibling, true, Across(path, x), s1);
      Rotate(cis.Other(), sibling, Across(path, x), s1.(red := true), c.(red := false),
             Child(s, cis.Other()), Child(c, cis.Other()), Child(c, cis));
      Swing(path.(sibling := TurnedSibling(path)), x, root, Memory());
    }

    method FillGap(cis: Side, parent: Node, sibling: Node, ghost path: Path, ghost x: Shape)
      requires At(path, x) && path.Step? && path.node == parent && path.side == cis && path.sibling.Fork? &&
        path.sibling.node == sibling
      requires Child(path.sibling, cis.Other()).Fork?
      modifies this`root, nodes
      ensures At(path.up, FilledShape(path, x))
    {
      ghost var s, c := path.sibling, Child(path.sibling, cis.Other());
      Swing(path, x, root, Memory());
      Climb(path, x, root, Memory());
      Paint(sibling, parent.red, Across(path, x), s);
      ghost var s1 := s.(red := path.red);
      Descend(Across(path, x), s1, cis.Other(), root, Memory());
      var far := if cis.Left? then sibling.right else sibling.left;
      hide Holds;
      Paint(far, false, Below(Across(path, x), s1, cis.Other()), c);
      Climb(Below(Across(path, x), s1, cis.Other()), c.(red := false), root, Memory());
      ghost var s2 := Above(Below(Across(path, x), s1, cis.Other()), c.(red := false));
      Climb(Across(path, x), s2, root, Memory());
      Paint(parent, false, path.up, Above(Across(path, x), s2));
      Rotate(cis, parent, path.up, Join(parent, path.key, false, cis, x, s2), s2, x, Child(s, cis), c.(red := false));
    }

    method FadeSibling(sibling: Node, ghost path: Path, ghost x: Shape)
      requires At(path, x) && path.Step? && path.sibling.Fork? && path.sibling.node == sibling
      modifies nodes
      ensures At(path.up, FadedShape(path, x))
    {
      hide Holds;
      Swing(path, x, root, Memory());
      Paint(sibling, true, Across(path, x), path.sibling);
      Climb(Across(path, x), path.sibling.(red := true), root, Memory());
    }

    /** First step of a round: a red sibling is rotated away, so that the sibling is black. */
    method BlackSibling(cis: Side, parent: Node, ghost path0: Path, ghost x: Shape, ghost h: int)
        returns (sibling: Node, ghost path: Path)
      requires At(path0, x) && path0.Step? && path0.node == parent && path0.side == cis && Short(path0, x, h)
      modifies this`root, nodes
      ensures At(path, x) && path.Step? && path.node == parent && path.side == cis && Short(path, x, h)
      ensures path.sibling.Fork? && path.sibling.node == sibling && !path.sibling.red
      ensures path == path0 || path.red
      ensures Entries(Plug(path, x)) == Entries(Plug(path0, x))
    {
      path := path0;
      SiblingExists(path, x, h);
      FocusCells(path, x, root, Memory());
      sibling := if cis.Left? then parent.right else parent.left;
      if sibling.red {
        SunkShort(path, x, h);
        SiblingExists(SunkPath(path), x, h);
        SunkEntries(path, x);
        hide Holds, Balanced, PathBalanced, Short, Entries, Plug;
        SinkParent(cis, parent, sibling, path, x);
        path := SunkPath(path);
        FocusCells(path, x, root, Memory());
        sibling := if cis.Left? then parent.right else parent.left;
      }
    }

    /** A black sibling with a red child makes up for the missing black node. */
    method FillFromSibling(cis: Side, parent: Node, sibling0: Node, ghost path0: Path, ghost x: Shape, ghost h0: int)
      returns (ghost s: Shape, ghost h: int)
      requires At(path0, x) && path0.Step? && path0.node == parent && path0.side == cis && Short(path0, x, h0)
      requires path0.sibling.Fork? && path0.sibling.node == sibling0 && !path0.sibling.red
      requires IsRed(path0.sibling.left) || IsRed(path0.sibling.right)
      modifies this`root, nodes
      ensures At(path0.up, s) && PathBalanced(path0.up, h) && Balanced(s, h) && !(PathRed(path0.up) && IsRed(s))
      ensures Entries(Plug(path0.up, s)) == Entries(Plug(path0, x))
    {
      hide Holds, Balanced, PathBalanced, Entries, Plug;
      ghost var path := path0;
      var sibling := sibling0;
      FocusCells(path, x, root, Memory());
      var far := if cis.Left? then sibling.right else sibling.left;
      if far == null || !far.red {
        TurnedShort(path, x, h0);
        hide Holds, Balanced, PathBalanced, Entries, Plug;
        TurnSibling(cis, sibling, path, x);
        path := path.(sibling := TurnedSibling(path));
        FocusCells(path, x, root, Memory());
        sibling := if cis.Left? then parent.right else parent.left;
      }
      FilledMended(path, x, h0);
      FilledEntries(path, x);
      FillGap(cis, parent, sibling, path, x);
      s, h := FilledShape(path, x), if path.red then h0 else h0 + 1;
    }

    /** One round of the removal loop.  `done` is the case that ends the loop with a jump to the root. */
    method RebalanceAfterRemove(node: Node?, parent: Node, ghost path0: Path, ghost x0: Shape, ghost h0: int)
      returns (done: bool, ghost path: Path, ghost x: Shape, ghost h: int)
      requires At(path0, x0) && node == Ptr(x0) && parent == Owner(path0) && Short(path0, x0, h0)
      modifies this`root, nodes
      ensures At(path, x) && Entries(Plug(path, x)) == Entries(Plug(path0, x0))
      ensures done ==> PathBalanced(path, h) && Balanced(x, h) && !(PathRed(path) && IsRed(x))
      ensures !done ==> x.Fork? && x.node == parent
      ensures !done ==> if x.red then Mended(path, x, h) else Short(path, x, h) && Depth(path) < Depth(path0)
    {
      hide Holds, Balanced, PathBalanced, Short, Mended, Entries, Plug;
      SiblingExists(path0, x0, h0);
      SideCell(path0, x0, root, Memory());
      var cis := if node == parent.left then Side.Left else Side.Right;
      var sibling;
      sibling, path := BlackSibling(cis, parent, path0, x0, h0);
      FocusCells(path, x0, root, Memory());
      if (sibling.left != null && sibling.left.red) || (sibling.right != null && sibling.right.red) {
        x, h := FillFromSibling(cis, parent, sibling, path, x0, h0);
        done, path := true, path.up;
      } else {
        FadedShort(path, x0, h0);
        FadedEntries(path, x0);
        FadeSibling(sibling, path, x0);
        done, path, x, h := false, path.up, FadedShape(path, x0), if path.red then h0 else h0 + 1;
      }
    }

    method RepairAfterRemove(node0: Node?, parent0: Node?, ghost path0: Path, ghost x0: Shape, ghost h0: int)
      returns (node: Node?, ghost path: Path, ghost x: Shape, ghost h: int)
      requires At(path0, x0) && node0 == Ptr(x0) && parent0 == Owner(path0) && Short(path0, x0, h0)
      modifies this`root, nodes
      ensures At(path, x) && node == Ptr(x) && Mended(path, x, h)
      ensures Entries(Plug(path, x)) == Entries(Plug(path0, x0))
    {
      hide Holds, Balanced, PathBalanced, Entries, Short, Mended;
      var parent := parent0;
      node, path, x, h := node0, path0, x0, h0;
      while true
        invariant At(path, x) && node == Ptr(x) && parent == Owner(path) && Short(path, x, h)
        invariant Entries(Plug(path, x)) == Entries(Plug(path0, x0))
        decreases Depth(path)
      {
        RootTest(path, x, root, Memory());
        if node == root {
          TopMended(x, h);
          h := h - 1;
          break;
        }
        var done;
        done, path, x, h := RebalanceAfterRemove(node, parent, path, x, h);
        if done {
          h := RootMended(path, x, h);
          ClimbAll(path, x, root, Memory());
          path, x := Top, Plug(path, x);
          RootPointer(x, root, Memory());
          node := root;
          break;
        }
        FocusNode(path, x, root, Memory());
        node := parent;
        parent := parent.parent;
        if node.red {
          break;
        }
      }
    }

    /** The whole tree is in order again. */
    ghost method Settled(path: Path, x: Shape, m: int)
      requires At(path, x) && Balanced(Plug(path, x), m) && !IsRed(Plug(path, x)) &&
        Covers(nodes, Entries(Plug(path, x)))
      modifies this`shape
      ensures Valid() && Contents() == Entries(Plug(path, x))
    {
      hide Holds, Balanced, Plug, Entries, Covers;
      ClimbAll(path, x, root, Memory());
      RootPointer(Plug(path, x), root, Memory());
      Reshape(Plug(path, x));
    }

    method Delete(node: Node)
      requires Valid() && node in nodes
      modifies this, nodes
      ensures Valid() && nodes == old(nodes) - {node}
      ensures (old(node.key), node) in old(Contents())
      ensures Contents() == old(Contents()) - {(old(node.key), node)}
    {
      hide Holds, Balanced, PathBalanced, Short, Mended, Entries, Plug, Covers, Black;
      ghost var path, s := Locate(shape, nodes, node, root, Memory());
      CoversLess(nodes, Contents(), s.key, node);
      var parent, child, red;
      ghost var x, h;
      parent, child, red, path, x, h := Unlink(node, path, s);
      ghost var m;
      if red {
        m := RedRemoved(path, x, h);
        Settled(path, x, m);
        return;
      }
      FocusNode(path, x, root, Memory());
      if child != null && child.red {
        RedMended(path, x, h);
      } else {
        BlackShort(path, x, h);
        child, path, x, h := RepairAfterRemove(child, parent, path, x, h);
      }
      if child != null {
        Paint(child, false, path, x);
      }
      m := MendedDone(path, x, h);
      BlackPlug(path, x);
      Settled(path, Black(x), m);
    }

    // ----- finding

    /** `visits` counts the nodes the search compares with: at most 2 * log2(n + 1) of them for n keys. */
    method Find(key: Key) returns (node: Node?, ghost visits: nat)
      requires Valid()
      ensures node != null ==> (key, node) in Contents()
      ensures node == null ==> forall e | e in Contents() :: e.0 != key
      ensures WithinTwoLogs(visits, |Contents()|)
    {
      hide Seeking, Height, WithinTwoLogs, Holds, Linked, Covers, Entries, Ordered, Balanced;
      SeekStart(key);
      ghost var path, s := Top, shape;
      node, visits := root, 0;
      while node != null
        invariant Seeking(path, s, key) && node == Ptr(s)
        invariant visits + Height(s) <= Height(shape)
        decreases s
      {
        visits := visits + 1;
        SeekNode(path, s, key);
        HeightPositive(s);
        if key < node.key {
          SeekStep(path, s, key, Side.Left);
          node := node.left;
          path, s := Below(path, s, Side.Left), s.left;
        } else if key > node.key {
          SeekStep(path, s, key, Side.Right);
          node := node.right;
          path, s := Below(path, s, Side.Right), s.right;
        } else {
          HeightBound(shape, visits);
          return;
        }
      }
      SeekEmpty(path, key);
      HeightBound(shape, visits);
    }

    lemma {:induction false} HeightPositive(s: Shape)
      requires s.Fork?
      ensures Height(s) >= 1
    {
    }
  }
}
