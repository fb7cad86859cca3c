/** How a tree shape is laid out in memory, and what writing to a few cells does to that layout. */
module TreeMemory {
  import opened TreeShapes

  // ----- how a shape is laid out in memory

  /** What a node object holds. */
  datatype Cell = Cell(left: Node?, right: Node?, parent: Node?, key: Key, red: bool)

  type Memory = map<Node, Cell>

  function Ptr(s: Shape): Node? {
    if s.Leaf? then null else s.node
  }

  function Owner(path: Path): Node? {
    if path.Top? then null else path.node
  }

  /** The cell of the topmost node of a subtree that hangs below `parent`. */
  function ShapeCell(s: Shape, parent: Node?): Cell
    requires s.Fork?
  {
    Cell(Ptr(s.left), Ptr(s.right), parent, s.key, s.red)
  }

  ghost predicate Linked(s: Shape, parent: Node?, mem: Memory) {
    s.Fork? ==>
      s.node in mem && mem[s.node] == ShapeCell(s, parent) && Linked(s.left, s.node, mem) &&
        Linked(s.right, s.node, mem)
  }

  /** The cell of a node whose child on side `cis` is `kid` and whose other child is `other`. */
  function KidCell(cis: Side, kid: Node?, other: Node?, parent: Node?, key: Key, red: bool): (c: Cell)
    ensures c.key == key && c.parent == parent
  {
    if cis.Left? then Cell(kid, other, parent, key, red) else Cell(other, kid, parent, key, red)
  }

  /** The cell of the lowest node of a path whose hole is filled by the pointer `hole`. */
  function PathCell(path: Path, hole: Node?): Cell
    requires path.Step?
  {
    if path.side.Left? then Cell(hole, Ptr(path.sibling), Owner(path.up), path.key, path.red)
    else Cell(Ptr(path.sibling), hole, Owner(path.up), path.key, path.red)
  }

  /** Every node of the path points at what the path says, and the way down from `root` ends in `hole`. */
  ghost predicate PathLinked(path: Path, hole: Node?, root: Node?, mem: Memory) {
    match path
    case Top => hole == root
    case Step(n, _, _, _, sib, up) =>
      n in mem && mem[n] == PathCell(path, hole) && Linked(sib, n, mem) && PathLinked(up, n, root, mem)
  }

  lemma {:induction false} JoinLinked(node: Node, key: Key, red: bool, side: Side, cis: Shape, trans: Shape, up: Node?,
      mem: Memory)
    ensures Linked(Join(node, key, red, side, cis, trans), up, mem) <==>
            node in mem && mem[node] == KidCell(side, Ptr(cis), Ptr(trans), up, key, red) &&
            Linked(cis, node, mem) && Linked(trans, node, mem)
  {
  }

  /** The memory holds the ordered tree obtained by plugging `s` into `path`. */
  ghost predicate Holds(path: Path, s: Shape, root: Node?, mem: Memory) {
    AllOrdered(path, s) && Linked(s, Owner(path), mem) && PathLinked(path, Ptr(s), root, mem)
  }

  // ----- keys tell nodes apart: a change outside a key range leaves what lies inside it linked

  ghost predicate KeptInside(lo: int, hi: int, mem: Memory, mem': Memory) {
    forall n | n in mem && lo < mem[n].key < hi :: n in mem' && mem'[n] == mem[n]
  }

  ghost predicate KeptOutside(lo: int, hi: int, mem: Memory, mem': Memory) {
    forall n | n in mem && !(lo < mem[n].key < hi) :: n in mem' && mem'[n] == mem[n]
  }

  lemma {:induction false} LinkedFrame(s: Shape, parent: Node?, lo: int, hi: int, mem: Memory, mem': Memory)
    requires Linked(s, parent, mem) && Ordered(s, lo, hi) && KeptInside(lo, hi, mem, mem')
    ensures Linked(s, parent, mem')
  {
    if s.Fork? {
      LinkedFrame(s.left, s.node, lo, s.key, mem, mem');
      LinkedFrame(s.right, s.node, s.key, hi, mem, mem');
    }
  }

  lemma {:induction false} PathFrame(path: Path, hole: Node?, root: Node?, mem: Memory, mem': Memory)
    requires PathLinked(path, hole, root, mem) && PathOrdered(path) && KeptOutside(Lo(path), Hi(path), mem, mem')
    ensures PathLinked(path, hole, root, mem')
  {
    if path.Step? {
      if path.side.Left? {
        LinkedFrame(path.sibling, path.node, path.key, Hi(path.up), mem, mem');
      } else {
        LinkedFrame(path.sibling, path.node, Lo(path.up), path.key, mem, mem');
      }
      PathFrame(path.up, path.node, root, mem, mem');
    }
  }

  /** A subtree whose root is given a new parent. */
  lemma {:induction false} Reparent(s: Shape, parent: Node?, parent': Node?, lo: int, hi: int, mem: Memory,
      mem': Memory)
    requires Linked(s, parent, mem) && Ordered(s, lo, hi)
    requires forall n | n in mem && lo < mem[n].key < hi && n != Ptr(s) :: n in mem' && mem'[n] == mem[n]
    requires s.Fork? ==> s.node in mem' && mem'[s.node] == ShapeCell(s, parent')
    ensures Linked(s, parent', mem')
  {
    if s.Fork? {
      LinkedFrame(s.left, s.node, lo, s.key, mem, mem');
      LinkedFrame(s.right, s.node, s.key, hi, mem, mem');
    }
  }

  /** A path whose hole is filled by another pointer. */
  lemma {:induction false} Reattach(path: Path, hole: Node?, hole': Node?, root: Node?, root': Node?, mem: Memory,
      mem': Memory)
    requires PathLinked(path, hole, root, mem) && PathOrdered(path)
    requires root' == if path.Top? then hole' else root
    requires forall n | n in mem && !(Lo(path) < mem[n].key < Hi(path)) && n != Owner(path) ::
      n in mem' && mem'[n] == mem[n]
    requires path.Step? ==> path.node in mem' && mem'[path.node] == PathCell(path, hole')
    ensures PathLinked(path, hole', root', mem')
  {
    if path.Step? {
      if path.side.Left? {
        LinkedFrame(path.sibling, path.node, path.key, Hi(path.up), mem, mem');
      } else {
        LinkedFrame(path.sibling, path.node, Lo(path.up), path.key, mem, mem');
      }
      PathFrame(path.up, path.node, root, mem, mem');
    }
  }

  // ----- moving the focus, and painting what is in focus

  /** The subtree one step up. */
  function Above(path: Path, s: Shape): Shape
    requires path.Step?
  {
    Join(path.node, path.key, path.red, path.side, s, path.sibling)
  }

  lemma {:induction false} Climb(path: Path, s: Shape, root: Node?, mem: Memory)
    requires path.Step?
    ensures Holds(path, s, root, mem) <==> Holds(path.up, Above(path, s), root, mem)
  {
    JoinLinked(path.node, path.key, path.red, path.side, s, path.sibling, Owner(path.up), mem);
  }

  /** One step down. */
  function Below(path: Path, s: Shape, side: Side): Path
    requires s.Fork?
  {
    Step(s.node, s.key, s.red, side, Child(s, side.Other()), path)
  }

  lemma {:induction false} Descend(path: Path, s: Shape, side: Side, root: Node?, mem: Memory)
    requires s.Fork?
    ensures Holds(path, s, root, mem) <==> Holds(Below(path, s, side), Child(s, side), root, mem)
    ensures Plug(Below(path, s, side), Child(s, side)) == Plug(path, s)
  {
    Climb(Below(path, s, side), Child(s, side), root, mem);
  }

  /** The node in focus has its cell, and its key lies between the bounds of the path. */
  lemma {:induction false} Focus(path: Path, s: Shape, root: Node?, mem: Memory)
    requires Holds(path, s, root, mem) && s.Fork?
    ensures s.node in mem && mem[s.node] == ShapeCell(s, Owner(path)) && Lo(path) < s.key < Hi(path)
  {
  }

  /** The path to the sibling of the subtree at the foot of `path`. */
  function Across(path: Path, s: Shape): Path
    requires path.Step?
  {
    Step(path.node, path.key, path.red, path.side.Other(), s, path.up)
  }

  lemma {:induction false} Swing(path: Path, s: Shape, root: Node?, mem: Memory)
    requires path.Step?
    ensures Holds(path, s, root, mem) <==> Holds(Across(path, s), path.sibling, root, mem)
    ensures Above(Across(path, s), path.sibling) == Above(path, s)
  {
    Climb(path, s, root, mem);
    Climb(Across(path, s), path.sibling, root, mem);
  }

  /** What the parent in focus and the sibling look like from the code. */
  lemma {:induction false} FocusCells(path: Path, x: Shape, root: Node?, mem: Memory)
    requires Holds(path, x, root, mem) && path.Step?
    ensures path.node in mem && mem[path.node] == PathCell(path, Ptr(x))
    ensures path.sibling.Fork? ==>
      path.sibling.node in mem && mem[path.sibling.node] == ShapeCell(path.sibling, path.node)
    ensures forall k | path.sibling.Fork? && k in [path.sibling.left, path.sibling.right] && k.Fork? ::
      k.node in mem && mem[k.node].red == k.red
  {
    if path.sibling.Fork? {
      assert Linked(path.sibling.left, path.sibling.node, mem) && Linked(path.sibling.right, path.sibling.node, mem);
    }
  }

  lemma {:induction false} Painted(path: Path, s: Shape, red: bool, root: Node?, mem: Memory, mem': Memory)
    requires s.Fork? && Holds(path, s, root, mem)
    requires s.node in mem && mem' == mem[s.node := mem[s.node].(red := red)]
    ensures Holds(path, s.(red := red), root, mem')
  {
    LinkedFrame(s.left, s.node, Lo(path), s.key, mem, mem');
    LinkedFrame(s.right, s.node, s.key, Hi(path), mem, mem');
    PathFrame(path, s.node, root, mem, mem');
  }

  lemma {:induction false} ClimbAll(path: Path, s: Shape, root: Node?, mem: Memory)
    requires Holds(path, s, root, mem)
    ensures Holds(Top, Plug(path, s), root, mem)
  {
    if path.Step? {
      Climb(path, s, root, mem);
      ClimbAll(path.up, Above(path, s), root, mem);
    }
  }

  lemma {:induction false} RootPointer(s: Shape, root: Node?, mem: Memory)
    requires Holds(Top, s, root, mem)
    ensures root == Ptr(s) && Ordered(s, -1, KEY_LIMIT)
  {
  }

  /** Which child a node is can be read off its parent. */
  lemma {:induction false} SideTest(path: Path, hole: Node?, root: Node?, mem: Memory)
    requires path.Step? && PathLinked(path, hole, root, mem) && PathOrdered(path)
    requires if hole == null then path.sibling.Fork? else hole in mem && Lo(path) < mem[hole].key < Hi(path)
    ensures path.node in mem && (mem[path.node].left == hole <==> path.side.Left?)
  {
    if path.side.Right? && path.sibling.Fork? {
      assert mem[path.sibling.node].key == path.sibling.key;
    }
  }

  lemma {:induction false} SideCell(path: Path, x: Shape, root: Node?, mem: Memory)
    requires Holds(path, x, root, mem) && path.Step? && path.sibling.Fork?
    ensures path.node in mem && (mem[path.node].left == Ptr(x) <==> path.side.Left?)
  {
    SideTest(path, Ptr(x), root, mem);
  }

  lemma {:induction false} FocusNode(path: Path, x: Shape, root: Node?, mem: Memory)
    requires Holds(path, x, root, mem)
    ensures x.Fork? ==> x.node in mem && mem[x.node] == ShapeCell(x, Owner(path))
  {
  }

  lemma {:induction false} RootCell(path: Path, hole: Node?, root: Node?, mem: Memory)
    requires PathLinked(path, hole, root, mem) && path.Step?
    ensures root != null && root in mem && mem[root].parent == null
  {
    if path.up.Step? {
      RootCell(path.up, path.node, root, mem);
    }
  }

  /** Only the topmost subtree is the one the root pointer leads to. */
  lemma {:induction false} RootTest(path: Path, x: Shape, root: Node?, mem: Memory)
    requires Holds(path, x, root, mem)
    ensures Ptr(x) == root <==> path.Top?
  {
    FocusNode(path, x, root, mem);
    if path.Step? {
      RootCell(path, Ptr(x), root, mem);
    }
  }

  lemma {:induction false} LinkedEntries(s: Shape, parent: Node?, mem: Memory)
    requires Linked(s, parent, mem)
    ensures forall e | e in Entries(s) :: e.1 in mem && mem[e.1].key == e.0
  {
    if s.Fork? {
      LinkedEntries(s.left, s.node, mem);
      LinkedEntries(s.right, s.node, mem);
    }
  }

  lemma {:induction false} LocateEntry(path: Path, s: Shape, key: Key, node: Node, root: Node?, mem: Memory)
      returns (path': Path, s': Shape)
    requires Holds(path, s, root, mem) && (key, node) in Entries(s)
    ensures Holds(path', s', root, mem) && s'.Fork? && s'.node == node && s'.key == key &&
      Plug(path', s') == Plug(path, s)
    decreases s
  {
    if (key, node) == (s.key, s.node) {
      path', s' := path, s;
    } else {
      var side := if (key, node) in Entries(s.left) then Side.Left else Side.Right;
      Descend(path, s, side, root, mem);
      path', s' := LocateEntry(Below(path, s, side), Child(s, side), key, node, root, mem);
    }
  }

  /** A member node sits somewhere in the shape, under the key it holds. */
  lemma {:induction false} Locate(shape: Shape, nodes: set<Node>, node: Node, root: Node?, mem: Memory)
      returns (path: Path, s: Shape)
    requires Holds(Top, shape, root, mem) && Covers(nodes, Entries(shape)) && node in nodes
    ensures Holds(path, s, root, mem) && s.Fork? && s.node == node && Plug(path, s) == shape
    ensures node in mem && mem[node].key == s.key && (s.key, node) in Entries(shape)
    ensures forall e | e in Entries(shape) && e.1 == node :: e.0 == s.key
  {
    var key: Key :| (key, node) in Entries(shape);
    path, s := LocateEntry(Top, shape, key, node, root, mem);
    LinkedEntries(shape, null, mem);
  }

  // ----- rotations

  /** The shape a rotation makes of a node, its other child and the subtrees `a`, `b`, `c` from the `cis` side on. */
  function Turned(cis: Side, p: Shape, q: Shape, a: Shape, b: Shape, c: Shape): Shape
    requires p.Fork? && q.Fork?
  {
    Join(q.node, q.key, q.red, cis, Join(p.node, p.key, p.red, cis, a, b), c)
  }

  lemma {:induction false} TurnEntries(cis: Side, p: Shape, q: Shape, a: Shape, b: Shape, c: Shape)
    requires p.Fork? && q.Fork?
    requires p == Join(p.node, p.key, p.red, cis, a, q) && q == Join(q.node, q.key, q.red, cis, b, c)
    ensures Entries(Turned(cis, p, q, a, b, c)) == Entries(p)
  {
    hide Entries;
    JoinEntries(p.node, p.key, p.red, cis, a, q);
    JoinEntries(q.node, q.key, q.red, cis, b, c);
    JoinEntries(p.node, p.key, p.red, cis, a, b);
    JoinEntries(q.node, q.key, q.red, cis, Join(p.node, p.key, p.red, cis, a, b), c);
  }

  /** In key order the parts of a rotation are a, p, b, q, c, or the mirror image. */
  lemma {:induction false} TurnRanges(cis: Side, p: Shape, q: Shape, a: Shape, b: Shape, c: Shape, lo: int, hi: int)
    requires p.Fork? && q.Fork?
    requires p == Join(p.node, p.key, p.red, cis, a, q) && q == Join(q.node, q.key, q.red, cis, b, c)
    requires Ordered(p, lo, hi)
    ensures cis.Left? ==>
      lo < p.key < q.key < hi && Ordered(a, lo, p.key) && Ordered(b, p.key, q.key) && Ordered(c, q.key, hi)
    ensures cis.Right? ==>
      lo < q.key < p.key < hi && Ordered(c, lo, q.key) && Ordered(b, q.key, p.key) && Ordered(a, p.key, hi)
    ensures b.Fork? ==> p.key < b.key < q.key || q.key < b.key < p.key
    ensures Ordered(Turned(cis, p, q, a, b, c), lo, hi)
  {
    assert Ordered(q, if cis.Left? then p.key else lo, if cis.Left? then hi else p.key);
    assert Ordered(b, if cis.Left? then p.key else q.key, if cis.Left? then q.key else p.key);
  }

  lemma {:induction false} TopCell(s: Shape, parent: Node?, parent': Node?, mem: Memory)
    requires Linked(s, parent, mem) && s.Fork?
    ensures s.node in mem && mem[s.node] == ShapeCell(s, parent) && mem[s.node].key == s.key
    ensures mem[s.node].(parent := parent') == ShapeCell(s, parent')
  {
  }

  lemma {:induction false} TurnKept(cis: Side, up: Node?, p: Shape, q: Shape, a: Shape, b: Shape, c: Shape,
                 lo: int, hi: int, mem: Memory, mem': Memory)
    requires p.Fork? && q.Fork?
    requires p == Join(p.node, p.key, p.red, cis, a, q) && q == Join(q.node, q.key, q.red, cis, b, c)
    requires Linked(p, up, mem) && Ordered(p, lo, hi)
    requires b.Fork? ==> b.node in mem' && mem'[b.node] == ShapeCell(b, p.node)
    requires forall n | n in mem && lo < mem[n].key < hi && n != p.node && n != q.node && n != Ptr(b) ::
      n in mem' && mem'[n] == mem[n]
    ensures Linked(a, p.node, mem') && Linked(b, p.node, mem') && Linked(c, q.node, mem')
  {
    hide Linked, Ordered, Join, ShapeCell, KidCell;
    TurnRanges(cis, p, q, a, b, c, lo, hi);
    JoinLinked(p.node, p.key, p.red, cis, a, q, up, mem);
    JoinLinked(q.node, q.key, q.red, cis, b, c, p.node, mem);
    if b.Fork? {
      TopCell(b, q.node, p.node, mem);
    }
    if cis.Left? {
      LinkedFrame(a, p.node, lo, p.key, mem, mem');
      LinkedFrame(c, q.node, q.key, hi, mem, mem');
      Reparent(b, q.node, p.node, p.key, q.key, mem, mem');
    } else {
      LinkedFrame(a, p.node, p.key, hi, mem, mem');
      LinkedFrame(c, q.node, lo, q.key, mem, mem');
      Reparent(b, q.node, p.node, q.key, p.key, mem, mem');
    }
  }

  lemma {:induction false} TurnLinked(cis: Side, up: Node?, p: Shape, q: Shape, a: Shape, b: Shape, c: Shape,
                   lo: int, hi: int, mem: Memory, mem': Memory)
    requires p.Fork? && q.Fork?
    requires p == Join(p.node, p.key, p.red, cis, a, q) && q == Join(q.node, q.key, q.red, cis, b, c)
    requires Linked(p, up, mem) && Ordered(p, lo, hi)
    requires p.node in mem' && mem'[p.node] == KidCell(cis, Ptr(a), Ptr(b), q.node, p.key, p.red)
    requires q.node in mem' && mem'[q.node] == KidCell(cis, p.node, Ptr(c), up, q.key, q.red)
    requires b.Fork? ==> b.node in mem' && mem'[b.node] == ShapeCell(b, p.node)
    requires forall n | n in mem && lo < mem[n].key < hi && n != p.node && n != q.node && n != Ptr(b) ::
      n in mem' && mem'[n] == mem[n]
    ensures Linked(Turned(cis, p, q, a, b, c), up, mem')
  {
    TurnKept(cis, up, p, q, a, b, c, lo, hi, mem, mem');
    JoinLinked(p.node, p.key, p.red, cis, a, b, q.node, mem');
    JoinLinked(q.node, q.key, q.red, cis, Join(p.node, p.key, p.red, cis, a, b), c, up, mem');
  }

  function Kid(c: Cell, side: Side): Node? {
    if side.Left? then c.left else c.right
  }

  function WithKid(c: Cell, side: Side, kid: Node?): Cell {
    if side.Left? then c.(left := kid) else c.(right := kid)
  }

  lemma {:induction false} KidCells(cis: Side, x: Node?, y: Node?, parent: Node?, key: Key, red: bool, kid: Node?,
      up: Node?)
    ensures var c := KidCell(cis, x, y, parent, key, red);
      && Kid(c, cis) == x && Kid(c, cis.Other()) == y
      && WithKid(c, cis, kid).(parent := up) == KidCell(cis, kid, y, up, key, red)
      && WithKid(c, cis.Other(), kid).(parent := up) == KidCell(cis, x, kid, up, key, red)
  {
  }

  /** What a rotation of `node` towards the `cis` side writes. */
  function Spun(cis: Side, node: Node, mem: Memory): Memory
    requires node in mem && Kid(mem[node], cis.Other()) != null && Kid(mem[node], cis.Other()) in mem
    requires mem[node].parent != null ==> mem[node].parent in mem
    requires var mid := Kid(mem[Kid(mem[node], cis.Other())], cis); mid != null ==> mid in mem
  {
    var top, parent := Kid(mem[node], cis.Other()), mem[node].parent;
    var mid := Kid(mem[top], cis);
    var m := if parent == null then mem
             else if mem[parent].left == node then mem[parent := mem[parent].(left := top)]
             else mem[parent := mem[parent].(right := top)];
    var m := m[top := WithKid(m[top], cis, node).(parent := parent)];
    var m := m[node := WithKid(m[node], cis.Other(), mid).(parent := top)];
    if mid == null then m else m[mid := m[mid].(parent := node)]
  }

  lemma {:induction false} SpunCells(cis: Side, node: Node, top: Node, mid: Node?, parent: Node?, mem: Memory)
    requires node in mem && Kid(mem[node], cis.Other()) == top && top in mem && mem[node].parent == parent &&
      Kid(mem[top], cis) == mid
    requires (parent != null ==> parent in mem) && (mid != null ==> mid in mem)
    requires top != node && parent != node && parent != top && mid != node && mid != top &&
      (mid != null ==> mid != parent)
    ensures Spun(cis, node, mem).Keys == mem.Keys
    ensures Spun(cis, node, mem)[node] == WithKid(mem[node], cis.Other(), mid).(parent := top)
    ensures Spun(cis, node, mem)[top] == WithKid(mem[top], cis, node).(parent := parent)
    ensures mid != null ==> Spun(cis, node, mem)[mid] == mem[mid].(parent := node)
    ensures parent != null && mem[parent].left == node ==> Spun(cis, node, mem)[parent] == mem[parent].(left := top)
    ensures parent != null && mem[parent].left != node ==> Spun(cis, node, mem)[parent] == mem[parent].(right := top)
    ensures forall n | n in mem && n != node && n != top && n != mid && n != parent :: Spun(cis, node, mem)[n] == mem[n]
  {
    hide WithKid, Kid;
  }

  lemma {:induction false} SpunLinked(cis: Side, up: Node?, p: Shape, q: Shape, a: Shape, b: Shape, c: Shape, lo: int,
      hi: int, mem: Memory)
    requires p.Fork? && q.Fork?
    requires p == Join(p.node, p.key, p.red, cis, a, q) && q == Join(q.node, q.key, q.red, cis, b, c)
    requires Linked(p, up, mem) && Ordered(p, lo, hi)
    requires up != null ==> up in mem && !(lo < mem[up].key < hi)
    ensures p.node in mem && mem[p.node].parent == up && lo < mem[p.node].key < hi
    ensures Kid(mem[p.node], cis.Other()) == q.node && q.node in mem && Kid(mem[q.node], cis) == Ptr(b) &&
      lo < mem[q.node].key < hi
    ensures Ptr(b) != null ==> Ptr(b) in mem && lo < mem[b.node].key < hi
    ensures q.node != p.node && Ptr(b) != p.node && Ptr(b) != q.node
    ensures Linked(Turned(cis, p, q, a, b, c), up, Spun(cis, p.node, mem))
  {
    hide Spun, Linked, Ordered, Join, ShapeCell, KidCell, Kid, WithKid;
    TurnRanges(cis, p, q, a, b, c, lo, hi);
    JoinLinked(p.node, p.key, p.red, cis, a, q, up, mem);
    JoinLinked(q.node, q.key, q.red, cis, b, c, p.node, mem);
    if b.Fork? {
      TopCell(b, q.node, p.node, mem);
    }
    KidCells(cis, Ptr(a), Ptr(q), up, p.key, p.red, Ptr(b), q.node);
    KidCells(cis, Ptr(b), Ptr(c), p.node, q.key, q.red, p.node, up);
    SpunCells(cis, p.node, q.node, Ptr(b), up, mem);
    TurnLinked(cis, up, p, q, a, b, c, lo, hi, mem, Spun(cis, p.node, mem));
  }

  lemma {:induction false} SpunPath(cis: Side, path: Path, node: Node, top: Node, mid: Node?, root: Node?, mem: Memory)
    requires PathLinked(path, node, root, mem) && PathOrdered(path)
    requires node in mem && Kid(mem[node], cis.Other()) == top && top in mem && mem[node].parent == Owner(path) &&
      Kid(mem[top], cis) == mid
    requires Lo(path) < mem[node].key < Hi(path) && Lo(path) < mem[top].key < Hi(path)
    requires mid != null ==> mid in mem && Lo(path) < mem[mid].key < Hi(path)
    requires top != node && mid != node && mid != top
    ensures Owner(path) != null ==> Owner(path) in mem
    ensures PathLinked(path, top, if path.Top? then top else root, Spun(cis, node, mem))
  {
    hide Spun, Kid, WithKid;
    if path.Step? {
      assert Linked(path.sibling, path.node, mem);
      assert path.sibling.Fork? ==> path.sibling.node != node;
    }
    SpunCells(cis, node, top, mid, Owner(path), mem);
    Reattach(path, node, top, root, if path.Top? then top else root, mem, Spun(cis, node, mem));
  }

  function Fields(n: Node): Cell
    reads n
  {
    Cell(n.left, n.right, n.parent, n.key, n.red)
  }

  function Some(n: Node?): set<Node> {
    if n == null then {} else {n}
  }

  // ----- taking a node out

  lemma {:induction false} SpineTop(rel: Path, b: Path, hole: Node?, root: Node?, mem: Memory)
    requires LeftSpine(rel) && b.Step? && b.side.Right?
    requires PathLinked(Under(rel, b), hole, root, mem) && PathOrdered(Under(rel, b))
    ensures rel.Step? ==> Outermost(rel) in mem && Hi(Under(rel, b)) <= mem[Outermost(rel)].key < Hi(b.up)
    ensures PathLinked(b, if rel.Top? then hole else Outermost(rel), root, mem) && PathOrdered(b)
  {
    SpineRange(rel, b);
    if rel.Step? {
      SpineRange(rel.up, b);
      SpineTop(rel.up, b, rel.node, root, mem);
    }
  }

  /** A spine that is hung below another node. */
  lemma {:induction false} SpineLinked(rel: Path, b: Path, b': Path, hole: Node?, root: Node?, root': Node?,
      mem: Memory, mem': Memory)
    requires LeftSpine(rel) && SameLook(b, b') && b.side.Right?
    requires PathLinked(Under(rel, b), hole, root, mem) && PathOrdered(Under(rel, b))
    requires PathLinked(b', if rel.Top? then hole else Outermost(rel), root', mem')
    requires rel.Step? ==>
      Outermost(rel) in mem && Outermost(rel) in mem' && mem'[Outermost(rel)] == mem[Outermost(rel)].(parent := b'.node)
    requires forall n | n in mem && Hi(Under(rel, b)) <= mem[n].key < Hi(b.up) && !(rel.Step? && n == Outermost(rel)) ::
      n in mem' && mem'[n] == mem[n]
    ensures PathLinked(Under(rel, b'), hole, root', mem')
  {
    if rel.Step? {
      SpineRange(rel.up, b);
      SpineTop(rel.up, b, rel.node, root, mem);
      LinkedFrame(rel.sibling, rel.node, rel.key, Hi(Under(rel.up, b)), mem, mem');
      SpineLinked(rel.up, b, b', rel.node, root, root', mem, mem');
    }
  }

  /** The successor in the place of the node that is taken out. */
  lemma {:induction false} SuccessorBase(b: Path, b': Path, hole: Node?, hole': Node?, root: Node?, root': Node?,
      mem: Memory, mem': Memory)
    requires SameLook(b, b') && b.side.Right? && b.sibling.Fork?
    requires PathLinked(b, hole, root, mem) && PathOrdered(b)
    requires b'.node in mem' && mem'[b'.node] == PathCell(b', hole')
    requires b.sibling.node in mem' && mem'[b.sibling.node] == ShapeCell(b.sibling, b'.node)
    requires b.up.Step? ==> b.up.node in mem' && mem'[b.up.node] == PathCell(b.up, b'.node)
    requires forall n | n in mem && (mem[n].key < b.key || Hi(b.up) <= mem[n].key) && n != Owner(b.up) &&
                        n != b.sibling.node :: n in mem' && mem'[n] == mem[n]
    requires root' == if b.up.Top? then b'.node else root
    ensures PathLinked(b', hole', root', mem')
  {
    Reparent(b.sibling, b.node, b'.node, Lo(b.up), b.key, mem, mem');
    Reattach(b.up, b.node, b'.node, root, root', mem, mem');
  }

  /** What taking out a node writes when its successor is its right child. */
  ghost predicate NearWritten(b: Path, next: Shape, mem: Memory, mem': Memory)
    requires b.Step? && b.sibling.Fork? && next.Fork?
  {
    && next.node in mem' && mem'[next.node] == PathCell(b.(node := next.node, key := next.key), Ptr(next.right))
    && b.sibling.node in mem' && mem'[b.sibling.node] == ShapeCell(b.sibling, next.node)
    && (b.up.Step? ==> b.up.node in mem' && mem'[b.up.node] == PathCell(b.up, next.node))
    && (next.right.Fork? ==> next.right.node in mem' && mem'[next.right.node] == ShapeCell(next.right, next.node))
    && forall n | n in mem && mem[n].key != b.key && n != Owner(b.up) && n != b.sibling.node && n != next.node &&
                    n != Ptr(next.right) ::
         n in mem' && mem'[n] == mem[n]
  }

  /** Where the keys of the cells that change lie. */
  lemma {:induction false} NearKeys(b: Path, next: Shape, root: Node?, mem: Memory)
    requires b.Step? && b.side.Right? && b.sibling.Fork? && next.Fork? && next.left.Leaf?
    requires Holds(b, next, root, mem)
    ensures b.node in mem && mem[b.node] == PathCell(b, next.node)
    ensures next.node in mem && mem[next.node] == ShapeCell(next, b.node) && b.key < next.key < Hi(b.up)
    ensures b.sibling.node in mem && mem[b.sibling.node] == ShapeCell(b.sibling, b.node) &&
      Lo(b.up) < b.sibling.key < b.key
    ensures next.right.Fork? ==> next.right.node in mem && mem[next.right.node] == ShapeCell(next.right, next.node)
    ensures next.right.Fork? ==> next.key < next.right.key < Hi(b.up)
    ensures b.up.Step? ==> b.up.node in mem && mem[b.up.node] == PathCell(b.up, b.node)
    ensures b.up.Step? ==> !(Lo(b.up) < b.up.key < Hi(b.up)) && Ptr(b.up.sibling) != b.node
    ensures Lo(b.up) < b.key < Hi(b.up)
  {
    assert Linked(next.right, next.node, mem) && Ordered(next.right, next.key, Hi(b.up));
    assert Linked(b.sibling, b.node, mem) && Ordered(b.sibling, Lo(b.up), b.key);
    assert PathLinked(b.up, b.node, root, mem) && PathOrdered(b.up);
    assert b.up.Step? ==> Linked(b.up.sibling, b.up.node, mem);
  }

  lemma {:induction false} NearSuccessor(b: Path, next: Shape, root: Node?, root': Node?, mem: Memory, mem': Memory)
    requires b.Step? && b.side.Right? && b.sibling.Fork? && next.Fork? && next.left.Leaf?
    requires Holds(b, next, root, mem) && NearWritten(b, next, mem, mem')
    requires root' == if b.up.Top? then next.node else root
    ensures Holds(b.(node := next.node, key := next.key), next.right, root', mem')
  {
    var b' := b.(node := next.node, key := next.key);
    assert Ordered(next, b.key, Hi(b.up));
    SpineOrdered(Top, b, b');
    assert Linked(next.right, next.node, mem);
    assert Linked(b.sibling, b.node, mem) && Ordered(b.sibling, Lo(b.up), b.key);
    assert PathLinked(b.up, b.node, root, mem);
    SuccessorBase(b, b', next.node, Ptr(next.right), root, root', mem, mem');
    Reparent(next.right, next.node, next.node, next.key, Hi(b.up), mem, mem');
  }

  /** What taking out a node writes when its successor is at the foot of the left spine `rel` of its right subtree. */
  ghost predicate FarWritten(rel: Path, b: Path, next: Shape, mem: Memory, mem': Memory)
    requires rel.Step? && b.Step? && b.sibling.Fork? && next.Fork?
  {
    var b' := b.(node := next.node, key := next.key);
    && next.node in mem' && mem'[next.node] == PathCell(b', Outermost(rel))
    && b.sibling.node in mem' && mem'[b.sibling.node] == ShapeCell(b.sibling, next.node)
    && (b.up.Step? ==> b.up.node in mem' && mem'[b.up.node] == PathCell(b.up, next.node))
    && (next.right.Fork? ==> next.right.node in mem' && mem'[next.right.node] == ShapeCell(next.right, rel.node))
    && rel.node in mem' && mem'[rel.node] == PathCell(Under(rel, b'), Ptr(next.right))
    && Outermost(rel) in mem && Outermost(rel) in mem'
    && (rel.up.Step? ==> mem'[Outermost(rel)] == mem[Outermost(rel)].(parent := next.node))
    && forall n | n in mem && mem[n].key != b.key && n != Owner(b.up) && n != b.sibling.node && n != next.node &&
                  n != Ptr(next.right) && n != rel.node && n != Outermost(rel) :: n in mem' && mem'[n] == mem[n]
  }

  lemma {:induction false} FarSpine(rel: Path, b: Path, next: Shape, root: Node?, root': Node?, mem: Memory,
      mem': Memory)
    requires rel.Step? && LeftSpine(rel) && b.Step? && b.side.Right? && b.sibling.Fork? && next.Fork? && next.left.Leaf?
    requires Holds(Under(rel, b), next, root, mem) && FarWritten(rel, b, next, mem, mem')
    requires root' == if b.up.Top? then next.node else root
    ensures PathLinked(Under(rel.up, b.(node := next.node, key := next.key)), rel.node, root', mem')
  {
    hide Linked, Ordered;
    var b' := b.(node := next.node, key := next.key);
    FarKeys(rel, b, next, root, mem);
    SpineRange(rel.up, b);
    SpineTop(rel, b, next.node, root, mem);
    SuccessorBase(b, b', Outermost(rel), Outermost(rel), root, root', mem, mem');
    SpineLinked(rel.up, b, b', rel.node, root, root', mem, mem');
  }

  lemma {:induction false} FarSuccessor(rel: Path, b: Path, next: Shape, root: Node?, root': Node?, mem: Memory,
      mem': Memory)
    requires rel.Step? && LeftSpine(rel) && b.Step? && b.side.Right? && b.sibling.Fork? && next.Fork? && next.left.Leaf?
    requires Holds(Under(rel, b), next, root, mem) && FarWritten(rel, b, next, mem, mem')
    requires root' == if b.up.Top? then next.node else root
    ensures Holds(Under(rel, b.(node := next.node, key := next.key)), next.right, root', mem')
  {
    hide Outermost, PathLinked, LeftSpine;
    var b' := b.(node := next.node, key := next.key);
    FarPath(rel, b, next, root, root', mem, mem');
    FarKeys(rel, b, next, root, mem);
    SpineOrdered(rel, b, b');
    Reparent(next.right, next.node, rel.node, next.key, rel.key, mem, mem');
  }

  lemma {:induction false} FarPath(rel: Path, b: Path, next: Shape, root: Node?, root': Node?, mem: Memory,
      mem': Memory)
    requires rel.Step? && LeftSpine(rel) && b.Step? && b.side.Right? && b.sibling.Fork? && next.Fork? && next.left.Leaf?
    requires Holds(Under(rel, b), next, root, mem) && FarWritten(rel, b, next, mem, mem')
    requires root' == if b.up.Top? then next.node else root
    ensures PathLinked(Under(rel, b.(node := next.node, key := next.key)), Ptr(next.right), root', mem')
  {
    hide Linked, Ordered;
    FarSpine(rel, b, next, root, root', mem, mem');
    FarKeys(rel, b, next, root, mem);
    LinkedFrame(rel.sibling, rel.node, rel.key, Hi(Under(rel.up, b)), mem, mem');
  }

  /** Where the keys of the cells that change lie. */
  lemma {:induction false} FarKeys(rel: Path, b: Path, next: Shape, root: Node?, mem: Memory)
    requires rel.Step? && LeftSpine(rel) && b.Step? && b.side.Right? && b.sibling.Fork? && next.Fork? && next.left.Leaf?
    requires Holds(Under(rel, b), next, root, mem)
    ensures next.node in mem && mem[next.node].key == next.key && b.key < next.key < rel.key
    ensures rel.node in mem && mem[rel.node].key == rel.key && rel.key < Hi(b.up)
    ensures b.sibling.node in mem && mem[b.sibling.node].key == b.sibling.key && Lo(b.up) < b.sibling.key < b.key
    ensures next.right.Fork? ==> next.right.node in mem && next.key < mem[next.right.node].key < rel.key
    ensures b.up.Step? ==> b.up.node in mem && !(Lo(b.up) < mem[b.up.node].key < Hi(b.up))
    ensures Linked(next.right, next.node, mem) && Ordered(next.right, next.key, rel.key)
    ensures PathLinked(Under(rel.up, b), rel.node, root, mem) && PathOrdered(Under(rel.up, b))
    ensures rel.up.Step? ==> Outermost(rel) == Outermost(rel.up) && Outermost(rel) in mem &&
                             rel.key < Hi(Under(rel.up, b)) <= mem[Outermost(rel)].key < Hi(b.up)
    ensures Linked(rel.sibling, rel.node, mem) && Ordered(rel.sibling, rel.key, Hi(Under(rel.up, b)))
    ensures rel.up.Top? ==> Outermost(rel) == rel.node
  {
    SpineRange(rel, b);
    SpineRange(rel.up, b);
    SpineTop(rel, b, next.node, root, mem);
    SpineTop(rel.up, b, rel.node, root, mem);
    assert Linked(next.right, next.node, mem) && Ordered(next.right, next.key, rel.key);
    assert Linked(b.sibling, b.node, mem) && Ordered(b.sibling, Lo(b.up), b.key);
    assert PathLinked(b.up, b.node, root, mem);
  }

  lemma {:induction false} FarCells(rel: Path, b: Path, next: Shape, root: Node?, mem: Memory)
    requires rel.Step? && LeftSpine(rel) && b.Step? && b.side.Right? && b.sibling.Fork? && next.Fork? && next.left.Leaf?
    requires Holds(Under(rel, b), next, root, mem)
    ensures b.node in mem && mem[b.node] == PathCell(b, Outermost(rel)) && Lo(b.up) < b.key < Hi(b.up)
    ensures next.node in mem && mem[next.node] == ShapeCell(next, rel.node)
    ensures rel.node in mem && mem[rel.node] == PathCell(Under(rel, b), next.node) && mem[rel.node].left == next.node
    ensures b.sibling.node in mem && mem[b.sibling.node] == ShapeCell(b.sibling, b.node)
    ensures next.right.Fork? ==> next.right.node in mem && mem[next.right.node] == ShapeCell(next.right, next.node)
    ensures b.up.Step? ==> b.up.node in mem && mem[b.up.node] == PathCell(b.up, b.node) && Ptr(b.up.sibling) != b.node
  {
    SpineTop(rel, b, next.node, root, mem);
    assert Linked(next.right, next.node, mem);
    assert Linked(b.sibling, b.node, mem);
    assert PathLinked(b.up, b.node, root, mem) && PathOrdered(b.up);
    assert b.up.Step? ==> Linked(b.up.sibling, b.up.node, mem);
  }

  /** What putting `next` in the place of `node` writes, cell by cell. */
  ghost predicate Spliced(node: Node, next: Node, up: Node?, left: Node, right: Node, low: Node, kid: Node?,
      mem: Memory, mem': Memory) {
    && mem'.Keys == mem.Keys - {node} && {node, next, left, right, low} <= mem.Keys && next != node && left != node &&
       right != node && low != node
    && mem'[next] == Cell(left, if next == right then kid else right, up, mem[next].key, mem[node].red)
    && mem'[left] == mem[left].(parent := next)
    && (up != null ==>
          up in mem && up != node &&
          mem'[up] == if mem[up].left == node then mem[up].(left := next) else mem[up].(right := next))
    && (kid != null ==> kid in mem && kid != node && mem'[kid] == mem[kid].(parent := low))
    && (next != right ==>
       mem'[low] == if low == right then mem[low].(left := kid, parent := next) else mem[low].(left := kid))
    && (next != right && low != right ==> mem'[right] == mem[right].(parent := next))
    && forall n | n in mem && n != node && n != next && n != left && n != right && n != low && n != up && n != kid ::
       mem'[n] == mem[n]
  }

  lemma {:induction false} FarSpliced(rel: Path, b: Path, next: Shape, mem: Memory, mem': Memory)
    requires rel.Step? && LeftSpine(rel) && b.Step? && b.side.Right? && b.sibling.Fork? && next.Fork? && next.left.Leaf?
    requires b.node in mem && mem[b.node] == PathCell(b, Outermost(rel))
    requires next.node in mem && mem[next.node] == ShapeCell(next, rel.node)
    requires rel.node in mem && mem[rel.node] == PathCell(Under(rel, b), next.node)
    requires b.sibling.node in mem && mem[b.sibling.node] == ShapeCell(b.sibling, b.node)
    requires next.right.Fork? ==> next.right.node in mem && mem[next.right.node] == ShapeCell(next.right, next.node)
    requires b.up.Step? ==> b.up.node in mem && mem[b.up.node] == PathCell(b.up, b.node) && Ptr(b.up.sibling) != b.node
    requires rel.up.Top? ==> Outermost(rel) == rel.node
    requires rel.up.Step? ==> Outermost(rel) in mem && Outermost(rel) != rel.node
    requires next.node != Outermost(rel)
    requires Spliced(b.node, next.node, Owner(b.up), b.sibling.node, Outermost(rel), rel.node, Ptr(next.right), mem,
      mem')
    ensures FarWritten(rel, b, next, mem, mem')
  {
    var b' := b.(node := next.node, key := next.key);
    assert Owner(Under(rel.up, b')) == if rel.up.Top? then next.node else rel.up.node;
    assert Owner(Under(rel.up, b)) == if rel.up.Top? then b.node else rel.up.node;
    assert mem'[rel.node] == PathCell(Under(rel, b'), Ptr(next.right));
  }

  lemma {:induction false} NearSpliced(b: Path, next: Shape, mem: Memory, mem': Memory)
    requires b.Step? && b.side.Right? && b.sibling.Fork? && next.Fork? && next.left.Leaf?
    requires b.node in mem && mem[b.node] == PathCell(b, next.node)
    requires next.node in mem && mem[next.node] == ShapeCell(next, b.node)
    requires b.sibling.node in mem && mem[b.sibling.node] == ShapeCell(b.sibling, b.node)
    requires next.right.Fork? ==> next.right.node in mem && mem[next.right.node] == ShapeCell(next.right, next.node)
    requires b.up.Step? ==> b.up.node in mem && mem[b.up.node] == PathCell(b.up, b.node) && Ptr(b.up.sibling) != b.node
    requires Spliced(b.node, next.node, Owner(b.up), b.sibling.node, next.node, next.node, Ptr(next.right), mem, mem')
    ensures NearWritten(b, next, mem, mem')
  {
  }

  /** The cells that change when a node with at most one child is taken out. */
  lemma {:induction false} BypassKeys(path: Path, s: Shape, x: Shape, root: Node?, mem: Memory)
    requires Holds(path, s, root, mem) && s.Fork?
    requires (s.left.Leaf? && x == s.right) || (s.right.Leaf? && x == s.left)
    ensures s.node in mem && mem[s.node] == ShapeCell(s, Owner(path)) && Lo(path) < s.key < Hi(path)
    ensures x.Fork? ==>
      x.node in mem && mem[x.node] == ShapeCell(x, s.node) && x.key != s.key && Lo(path) < x.key < Hi(path)
    ensures path.Step? ==> path.node in mem && mem[path.node] == PathCell(path, s.node)
    ensures path.Step? ==> !(Lo(path) < path.key < Hi(path)) && Ptr(path.sibling) != s.node
  {
    assert Linked(x, s.node, mem);
    if x == s.right {
      assert Ordered(x, s.key, Hi(path));
    } else {
      assert Ordered(x, Lo(path), s.key);
    }
    assert path.Step? ==> Linked(path.sibling, path.node, mem);
  }

  lemma {:induction false} Bypassed(path: Path, s: Shape, x: Shape, root: Node?, root': Node?, mem: Memory,
      mem': Memory)
    requires Holds(path, s, root, mem) && s.Fork?
    requires (s.left.Leaf? && x == s.right) || (s.right.Leaf? && x == s.left)
    requires root' == if path.Top? then Ptr(x) else root
    requires x.Fork? ==> x.node in mem' && mem'[x.node] == ShapeCell(x, Owner(path))
    requires path.Step? ==> path.node in mem' && mem'[path.node] == PathCell(path, Ptr(x))
    requires forall n | n in mem && n != s.node && n != Ptr(x) && n != Owner(path) :: n in mem' && mem'[n] == mem[n]
    ensures Holds(path, x, root', mem')
  {
    BypassKeys(path, s, x, root, mem);
    Reattach(path, s.node, Ptr(x), root, root', mem, mem');
    if s.left.Leaf? && x == s.right {
      Reparent(x, s.node, Owner(path), s.key, Hi(path), mem, mem');
      OrderedWider(x, s.key, Hi(path), Lo(path), Hi(path));
    } else {
      Reparent(x, s.node, Owner(path), Lo(path), s.key, mem, mem');
      OrderedWider(x, Lo(path), s.key, Lo(path), Hi(path));
    }
  }
}
