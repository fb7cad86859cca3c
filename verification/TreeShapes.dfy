/** The mathematical side of the intrusive red-black tree: a Shape records which node object sits where,
    a Path records everything above a subtree, and ordering, colouring and contents are predicates on those
    values alone.  No heap is read in this module. */
module TreeShapes {

  const KEY_LIMIT := 0x1_0000_0000_0000_0000

  /** Keys are pointer-sized words and are only ever compared. */
  type Key = k: nat | k < KEY_LIMIT

  class Node {
    var left: Node?
    var right: Node?
    var parent: Node?
    var key: Key
    var red: bool

    constructor ()
      ensures left == null && right == null && parent == null && key == 0 && !red
    {
      left, right, parent, key, red := null, null, null, 0, false;
    }
  }

  /** Which child; every mirrored macro of the source takes the side as its parameter. */
  datatype Side = Left | Right {
    function Other(): Side {
      if Left? then Right else Left
    }
  }

  datatype Shape = Leaf | Fork(node: Node, key: Key, red: bool, left: Shape, right: Shape)

  /** The way up from a subtree: the parent, the side the subtree hangs on, the sibling subtree, and the rest. */
  datatype Path = Top | Step(node: Node, key: Key, red: bool, side: Side, sibling: Shape, up: Path)

  /** A node whose child on `side` is `cis` and whose other child is `trans`. */
  function Join(node: Node, key: Key, red: bool, side: Side, cis: Shape, trans: Shape): Shape {
    if side.Left? then Fork(node, key, red, cis, trans) else Fork(node, key, red, trans, cis)
  }

  function Child(s: Shape, side: Side): Shape
    requires s.Fork?
  {
    if side.Left? then s.left else s.right
  }

  function Plug(path: Path, s: Shape): Shape {
    match path
    case Top => s
    case Step(n, k, c, side, sib, up) => Plug(up, Join(n, k, c, side, s, sib))
  }

  function Under(path: Path, base: Path): Path {
    match path
    case Top => base
    case Step(n, k, c, side, sib, up) => Step(n, k, c, side, sib, Under(up, base))
  }

  function Depth(path: Path): nat {
    if path.Top? then 0 else 1 + Depth(path.up)
  }

  function Height(s: Shape): nat {
    if s.Leaf? then 0 else 1 + (if Height(s.left) > Height(s.right) then Height(s.left) else Height(s.right))
  }

  // ----- the contents

  /** The pairs of key and node object held by a subtree. */
  ghost function Entries(s: Shape): set<(Key, Node)> {
    match s
    case Leaf => {}
    case Fork(n, k, _, l, r) => {(k, n)} + Entries(l) + Entries(r)
  }

  /** The entries name exactly the given node objects. */
  ghost predicate Covers(nodes: set<Node>, entries: set<(Key, Node)>) {
    (forall n | n in nodes :: exists k: Key :: (k, n) in entries) && (forall e | e in entries :: e.1 in nodes)
  }

  ghost function PathEntries(path: Path): set<(Key, Node)> {
    match path
    case Top => {}
    case Step(n, k, _, _, sib, up) => {(k, n)} + Entries(sib) + PathEntries(up)
  }

  // ----- strict key order

  ghost predicate Ordered(s: Shape, lo: int, hi: int) {
    match s
    case Leaf => true
    case Fork(_, k, _, l, r) => lo < k < hi && Ordered(l, lo, k) && Ordered(r, k, hi)
  }

  function Lo(path: Path): int {
    match path
    case Top => -1
    case Step(_, k, _, side, _, up) => if side.Left? then Lo(up) else k
  }

  function Hi(path: Path): int {
    match path
    case Top => KEY_LIMIT
    case Step(_, k, _, side, _, up) => if side.Left? then k else Hi(up)
  }

  ghost predicate PathOrdered(path: Path) {
    match path
    case Top => true
    case Step(_, k, _, side, sib, up) =>
      Lo(up) < k < Hi(up) && PathOrdered(up) &&
      if side.Left? then Ordered(sib, k, Hi(up)) else Ordered(sib, Lo(up), k)
  }

  ghost predicate AllOrdered(path: Path, s: Shape) {
    PathOrdered(path) && Ordered(s, Lo(path), Hi(path))
  }

  // ----- colours

  predicate IsRed(s: Shape) {
    s.Fork? && s.red
  }

  predicate PathRed(path: Path) {
    path.Step? && path.red
  }

  function Black(s: Shape): Shape {
    if s.Leaf? then s else s.(red := false)
  }

  /** No red node has a red child, and every way down meets exactly `n` black nodes. */
  ghost predicate Balanced(s: Shape, n: int) {
    match s
    case Leaf => n == 0
    case Fork(_, _, c, l, r) =>
      if c then !IsRed(l) && !IsRed(r) && Balanced(l, n) && Balanced(r, n)
      else Balanced(l, n - 1) && Balanced(r, n - 1)
  }

  /** The tree around the subtree is coloured correctly, provided the subtree has black height `n` and is
      black when its parent is red; the root is black. */
  ghost predicate PathBalanced(path: Path, n: int) {
    match path
    case Top => true
    case Step(_, _, c, _, sib, up) =>
      Balanced(sib, n) && (c ==> !IsRed(sib) && up.Step? && !up.red) && PathBalanced(up, if c then n else n + 1)
  }

  ghost predicate RedBlack(s: Shape) {
    Ordered(s, -1, KEY_LIMIT) && !IsRed(s) && exists n :: Balanced(s, n)
  }

  // ----- plugging keeps all of this

  lemma {:induction false} JoinEntries(node: Node, key: Key, red: bool, side: Side, cis: Shape, trans: Shape)
    ensures Entries(Join(node, key, red, side, cis, trans)) == {(key, node)} + Entries(cis) + Entries(trans)
  {
  }

  lemma {:induction false} PlugEntries(path: Path, s: Shape)
    ensures Entries(Plug(path, s)) == PathEntries(path) + Entries(s)
  {
    if path.Step? {
      PlugEntries(path.up, Join(path.node, path.key, path.red, path.side, s, path.sibling));
    }
  }

  lemma {:induction false} PlugOrdered(path: Path, s: Shape)
    ensures Ordered(Plug(path, s), -1, KEY_LIMIT) <==> AllOrdered(path, s)
  {
    if path.Step? {
      PlugOrdered(path.up, Join(path.node, path.key, path.red, path.side, s, path.sibling));
    }
  }

  /** A well coloured surrounding and a subtree of the height it expects make a well coloured tree. */
  lemma {:induction false} PlugBalanced(path: Path, s: Shape, n: int) returns (m: int)
    requires PathBalanced(path, n) && Balanced(s, n) && !(PathRed(path) && IsRed(s))
    ensures Balanced(Plug(path, s), m)
    ensures path.Step? ==> !IsRed(Plug(path, s))
  {
    if path.Top? {
      m := n;
    } else {
      var t := Join(path.node, path.key, path.red, path.side, s, path.sibling);
      m := PlugBalanced(path.up, t, if path.red then n else n + 1);
    }
  }

  /** In a red-black tree, every subtree has a black height that fits what its surroundings expect. */
  lemma {:induction false} UnplugBalanced(path: Path, s: Shape, m: int) returns (n: int)
    requires Balanced(Plug(path, s), m) && !IsRed(Plug(path, s))
    ensures PathBalanced(path, n) && Balanced(s, n) && !(PathRed(path) && IsRed(s))
  {
    if path.Top? {
      n := m;
    } else {
      var t := Join(path.node, path.key, path.red, path.side, s, path.sibling);
      var k := UnplugBalanced(path.up, t, m);
      n := if path.red then k else k - 1;
    }
  }

  lemma {:induction false} JoinBalanced(node: Node, key: Key, red: bool, side: Side, cis: Shape, trans: Shape, n: int)
    ensures Balanced(Join(node, key, red, side, cis, trans), n) <==>
            if red then !IsRed(cis) && !IsRed(trans) && Balanced(cis, n) && Balanced(trans, n)
            else Balanced(cis, n - 1) && Balanced(trans, n - 1)
  {
  }

  // ----- the insertion loop: one red subtree that may sit under a red parent

  ghost predicate Growing(path: Path, s: Shape, n: int) {
    IsRed(s) && Balanced(s, n) && PathBalanced(path, n)
  }

  /** Red uncle: parent and uncle turn black, the grandparent turns red and becomes the subtree in question. */
  function Recoloured(path: Path, s: Shape): Shape
    requires path.Step? && path.up.Step?
  {
    Join(path.up.node, path.up.key, true, path.up.side,
         Join(path.node, path.key, false, path.side, s, path.sibling), Black(path.up.sibling))
  }

  lemma {:induction false} RecolouredGrows(path: Path, s: Shape, n: int)
    requires Growing(path, s, n) && PathRed(path) && IsRed(path.up.sibling)
    ensures Growing(path.up.up, Recoloured(path, s), n + 1)
  {
    var g, p := path.up, Join(path.node, path.key, false, path.side, s, path.sibling);
    assert PathBalanced(g, n);
    assert Balanced(Black(g.sibling), n + 1);
    JoinBalanced(path.node, path.key, false, path.side, s, path.sibling, n + 1);
    JoinBalanced(g.node, g.key, true, g.side, p, Black(g.sibling), n + 1);
  }

  lemma {:induction false} RecolouredEntries(path: Path, s: Shape)
    requires path.Step? && path.up.Step?
    ensures Entries(Plug(path.up.up, Recoloured(path, s))) == Entries(Plug(path, s))
  {
    var g, p := path.up, Join(path.node, path.key, path.red, path.side, s, path.sibling);
    SameEntries(g.up, Join(g.node, g.key, g.red, g.side, p, g.sibling), Recoloured(path, s)) by {
      JoinEntries(path.node, path.key, path.red, path.side, s, path.sibling);
      JoinEntries(path.node, path.key, false, path.side, s, path.sibling);
      JoinEntries(g.node, g.key, g.red, g.side, p, g.sibling);
      JoinEntries(g.node, g.key, true, g.side, p.(red := false), Black(g.sibling));
    }
  }

  lemma {:induction false} SameEntries(path: Path, s: Shape, s': Shape)
    requires Entries(s) == Entries(s')
    ensures Entries(Plug(path, s)) == Entries(Plug(path, s'))
  {
    PlugEntries(path, s);
    PlugEntries(path, s');
  }

  /** The subtree sits on the far side of its parent: a rotation at the parent brings the two into line. */
  function StraightPath(path: Path, s: Shape): Path
    requires path.Step? && path.up.Step? && s.Fork?
  {
    Step(s.node, s.key, s.red, path.up.side, Child(s, path.up.side.Other()), path.up)
  }

  function StraightShape(path: Path, s: Shape): Shape
    requires path.Step? && path.up.Step? && s.Fork?
  {
    Join(path.node, path.key, path.red, path.up.side, path.sibling, Child(s, path.up.side))
  }

  lemma {:induction false} StraightGrows(path: Path, s: Shape, n: int)
    requires Growing(path, s, n) && PathRed(path) && path.side == path.up.side.Other()
    ensures Growing(StraightPath(path, s), StraightShape(path, s), n)
  {
    JoinBalanced(path.node, path.key, path.red, path.up.side, path.sibling, Child(s, path.up.side), n);
  }

  /** In line: parent black, grandparent red, and a rotation at the grandparent puts the parent on top. */
  function FinalPath(path: Path): Path
    requires path.Step? && path.up.Step?
  {
    var g := path.up;
    Step(path.node, path.key, false, g.side, Join(g.node, g.key, true, g.side, path.sibling, g.sibling), g.up)
  }

  lemma {:induction false} FinalGrows(path: Path, s: Shape, n: int)
    requires Growing(path, s, n) && PathRed(path) && !IsRed(path.up.sibling)
    ensures Growing(FinalPath(path), s, n)
  {
    var g := path.up;
    assert PathBalanced(g, n);
    JoinBalanced(g.node, g.key, true, g.side, path.sibling, g.sibling, n);
  }

  lemma {:induction false} FinalEntries(path: Path, s: Shape)
    requires path.Step? && path.up.Step? && path.side == path.up.side
    ensures Entries(Plug(FinalPath(path), s)) == Entries(Plug(path, s))
  {
    PlugEntries(FinalPath(path), s);
    PlugEntries(path, s);
    JoinEntries(path.up.node, path.up.key, true, path.up.side, path.sibling, path.up.sibling);
  }

  /** A red leaf in an empty place of a red-black tree. */
  lemma {:induction false} StartGrowing(path: Path, node: Node, key: Key) returns (n: int)
    requires RedBlack(Plug(path, Leaf))
    ensures Growing(path, Fork(node, key, true, Leaf, Leaf), n)
    ensures Entries(Plug(path, Fork(node, key, true, Leaf, Leaf))) == Entries(Plug(path, Leaf)) + {(key, node)}
  {
    var m :| Balanced(Plug(path, Leaf), m);
    n := UnplugBalanced(path, Leaf, m);
    PlugEntries(path, Fork(node, key, true, Leaf, Leaf));
    PlugEntries(path, Leaf);
  }

  lemma {:induction false} CoversMore(nodes: set<Node>, entries: set<(Key, Node)>, key: Key, node: Node)
    requires Covers(nodes, entries)
    ensures Covers(nodes + {node}, entries + {(key, node)})
  {
    forall n | n in nodes + {node}
      ensures exists k: Key :: (k, n) in entries + {(key, node)}
    {
      if n in nodes {
        var k: Key :| (k, n) in entries;
        assert (k, n) in entries + {(key, node)};
      } else {
        assert (key, n) in entries + {(key, node)};
      }
    }
  }

  lemma {:induction false} CoversLess(nodes: set<Node>, entries: set<(Key, Node)>, key: Key, node: Node)
    requires Covers(nodes, entries)
    requires forall e | e in entries && e.1 == node :: e.0 == key
    ensures Covers(nodes - {node}, entries - {(key, node)})
  {
    forall n | n in nodes - {node}
      ensures exists k: Key :: (k, n) in entries - {(key, node)}
    {
      var k: Key :| (k, n) in entries;
      assert (k, n) in entries - {(key, node)};
    }
  }

  /** No key occurs twice. */
  lemma {:induction false} KeysDistinct(s: Shape, lo: int, hi: int)
    requires Ordered(s, lo, hi)
    ensures forall d, e | d in Entries(s) && e in Entries(s) && d.0 == e.0 :: d == e
  {
    if s.Fork? {
      KeysDistinct(s.left, lo, s.key);
      KeysDistinct(s.right, s.key, hi);
      KeysInside(s.left, lo, s.key);
      KeysInside(s.right, s.key, hi);
    }
  }

  lemma {:induction false} BlackEntries(s: Shape)
    ensures Entries(Black(s)) == Entries(s)
  {
  }

  /** Once the parent is black, blackening the root completes the insertion. */
  lemma {:induction false} GrowingDone(path: Path, s: Shape, n: int)
    requires Growing(path, s, n) && !PathRed(path)
    ensures Plug(path, s).Fork? && !IsRed(Black(Plug(path, s))) && exists m :: Balanced(Black(Plug(path, s)), m)
  {
    var m := PlugBalanced(path, s, n);
    var t := Plug(path, s);
    assert t.Fork? by {
      PlugFork(path, s);
    }
    assert Balanced(Black(t), if t.red then m + 1 else m);
  }

  lemma {:induction false} PlugFork(path: Path, s: Shape)
    requires path.Step? || s.Fork?
    ensures Plug(path, s).Fork?
  {
    if path.Step? {
      PlugFork(path.up, Join(path.node, path.key, path.red, path.side, s, path.sibling));
    }
  }

  // ----- keys inside and outside the range of a subtree

  lemma {:induction false} KeysInside(s: Shape, lo: int, hi: int)
    requires Ordered(s, lo, hi)
    ensures forall e | e in Entries(s) :: lo < e.0 < hi
  {
    if s.Fork? {
      KeysInside(s.left, lo, s.key);
      KeysInside(s.right, s.key, hi);
    }
  }

  lemma {:induction false} KeysOutside(path: Path)
    requires PathOrdered(path)
    ensures forall e | e in PathEntries(path) :: e.0 <= Lo(path) || Hi(path) <= e.0
  {
    if path.Step? {
      KeysOutside(path.up);
      if path.side.Left? {
        KeysInside(path.sibling, path.key, Hi(path.up));
      } else {
        KeysInside(path.sibling, Lo(path.up), path.key);
      }
    }
  }

  /** An empty place whose range contains the key proves that the key is nowhere in the tree. */
  lemma {:induction false} AbsentKey(path: Path, key: Key)
    requires PathOrdered(path) && Lo(path) < key < Hi(path)
    ensures forall e | e in Entries(Plug(path, Leaf)) :: e.0 != key
  {
    PlugEntries(path, Leaf);
    KeysOutside(path);
  }

  // ----- taking a node out: its successor, the leftmost node on its right, moves into its place

  predicate LeftSpine(rel: Path) {
    rel.Step? ==> rel.side.Left? && LeftSpine(rel.up)
  }

  /** The outermost node of a path. */
  function Outermost(rel: Path): Node
    requires rel.Step?
  {
    if rel.up.Top? then rel.node else Outermost(rel.up)
  }

  lemma {:induction false} UnderPlug(rel: Path, base: Path, s: Shape)
    ensures Plug(Under(rel, base), s) == Plug(base, Plug(rel, s))
    ensures PathEntries(Under(rel, base)) == PathEntries(rel) + PathEntries(base)
  {
    if rel.Step? {
      UnderPlug(rel.up, base, Join(rel.node, rel.key, rel.red, rel.side, s, rel.sibling));
    }
  }

  /** Two steps that differ only in which node and key they name. */
  predicate SameLook(b: Path, b': Path) {
    b.Step? && b'.Step? && b.red == b'.red && b.side == b'.side && b.sibling == b'.sibling && b.up == b'.up
  }

  lemma {:induction false} UnderBalanced(rel: Path, b: Path, b': Path, n: int)
    requires SameLook(b, b') && PathBalanced(Under(rel, b), n)
    ensures PathBalanced(Under(rel, b'), n)
  {
    if rel.Step? {
      UnderBalanced(rel.up, b, b', if rel.red then n else n + 1);
    }
  }

  lemma {:induction false} OrderedWider(s: Shape, lo: int, hi: int, lo': int, hi': int)
    requires Ordered(s, lo, hi) && lo' <= lo && hi <= hi'
    ensures Ordered(s, lo', hi')
  {
    if s.Fork? {
      OrderedWider(s.left, lo, s.key, lo', s.key);
      OrderedWider(s.right, s.key, hi, s.key, hi');
    }
  }

  lemma {:induction false} SpineRange(rel: Path, b: Path)
    requires LeftSpine(rel) && b.Step? && b.side.Right? && PathOrdered(Under(rel, b))
    ensures Lo(Under(rel, b)) == b.key < Hi(Under(rel, b)) <= Hi(b.up) && PathOrdered(b)
  {
    if rel.Step? {
      SpineRange(rel.up, b);
    }
  }

  /** The successor's key takes over as the lower bound of everything on the spine. */
  lemma {:induction false} SpineOrdered(rel: Path, b: Path, b': Path)
    requires LeftSpine(rel) && SameLook(b, b') && b.side.Right? && PathOrdered(Under(rel, b))
    requires b.key <= b'.key < Hi(Under(rel, b))
    ensures PathOrdered(Under(rel, b')) && Lo(Under(rel, b')) == b'.key && Hi(Under(rel, b')) == Hi(Under(rel, b))
  {
    SpineRange(rel, b);
    if rel.Step? {
      SpineRange(rel.up, b);
      SpineOrdered(rel.up, b, b');
    } else {
      OrderedWider(b.sibling, Lo(b.up), b.key, Lo(b.up), b'.key);
    }
  }

  /** The entry of a node occurs nowhere else in the tree. */
  lemma {:induction false} EntryOnce(path: Path, s: Shape)
    requires AllOrdered(path, s) && s.Fork?
    ensures (s.key, s.node) !in PathEntries(path) && (s.key, s.node) !in Entries(s.left) &&
      (s.key, s.node) !in Entries(s.right)
  {
    KeysOutside(path);
    KeysInside(s.left, Lo(path), s.key);
    KeysInside(s.right, s.key, Hi(path));
  }

  lemma {:induction false} BypassTaken(path: Path, s: Shape, x: Shape) returns (h: int)
    requires RedBlack(Plug(path, s)) && s.Fork?
    requires (s.left.Leaf? && x == s.right) || (s.right.Leaf? && x == s.left)
    ensures PathBalanced(path, h) && (if s.red then Balanced(x, h) && !IsRed(x) else Balanced(x, h - 1))
    ensures Entries(Plug(path, x)) == Entries(Plug(path, s)) - {(s.key, s.node)}
  {
    var m :| Balanced(Plug(path, s), m);
    h := UnplugBalanced(path, s, m);
    PlugOrdered(path, s);
    EntryOnce(path, s);
    PlugEntries(path, s);
    PlugEntries(path, x);
  }

  lemma {:induction false} SuccessorTaken(rel: Path, b: Path, s: Shape) returns (h: int)
    requires LeftSpine(rel) && b.Step? && b.side.Right? && s.Fork? && s.left.Leaf? && RedBlack(Plug(Under(rel, b), s))
    ensures var path := Under(rel, b.(node := s.node, key := s.key));
      && PathBalanced(path, h) && (if s.red then Balanced(s.right, h) && !IsRed(s.right) else Balanced(s.right, h - 1))
      && Entries(Plug(path, s.right)) == Entries(Plug(Under(rel, b), s)) - {(b.key, b.node)}
  {
    var b' := b.(node := s.node, key := s.key);
    var m :| Balanced(Plug(Under(rel, b), s), m);
    h := UnplugBalanced(Under(rel, b), s, m);
    UnderBalanced(rel, b, b', h);
    SuccessorEntries(rel, b, s);
  }

  lemma {:induction false} SuccessorEntries(rel: Path, b: Path, s: Shape)
    requires b.Step? && b.side.Right? && s.Fork? && s.left.Leaf? && RedBlack(Plug(Under(rel, b), s))
    ensures Entries(Plug(Under(rel, b.(node := s.node, key := s.key)), s.right)) ==
      Entries(Plug(Under(rel, b), s)) - {(b.key, b.node)}
  {
    var b' := b.(node := s.node, key := s.key);
    var whole := Fork(b.node, b.key, b.red, b.sibling, Plug(rel, s));
    UnderPlug(rel, b, s);
    UnderPlug(rel, b', s.right);
    PlugOrdered(b.up, whole);
    EntryOnce(b.up, whole);
    PlugEntries(rel, s);
    PlugEntries(Under(rel, b), s);
    PlugEntries(Under(rel, b'), s.right);
    hide Ordered, PathOrdered, Plug;
    assert PathEntries(b) == {(b.key, b.node)} + Entries(b.sibling) + PathEntries(b.up);
    assert PathEntries(b') == {(s.key, s.node)} + Entries(b.sibling) + PathEntries(b.up);
    assert Entries(s) == {(s.key, s.node)} + Entries(s.right);
  }

  // ----- the removal loop: one black subtree that is one black node short

  ghost predicate Short(path: Path, x: Shape, h: int) {
    PathBalanced(path, h) && Balanced(x, h - 1) && !IsRed(x)
  }

  /** Painting the subtree's root black completes the tree. */
  ghost predicate Mended(path: Path, x: Shape, h: int) {
    PathBalanced(path, h) && Balanced(Black(x), h)
  }

  lemma {:induction false} HeightNonnegative(s: Shape, n: int)
    requires Balanced(s, n)
    ensures 0 <= n
  {
    if s.Fork? {
      HeightNonnegative(s.left, if s.red then n else n - 1);
    }
  }

  /** The rebalancing code never meets a missing sibling. */
  lemma {:induction false} SiblingExists(path: Path, x: Shape, h: int)
    requires Short(path, x, h) && path.Step?
    ensures path.sibling.Fork?
  {
    HeightNonnegative(x, h - 1);
  }

  lemma {:induction false} MendedDone(path: Path, x: Shape, h: int) returns (m: int)
    requires Mended(path, x, h)
    ensures !IsRed(Plug(path, Black(x))) && Balanced(Plug(path, Black(x)), m)
  {
    m := PlugBalanced(path, Black(x), h);
    if path.Top? {
      assert !IsRed(Black(x));
    }
  }

  lemma {:induction false} BlackPlug(path: Path, x: Shape)
    ensures Entries(Plug(path, Black(x))) == Entries(Plug(path, x))
    ensures Black(x) == if x.Leaf? then x else x.(red := false)
  {
    BlackEntries(x);
    SameEntries(path, x, Black(x));
  }

  lemma {:induction false} TopMended(x: Shape, h: int)
    requires Short(Top, x, h)
    ensures Mended(Top, x, h - 1)
  {
    assert Black(x) == x;
  }

  lemma {:induction false} RootMended(path: Path, x: Shape, h: int) returns (m: int)
    requires PathBalanced(path, h) && Balanced(x, h) && !(PathRed(path) && IsRed(x))
    ensures Mended(Top, Plug(path, x), m)
  {
    m := PlugBalanced(path, x, h);
    var t := Plug(path, x);
    if IsRed(t) {
      m := m + 1;
    } else {
      assert Black(t) == t;
    }
  }

  lemma {:induction false} RedRemoved(path: Path, x: Shape, h: int) returns (m: int)
    requires PathBalanced(path, h) && Balanced(x, h) && !IsRed(x)
    ensures !IsRed(Plug(path, x)) && Balanced(Plug(path, x), m)
  {
    m := PlugBalanced(path, x, h);
  }

  lemma {:induction false} RedMended(path: Path, x: Shape, h: int)
    requires PathBalanced(path, h) && Balanced(x, h - 1) && IsRed(x)
    ensures Mended(path, x, h)
  {
  }

  lemma {:induction false} BlackShort(path: Path, x: Shape, h: int)
    requires PathBalanced(path, h) && Balanced(x, h - 1) && !IsRed(x)
    ensures Short(path, x, h)
  {
  }

  /** Red sibling: the sibling turns black, the parent red, and the parent sinks towards the short side. */
  function SunkPath(path: Path): Path
    requires path.Step? && path.sibling.Fork?
  {
    var s, side := path.sibling, path.side;
    Step(path.node, path.key, true, side, Child(s, side),
      Step(s.node, s.key, false, side, Child(s, side.Other()), path.up))
  }

  lemma {:induction false} SunkShort(path: Path, x: Shape, h: int)
    requires Short(path, x, h) && path.Step? && IsRed(path.sibling)
    ensures Short(SunkPath(path), x, h) && !IsRed(SunkPath(path).sibling)
  {
    var up := SunkPath(path).up;
    assert PathBalanced(up, h);
  }

  lemma {:induction false} SunkEntries(path: Path, x: Shape)
    requires path.Step? && path.sibling.Fork?
    ensures Entries(Plug(SunkPath(path), x)) == Entries(Plug(path, x))
  {
    var s, side := path.sibling, path.side;
    PlugEntries(path, x);
    PlugEntries(SunkPath(path), x);
    JoinEntries(s.node, s.key, s.red, side, Child(s, side), Child(s, side.Other()));
    assert PathEntries(SunkPath(path)) ==
      {(path.key, path.node)} + Entries(Child(s, side)) + PathEntries(SunkPath(path).up);
  }

  /** Black sibling with red inner child only: the inner child moves to the sibling's place. */
  function TurnedSibling(path: Path): Shape
    requires path.Step? && path.sibling.Fork? && Child(path.sibling, path.side).Fork?
  {
    var s, side := path.sibling, path.side;
    var c := Child(s, side);
    Join(c.node, c.key, false, side.Other(),
      Join(s.node, s.key, true, side.Other(), Child(s, side.Other()), Child(c, side.Other())), Child(c, side))
  }

  lemma {:induction false} TurnedSiblingBalanced(path: Path, h: int)
    requires path.Step? && Balanced(path.sibling, h) && path.sibling.Fork? && !path.sibling.red
    requires IsRed(Child(path.sibling, path.side)) && !IsRed(Child(path.sibling, path.side.Other()))
    ensures Balanced(TurnedSibling(path), h) && IsRed(Child(TurnedSibling(path), path.side.Other()))
  {
    var s, side := path.sibling, path.side;
    var c := Child(s, side);
    assert Balanced(c, h - 1);
    JoinBalanced(s.node, s.key, true, side.Other(), Child(s, side.Other()), Child(c, side.Other()), h - 1);
    JoinBalanced(c.node, c.key, false, side.Other(),
      Join(s.node, s.key, true, side.Other(), Child(s, side.Other()), Child(c, side.Other())), Child(c, side), h);
  }

  lemma {:induction false} TurnedSiblingEntries(path: Path)
    requires path.Step? && path.sibling.Fork? && Child(path.sibling, path.side).Fork?
    ensures Entries(TurnedSibling(path)) == Entries(path.sibling)
  {
    var s, side := path.sibling, path.side;
    var c := Child(s, side);
    JoinEntries(s.node, s.key, s.red, side, c, Child(s, side.Other()));
    JoinEntries(c.node, c.key, c.red, side, Child(c, side), Child(c, side.Other()));
    JoinEntries(s.node, s.key, true, side.Other(), Child(s, side.Other()), Child(c, side.Other()));
    JoinEntries(c.node, c.key, false, side.Other(),
      Join(s.node, s.key, true, side.Other(), Child(s, side.Other()), Child(c, side.Other())), Child(c, side));
  }

  lemma {:induction false} TurnedShort(path: Path, x: Shape, h: int)
    requires Short(path, x, h) && path.Step? && path.sibling.Fork? && !path.sibling.red
    requires IsRed(Child(path.sibling, path.side)) && !IsRed(Child(path.sibling, path.side.Other()))
    ensures var path' := path.(sibling := TurnedSibling(path));
            Short(path', x, h) && IsRed(Child(TurnedSibling(path), path.side.Other())) &&
              Entries(Plug(path', x)) == Entries(Plug(path, x))
  {
    TurnedSiblingBalanced(path, h);
    TurnedSiblingEntries(path);
    PlugEntries(path, x);
    PlugEntries(path.(sibling := TurnedSibling(path)), x);
  }

  /** Black sibling with red outer child: a rotation at the parent makes up for the missing black node. */
  function FilledShape(path: Path, x: Shape): Shape
    requires path.Step? && path.sibling.Fork?
  {
    var s, side := path.sibling, path.side;
    Join(s.node, s.key, path.red, side, Join(path.node, path.key, false, side, x, Child(s, side)),
      Black(Child(s, side.Other())))
  }

  lemma {:induction false} FilledMended(path: Path, x: Shape, h: int)
    requires Short(path, x, h) && path.Step? && path.sibling.Fork? && !path.sibling.red &&
      IsRed(Child(path.sibling, path.side.Other()))
    ensures PathBalanced(path.up, if path.red then h else h + 1)
    ensures Balanced(FilledShape(path, x), if path.red then h else h + 1) &&
      !(PathRed(path.up) && IsRed(FilledShape(path, x)))
  {
    var s, side := path.sibling, path.side;
    JoinBalanced(s.node, s.key, s.red, side, Child(s, side), Child(s, side.Other()), h);
    assert Balanced(Black(Child(s, side.Other())), h);
    var inner := Join(path.node, path.key, false, side, x, Child(s, side));
    JoinBalanced(path.node, path.key, false, side, x, Child(s, side), h);
    JoinBalanced(s.node, s.key, path.red, side, inner, Black(Child(s, side.Other())), if path.red then h else h + 1);
  }

  lemma {:induction false} FilledEntries(path: Path, x: Shape)
    requires path.Step? && path.sibling.Fork?
    ensures Entries(Plug(path.up, FilledShape(path, x))) == Entries(Plug(path, x))
  {
    var s, side := path.sibling, path.side;
    PlugEntries(path, x);
    PlugEntries(path.up, FilledShape(path, x));
    BlackEntries(Child(s, side.Other()));
    JoinEntries(s.node, s.key, s.red, side, Child(s, side), Child(s, side.Other()));
    JoinEntries(path.node, path.key, false, side, x, Child(s, side));
    JoinEntries(s.node, s.key, path.red, side, Join(path.node, path.key, false, side, x, Child(s, side)),
      Black(Child(s, side.Other())));
  }

  /** Black sibling with black children: the sibling turns red, and the parent's subtree is short or mended. */
  function FadedShape(path: Path, x: Shape): Shape
    requires path.Step? && path.sibling.Fork?
  {
    Join(path.node, path.key, path.red, path.side, x, path.sibling.(red := true))
  }

  lemma {:induction false} FadedShort(path: Path, x: Shape, h: int)
    requires Short(path, x, h) && path.Step? && path.sibling.Fork? && !path.sibling.red
    requires !IsRed(path.sibling.left) && !IsRed(path.sibling.right)
    ensures path.red ==> Mended(path.up, FadedShape(path, x), h)
    ensures !path.red ==> Short(path.up, FadedShape(path, x), h + 1)
  {
    assert Balanced(path.sibling.(red := true), h - 1);
    JoinBalanced(path.node, path.key, false, path.side, x, path.sibling.(red := true), h);
  }

  lemma {:induction false} FadedEntries(path: Path, x: Shape)
    requires path.Step? && path.sibling.Fork?
    ensures Entries(Plug(path.up, FadedShape(path, x))) == Entries(Plug(path, x))
  {
    var s := path.sibling.(red := true);
    assert Entries(s) == Entries(path.sibling);
    JoinEntries(path.node, path.key, path.red, path.side, x, s);
    JoinEntries(path.node, path.key, path.red, path.side, x, path.sibling);
    SameEntries(path.up, FadedShape(path, x), Join(path.node, path.key, path.red, path.side, x, path.sibling));
  }

  // ----- height: at most twice the logarithm of the number of keys

  function Pow2(n: nat): nat {
    if n == 0 then 1 else 2 * Pow2(n - 1)
  }

  function Size(s: Shape): nat {
    if s.Leaf? then 0 else 1 + Size(s.left) + Size(s.right)
  }

  lemma {:induction false} SizeIsCount(s: Shape, lo: int, hi: int)
    requires Ordered(s, lo, hi)
    ensures |Entries(s)| == Size(s)
  {
    if s.Fork? {
      SizeIsCount(s.left, lo, s.key);
      SizeIsCount(s.right, s.key, hi);
      KeysInside(s.left, lo, s.key);
      KeysInside(s.right, s.key, hi);
      var l, r, e := Entries(s.left), Entries(s.right), (s.key, s.node);
      assert l !! r && e !in l + r;
      assert Entries(s) == {e} + (l + r);
    }
  }

  lemma {:induction false} BlackHeightBound(s: Shape, n: nat)
    requires Balanced(s, n)
    ensures Pow2(n) <= Size(s) + 1
    ensures Height(s) <= 2 * n + (if IsRed(s) then 1 else 0)
  {
    if s.Fork? {
      var k := if s.red then n else n - 1;
      HeightNonnegative(s.left, k);
      BlackHeightBound(s.left, k);
      BlackHeightBound(s.right, k);
    }
  }

  lemma {:induction false} Pow2Sum(a: nat, b: nat)
    ensures Pow2(a + b) == Pow2(a) * Pow2(b)
  {
    if a > 0 {
      Pow2Sum(a - 1, b);
      assert Pow2(a + b) == 2 * Pow2(a - 1 + b);
      Doubled(Pow2(a - 1), Pow2(b));
    }
  }

  lemma {:induction false} Doubled(x: nat, y: nat)
    ensures 2 * (x * y) == (2 * x) * y
  {
  }

  lemma {:induction false} Pow2Monotone(a: nat, b: nat)
    requires a <= b
    ensures Pow2(a) <= Pow2(b)
  {
    if a < b {
      Pow2Monotone(a, b - 1);
    }
  }

  /** visits <= 2 * log2(keys + 1), with both sides as exponents of two. */
  ghost predicate WithinTwoLogs(visits: nat, keys: nat) {
    Pow2(visits) <= (keys + 1) * (keys + 1)
  }

  lemma {:induction false} HeightBound(s: Shape, visits: nat)
    requires RedBlack(s) && visits <= Height(s)
    ensures WithinTwoLogs(visits, |Entries(s)|)
  {
    var n :| Balanced(s, n);
    HeightNonnegative(s, n);
    BlackHeightBound(s, n);
    SizeIsCount(s, -1, KEY_LIMIT);
    Pow2Monotone(visits, 2 * n);
    Pow2Sum(n, n);
    Squares(Pow2(n), Size(s) + 1);
  }

  lemma {:induction false} Squares(a: nat, b: nat)
    requires a <= b
    ensures a * a <= b * b
  {
    assert a * a <= a * b <= b * b;
  }
}
