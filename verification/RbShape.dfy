/** Red-black trees as values: what the tree in memory stands for.

  A position in the tree is a pair of a subtree and the path from it to the root; the algorithms
  that walk by parent links are functions on such pairs. */
module RbShape {
  import opened Pointers
  import opened Seqs

  datatype Item = Item(p: Ptr, key: nat)

  datatype Tree = Leaf | Node(left: Tree, p: Ptr, key: nat, red: bool, right: Tree)

  /** Where a subtree hangs: under the root pointer, or as one child of node `p` whose other child is given. */
  datatype Path =
    | Top
    | InLeft(up: Path, p: Ptr, key: nat, red: bool, right: Tree)
    | InRight(up: Path, left: Tree, p: Ptr, key: nat, red: bool)

  function Plug(t: Tree, path: Path): Tree
    decreases path
  {
    match path
    case Top => t
    case InLeft(up, p, key, red, right) => Plug(Node(t, p, key, red, right), up)
    case InRight(up, left, p, key, red) => Plug(Node(left, p, key, red, t), up)
  }

  /** The subtree of the node on which `t` hangs. */
  function Over(t: Tree, path: Path): Tree
    requires !path.Top?
  {
    match path
    case InLeft(_, p, key, red, right) => Node(t, p, key, red, right)
    case InRight(_, left, p, key, red) => Node(left, p, key, red, t)
  }

  predicate IsRed(t: Tree) {
    t.Node? && t.red
  }

  function Blacken(t: Tree): Tree {
    if t.Leaf? then t else t.(red := false)
  }

  // ----- order

  function Inorder(t: Tree): seq<Item> {
    if t.Leaf? then [] else Inorder(t.left) + [Item(t.p, t.key)] + Inorder(t.right)
  }

  /** What stands before, and after, the subtree at the end of the path. */
  function Before(path: Path): seq<Item> {
    match path
    case Top => []
    case InLeft(up, _, _, _, _) => Before(up)
    case InRight(up, left, p, key, _) => Before(up) + (Inorder(left) + [Item(p, key)])
  }

  function Behind(path: Path): seq<Item> {
    match path
    case Top => []
    case InLeft(up, p, key, _, right) => ([Item(p, key)] + Inorder(right)) + Behind(up)
    case InRight(up, _, _, _, _) => Behind(up)
  }

  lemma {:induction false} InorderPlug(t: Tree, path: Path)
    ensures Inorder(Plug(t, path)) == Before(path) + Inorder(t) + Behind(path)
    decreases path
  {
    match path
    case Top =>
    case InLeft(up, p, key, red, right) =>
      InorderPlug(Node(t, p, key, red, right), up);
      InorderStep(Before(up), Inorder(t), [Item(p, key)], Inorder(right), Behind(up));
    case InRight(up, left, p, key, red) =>
      InorderPlug(Node(left, p, key, red, t), up);
      AssocFour(Before(up), Inorder(left) + [Item(p, key)], Inorder(t), Behind(up));
  }

  lemma InorderStep(a: seq<Item>, b: seq<Item>, c: seq<Item>, d: seq<Item>, e: seq<Item>)
    ensures a + (b + c + d) + e == a + b + ((c + d) + e)
  {
  }

  ghost predicate Sorted(s: seq<Item>) {
    forall i, j | 0 <= i < j < |s| :: s[i].key <= s[j].key
  }

  /** `s` with `x` put after all items whose key is not greater. */
  function Place(s: seq<Item>, x: Item): seq<Item> {
    if s == [] || x.key < s[0].key then [x] + s else [s[0]] + Place(s[1..], x)
  }

  lemma {:induction false} PlaceBetween(pre: seq<Item>, post: seq<Item>, x: Item)
    requires forall i | 0 <= i < |pre| :: pre[i].key <= x.key
    requires forall i | 0 <= i < |post| :: x.key < post[i].key
    ensures Place(pre + post, x) == pre + [x] + post
  {
    if pre == [] {
      assert pre + post == post;
    } else {
      PlaceBetween(pre[1..], post, x);
      assert (pre + post)[1..] == pre[1..] + post;
    }
  }

  // ----- colours and heights

  /** Black nodes on the leftmost way down. */
  function Black(t: Tree): nat {
    if t.Leaf? then 0 else Black(t.left) + if t.red then 0 else 1
  }

  /** All ways down from every node meet the same number of black nodes. */
  predicate Even(t: Tree) {
    t.Node? ==> Even(t.left) && Even(t.right) && Black(t.left) == Black(t.right)
  }

  /** No red node has a red child. */
  predicate RedsApart(t: Tree) {
    t.Node? ==>
      && RedsApart(t.left) && RedsApart(t.right)
      && (t.red ==> !IsRed(t.left) && !IsRed(t.right))
  }

  predicate RedBlack(t: Tree) {
    Even(t) && RedsApart(t) && !IsRed(t)
  }

  /** The path completes a subtree of black height `h` to an even tree. */
  predicate EvenPath(path: Path, h: nat)
    decreases path
  {
    match path
    case Top => true
    case InLeft(up, _, _, red, right) => Even(right) && Black(right) == h && EvenPath(up, h + if red then 0 else 1)
    case InRight(up, left, _, _, red) => Even(left) && Black(left) == h && EvenPath(up, h + if red then 0 else 1)
  }

  /** No two reds meet on the path, nor where a subtree with a red root (if `red`) hangs on it. */
  predicate RedsApartPath(path: Path, red: bool)
    decreases path
  {
    match path
    case Top => true
    case InLeft(up, _, _, r, right) =>
      RedsApart(right) && (r ==> !red && !IsRed(right)) && RedsApartPath(up, r)
    case InRight(up, left, _, _, r) =>
      RedsApart(left) && (r ==> !red && !IsRed(left)) && RedsApartPath(up, r)
  }

  lemma {:induction false} EvenPlug(t: Tree, path: Path)
    ensures Even(Plug(t, path)) <==> Even(t) && EvenPath(path, Black(t))
    decreases path
  {
    match path
    case Top =>
    case InLeft(up, p, key, red, right) => EvenPlug(Node(t, p, key, red, right), up);
    case InRight(up, left, p, key, red) => EvenPlug(Node(left, p, key, red, t), up);
  }

  lemma {:induction false} RedsPlug(t: Tree, path: Path)
    ensures RedsApart(Plug(t, path)) <==> RedsApart(t) && RedsApartPath(path, IsRed(t))
    decreases path
  {
    match path
    case Top =>
    case InLeft(up, p, key, red, right) => RedsPlug(Node(t, p, key, red, right), up);
    case InRight(up, left, p, key, red) => RedsPlug(Node(left, p, key, red, t), up);
  }

  /** The topmost node of the path is black. */
  predicate BlackTop(path: Path) {
    path.Top? || (!path.red && path.up.Top?) || (!path.up.Top? && BlackTop(path.up))
  }

  lemma {:induction false} BlackTopPlug(t: Tree, path: Path)
    requires path != Top
    ensures BlackTop(path) <==> !IsRed(Plug(t, path))
    decreases path
  {
    match path
    case InLeft(up, p, key, red, right) =>
      if up != Top { BlackTopPlug(Node(t, p, key, red, right), up); }
    case InRight(up, left, p, key, red) =>
      if up != Top { BlackTopPlug(Node(left, p, key, red, t), up); }
  }

  // ----- height

  function Size(t: Tree): nat {
    if t.Leaf? then 0 else Size(t.left) + 1 + Size(t.right)
  }

  function Height(t: Tree): nat {
    if t.Leaf? then 0
    else 1 + if Height(t.left) < Height(t.right) then Height(t.right) else Height(t.left)
  }

  function Pow2(n: nat): nat {
    if n == 0 then 1 else 2 * Pow2(n - 1)
  }

  lemma {:induction false} SizeBound(t: Tree)
    requires Even(t)
    ensures Size(t) + 1 >= Pow2(Black(t))
  {
    if t.Node? {
      SizeBound(t.left);
      SizeBound(t.right);
    }
  }

  lemma {:induction false} HeightBound(t: Tree)
    requires Even(t) && RedsApart(t)
    ensures Height(t) <= 2 * Black(t) + if IsRed(t) then 1 else 0
  {
    if t.Node? {
      HeightBound(t.left);
      HeightBound(t.right);
    }
  }

  lemma {:induction false} Pow2Grows(m: nat, n: nat)
    requires m <= n
    ensures Pow2(m) <= Pow2(n)
  {
    if m < n {
      Pow2Grows(m, n - 1);
    }
  }

  lemma {:induction false} Pow2Square(n: nat)
    ensures Pow2(2 * n) == Pow2(n) * Pow2(n)
  {
    if n > 0 {
      Pow2Square(n - 1);
      assert Pow2(2 * n) == 4 * Pow2(2 * (n - 1));
      var k := Pow2(n - 1);
      assert 4 * (k * k) == (2 * k) * (2 * k);
    }
  }

  /** A red-black tree of `n` nodes is at most 2 log2(n + 1) high. */
  lemma Shallow(t: Tree)
    requires RedBlack(t)
    ensures Pow2(Height(t)) <= (Size(t) + 1) * (Size(t) + 1)
  {
    SizeBound(t);
    HeightBound(t);
    Pow2Grows(Height(t), 2 * Black(t));
    Pow2Square(Black(t));
    Squares(Pow2(Black(t)), Size(t) + 1);
  }

  lemma Squares(k: nat, n: nat)
    requires k <= n
    ensures k * k <= n * n
  {
    assert k * k <= k * n <= n * n;
  }

  // ----- one round of the repair after an insertion

  /** Before each round: the subtree has a red root and is in order, and nothing but its parent may clash. */
  predicate Repairing(t: Tree, path: Path) {
    && IsRed(t) && Even(t) && RedsApart(t)
    && EvenPath(path, Black(t)) && RedsApartPath(path, false) && BlackTop(path)
  }

  function ParentRed(path: Path): bool {
    !path.Top? && path.red
  }

  function RotatedLeft(t: Tree): Tree
    requires t.Node? && t.right.Node?
  {
    t.right.(left := t.(right := t.right.left))
  }

  function RotatedRight(t: Tree): Tree
    requires t.Node? && t.left.Node?
  {
    t.left.(right := t.(left := t.left.right))
  }

  lemma RotatedLeftOrder(t: Tree)
    requires t.Node? && t.right.Node?
    ensures Inorder(RotatedLeft(t)) == Inorder(t)
  {
    var n := t.(right := t.right.left);
    assert Inorder(RotatedLeft(t)) == Inorder(n) + [Item(t.right.p, t.right.key)] + Inorder(t.right.right);
    Regroup(Inorder(t.left), [Item(t.p, t.key)], Inorder(t.right.left), [Item(t.right.p, t.right.key)],
            Inorder(t.right.right));
  }

  lemma RotatedRightOrder(t: Tree)
    requires t.Node? && t.left.Node?
    ensures Inorder(RotatedRight(t)) == Inorder(t)
  {
    var n := t.(left := t.left.right);
    assert Inorder(RotatedRight(t)) == Inorder(t.left.left) + [Item(t.left.p, t.left.key)] + Inorder(n);
    Regroup(Inorder(t.left.left), [Item(t.left.p, t.left.key)], Inorder(t.left.right), [Item(t.p, t.key)],
            Inorder(t.right));
  }

  lemma Regroup(a: seq<Item>, b: seq<Item>, c: seq<Item>, d: seq<Item>, e: seq<Item>)
    ensures (a + b + c) + d + e == a + b + (c + d + e)
  {
  }

  // The three moves of the repair. `t` hangs under a red parent, the parent under `path.up`.

  /** The uncle is red: the grandparent passes its black to both children. */
  function Recoloured(t: Tree, path: Path): Tree
    requires !path.Top? && !path.up.Top?
  {
    var parent := Over(t, path.(red := false));
    match path.up
    case InLeft(_, g, key, _, uncle) => Node(parent, g, key, true, Blacken(uncle))
    case InRight(_, uncle, g, key, _) => Node(Blacken(uncle), g, key, true, parent)
  }

  /** The sibling of the parent. */
  function Uncle(path: Path): Tree
    requires !path.Top? && !path.up.Top?
  {
    if path.up.InLeft? then path.up.right else path.up.left
  }

  /** What `Repairing` says of the parent and the grandparent. */
  lemma Elders(t: Tree, path: Path)
    requires Repairing(t, path) && ParentRed(path)
    ensures !path.up.Top? && !path.up.red && RedsApartPath(path.up, true)
    ensures EvenPath(path.up, Black(t)) && EvenPath(path.up.up, Black(t) + 1)
    ensures Even(Uncle(path)) && RedsApart(Uncle(path)) && Black(Uncle(path)) == Black(t)
    ensures RedsApartPath(path.up.up, false) && BlackTop(path.up) && BlackTop(path.up.up)
  {
    assert BlackTop(path.up);
    assert RedsApartPath(path.up, path.red);
  }

  lemma RecolouredOk(t: Tree, path: Path)
    requires Repairing(t, path) && ParentRed(path)
    requires !path.up.Top? && IsRed(Uncle(path))
    ensures Repairing(Recoloured(t, path), path.up.up)
  {
    Elders(t, path);
    var parent := Over(t, path.(red := false));
    assert Even(parent) && RedsApart(parent) && Black(parent) == Black(t) + 1;
    var uncle := Blacken(Uncle(path));
    assert Even(uncle) && RedsApart(uncle) && Black(uncle) == Black(t) + 1;
  }

  lemma RecolouredOrder(t: Tree, path: Path)
    requires !path.Top? && !path.up.Top?
    ensures Inorder(Plug(Recoloured(t, path), path.up.up)) == Inorder(Plug(t, path))
  {
    var parent := Over(t, path);
    InorderPlug(Recoloured(t, path), path.up.up);
    InorderPlug(Over(parent, path.up), path.up.up);
    assert Inorder(Over(t, path.(red := false))) == Inorder(parent);
    assert Inorder(Blacken(Uncle(path))) == Inorder(Uncle(path));
  }

  /** The node is the inner child: it takes its parent's place, and the parent becomes the outer child. */
  function SwungTree(t: Tree, path: Path): Tree
    requires !path.Top? && t.Node?
  {
    match path
    case InRight(_, left, p, key, red) => Node(left, p, key, red, t.left)
    case InLeft(_, p, key, red, right) => Node(t.right, p, key, red, right)
  }

  function SwungPath(t: Tree, path: Path): Path
    requires !path.Top? && t.Node?
  {
    match path
    case InRight(up, _, _, _, _) => InLeft(up, t.p, t.key, t.red, t.right)
    case InLeft(up, _, _, _, _) => InRight(up, t.left, t.p, t.key, t.red)
  }

  lemma SwungOk(t: Tree, path: Path)
    requires Repairing(t, path) && ParentRed(path) && !path.up.Top?
    ensures Repairing(SwungTree(t, path), SwungPath(t, path)) && ParentRed(SwungPath(t, path))
    ensures Inorder(Plug(SwungTree(t, path), SwungPath(t, path))) == Inorder(Plug(t, path))
  {
    var whole := Over(t, path);
    InorderPlug(whole, path.up);
    if path.InRight? {
      RotatedLeftOrder(whole);
      InorderPlug(RotatedLeft(whole), path.up);
    } else {
      RotatedRightOrder(whole);
      InorderPlug(RotatedRight(whole), path.up);
    }
  }

  /** The node is the outer child of an outer child: the parent takes the grandparent's place and colour. */
  function LiftedPath(path: Path): Path
    requires Outer(path)
  {
    match path
    case InLeft(InLeft(up, g, gkey, _, uncle), p, key, _, right) =>
      InLeft(up, p, key, false, Node(right, g, gkey, true, uncle))
    case InRight(InRight(up, uncle, g, gkey, _), left, p, key, _) =>
      InRight(up, Node(uncle, g, gkey, true, left), p, key, false)
  }

  predicate Outer(path: Path) {
    (path.InLeft? && path.up.InLeft?) || (path.InRight? && path.up.InRight?)
  }

  lemma LiftedOk(t: Tree, path: Path)
    requires Repairing(t, path) && ParentRed(path) && Outer(path) && !IsRed(Uncle(path))
    ensures Repairing(t, LiftedPath(path)) && !ParentRed(LiftedPath(path))
  {
    Elders(t, path);
    var sibling := if path.InLeft? then path.right else path.left;
    assert Even(sibling) && RedsApart(sibling) && Black(sibling) == Black(t) && !IsRed(sibling);
    var aside := Over(sibling, path.up.(red := true));
    assert Even(aside) && RedsApart(aside) && Black(aside) == Black(t);
  }

  lemma LiftedOrder(t: Tree, path: Path)
    requires Outer(path)
    ensures Inorder(Plug(t, LiftedPath(path))) == Inorder(Plug(t, path))
  {
    var parent := Over(t, path);
    var whole := Over(parent, path.up);
    var lifted := Over(t, LiftedPath(path));
    InorderPlug(whole, path.up.up);
    InorderPlug(lifted, path.up.up);
    if path.InLeft? {
      RotatedRightOrder(whole);
      assert Inorder(lifted) == Inorder(RotatedRight(whole));
    } else {
      RotatedLeftOrder(whole);
      assert Inorder(lifted) == Inorder(RotatedLeft(whole));
    }
  }

  /** When no clash is left, or the node is the root, blackening the root completes the repair. */
  lemma Repaired(t: Tree, path: Path)
    requires Repairing(t, path) && !ParentRed(path)
    ensures RedBlack(Blacken(Plug(t, path)))
    ensures Inorder(Blacken(Plug(t, path))) == Inorder(Plug(t, path))
  {
    EvenPlug(t, path);
    if path != Top {
      RedsPlug(t, path);
      BlackTopPlug(t, path);
    }
  }

  /** Hanging a new red node at the end of a path of a red-black tree starts the repair. */
  lemma NewNode(path: Path, n: Ptr, key: nat)
    requires RedBlack(Plug(Leaf, path)) && path != Top
    ensures Repairing(Node(Leaf, n, key, true, Leaf), path)
  {
    EvenPlug(Leaf, path);
    RedsPlug(Leaf, path);
    BlackTopPlug(Leaf, path);
  }
}
