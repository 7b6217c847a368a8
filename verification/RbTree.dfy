/** The red-black tree of the timer in memory: records linked by child and parent pointers, changed in
  place. `Zip` says that memory shows a subtree and the path above it. */
module RbTree {
  import opened Pointers
  import opened RbShape

  datatype Cell = Cell(key: nat, left: Ptr, right: Ptr, parent: Ptr, red: bool)

  type Mem = map<Ptr, Cell>

  function Root(t: Tree, s: Ptr): Ptr {
    if t.Leaf? then s else t.p
  }

  function Above(path: Path): Ptr {
    if path.Top? then NULL else path.p
  }

  function RootOf(path: Path, hole: Ptr): Ptr {
    if path.Top? then hole else RootOf(path.up, path.p)
  }

  function Ptrs(t: Tree): set<Ptr> {
    if t.Leaf? then {} else Ptrs(t.left) + {t.p} + Ptrs(t.right)
  }

  function PathPtrs(path: Path): set<Ptr> {
    match path
    case Top => {}
    case InLeft(up, p, _, _, right) => {p} + Ptrs(right) + PathPtrs(up)
    case InRight(up, left, p, _, _) => {p} + Ptrs(left) + PathPtrs(up)
  }

  /** No node occurs twice. */
  ghost predicate Distinct(t: Tree) {
    t.Node? ==>
      && t.p !in Ptrs(t.left) && t.p !in Ptrs(t.right) && Ptrs(t.left) * Ptrs(t.right) == {}
      && Distinct(t.left) && Distinct(t.right)
  }

  /** No node occurs twice on the path, nor one of `taken`. */
  ghost predicate Apart(path: Path, taken: set<Ptr>)
    decreases path
  {
    match path
    case Top => true
    case InLeft(up, p, _, _, right) =>
      && p !in taken && p !in Ptrs(right) && taken * Ptrs(right) == {} && Distinct(right)
      && Apart(up, taken + {p} + Ptrs(right))
    case InRight(up, left, p, _, _) =>
      && p !in taken && p !in Ptrs(left) && Ptrs(left) * taken == {} && Distinct(left)
      && Apart(up, Ptrs(left) + {p} + taken)
  }

  lemma {:induction false} ApartFrom(path: Path, taken: set<Ptr>)
    requires Apart(path, taken)
    ensures PathPtrs(path) * taken == {}
    decreases path
  {
    match path
    case Top =>
    case InLeft(up, p, _, _, right) => ApartFrom(up, taken + {p} + Ptrs(right));
    case InRight(up, left, p, _, _) => ApartFrom(up, Ptrs(left) + {p} + taken);
  }

  // ----- memory shows a tree

  ghost predicate Shows(m: Mem, s: Ptr, t: Tree, up: Ptr) {
    t.Node? ==>
      && t.p in m && m[t.p] == Cell(t.key, Root(t.left, s), Root(t.right, s), up, t.red)
      && Shows(m, s, t.left, t.p) && Shows(m, s, t.right, t.p)
  }

  ghost predicate ShowsPath(m: Mem, s: Ptr, path: Path, hole: Ptr)
    decreases path
  {
    match path
    case Top => true
    case InLeft(up, p, key, red, right) =>
      && p in m && m[p] == Cell(key, hole, Root(right, s), Above(up), red)
      && Shows(m, s, right, p) && ShowsPath(m, s, up, p)
    case InRight(up, left, p, key, red) =>
      && p in m && m[p] == Cell(key, Root(left, s), hole, Above(up), red)
      && Shows(m, s, left, p) && ShowsPath(m, s, up, p)
  }

  ghost predicate Outside(p: Ptr, t: Tree, path: Path) {
    p !in Ptrs(t) && p !in PathPtrs(path)
  }

  /** Memory, with the root pointer `r` and the sentinel `s`, shows `t` at the end of `path`. */
  ghost predicate Zip(m: Mem, r: Ptr, s: Ptr, t: Tree, path: Path) {
    && Shows(m, s, t, Above(path)) && ShowsPath(m, s, path, Root(t, s)) && r == RootOf(path, Root(t, s))
    && Distinct(t) && Apart(path, Ptrs(t)) && Outside(s, t, path) && Outside(NULL, t, path)
    && s in m && !m[s].red && s != NULL
  }

  /** Looking one level up, or down again, is the same view of memory. */
  lemma ZipUp(m: Mem, r: Ptr, s: Ptr, t: Tree, path: Path)
    requires !path.Top?
    ensures Zip(m, r, s, t, path) <==> Zip(m, r, s, Over(t, path), path.up)
  {
  }

  lemma {:induction false} PtrsIn(m: Mem, s: Ptr, t: Tree, up: Ptr)
    requires Shows(m, s, t, up)
    ensures Ptrs(t) <= m.Keys
  {
    if t.Node? {
      PtrsIn(m, s, t.left, t.p);
      PtrsIn(m, s, t.right, t.p);
    }
  }

  lemma {:induction false} PathPtrsIn(m: Mem, s: Ptr, path: Path, hole: Ptr)
    requires ShowsPath(m, s, path, hole)
    ensures PathPtrs(path) <= m.Keys
    decreases path
  {
    match path
    case Top =>
    case InLeft(up, p, _, _, right) =>
      PtrsIn(m, s, right, p);
      PathPtrsIn(m, s, up, p);
    case InRight(up, left, p, _, _) =>
      PtrsIn(m, s, left, p);
      PathPtrsIn(m, s, up, p);
  }

  lemma {:induction false} Frame(m: Mem, m': Mem, s: Ptr, t: Tree, up: Ptr)
    requires Shows(m, s, t, up)
    requires forall q | q in Ptrs(t) :: q in m' && q in m && m'[q] == m[q]
    ensures Shows(m', s, t, up)
  {
    if t.Node? {
      Frame(m, m', s, t.left, t.p);
      Frame(m, m', s, t.right, t.p);
    }
  }

  lemma {:induction false} FramePath(m: Mem, m': Mem, s: Ptr, path: Path, hole: Ptr)
    requires ShowsPath(m, s, path, hole)
    requires forall q | q in PathPtrs(path) :: q in m' && q in m && m'[q] == m[q]
    ensures ShowsPath(m', s, path, hole)
    decreases path
  {
    match path
    case Top =>
    case InLeft(up, p, _, _, right) =>
      Frame(m, m', s, right, p);
      FramePath(m, m', s, up, p);
    case InRight(up, left, p, _, _) =>
      Frame(m, m', s, left, p);
      FramePath(m, m', s, up, p);
  }

  /** A subtree shown under another parent. */
  lemma Reparent(m: Mem, m': Mem, s: Ptr, t: Tree, up: Ptr, up': Ptr)
    requires Shows(m, s, t, up) && Distinct(t)
    requires forall q | q in Ptrs(t) && q != Root(t, s) :: q in m' && q in m && m'[q] == m[q]
    requires t.Node? ==> t.p in m' && m'[t.p] == m[t.p].(parent := up')
    ensures Shows(m', s, t, up')
  {
    if t.Node? {
      Frame(m, m', s, t.left, t.p);
      Frame(m, m', s, t.right, t.p);
    }
  }

  /** The cell of the parent with its link to `q` led to `q'`. */
  function Relinked(c: Cell, q: Ptr, q': Ptr): Cell {
    if c.left == q then c.(left := q') else c.(right := q')
  }

  lemma Rehang(m: Mem, m': Mem, s: Ptr, t: Tree, path: Path, hole: Ptr)
    requires ShowsPath(m, s, path, Root(t, s)) && Apart(path, Ptrs(t)) && t.Node? && Outside(s, t, path)
    requires forall q | q in PathPtrs(path) && q != Above(path) :: q in m' && q in m && m'[q] == m[q]
    requires !path.Top? ==> path.p in m' && m'[path.p] == Relinked(m[path.p], t.p, hole)
    ensures ShowsPath(m', s, path, hole)
  {
    match path
    case Top =>
    case InLeft(up, p, _, _, right) =>
      ApartFrom(up, Ptrs(t) + {p} + Ptrs(right));
      Frame(m, m', s, right, p);
      FramePath(m, m', s, up, p);
    case InRight(up, left, p, _, _) =>
      ApartFrom(up, Ptrs(left) + {p} + Ptrs(t));
      Frame(m, m', s, left, p);
      FramePath(m, m', s, up, p);
  }

  // ----- rotations

  /** Node `n`, its child `c` and the child's inner child `b` (or the sentinel) are different, as is the parent
      of `n`. */
  ghost predicate Turnable(m: Mem, r: Ptr, s: Ptr, n: Ptr, c: Ptr, b: Ptr) {
    && n in m && c in m && b in m && n != c && n != b && c != b && n != s && c != s
    && (n != r ==>
          && m[n].parent in m && m[n].parent !in {n, c, b, s}
          && (m[m[n].parent].left == n <==> m[m[n].parent].right != n))
  }

  /** What a left rotation at `n` does to memory and to the root pointer. */
  ghost predicate LeftRotation(m: Mem, r: Ptr, s: Ptr, n: Ptr, c: Ptr, b: Ptr, m': Mem, r': Ptr)
    requires Turnable(m, r, s, n, c, b)
  {
    && m[n].right == c && m[c].left == b
    && m'.Keys == m.Keys
    && m'[n] == m[n].(right := b, parent := c)
    && m'[c] == m[c].(left := n, parent := m[n].parent)
    && Rehung(m, r, s, n, c, b, m', r')
  }

  ghost predicate RightRotation(m: Mem, r: Ptr, s: Ptr, n: Ptr, c: Ptr, b: Ptr, m': Mem, r': Ptr)
    requires Turnable(m, r, s, n, c, b)
  {
    && m[n].left == c && m[c].right == b
    && m'.Keys == m.Keys
    && m'[n] == m[n].(left := b, parent := c)
    && m'[c] == m[c].(right := n, parent := m[n].parent)
    && Rehung(m, r, s, n, c, b, m', r')
  }

  /** The parent's link leads to `c` instead of `n`, `b` has the parent `n`, and the rest is unchanged. */
  ghost predicate Rehung(m: Mem, r: Ptr, s: Ptr, n: Ptr, c: Ptr, b: Ptr, m': Mem, r': Ptr)
    requires Turnable(m, r, s, n, c, b) && m'.Keys == m.Keys
  {
    var u := m[n].parent;
    && (b != s ==> m'[b] == m[b].(parent := n))
    && (if n == r then r' == c else r' == r && m'[u] == Relinked(m[u], n, c))
    && (forall q | q in m && q != n && q != c && (q != b || b == s) && (q != u || n == r) :: m'[q] == m[q])
  }

  lemma {:induction false} RootInPath(path: Path, hole: Ptr)
    requires path != Top
    ensures RootOf(path, hole) in PathPtrs(path)
    decreases path
  {
    if path.up != Top {
      RootInPath(path.up, path.p);
    }
  }

  /** The pointers that a rotation reads and writes are different nodes. */
  lemma RotationPtrs(m: Mem, r: Ptr, s: Ptr, t: Tree, path: Path)
    requires Zip(m, r, s, t, path) && t.Node?
    ensures t.p in m && m[t.p].parent == Above(path)
    ensures m[t.p].left == Root(t.left, s) && m[t.p].right == Root(t.right, s)
    ensures t.p == r <==> path.Top?
    ensures !path.Top? ==> path.p in m && path.p !in Ptrs(t) && path.p != s
    ensures !path.Top? ==> (m[path.p].left == t.p <==> path.InLeft?) && (m[path.p].right == t.p <==> path.InRight?)
    ensures Root(t.left, s) in m && Root(t.right, s) in m
  {
    ApartFrom(path, Ptrs(t));
    assert Shows(m, s, t.left, t.p) && Shows(m, s, t.right, t.p);
    if path != Top {
      RootInPath(path, t.p);
      assert path.p in PathPtrs(path);
    }
  }

  lemma RotatedLeftPtrs(t: Tree)
    requires t.Node? && t.right.Node? && Distinct(t)
    ensures Ptrs(RotatedLeft(t)) == Ptrs(t) && Distinct(RotatedLeft(t))
  {
    assert Distinct(t.right);
    var n := t.(right := t.right.left);
    assert Ptrs(n) == Ptrs(t.left) + {t.p} + Ptrs(t.right.left);
    assert Distinct(n);
  }

  lemma RotatedRightPtrs(t: Tree)
    requires t.Node? && t.left.Node? && Distinct(t)
    ensures Ptrs(RotatedRight(t)) == Ptrs(t) && Distinct(RotatedRight(t))
  {
    assert Distinct(t.left);
    var n := t.(left := t.left.right);
    assert Ptrs(n) == Ptrs(t.left.right) + {t.p} + Ptrs(t.right);
    assert Distinct(n);
  }

  lemma RotatedLeftShows(m: Mem, s: Ptr, t: Tree, up: Ptr, m': Mem)
    requires Shows(m, s, t, up) && t.Node? && t.right.Node? && Distinct(t) && s !in Ptrs(t)
    requires m'.Keys == m.Keys
    requires m'[t.p] == m[t.p].(right := Root(t.right.left, s), parent := t.right.p)
    requires t.right.p in m && m'[t.right.p] == m[t.right.p].(left := t.p, parent := up)
    requires t.right.left.Node? ==> t.right.left.p in m && m'[t.right.left.p] == m[t.right.left.p].(parent := t.p)
    requires forall q | q in Ptrs(t) && q != t.p && q != t.right.p && q != Root(t.right.left, s) ::
      q in m && m'[q] == m[q]
    ensures Shows(m', s, RotatedLeft(t), up)
  {
    var right := t.right;
    assert Shows(m, s, right, t.p) && Distinct(right);
    PtrsIn(m, s, right.left, right.p);
    Frame(m, m', s, t.left, t.p);
    Reparent(m, m', s, right.left, right.p, t.p);
    Frame(m, m', s, right.right, right.p);
  }

  lemma RotatedRightShows(m: Mem, s: Ptr, t: Tree, up: Ptr, m': Mem)
    requires Shows(m, s, t, up) && t.Node? && t.left.Node? && Distinct(t) && s !in Ptrs(t)
    requires m'.Keys == m.Keys
    requires m'[t.p] == m[t.p].(left := Root(t.left.right, s), parent := t.left.p)
    requires t.left.p in m && m'[t.left.p] == m[t.left.p].(right := t.p, parent := up)
    requires t.left.right.Node? ==> t.left.right.p in m && m'[t.left.right.p] == m[t.left.right.p].(parent := t.p)
    requires forall q | q in Ptrs(t) && q != t.p && q != t.left.p && q != Root(t.left.right, s) ::
      q in m && m'[q] == m[q]
    ensures Shows(m', s, RotatedRight(t), up)
  {
    var left := t.left;
    assert Shows(m, s, left, t.p) && Distinct(left);
    PtrsIn(m, s, left.right, left.p);
    Frame(m, m', s, t.right, t.p);
    Reparent(m, m', s, left.right, left.p, t.p);
    Frame(m, m', s, left.left, left.p);
  }

  lemma RotatedLeftZip(m: Mem, r: Ptr, s: Ptr, t: Tree, path: Path, m': Mem, r': Ptr)
    requires Zip(m, r, s, t, path) && t.Node? && t.right.Node?
    requires Turnable(m, r, s, t.p, t.right.p, Root(t.right.left, s))
    requires LeftRotation(m, r, s, t.p, t.right.p, Root(t.right.left, s), m', r')
    ensures Zip(m', r', s, RotatedLeft(t), path)
  {
    RotationPtrs(m, r, s, t, path);
    RotatedLeftPtrs(t);
    PtrsIn(m, s, t, Above(path));
    assert t.right.left.Node? ==> t.right.left.p in Ptrs(t.right);
    assert Shows(m, s, t.right, t.p);
    RotatedLeftShows(m, s, t, Above(path), m');
    PathPtrsIn(m, s, path, t.p);
    ApartFrom(path, Ptrs(t));
    Rehang(m, m', s, t, path, t.right.p);
    assert !path.Top? ==> RootOf(path, t.p) == RootOf(path, t.right.p);
  }

  lemma RotatedRightZip(m: Mem, r: Ptr, s: Ptr, t: Tree, path: Path, m': Mem, r': Ptr)
    requires Zip(m, r, s, t, path) && t.Node? && t.left.Node?
    requires Turnable(m, r, s, t.p, t.left.p, Root(t.left.right, s))
    requires RightRotation(m, r, s, t.p, t.left.p, Root(t.left.right, s), m', r')
    ensures Zip(m', r', s, RotatedRight(t), path)
  {
    RotationPtrs(m, r, s, t, path);
    RotatedRightPtrs(t);
    PtrsIn(m, s, t, Above(path));
    assert t.left.right.Node? ==> t.left.right.p in Ptrs(t.left);
    assert Shows(m, s, t.left, t.p);
    RotatedRightShows(m, s, t, Above(path), m');
    PathPtrsIn(m, s, path, t.p);
    ApartFrom(path, Ptrs(t));
    Rehang(m, m', s, t, path, t.left.p);
    assert !path.Top? ==> RootOf(path, t.p) == RootOf(path, t.left.p);
  }

  /** The nodes that a rotation rewrites are different. */
  lemma ChildPtrs(m: Mem, r: Ptr, s: Ptr, t: Tree, path: Path)
    requires Zip(m, r, s, t, path) && t.Node?
    ensures t.right.Node? ==>
      var c, b := t.right.p, Root(t.right.left, s);
      Turnable(m, r, s, t.p, c, b) && m[t.p].right == c && m[c].left == b
    ensures t.left.Node? ==>
      var c, b := t.left.p, Root(t.left.right, s);
      Turnable(m, r, s, t.p, c, b) && m[t.p].left == c && m[c].right == b
  {
    RotationPtrs(m, r, s, t, path);
    PtrsIn(m, s, t, Above(path));
    assert Shows(m, s, t.left, t.p) && Shows(m, s, t.right, t.p);
    assert Distinct(t.left) && Distinct(t.right);
    assert t.right.Node? && t.right.left.Node? ==> t.right.left.p in Ptrs(t.right);
    assert t.left.Node? && t.left.right.Node? ==> t.left.right.p in Ptrs(t.left);
  }

  lemma PaintZip(m: Mem, r: Ptr, s: Ptr, t: Tree, path: Path, red: bool)
    requires Zip(m, r, s, t, path) && t.Node?
    ensures t.p in m && Zip(m[t.p := m[t.p].(red := red)], r, s, t.(red := red), path)
  {
    var m' := m[t.p := m[t.p].(red := red)];
    ApartFrom(path, Ptrs(t));
    PtrsIn(m, s, t, Above(path));
    PathPtrsIn(m, s, path, t.p);
    Frame(m, m', s, t.left, t.p);
    Frame(m, m', s, t.right, t.p);
    FramePath(m, m', s, path, t.p);
  }

  lemma {:induction false} ApartMore(path: Path, taken: set<Ptr>, n: Ptr)
    requires Apart(path, taken) && n !in PathPtrs(path)
    ensures Apart(path, taken + {n})
    decreases path
  {
    match path
    case Top =>
    case InLeft(up, p, _, _, right) =>
      ApartMore(up, taken + {p} + Ptrs(right), n);
      assert taken + {n} + {p} + Ptrs(right) == taken + {p} + Ptrs(right) + {n};
    case InRight(up, left, p, _, _) =>
      ApartMore(up, Ptrs(left) + {p} + taken, n);
      assert Ptrs(left) + {p} + (taken + {n}) == Ptrs(left) + {p} + taken + {n};
  }

  lemma {:induction false} PtrsPlug(t: Tree, path: Path)
    ensures Ptrs(Plug(t, path)) == Ptrs(t) + PathPtrs(path)
    decreases path
  {
    if path != Top {
      PtrsPlug(Over(t, path), path.up);
    }
  }

  lemma {:induction false} ZipPlug(m: Mem, r: Ptr, s: Ptr, t: Tree, path: Path)
    requires Zip(m, r, s, t, path)
    ensures Zip(m, r, s, Plug(t, path), Top)
    decreases path
  {
    if path != Top {
      ZipUp(m, r, s, t, path);
      ZipPlug(m, r, s, Over(t, path), path.up);
    }
  }

  function Fresh(n: Ptr, key: nat, red: bool): Tree {
    Node(Leaf, n, key, red, Leaf)
  }

  /** A new node hung at the free end of a path. */
  lemma AttachZip(m: Mem, r: Ptr, s: Ptr, path: Path, n: Ptr, key: nat, m': Mem)
    requires Zip(m, r, s, Leaf, path) && !path.Top?
    requires n in m && n !in PathPtrs(path) && n != s && n != NULL
    requires path.p in m && m' == m[path.p := if path.InLeft? then m[path.p].(left := n) else m[path.p].(right := n)]
                                   [n := Cell(key, s, s, path.p, true)]
    ensures Zip(m', r, s, Fresh(n, key, true), path)
  {
    ApartFrom(path, {});
    ApartMore(path, {}, n);
    assert Ptrs(Fresh(n, key, true)) == {} + {n};
    PathPtrsIn(m, s, path, s);
    match path
    case InLeft(up, p, _, _, right) =>
      ApartFrom(up, {} + {p} + Ptrs(right));
      Frame(m, m', s, right, p);
      FramePath(m, m', s, up, p);
    case InRight(up, left, p, _, _) =>
      ApartFrom(up, Ptrs(left) + {p} + {});
      Frame(m, m', s, left, p);
      FramePath(m, m', s, up, p);
  }

  ghost predicate AtMost(s: seq<Item>, key: nat) {
    forall i | 0 <= i < |s| :: s[i].key <= key
  }

  ghost predicate MoreThan(s: seq<Item>, key: nat) {
    forall i | 0 <= i < |s| :: key < s[i].key
  }

  /** Everything before the end of the path has a key of at most `key`, everything behind a greater one. */
  ghost predicate Splits(path: Path, key: nat) {
    AtMost(Before(path), key) && MoreThan(Behind(path), key)
  }

  lemma SortedParts(a: seq<Item>, x: Item, b: seq<Item>, key: nat)
    requires Sorted(a + [x] + b)
    ensures Sorted(a) && Sorted(b)
    ensures x.key <= key ==> AtMost(a + [x], key)
    ensures key < x.key ==> MoreThan([x] + b, key)
  {
    var s := a + [x] + b;
    assert s[|a|] == x;
    forall i | 0 <= i < |a| ensures s[i] == a[i] && a[i].key <= x.key {}
    forall i | 0 <= i < |b| ensures s[|a| + 1 + i] == b[i] && x.key <= b[i].key {}
  }

  lemma SplitsConcat(a: seq<Item>, b: seq<Item>, key: nat)
    ensures AtMost(a, key) && AtMost(b, key) ==> AtMost(a + b, key)
    ensures MoreThan(a, key) && MoreThan(b, key) ==> MoreThan(a + b, key)
  {
  }

  lemma HungInOrder(path: Path, x: Item)
    requires Splits(path, x.key)
    ensures Inorder(Plug(Fresh(x.p, x.key, true), path)) == Place(Inorder(Plug(Leaf, path)), x)
  {
    InorderPlug(Leaf, path);
    InorderPlug(Fresh(x.p, x.key, true), path);
    PlaceBetween(Before(path), Behind(path), x);
    NoneBetween(Before(path), Behind(path), x);
  }

  lemma NoneBetween(a: seq<Item>, b: seq<Item>, x: Item)
    ensures a + [] + b == a + b && [] + [x] + [] == [x]
  {
  }

  function Down(t: Tree, path: Path, left: bool): Path
    requires t.Node?
  {
    if left then InLeft(path, t.p, t.key, t.red, t.right) else InRight(path, t.left, t.p, t.key, t.red)
  }

  lemma SplitsDown(t: Tree, path: Path, key: nat)
    requires t.Node? && Sorted(Inorder(t)) && Splits(path, key)
    ensures Splits(Down(t, path, key < t.key), key)
    ensures Sorted(Inorder(t.left)) && Sorted(Inorder(t.right))
  {
    var x := Item(t.p, t.key);
    SortedParts(Inorder(t.left), x, Inorder(t.right), key);
    SplitsConcat(Before(path), Inorder(t.left) + [x], key);
    SplitsConcat([x] + Inorder(t.right), Behind(path), key);
  }

  lemma {:induction false} PlaceSorted(s: seq<Item>, x: Item)
    requires Sorted(s)
    ensures Sorted(Place(s, x))
    ensures |Place(s, x)| == |s| + 1
    ensures forall y | y in Place(s, x) :: y == x || y in s
  {
    if s != [] && x.key >= s[0].key {
      PlaceSorted(s[1..], x);
      forall y | y in s[1..] ensures s[0].key <= y.key {}
    }
  }

  /** The subtree, and the path to it, on which the `i`-th node in order stands. */
  ghost function Locate(t: Tree, path: Path, i: nat): (at: (Tree, Path))
    requires i < |Inorder(t)|
    ensures Plug(at.0, at.1) == Plug(t, path) && at.0.Node?
    ensures |Before(at.1)| + |Inorder(at.0.left)| == |Before(path)| + i
    ensures Item(at.0.p, at.0.key) == Inorder(t)[i]
  {
    var n := |Inorder(t.left)|;
    if i < n then Locate(t.left, Down(t, path, true), i)
    else if i == n then (t, path)
    else Locate(t.right, Down(t, path, false), i - n - 1)
  }

  lemma {:induction false} ZipUnplug(m: Mem, r: Ptr, s: Ptr, t: Tree, path: Path)
    requires Zip(m, r, s, Plug(t, path), Top)
    ensures Zip(m, r, s, t, path)
    decreases path
  {
    if path != Top {
      ZipUnplug(m, r, s, Over(t, path), path.up);
      ZipUp(m, r, s, t, path);
    }
  }

  lemma {:induction false} InorderPtrs(t: Tree, i: nat)
    requires i < |Inorder(t)|
    ensures Inorder(t)[i].p in Ptrs(t)
  {
    var n := |Inorder(t.left)|;
    if i < n {
      InorderPtrs(t.left, i);
    } else if i > n {
      InorderPtrs(t.right, i - n - 1);
    }
  }

  /** No node stands twice in the order. */
  lemma {:induction false} InorderOnce(t: Tree, i: nat, j: nat)
    requires Distinct(t) && i < j < |Inorder(t)|
    ensures Inorder(t)[i].p != Inorder(t)[j].p
  {
    var n := |Inorder(t.left)|;
    if j < n {
      InorderOnce(t.left, i, j);
    } else if n < i {
      InorderOnce(t.right, i - n - 1, j - n - 1);
    } else {
      if i < n { InorderPtrs(t.left, i); }
      if n < j { InorderPtrs(t.right, j - n - 1); }
    }
  }

  function Depth(path: Path): nat {
    if path.Top? then 0 else 1 + Depth(path.up)
  }

  /** The parent and grandparent pointers that a round of the repair reads. */
  lemma EldersPtrs(m: Mem, r: Ptr, s: Ptr, t: Tree, path: Path)
    requires Zip(m, r, s, t, path) && t.Node? && !path.Top? && !path.up.Top?
    ensures t.p in m && m[t.p].parent == path.p && path.p in m && m[path.p].parent == path.up.p && path.up.p in m
    ensures m[path.p].left == t.p <==> path.InLeft?
    ensures m[path.p].right == t.p <==> path.InRight?
    ensures m[path.up.p].left == path.p <==> path.up.InLeft?
    ensures path.up.InLeft? ==> m[path.up.p].right == Root(Uncle(path), s)
    ensures path.up.InRight? ==> m[path.up.p].left == Root(Uncle(path), s)
    ensures Root(Uncle(path), s) in m && m[Root(Uncle(path), s)].red == IsRed(Uncle(path))
  {
    RotationPtrs(m, r, s, t, path);
    var parent := Over(t, path);
    ZipUp(m, r, s, t, path);
    RotationPtrs(m, r, s, parent, path.up);
    ZipUp(m, r, s, parent, path.up);
    RotationPtrs(m, r, s, Over(parent, path.up), path.up.up);
    assert Shows(m, s, Uncle(path), path.up.p);
  }

  /** The uncle's place in the tree, once the parent's subtree is `parent`. */
  function UnclePath(parent: Tree, path: Path): Path
    requires !path.Top? && !path.up.Top?
  {
    match path.up
    case InLeft(up, g, key, red, _) => InRight(up, parent, g, key, red)
    case InRight(up, _, g, key, red) => InLeft(up, g, key, red, parent)
  }

  /** `rbtree`. Its nodes are records in `mem`; `tree` is what they stand for. */
  class Timers {
    var mem: Mem
    var root: Ptr
    var sentinel: Ptr
    ghost var tree: Tree

    ghost predicate Valid()
      reads this
    {
      Zip(mem, root, sentinel, tree, Top) && RedBlack(tree) && Sorted(Inorder(tree))
    }

    constructor (s: Ptr)
      requires s != NULL
      ensures Valid() && tree == Leaf && sentinel == s && mem.Keys == {s}
    {
      mem := map[s := Cell(0, NULL, NULL, NULL, false)];
      root, sentinel := s, s;
      tree := Leaf;
    }

    /** A new node, not in the tree yet. */
    method Allocate(n: Ptr, key: nat)
      requires Valid() && n !in mem && n != NULL
      modifies `mem
      ensures Valid() && mem == old(mem)[n := Cell(key, NULL, NULL, NULL, false)] && n !in Ptrs(tree) && n != sentinel
    {
      PtrsIn(mem, sentinel, tree, NULL);
      Frame(mem, mem[n := Cell(key, NULL, NULL, NULL, false)], sentinel, tree, NULL);
      mem := mem[n := Cell(key, NULL, NULL, NULL, false)];
    }

    /** Colours the node on which the subtree `t` stands. */
    method Paint(q: Ptr, red: bool, ghost t: Tree, ghost path: Path)
      requires Zip(mem, root, sentinel, t, path) && t.Node? && q == t.p
      modifies `mem
      ensures Zip(mem, root, sentinel, t.(red := red), path)
    {
      PaintZip(mem, root, sentinel, t, path, red);
      mem := mem[q := mem[q].(red := red)];
    }

    method Adopt(b: Ptr, n: Ptr)
      requires b in mem
      modifies `mem
      ensures mem == if b == sentinel then old(mem) else old(mem)[b := old(mem)[b].(parent := n)]
    {
      if b != sentinel {
        mem := mem[b := mem[b].(parent := n)];
      }
    }

    /** The link that led to `n`, from its parent or from the tree itself, leads to `temp`. */
    method ReplaceChild(n: Ptr, temp: Ptr)
      requires n in mem && (n != root ==> mem[n].parent in mem)
      requires n != root ==> (mem[mem[n].parent].left == n <==> mem[mem[n].parent].right != n)
      modifies `mem, `root
      ensures mem == if n == old(root) then old(mem)
                     else old(mem)[old(mem)[n].parent := Relinked(old(mem)[old(mem)[n].parent], n, temp)]
      ensures root == if n == old(root) then temp else old(root)
    {
      var parent := mem[n].parent;
      if n == root {
        root := temp;
      } else if n == mem[parent].left {
        mem := mem[parent := mem[parent].(left := temp)];
      } else {
        mem := mem[parent := mem[parent].(right := temp)];
      }
    }

    /** `temp` takes the place of `n` below its parent. */
    method TakePlace(n: Ptr, temp: Ptr)
      requires n in mem && temp in mem && n != temp
      requires n != root ==> mem[n].parent in mem && mem[n].parent != n && mem[n].parent != temp
      requires n != root ==> (mem[mem[n].parent].left == n <==> mem[mem[n].parent].right != n)
      modifies `mem, `root
      ensures mem.Keys == old(mem).Keys && root == if n == old(root) then temp else old(root)
      ensures mem[temp] == old(mem)[temp].(parent := old(mem)[n].parent)
      ensures n != old(root) ==> mem[old(mem)[n].parent] == Relinked(old(mem)[old(mem)[n].parent], n, temp)
      ensures forall q | q in mem && q != temp && (q != old(mem)[n].parent || n == old(root)) :: mem[q] == old(mem)[q]
    {
      mem := mem[temp := mem[temp].(parent := mem[n].parent)];
      ReplaceChild(n, temp);
    }

    /** `rbtree_left_rotate`. */
    method RotateLeft(n: Ptr)
      requires n in mem && mem[n].right in mem
      requires Turnable(mem, root, sentinel, n, mem[n].right, mem[mem[n].right].left)
      modifies `mem, `root
      ensures LeftRotation(old(mem), old(root), sentinel, n, old(mem[n].right), old(mem[mem[n].right].left), mem, root)
    {
      var temp := mem[n].right;
      mem := mem[n := mem[n].(right := mem[temp].left)];
      Adopt(mem[temp].left, n);
      TakePlace(n, temp);
      mem := mem[temp := mem[temp].(left := n)];
      mem := mem[n := mem[n].(parent := temp)];
    }

    /** `rbtree_right_rotate`. */
    method RotateRight(n: Ptr)
      requires n in mem && mem[n].left in mem
      requires Turnable(mem, root, sentinel, n, mem[n].left, mem[mem[n].left].right)
      modifies `mem, `root
      ensures RightRotation(old(mem), old(root), sentinel, n, old(mem[n].left), old(mem[mem[n].left].right), mem, root)
    {
      var temp := mem[n].left;
      mem := mem[n := mem[n].(left := mem[temp].right)];
      Adopt(mem[temp].right, n);
      TakePlace(n, temp);
      mem := mem[temp := mem[temp].(right := n)];
      mem := mem[n := mem[n].(parent := temp)];
    }

    method TurnLeft(n: Ptr, ghost t: Tree, ghost path: Path)
      requires Zip(mem, root, sentinel, t, path) && t.Node? && t.right.Node? && n == t.p
      modifies `mem, `root
      ensures Zip(mem, root, sentinel, RotatedLeft(t), path)
    {
      ghost var m, r := mem, root;
      ChildPtrs(m, r, sentinel, t, path);
      RotateLeft(n);
      RotatedLeftZip(m, r, sentinel, t, path, mem, root);
    }

    method TurnRight(n: Ptr, ghost t: Tree, ghost path: Path)
      requires Zip(mem, root, sentinel, t, path) && t.Node? && t.left.Node? && n == t.p
      modifies `mem, `root
      ensures Zip(mem, root, sentinel, RotatedRight(t), path)
    {
      ghost var m, r := mem, root;
      ChildPtrs(m, r, sentinel, t, path);
      RotateRight(n);
      RotatedRightZip(m, r, sentinel, t, path, mem, root);
    }

    /** The round with a red uncle. */
    method Recolour(node: Ptr, uncle: Ptr, ghost t: Tree, ghost path: Path) returns (up: Ptr)
      requires Zip(mem, root, sentinel, t, path) && t.Node? && node == t.p && !path.Top? && !path.up.Top?
      requires Uncle(path).Node? && uncle == Uncle(path).p
      modifies `mem, `root
      ensures Zip(mem, root, sentinel, Recoloured(t, path), path.up.up) && up == path.up.p
    {
      EldersPtrs(mem, root, sentinel, t, path);
      var parent := mem[node].parent;
      up := mem[parent].parent;
      ghost var p, u := Over(t, path), Uncle(path);
      ghost var p' := p.(red := false);
      ghost var side := UnclePath(p', path);
      ZipUp(mem, root, sentinel, t, path);
      Paint(parent, false, p, path.up);
      ZipUp(mem, root, sentinel, p', path.up);
      ZipUp(mem, root, sentinel, u, side);
      Paint(uncle, false, u, side);
      ZipUp(mem, root, sentinel, u.(red := false), side);
      Paint(up, true, Over(u.(red := false), side), path.up.up);
    }

    /** The round with a black uncle and the node an inner child: it swings to the outside. */
    method Swing(node: Ptr, ghost t: Tree, ghost path: Path) returns (below: Ptr)
      requires Zip(mem, root, sentinel, t, path) && t.Node? && node == t.p && !path.Top? && !path.up.Top?
      modifies `mem, `root
      ensures Zip(mem, root, sentinel, SwungTree(t, path), SwungPath(t, path)) && below == path.p
    {
      EldersPtrs(mem, root, sentinel, t, path);
      ZipUp(mem, root, sentinel, t, path);
      below := mem[node].parent;
      if node == mem[below].right {
        TurnLeft(below, Over(t, path), path.up);
      } else {
        TurnRight(below, Over(t, path), path.up);
      }
      ZipUp(mem, root, sentinel, SwungTree(t, path), SwungPath(t, path));
    }

    /** The end of the round with a black uncle: the parent takes the grandparent's place and colour. */
    method Lift(node: Ptr, ghost t: Tree, ghost path: Path)
      requires Zip(mem, root, sentinel, t, path) && t.Node? && node == t.p && !path.Top? && !path.up.Top? && Outer(path)
      modifies `mem, `root
      ensures Zip(mem, root, sentinel, t, LiftedPath(path))
    {
      EldersPtrs(mem, root, sentinel, t, path);
      var parent := mem[node].parent;
      var grand := mem[parent].parent;
      var left := parent == mem[grand].left;
      ghost var p, p' := Over(t, path), Over(t, path).(red := false);
      ghost var g := Over(p', path.up);
      ZipUp(mem, root, sentinel, t, path);
      Paint(parent, false, p, path.up);
      ZipUp(mem, root, sentinel, p', path.up);
      Paint(grand, true, g, path.up.up);
      if left {
        TurnRight(grand, g.(red := true), path.up.up);
      } else {
        TurnLeft(grand, g.(red := true), path.up.up);
      }
      ZipUp(mem, root, sentinel, t, LiftedPath(path));
    }

    /** `insert`: goes down, to the right at equal keys, and hangs `n` as a red leaf. */
    method Hang(n: Ptr) returns (ghost path: Path)
      requires Zip(mem, root, sentinel, tree, Top) && Sorted(Inorder(tree)) && tree.Node?
      requires n in mem && n !in Ptrs(tree) && n != sentinel && n != NULL
      modifies `mem
      ensures path != Top && Plug(Leaf, path) == tree && Splits(path, old(mem[n].key))
      ensures Zip(mem, root, sentinel, Fresh(n, old(mem[n].key), true), path)
    {
      var r := root;
      var key := mem[n].key;
      ghost var t := tree;
      path := Top;
      var p := sentinel;
      while true
        invariant Zip(mem, root, sentinel, t, path) && t.Node? && r == t.p
        invariant Plug(t, path) == tree && Sorted(Inorder(t)) && Splits(path, key)
        invariant mem == old(mem)
        decreases t
      {
        RotationPtrs(mem, root, sentinel, t, path);
        SplitsDown(t, path, key);
        var left := key < mem[r].key;
        p := if left then mem[r].left else mem[r].right;
        path := Down(t, path, left);
        t := if left then t.left else t.right;
        ZipUp(mem, root, sentinel, t, path);
        if p == sentinel {
          break;
        }
        r := p;
      }
      PtrsPlug(t, path);
      ghost var m := mem;
      mem := mem[r := if key < mem[r].key then mem[r].(left := n) else mem[r].(right := n)];
      mem := mem[n := Cell(key, sentinel, sentinel, r, true)];
      AttachZip(m, root, sentinel, path, n, key, mem);
    }

    /** One round of the repair below a left parent. */
    method RoundLeft(node: Ptr, ghost t: Tree, ghost path: Path) returns (up: Ptr, ghost t': Tree, ghost path': Path)
      requires Zip(mem, root, sentinel, t, path) && Repairing(t, path) && node == t.p
      requires ParentRed(path) && !path.up.Top? && path.up.InLeft?
      modifies `mem, `root
      ensures Zip(mem, root, sentinel, t', path') && t'.Node? && up == t'.p && Repairing(t', path')
      ensures Depth(path') < Depth(path) && Inorder(Plug(t', path')) == Inorder(Plug(t, path))
    {
      EldersPtrs(mem, root, sentinel, t, path);
      var temp := mem[mem[mem[node].parent].parent].right;
      if mem[temp].red {
        RecolouredOk(t, path);
        RecolouredOrder(t, path);
        up := Recolour(node, temp, t, path);
        t', path' := Recoloured(t, path), path.up.up;
      } else {
        up, t', path' := node, t, path;
        if node == mem[mem[node].parent].right {
          SwungOk(t, path);
          up := Swing(node, t, path);
          t', path' := SwungTree(t, path), SwungPath(t, path);
        }
        LiftedOk(t', path');
        LiftedOrder(t', path');
        Lift(up, t', path');
        path' := LiftedPath(path');
      }
    }

    /** One round of the repair below a right parent. */
    method RoundRight(node: Ptr, ghost t: Tree, ghost path: Path) returns (up: Ptr, ghost t': Tree, ghost path': Path)
      requires Zip(mem, root, sentinel, t, path) && Repairing(t, path) && node == t.p
      requires ParentRed(path) && !path.up.Top? && path.up.InRight?
      modifies `mem, `root
      ensures Zip(mem, root, sentinel, t', path') && t'.Node? && up == t'.p && Repairing(t', path')
      ensures Depth(path') < Depth(path) && Inorder(Plug(t', path')) == Inorder(Plug(t, path))
    {
      EldersPtrs(mem, root, sentinel, t, path);
      var temp := mem[mem[mem[node].parent].parent].left;
      if mem[temp].red {
        RecolouredOk(t, path);
        RecolouredOrder(t, path);
        up := Recolour(node, temp, t, path);
        t', path' := Recoloured(t, path), path.up.up;
      } else {
        up, t', path' := node, t, path;
        if node == mem[mem[node].parent].left {
          SwungOk(t, path);
          up := Swing(node, t, path);
          t', path' := SwungTree(t, path), SwungPath(t, path);
        }
        LiftedOk(t', path');
        LiftedOrder(t', path');
        Lift(up, t', path');
        path' := LiftedPath(path');
      }
    }

    /** The loop of `rbtree_insert`. */
    method Repair(n: Ptr, ghost hung: Tree, ghost from: Path) returns (ghost whole: Tree)
      requires Zip(mem, root, sentinel, hung, from) && Repairing(hung, from) && n == hung.p
      modifies `mem, `root
      ensures Zip(mem, root, sentinel, whole, Top) && whole.Node?
      ensures RedBlack(Blacken(whole)) && Inorder(whole) == Inorder(Plug(hung, from))
    {
      var node := n;
      ghost var t, path := hung, from;
      RotationPtrs(mem, root, sentinel, t, path);
      while node != root && mem[mem[node].parent].red
        invariant Zip(mem, root, sentinel, t, path) && t.Node? && node == t.p && Repairing(t, path)
        invariant Inorder(Plug(t, path)) == Inorder(Plug(hung, from))
        invariant node in mem && (node != root <==> !path.Top?)
        invariant node != root ==> mem[node].parent in mem && mem[mem[node].parent].red == path.red
        decreases Depth(path)
      {
        Elders(t, path);
        EldersPtrs(mem, root, sentinel, t, path);
        if mem[node].parent == mem[mem[mem[node].parent].parent].left {
          node, t, path := RoundLeft(node, t, path);
        } else {
          node, t, path := RoundRight(node, t, path);
        }
        RotationPtrs(mem, root, sentinel, t, path);
      }
      Repaired(t, path);
      ZipPlug(mem, root, sentinel, t, path);
      whole := Plug(t, path);
      PtrsPlug(t, path);
    }

    /** `rbtree_insert`: the new node comes after all nodes with the same key. */
    method Insert(n: Ptr)
      requires Valid() && n in mem && n !in Ptrs(tree) && n != sentinel && n != NULL
      modifies `mem, `root, `tree
      ensures Valid() && Inorder(tree) == Place(old(Inorder(tree)), Item(n, old(mem[n].key)))
    {
      ghost var item := Item(n, mem[n].key);
      PlaceSorted(Inorder(tree), item);
      if root == sentinel {
        mem := mem[n := Cell(mem[n].key, sentinel, sentinel, NULL, false)];
        root := n;
        tree := Fresh(n, item.key, false);
      } else {
        ghost var path := Hang(n);
        NewNode(path, n, item.key);
        HungInOrder(path, item);
        ghost var whole := Repair(n, Fresh(n, item.key, true), path);
        Paint(root, false, whole, Top);
        tree := Blacken(whole);
      }
    }

    /** `rbtree_min` below `n`. */
    method MinFrom(n: Ptr, ghost at: Tree, ghost from: Path) returns (r: Ptr)
      requires Zip(mem, root, sentinel, at, from) && at.Node? && n == at.p
      ensures Inorder(at) != [] && r == Inorder(at)[0].p
    {
      r := n;
      ghost var t, path := at, from;
      RotationPtrs(mem, root, sentinel, t, path);
      while mem[r].left != sentinel
        invariant Zip(mem, root, sentinel, t, path) && t.Node? && r == t.p
        invariant r in mem && mem[r].left == Root(t.left, sentinel)
        invariant Inorder(at) != [] && Inorder(at)[0] == Inorder(t)[0]
        decreases t
      {
        r := mem[r].left;
        t, path := t.left, Down(t, path, true);
        ZipUp(mem, root, sentinel, t, path);
        RotationPtrs(mem, root, sentinel, t, path);
      }
    }

    method MaxFrom(n: Ptr, ghost at: Tree, ghost from: Path) returns (r: Ptr)
      requires Zip(mem, root, sentinel, at, from) && at.Node? && n == at.p
      ensures Inorder(at) != [] && r == Inorder(at)[|Inorder(at)| - 1].p
    {
      r := n;
      ghost var t, path := at, from;
      RotationPtrs(mem, root, sentinel, t, path);
      while mem[r].right != sentinel
        invariant Zip(mem, root, sentinel, t, path) && t.Node? && r == t.p
        invariant r in mem && mem[r].right == Root(t.right, sentinel)
        invariant Inorder(at) != [] && Inorder(at)[|Inorder(at)| - 1] == Inorder(t)[|Inorder(t)| - 1]
        decreases t
      {
        r := mem[r].right;
        t, path := t.right, Down(t, path, false);
        ZipUp(mem, root, sentinel, t, path);
        RotationPtrs(mem, root, sentinel, t, path);
      }
    }

    /** `rbtree_min`: the first node in order, or null when there is none. */
    method Min() returns (r: Ptr)
      requires Valid()
      ensures r == if Inorder(tree) == [] then NULL else Inorder(tree)[0].p
    {
      if root == NULL || root == sentinel {
        r := NULL;
      } else {
        r := MinFrom(root, tree, Top);
      }
    }

    method Max() returns (r: Ptr)
      requires Valid()
      ensures r == if Inorder(tree) == [] then NULL else Inorder(tree)[|Inorder(tree)| - 1].p
    {
      if root == NULL || root == sentinel {
        r := NULL;
      } else {
        r := MaxFrom(root, tree, Top);
      }
    }

    /** `ngx_rbtree_next`: from the `i`-th node in order to the next, or to null from the last. */
    method Next(n: Ptr, ghost i: nat) returns (r: Ptr)
      requires Valid() && i < |Inorder(tree)| && n == Inorder(tree)[i].p
      ensures r == if i + 1 < |Inorder(tree)| then Inorder(tree)[i + 1].p else NULL
    {
      ghost var at := Locate(tree, Top, i);
      ghost var t, path := at.0, at.1;
      ZipUnplug(mem, root, sentinel, t, path);
      RotationPtrs(mem, root, sentinel, t, path);
      InorderPlug(t, path);
      if mem[n].right != sentinel {
        ZipUp(mem, root, sentinel, t.right, Down(t, path, false));
        r := MinFrom(mem[n].right, t.right, Down(t, path, false));
        assert Inorder(tree)[i + 1] == Inorder(t.right)[0];
      } else {
        r := Climb(n, i, t, path);
      }
    }

    /** Up to the first ancestor that is reached from the left: it follows everything below. */
    method Climb(n: Ptr, ghost i: nat, ghost t0: Tree, ghost path0: Path) returns (r: Ptr)
      requires Valid() && i < |Inorder(tree)| && Zip(mem, root, sentinel, t0, path0) && t0.Node? && n == t0.p
      requires Plug(t0, path0) == tree && |Before(path0)| + |Inorder(t0)| == i + 1
      ensures r == if i + 1 < |Inorder(tree)| then Inorder(tree)[i + 1].p else NULL
    {
      ghost var t, path := t0, path0;
      var node := n;
      while true
        invariant Zip(mem, root, sentinel, t, path) && t.Node? && node == t.p && Plug(t, path) == tree
        invariant |Before(path)| + |Inorder(t)| == i + 1
        decreases path
      {
        RotationPtrs(mem, root, sentinel, t, path);
        InorderPlug(t, path);
        var parent := mem[node].parent;
        if node == root {
          return NULL;
        }
        if node == mem[parent].left {
          assert Inorder(tree)[i + 1] == Behind(path)[0];
          return parent;
        }
        ZipUp(mem, root, sentinel, t, path);
        node := parent;
        t, path := Over(t, path), path.up;
      }
    }

    /** Going from the minimum to the next until null lists every node once, in key order. */
    method Walk() returns (found: seq<Ptr>)
      requires Valid()
      ensures |found| == |Inorder(tree)| && forall i | 0 <= i < |found| :: found[i] == Inorder(tree)[i].p
      ensures forall i, j | 0 <= i < j < |found| :: found[i] != found[j]
    {
      found := [];
      var node := Min();
      while node != NULL
        invariant |found| <= |Inorder(tree)|
        invariant forall i | 0 <= i < |found| :: found[i] == Inorder(tree)[i].p
        invariant node == if |found| < |Inorder(tree)| then Inorder(tree)[|found|].p else NULL
        decreases |Inorder(tree)| - |found|
      {
        var n := Next(node, |found|);
        found := found + [node];
        node := n;
      }
      if |found| < |Inorder(tree)| {
        InorderPtrs(tree, |found|);
      }
      forall i, j | 0 <= i < j < |found| ensures found[i] != found[j] {
        InorderOnce(tree, i, j);
      }
    }
  }
}
