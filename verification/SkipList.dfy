/** The skip list of the timer: nodes with several forward links, changed in place.

  `order` lists the nodes of the bottom level and `height` tells how many levels a node was linked
  into. The nodes of level `i` are those of `order` that are higher than `i`, in the same order. */
module SkipList {
  import opened Pointers

  const MAX_LEVEL: nat := 32

  datatype Node = Node(score: nat, forward: seq<Ptr>)

  type Mem = map<Ptr, Node>

  predicate Tall(height: map<Ptr, nat>, p: Ptr, i: nat) {
    p in height && i < height[p]
  }

  /** The nodes of level `i`. */
  function Lane(order: seq<Ptr>, height: map<Ptr, nat>, i: nat): seq<Ptr> {
    if order == [] then []
    else (if Tall(height, order[0], i) then [order[0]] else []) + Lane(order[1..], height, i)
  }

  lemma {:induction false} LaneConcat(a: seq<Ptr>, b: seq<Ptr>, height: map<Ptr, nat>, i: nat)
    ensures Lane(a + b, height, i) == Lane(a, height, i) + Lane(b, height, i)
  {
    if a == [] {
      assert a + b == b;
    } else {
      assert (a + b)[1..] == a[1..] + b;
      LaneConcat(a[1..], b, height, i);
    }
  }

  lemma {:induction false} LaneMember(order: seq<Ptr>, height: map<Ptr, nat>, i: nat, p: Ptr)
    ensures p in Lane(order, height, i) <==> p in order && Tall(height, p, i)
  {
    if order != [] {
      LaneMember(order[1..], height, i, p);
    }
  }

  lemma {:induction false} LaneAgree(order: seq<Ptr>, height: map<Ptr, nat>, height': map<Ptr, nat>, i: nat)
    requires forall p | p in order :: Tall(height, p, i) == Tall(height', p, i)
    ensures Lane(order, height, i) == Lane(order, height', i)
  {
    if order != [] {
      LaneAgree(order[1..], height, height', i);
    }
  }

  /** Every level is a subsequence of each level below: it selects the higher nodes from it. */
  lemma {:induction false} LaneOfLane(order: seq<Ptr>, height: map<Ptr, nat>, i: nat, j: nat)
    requires i <= j
    ensures Lane(Lane(order, height, i), height, j) == Lane(order, height, j)
  {
    if order != [] {
      LaneOfLane(order[1..], height, i, j);
      LaneConcat(if Tall(height, order[0], i) then [order[0]] else [], Lane(order[1..], height, i), height, j);
    }
  }

  ghost predicate Distinct(s: seq<Ptr>) {
    forall i, j | 0 <= i < j < |s| :: s[i] != s[j]
  }

  lemma {:induction false} LaneDistinct(order: seq<Ptr>, height: map<Ptr, nat>, i: nat)
    requires Distinct(order)
    ensures Distinct(Lane(order, height, i))
  {
    if order != [] {
      LaneDistinct(order[1..], height, i);
      LaneMember(order[1..], height, i, order[0]);
    }
  }

  // ----- order by score

  function Score(m: Mem, p: Ptr): nat {
    if p in m then m[p].score else 0
  }

  ghost predicate Sorted(m: Mem, s: seq<Ptr>) {
    forall i, j | 0 <= i < j < |s| :: Score(m, s[i]) <= Score(m, s[j])
  }

  /** How many nodes at the front have a score below `score`. */
  function Rank(m: Mem, s: seq<Ptr>, score: nat): (k: nat)
    ensures k <= |s|
    ensures forall i | 0 <= i < k :: Score(m, s[i]) < score
    ensures k < |s| ==> Score(m, s[k]) >= score
  {
    if s == [] || Score(m, s[0]) >= score then 0 else 1 + Rank(m, s[1..], score)
  }

  // ----- links of one level

  function After(path: seq<Ptr>, k: nat): Ptr {
    if k + 1 < |path| then path[k + 1] else NULL
  }

  /** The links of level `i` go along `path` and end in null. */
  ghost predicate Links(m: Mem, i: nat, path: seq<Ptr>) {
    forall k: nat | k < |path| ::
      path[k] in m && i < |m[path[k]].forward| && m[path[k]].forward[i] == After(path, k)
  }

  function SetLink(m: Mem, p: Ptr, i: nat, q: Ptr): Mem
    requires p in m && i < |m[p].forward|
  {
    m[p := m[p].(forward := m[p].forward[i := q])]
  }

  lemma SetLinkOther(m: Mem, p: Ptr, i: nat, q: Ptr, j: nat, path: seq<Ptr>)
    requires p in m && i < |m[p].forward| && Links(m, j, path) && (i != j || p !in path)
    ensures Links(SetLink(m, p, i, q), j, path)
  {
  }

  lemma SetLinks(m: Mem, n: Ptr, p: Ptr, i: nat, q: Ptr)
    requires n in m && i < |m[n].forward| && p in m && i < |m[p].forward| && n != p
    ensures var m' := SetLink(SetLink(m, n, i, q), p, i, n);
      && m'.Keys == m.Keys && i < |m'[n].forward| && m'[n].forward[i] == q
      && i < |m'[p].forward| && m'[p].forward[i] == n
      && forall x | x in m && x != n && x != p :: m'[x] == m[x]
  {
  }

  lemma Spliced(path: seq<Ptr>, j: nat, n: Ptr)
    requires j < |path|
    ensures var path' := path[..j + 1] + [n] + path[j + 1..];
      && |path'| == |path| + 1
      && forall k: nat | k < |path'| :: path'[k] == if k <= j then path[k] else if k == j + 1 then n else path[k - 1]
  {
  }

  ghost predicate LinkAt(m: Mem, i: nat, path: seq<Ptr>, k: nat)
    requires k < |path|
  {
    path[k] in m && i < |m[path[k]].forward| && m[path[k]].forward[i] == After(path, k)
  }

  /** `Links`, place by place. */
  ghost predicate LinkedAll(m: Mem, i: nat, path: seq<Ptr>) {
    forall k: nat | k < |path| :: LinkAt(m, i, path, k)
  }

  lemma LinkIn(m: Mem, i: nat, path: seq<Ptr>, j: nat, n: Ptr)
    requires Links(m, i, path) && Distinct(path) && j < |path| && n !in path && n in m && i < |m[n].forward|
    ensures var m' := SetLink(SetLink(m, n, i, m[path[j]].forward[i]), path[j], i, n);
            Links(m', i, path[..j + 1] + [n] + path[j + 1..])
  {
    var m' := SetLink(SetLink(m, n, i, m[path[j]].forward[i]), path[j], i, n);
    SetLinks(m, n, path[j], i, m[path[j]].forward[i]);
    LinkedIn(m, m', i, path, j, n);
    LinkedLinks(m', i, path[..j + 1] + [n] + path[j + 1..]);
  }

  lemma LinkedLinks(m: Mem, i: nat, path: seq<Ptr>)
    requires LinkedAll(m, i, path)
    ensures Links(m, i, path)
  {
    forall k: nat | k < |path|
      ensures path[k] in m && i < |m[path[k]].forward| && m[path[k]].forward[i] == After(path, k)
    {
      assert LinkAt(m, i, path, k);
    }
  }

  lemma LinkedIn(m: Mem, m': Mem, i: nat, path: seq<Ptr>, j: nat, n: Ptr)
    requires LinkedAll(m, i, path) && Distinct(path) && j < |path| && n !in path && n in m && m'.Keys == m.Keys
    requires i < |m'[n].forward| && m'[n].forward[i] == After(path, j)
    requires path[j] in m && i < |m'[path[j]].forward| && m'[path[j]].forward[i] == n
    requires forall x | x in m && x != n && x != path[j] :: m'[x] == m[x]
    ensures LinkedAll(m', i, path[..j + 1] + [n] + path[j + 1..])
  {
    var path' := path[..j + 1] + [n] + path[j + 1..];
    forall k: nat | k < |path'|
      ensures LinkAt(m', i, path', k)
    {
      Spliced(path, j, n);
      if k < j {
        assert LinkAt(m, i, path, k) && path[k] in path && path[k] != path[j];
      } else if k > j + 1 {
        assert LinkAt(m, i, path, k - 1) && path[k - 1] in path && path[k - 1] != path[j];
      } else {
        assert path'[j] == path[j] && path'[j + 1] == n && After(path', j + 1) == After(path, j);
      }
    }
  }

  lemma LinkOut(m: Mem, i: nat, path: seq<Ptr>, j: nat)
    requires Links(m, i, path) && Distinct(path) && j + 1 < |path|
    ensures var m' := SetLink(m, path[j], i, m[path[j + 1]].forward[i]);
            Links(m', i, path[..j + 1] + path[j + 2..])
  {
    var path' := path[..j + 1] + path[j + 2..];
    var m' := SetLink(m, path[j], i, m[path[j + 1]].forward[i]);
    forall k: nat | k < |path'|
      ensures path'[k] in m' && i < |m'[path'[k]].forward| && m'[path'[k]].forward[i] == After(path', k)
    {
      if k < j {
        assert path'[k] == path[k] != path[j] && After(path', k) == After(path, k);
      } else if k > j {
        assert path'[k] == path[k + 1] != path[j] && After(path', k) == After(path, k + 1);
      } else {
        assert path'[j] == path[j] && After(path', j) == After(path, j + 1);
      }
    }
  }

  /** The levels below `a` are linked along one list, those from `a` on along another. */
  ghost predicate Levels(m: Mem, header: Ptr, order: seq<Ptr>, height: map<Ptr, nat>, from: nat, to: nat) {
    forall i: nat | from <= i < to :: Links(m, i, [header] + Lane(order, height, i))
  }

  ghost predicate NodeOk(m: Mem, height: map<Ptr, nat>, level: nat, p: Ptr) {
    && p in m && p in height && p != NULL
    && 1 <= height[p] <= level && height[p] <= |m[p].forward|
  }

  /** The last node of level `i` before place `k` of the order, or the header. */
  function Pred(header: Ptr, order: seq<Ptr>, height: map<Ptr, nat>, k: nat, i: nat): Ptr
    requires k <= |order|
  {
    var path := [header] + Lane(order[..k], height, i);
    path[|path| - 1]
  }

  ghost predicate NodesOk(m: Mem, order: seq<Ptr>, height: map<Ptr, nat>, level: nat) {
    forall p | p in order :: NodeOk(m, height, level, p)
  }

  ghost predicate AllBelow(m: Mem, s: seq<Ptr>, score: nat) {
    forall p | p in s :: p in m && p != NULL && Score(m, p) < score
  }

  ghost predicate NoneBelow(m: Mem, s: seq<Ptr>, score: nat) {
    forall p | p in s :: p in m && p != NULL && Score(m, p) >= score
  }

  lemma LowScores(m: Mem, order: seq<Ptr>, height: map<Ptr, nat>, level: nat, score: nat, i: nat)
    requires NodesOk(m, order, height, level)
    ensures AllBelow(m, Lane(order[..Rank(m, order, score)], height, i), score)
  {
    var low := order[..Rank(m, order, score)];
    forall p | p in Lane(low, height, i) ensures p in m && p != NULL && Score(m, p) < score {
      LaneMember(low, height, i, p);
      assert p in order && NodeOk(m, height, level, p);
    }
  }

  lemma HighScores(m: Mem, order: seq<Ptr>, height: map<Ptr, nat>, level: nat, score: nat, i: nat)
    requires Sorted(m, order) && NodesOk(m, order, height, level)
    ensures NoneBelow(m, Lane(order[Rank(m, order, score)..], height, i), score)
  {
    var k := Rank(m, order, score);
    forall p | p in Lane(order[k..], height, i) ensures p in m && p != NULL && Score(m, p) >= score {
      LaneMember(order[k..], height, i, p);
      var n :| k <= n < |order| && order[n] == p;
      assert k < n ==> Score(m, order[k]) <= Score(m, order[n]);
      assert NodeOk(m, height, level, p);
    }
  }

  /** The header and the nodes of a level, split by a score at place `n`. */
  ghost predicate SplitAt(m: Mem, path: seq<Ptr>, score: nat, n: nat) {
    && n < |path|
    && (forall j | 1 <= j < |path| :: path[j] in m && path[j] != NULL)
    && (forall j | 1 <= j <= n :: Score(m, path[j]) < score)
    && (n + 1 < |path| ==> Score(m, path[n + 1]) >= score)
  }

  lemma LaneSplit(m: Mem, header: Ptr, order: seq<Ptr>, height: map<Ptr, nat>, level: nat, score: nat, i: nat)
    requires Sorted(m, order) && NodesOk(m, order, height, level)
    ensures var low := Lane(order[..Rank(m, order, score)], height, i);
            var path := [header] + Lane(order, height, i);
            SplitAt(m, path, score, |low|) && path[..|low| + 1] == [header] + low
  {
    var k := Rank(m, order, score);
    var low, high := Lane(order[..k], height, i), Lane(order[k..], height, i);
    assert order[..k] + order[k..] == order;
    LaneConcat(order[..k], order[k..], height, i);
    LowScores(m, order, height, level, score, i);
    HighScores(m, order, height, level, score, i);
    SplitParts(m, header, low, high, score);
  }

  lemma SplitParts(m: Mem, header: Ptr, low: seq<Ptr>, high: seq<Ptr>, score: nat)
    requires AllBelow(m, low, score) && NoneBelow(m, high, score)
    ensures var path := [header] + (low + high);
            SplitAt(m, path, score, |low|) && path[..|low| + 1] == [header] + low
  {
    PathParts(header, low, high);
  }

  lemma PathParts(header: Ptr, low: seq<Ptr>, high: seq<Ptr>)
    ensures var path := [header] + (low + high);
            && path[..|low| + 1] == [header] + low && path[|low| + 1..] == high
            && (forall j | 1 <= j < |path| :: path[j] in if j <= |low| then low else high)
  {
    var path := [header] + (low + high);
    forall j | 1 <= j < |path| ensures path[j] in if j <= |low| then low else high {
      assert path[j] == (low + high)[j - 1];
    }
  }

  /** A node of a level is a node of the level below. */
  lemma StepDown(low: seq<Ptr>, height: map<Ptr, nat>, i: nat, header: Ptr, x: Ptr)
    requires x in [header] + Lane(low, height, i + 1)
    ensures x in [header] + Lane(low, height, i)
  {
    LaneMember(low, height, i + 1, x);
    LaneMember(low, height, i, x);
  }

  // ----- what inserting and removing a node does to a level

  function Inserted(order: seq<Ptr>, k: nat, n: Ptr): seq<Ptr>
    requires k <= |order|
  {
    order[..k] + [n] + order[k..]
  }

  function Removed(order: seq<Ptr>, k: nat): seq<Ptr>
    requires k < |order|
  {
    order[..k] + order[k + 1..]
  }

  /** The place of `Pred` on the path of level `i`. */
  function Place(order: seq<Ptr>, height: map<Ptr, nat>, k: nat, i: nat): nat
    requires k <= |order|
  {
    |Lane(order[..k], height, i)|
  }

  lemma PredAt(header: Ptr, order: seq<Ptr>, height: map<Ptr, nat>, k: nat, i: nat)
    requires k <= |order|
    ensures var path := [header] + Lane(order, height, i);
            Place(order, height, k, i) < |path| && path[Place(order, height, k, i)] == Pred(header, order, height, k, i)
  {
    assert order[..k] + order[k..] == order;
    LaneConcat(order[..k], order[k..], height, i);
  }

  lemma InsertedPath(header: Ptr, order: seq<Ptr>, height: map<Ptr, nat>, k: nat, n: Ptr, h: nat, i: nat)
    requires k <= |order| && n !in order
    ensures var path := [header] + Lane(order, height, i);
            var j := Place(order, height, k, i);
            var path' := [header] + Lane(Inserted(order, k, n), height[n := h], i);
            j < |path| && path' == if i < h then path[..j + 1] + [n] + path[j + 1..] else path
  {
    var low, high := order[..k], order[k..];
    assert low + high == order;
    LaneConcat(low, high, height, i);
    InsertedLane(low, high, height, n, h, i);
    Cut(header, Lane(low, height, i), if i < h then [n] else [], Lane(high, height, i));
    Cut(header, Lane(low, height, i), [], Lane(high, height, i));
  }

  lemma InsertedLane(low: seq<Ptr>, high: seq<Ptr>, height: map<Ptr, nat>, n: Ptr, h: nat, i: nat)
    requires n !in low && n !in high
    ensures Lane(low + [n] + high, height[n := h], i)
            == Lane(low, height, i) + (if i < h then [n] else []) + Lane(high, height, i)
  {
    LaneConcat(low + [n], high, height[n := h], i);
    LaneConcat(low, [n], height[n := h], i);
    assert [n][1..] == [];
    LaneAgree(low, height, height[n := h], i);
    LaneAgree(high, height, height[n := h], i);
  }

  lemma RemovedLanes(low: seq<Ptr>, x: Ptr, high: seq<Ptr>, height: map<Ptr, nat>, i: nat)
    ensures Lane(low + [x] + high, height, i) == Lane(low, height, i) + Lane([x], height, i) + Lane(high, height, i)
    ensures Lane(low + high, height, i) == Lane(low, height, i) + Lane(high, height, i)
    ensures Lane([x], height, i) == if Tall(height, x, i) then [x] else []
  {
    LaneConcat(low + [x], high, height, i);
    LaneConcat(low, [x], height, i);
    LaneConcat(low, high, height, i);
    assert [x][1..] == [];
  }

  lemma CutOne(header: Ptr, a: seq<Ptr>, x: Ptr, b: seq<Ptr>)
    ensures var path := [header] + (a + [x] + b);
            path[|a| + 1] == x && [header] + (a + b) == path[..|a| + 1] + path[|a| + 2..]
  {
    Cut(header, a, [x], b);
    Cut(header, a, [], b);
  }

  lemma RemovedPath(header: Ptr, order: seq<Ptr>, height: map<Ptr, nat>, k: nat, i: nat)
    requires k < |order|
    ensures var path := [header] + Lane(order, height, i);
            var j := Place(order, height, k, i);
            var path' := [header] + Lane(Removed(order, k), height, i);
            if Tall(height, order[k], i) then
              j + 1 < |path| && path[j + 1] == order[k] && path' == path[..j + 1] + path[j + 2..]
            else path' == path
  {
    var low, x, high := order[..k], [order[k]], order[k + 1..];
    assert low + x + high == order;
    RemovedLanes(low, order[k], high, height, i);
    var a, b := Lane(low, height, i), Lane(high, height, i);
    if Tall(height, order[k], i) {
      CutOne(header, a, order[k], b);
    } else {
      Cut(header, a, [], b);
    }
  }

  lemma Cut(header: Ptr, a: seq<Ptr>, x: seq<Ptr>, b: seq<Ptr>)
    ensures var path := [header] + (a + x + b);
            && path[..|a| + 1] == [header] + a && path[|a| + 1..] == x + b && path[|a| + 1 + |x|..] == b
            && path == [header] + a + x + b
    ensures a + [] + b == a + b
  {
  }

  /** Scores and towers stay; only links change. */
  ghost predicate SameNodes(m: Mem, m': Mem) {
    m'.Keys == m.Keys && forall p | p in m :: m'[p].score == m[p].score && |m'[p].forward| == |m[p].forward|
  }

  lemma PathDistinct(header: Ptr, order: seq<Ptr>, height: map<Ptr, nat>, i: nat)
    requires Distinct([header] + order)
    ensures Distinct([header] + Lane(order, height, i))
    ensures forall p | p in Lane(order, height, i) :: p in order && p != header
  {
    DistinctCons(header, order);
    forall p | p in Lane(order, height, i) ensures p in order && p != header {
      LaneMember(order, height, i, p);
    }
    LaneDistinct(order, height, i);
    DistinctCons(header, Lane(order, height, i));
  }

  lemma DistinctCons(p: Ptr, s: seq<Ptr>)
    ensures Distinct([p] + s) <==> Distinct(s) && p !in s
  {
    var all := [p] + s;
    assert all[1..] == s;
    if Distinct(all) {
      forall i, j | 0 <= i < j < |s| ensures s[i] != s[j] {
        assert s[i] == all[i + 1] && s[j] == all[j + 1];
      }
      forall i | 0 <= i < |s| ensures s[i] != p {
        assert s[i] == all[i + 1] && p == all[0];
      }
    }
    if Distinct(s) && p !in s {
      forall i, j | 0 <= i < j < |all| ensures all[i] != all[j] {
        assert all[j] == s[j - 1] && (i > 0 ==> all[i] == s[i - 1]);
      }
    }
  }

  lemma SetLinkSame(m: Mem, p: Ptr, i: nat, q: Ptr)
    requires p in m && i < |m[p].forward|
    ensures SameNodes(m, SetLink(m, p, i, q))
  {
  }

  /** Inserting on one level. */
  lemma LinkLevel(m: Mem, header: Ptr, order: seq<Ptr>, height: map<Ptr, nat>, k: nat, n: Ptr, h: nat, i: nat)
    requires k <= |order| && Distinct([header] + order) && n !in order && n != header && i < h
    requires Links(m, i, [header] + Lane(order, height, i)) && n in m && i < |m[n].forward|
    ensures var p := Pred(header, order, height, k, i);
            && p in m && i < |m[p].forward| && p != n
            && var m' := SetLink(SetLink(m, n, i, m[p].forward[i]), p, i, n);
               SameNodes(m, m') && Links(m', i, [header] + Lane(Inserted(order, k, n), height[n := h], i))
  {
    var path := [header] + Lane(order, height, i);
    PathDistinct(header, order, height, i);
    PredAt(header, order, height, k, i);
    InsertedPath(header, order, height, k, n, h, i);
    var j := Place(order, height, k, i);
    assert path[j] in m;
    LinkIn(m, i, path, j, n);
    SetLinkSame(m, n, i, m[path[j]].forward[i]);
    SetLinkSame(SetLink(m, n, i, m[path[j]].forward[i]), path[j], i, n);
  }

  /** The change that removal of node `x` makes on level `i`, where `p` comes before it. */
  function Unlinked(m: Mem, p: Ptr, x: Ptr, i: nat): Mem
    requires p in m && i < |m[p].forward|
  {
    if m[p].forward[i] == x && x in m && i < |m[x].forward| then SetLink(m, p, i, m[x].forward[i]) else m
  }

  lemma UnlinkTall(m: Mem, i: nat, path: seq<Ptr>, j: nat)
    requires Links(m, i, path) && Distinct(path) && j + 1 < |path|
    ensures var p, x := path[j], path[j + 1];
            && p in m && i < |m[p].forward| && m[p].forward[i] == x && x in m && i < |m[x].forward|
            && SameNodes(m, Unlinked(m, p, x, i)) && Links(Unlinked(m, p, x, i), i, path[..j + 1] + path[j + 2..])
  {
    LinkOut(m, i, path, j);
    assert path[j] in m && path[j + 1] in m;
    SetLinkSame(m, path[j], i, m[path[j + 1]].forward[i]);
  }

  lemma UnlinkShort(m: Mem, i: nat, path: seq<Ptr>, j: nat, x: Ptr)
    requires Links(m, i, path) && j < |path| && x !in path && x != NULL
    ensures var p := path[j];
            p in m && i < |m[p].forward| && m[p].forward[i] != x && Unlinked(m, p, x, i) == m
  {
    assert path[j] in m;
  }

  /** Removing on one level: the link that led to the node skips it, if there is one. */
  lemma UnlinkLevel(m: Mem, header: Ptr, order: seq<Ptr>, height: map<Ptr, nat>, k: nat, i: nat)
    requires k < |order| && Distinct([header] + order) && order[k] != NULL
    requires Links(m, i, [header] + Lane(order, height, i))
    ensures var p, x := Pred(header, order, height, k, i), order[k];
            && p in m && i < |m[p].forward| && (m[p].forward[i] == x ==> x in m && i < |m[x].forward|)
            && SameNodes(m, Unlinked(m, p, x, i))
            && Links(Unlinked(m, p, x, i), i, [header] + Lane(Removed(order, k), height, i))
  {
    var path, j, x := [header] + Lane(order, height, i), Place(order, height, k, i), order[k];
    PathDistinct(header, order, height, i);
    PredAt(header, order, height, k, i);
    RemovedPath(header, order, height, k, i);
    if Tall(height, x, i) {
      UnlinkTall(m, i, path, j);
    } else {
      LaneMember(order, height, i, x);
      DistinctCons(header, order);
      assert x in order;
      UnlinkShort(m, i, path, j, x);
    }
  }

  // ----- the order after a change

  lemma InsertedOrder(m: Mem, m': Mem, header: Ptr, order: seq<Ptr>, n: Ptr)
    requires Distinct([header] + order) && n !in order && n != header && Sorted(m, order) && SameNodes(m, m')
    requires n in m
    ensures var order' := Inserted(order, Rank(m, order, m[n].score), n);
            Distinct([header] + order') && Sorted(m', order') && (forall p | p in order' :: p == n || p in order)
  {
    var k := Rank(m, order, m[n].score);
    DistinctCons(header, order);
    InsertedDistinct(order, k, n);
    DistinctCons(header, Inserted(order, k, n));
    InsertedSorted(m, order, n);
    SameSorted(m, m', Inserted(order, k, n));
  }

  lemma InsertedDistinct(order: seq<Ptr>, k: nat, n: Ptr)
    requires Distinct(order) && n !in order && k <= |order|
    ensures Distinct(Inserted(order, k, n)) && forall p | p in Inserted(order, k, n) :: p == n || p in order
  {
  }

  lemma InsertedSorted(m: Mem, order: seq<Ptr>, n: Ptr)
    requires Sorted(m, order) && n in m
    ensures Sorted(m, Inserted(order, Rank(m, order, m[n].score), n))
  {
    var k := Rank(m, order, m[n].score);
    var order' := Inserted(order, k, n);
    forall i, j | 0 <= i < j < |order'| ensures Score(m, order'[i]) <= Score(m, order'[j]) {
      assert k < |order| && k < j ==> Score(m, order[k]) <= Score(m, order[j - 1]);
    }
  }

  lemma SameSorted(m: Mem, m': Mem, s: seq<Ptr>)
    requires Sorted(m, s) && SameNodes(m, m')
    ensures Sorted(m', s)
  {
    forall p ensures Score(m', p) == Score(m, p) {}
  }

  lemma RemovedOrder(m: Mem, m': Mem, header: Ptr, order: seq<Ptr>, k: nat)
    requires k < |order| && Distinct([header] + order) && Sorted(m, order) && SameNodes(m, m')
    ensures var order' := Removed(order, k);
            Distinct([header] + order') && Sorted(m', order') && (forall p | p in order' :: p in order)
  {
    var order' := Removed(order, k);
    DistinctCons(header, order);
    DistinctCons(header, order');
  }

  /** A level that nobody reaches is empty, and an empty level is reached by nobody. */
  lemma LaneEmpty(order: seq<Ptr>, height: map<Ptr, nat>, i: nat)
    ensures Lane(order, height, i) == [] <==> forall p | p in order :: !Tall(height, p, i)
  {
    if Lane(order, height, i) != [] {
      LaneMember(order, height, i, Lane(order, height, i)[0]);
    } else {
      forall p | p in order ensures !Tall(height, p, i) {
        LaneMember(order, height, i, p);
      }
    }
  }

  /** `update` has the node before place `k` for the levels of a range. */
  ghost predicate Found(update: seq<Ptr>, header: Ptr, order: seq<Ptr>, height: map<Ptr, nat>,
                        k: nat, from: nat, to: nat)
    requires k <= |order| && to <= |update|
  {
    forall i: nat | from <= i < to :: update[i] == Pred(header, order, height, k, i)
  }

  /** `zskiplist`. */
  class SkipList {
    var mem: Mem
    var header: Ptr
    var level: nat
    var length: nat
    ghost var order: seq<Ptr>
    ghost var height: map<Ptr, nat>

    ghost predicate Valid()
      reads this
    {
      && header in mem && header != NULL && |mem[header].forward| == MAX_LEVEL
      && 1 <= level <= MAX_LEVEL && length == |order|
      && Distinct([header] + order) && Sorted(mem, order)
      && NodesOk(mem, order, height, level)
      && Levels(mem, header, order, height, 0, MAX_LEVEL)
      && (level == 1 || Lane(order, height, level - 1) != [])
    }

    /** Goes along level `i` while the next score is smaller. */
    method Along(from: Ptr, i: nat, score: nat, ghost path: seq<Ptr>, ghost n: nat) returns (x: Ptr)
      requires Links(mem, i, path) && SplitAt(mem, path, score, n) && from in path[..n + 1]
      ensures x == path[n]
    {
      x := from;
      ghost var j: nat :| j <= n && path[..n + 1][j] == from;
      while mem[x].forward[i] != NULL && mem[mem[x].forward[i]].score < score
        invariant j <= n && path[j] == x && x in mem && i < |mem[x].forward|
        invariant mem[x].forward[i] == After(path, j) && (After(path, j) == NULL || After(path, j) in mem)
        decreases n - j
      {
        x := mem[x].forward[i];
        j := j + 1;
      }
    }

    /** The walk shared by insertion and deletion: on each level the last node with a smaller score. */
    method Search(score: nat) returns (update: seq<Ptr>)
      requires Valid()
      ensures |update| == level
      ensures Found(update, header, order, height, Rank(mem, order, score), 0, level)
    {
      update := seq(level, i => NULL);
      var x := header;
      var i := level;
      ghost var k := Rank(mem, order, score);
      while i > 0
        invariant 0 <= i <= level && |update| == level
        invariant i < level ==> x in [header] + Lane(order[..k], height, i)
        invariant i == level ==> x == header
        invariant Found(update, header, order, height, k, i, level)
      {
        i := i - 1;
        if i + 1 < level {
          StepDown(order[..k], height, i, header, x);
        }
        LaneSplit(mem, header, order, height, level, score, i);
        x := Along(x, i, score, [header] + Lane(order, height, i), |Lane(order[..k], height, i)|);
        update := update[i := x];
      }
    }

    constructor (header: Ptr)
      requires header != NULL
      ensures Valid() && order == [] && level == 1 && this.header == header && mem.Keys == {header}
    {
      this.header := header;
      mem := map[header := Node(0, seq(MAX_LEVEL, i => NULL))];
      level, length := 1, 0;
      order, height := [], map[];
    }

    /** `zsl_create_node` and the tower that the caller gives it: a node outside the list. */
    method CreateNode(n: Ptr, score: nat, tower: nat)
      requires Valid() && n !in mem && n != NULL
      modifies `mem
      ensures Valid() && mem == old(mem)[n := Node(score, seq(tower, i => NULL))] && n !in order && n != header
    {
      CreatedLevels(mem, header, order, height, level, n, Node(score, seq(tower, i => NULL)));
      mem := mem[n := Node(score, seq(tower, i => NULL))];
    }

    /** Links `n` into the levels below `h`, after the nodes in `update`. */
    method LinkAll(n: Ptr, h: nat, update: seq<Ptr>, ghost k: nat)
      requires k <= |order| && Distinct([header] + order) && n !in order && n != header
      requires n in mem && h <= |mem[n].forward| && h <= |update| && h <= MAX_LEVEL
      requires Levels(mem, header, order, height, 0, MAX_LEVEL)
      requires forall i: nat | i < h :: update[i] == Pred(header, order, height, k, i)
      modifies `mem
      ensures SameNodes(old(mem), mem)
      ensures Levels(mem, header, Inserted(order, k, n), height[n := h], 0, h)
      ensures Levels(mem, header, order, height, h, MAX_LEVEL)
    {
      ghost var order', height' := Inserted(order, k, n), height[n := h];
      var i := 0;
      while i < h
        invariant i <= h && SameNodes(old(mem), mem)
        invariant Levels(mem, header, order', height', 0, i) && Levels(mem, header, order, height, i, MAX_LEVEL)
      {
        var p := update[i];
        assert Links(mem, i, [header] + Lane(order, height, i));
        LinkLevel(mem, header, order, height, k, n, h, i);
        KeepLevels(mem, header, order', height', 0, i, n, i, mem[p].forward[i], p, n);
        KeepLevels(mem, header, order, height, i + 1, MAX_LEVEL, n, i, mem[p].forward[i], p, n);
        mem := SetLink(mem, n, i, mem[p].forward[i]);
        mem := SetLink(mem, p, i, n);
        i := i + 1;
      }
    }

    /** On levels that nobody reaches yet the header comes before a new node. */
    method Raise(update: seq<Ptr>, h: nat, ghost k: nat) returns (raised: seq<Ptr>)
      requires NodesOk(mem, order, height, level) && k <= |order| && |update| == level < h
      requires Found(update, header, order, height, k, 0, level)
      ensures |raised| == h && Found(raised, header, order, height, k, 0, h)
    {
      forall i: nat | level <= i < h ensures Pred(header, order, height, k, i) == header {
        LaneHigher(mem, order, height, level, k, i);
      }
      var first := header;
      raised := update + seq(h - level, i => first);
    }

    /** `zsl_insert` when the drawn level fits the node's own tower. */
    method Enter(n: Ptr, h: nat)
      requires Valid() && n in mem && n !in order && n != header && n != NULL
      requires 1 <= h <= MAX_LEVEL && h <= |mem[n].forward|
      modifies this
      ensures Valid() && header == old(header) && SameNodes(old(mem), mem)
      ensures order == Inserted(old(order), Rank(old(mem), old(order), old(mem[n].score)), n)
      ensures height == old(height)[n := h] && level == if h > old(level) then h else old(level)
    {
      var update := Search(mem[n].score);
      ghost var k := Rank(mem, order, mem[n].score);
      ghost var m := mem;
      if h > level {
        update := Raise(update, h, k);
        level := h;
      }
      LinkAll(n, h, update, k);
      length := length + 1;
      InsertedOrder(m, mem, header, order, n);
      InsertedLevels(mem, header, order, height, k, n, h);
      InsertedTop(order, height, k, n, h, level);
      order, height := Inserted(order, k, n), height[n := h];
    }

    /** `zsl_insert`: the node goes before its equals. The level `h` is drawn anew; above the node's own tower
        the links would be written outside of it. */
    method Insert(n: Ptr, h: nat) returns (inside: bool)
      requires Valid() && n in mem && n !in order && n != header && n != NULL && 1 <= h <= MAX_LEVEL
      modifies this
      ensures inside <==> h <= old(|mem[n].forward|)
      ensures inside ==> Valid() && header == old(header) && SameNodes(old(mem), mem)
      ensures inside ==> order == Inserted(old(order), Rank(old(mem), old(order), old(mem[n].score)), n)
      ensures inside ==> height == old(height)[n := h] && level == if h > old(level) then h else old(level)
    {
      inside := h <= |mem[n].forward|;
      if inside {
        Enter(n, h);
      }
    }

    /** `zsl_min`: the first node, of the least score. */
    method Min() returns (x: Ptr)
      requires Valid()
      ensures x == if order == [] then NULL else order[0]
      ensures order != [] ==> forall p | p in order :: Score(mem, x) <= Score(mem, p)
    {
      NextAtBottom(mem, header, order, height, level, 0);
      x := mem[header].forward[0];
    }

    method UnlinkDown(x: Ptr)
      requires order != [] && x == order[0] && x != NULL && Distinct([header] + order) && level <= MAX_LEVEL
      requires Levels(mem, header, order, height, 0, MAX_LEVEL)
      requires forall i: nat | level <= i < MAX_LEVEL :: Lane(order, height, i) == []
      modifies `mem
      ensures SameNodes(old(mem), mem) && Levels(mem, header, Removed(order, 0), height, 0, MAX_LEVEL)
    {
      ghost var order' := Removed(order, 0);
      EmptyLevels(mem, header, order, height, 0, level);
      var i: nat := level;
      while i > 0
        invariant i <= level && SameNodes(old(mem), mem)
        invariant Levels(mem, header, order, height, 0, i) && Levels(mem, header, order', height, i, MAX_LEVEL)
      {
        i := i - 1;
        assert Links(mem, i, [header] + Lane(order, height, i));
        UnlinkLevel(mem, header, order, height, 0, i);
        KeepUnlinked(mem, header, order, height, 0, i, header, x, i);
        KeepUnlinked(mem, header, order', height, i + 1, MAX_LEVEL, header, x, i);
        if mem[header].forward[i] == x {
          mem := SetLink(mem, header, i, mem[x].forward[i]);
        }
      }
    }

    method UnlinkUp(x: Ptr, update: seq<Ptr>, ghost k: nat)
      requires k < |order| && x == order[k] && x != NULL && Distinct([header] + order) && level <= MAX_LEVEL
      requires Levels(mem, header, order, height, 0, MAX_LEVEL)
      requires forall i: nat | level <= i < MAX_LEVEL :: Lane(order, height, i) == []
      requires |update| == level && forall i: nat | i < level :: update[i] == Pred(header, order, height, k, i)
      modifies `mem
      ensures SameNodes(old(mem), mem) && Levels(mem, header, Removed(order, k), height, 0, MAX_LEVEL)
    {
      ghost var order' := Removed(order, k);
      EmptyLevels(mem, header, order, height, k, level);
      var i := 0;
      while i < level
        invariant i <= level && SameNodes(old(mem), mem)
        invariant Levels(mem, header, order, height, i, level) && Levels(mem, header, order', height, 0, i)
        invariant Levels(mem, header, order', height, level, MAX_LEVEL)
      {
        assert Links(mem, i, [header] + Lane(order, height, i));
        UnlinkLevel(mem, header, order, height, k, i);
        KeepUnlinked(mem, header, order, height, i + 1, level, update[i], x, i);
        KeepUnlinked(mem, header, order', height, 0, i, update[i], x, i);
        KeepUnlinked(mem, header, order', height, level, MAX_LEVEL, update[i], x, i);
        if mem[update[i]].forward[i] == x {
          mem := SetLink(mem, update[i], i, mem[x].forward[i]);
        }
        i := i + 1;
      }
    }

    /** Takes empty levels off the top. */
    method Shrink()
      requires header in mem && |mem[header].forward| == MAX_LEVEL && 1 <= level <= MAX_LEVEL
      requires NodesOk(mem, order, height, level) && Levels(mem, header, order, height, 0, MAX_LEVEL)
      modifies `level
      ensures 1 <= level <= old(level) && NodesOk(mem, order, height, level)
      ensures level == 1 || Lane(order, height, level - 1) != []
    {
      while level > 1 && mem[header].forward[level - 1] == NULL
        invariant 1 <= level <= old(level) && NodesOk(mem, order, height, level)
      {
        assert Links(mem, level - 1, [header] + Lane(order, height, level - 1));
        TopEmpty(mem, header, order, height, level);
        level := level - 1;
      }
      if level > 1 {
        ghost var path := [header] + Lane(order, height, level - 1);
        assert Links(mem, level - 1, path) && path[0] == header;
      }
    }

    /** The end of both deletions, once node `k` is unlinked. */
    method Drop(ghost m: Mem, ghost k: nat)
      requires header in m && header != NULL && |m[header].forward| == MAX_LEVEL
      requires k < |order| && length == |order| && 1 <= level <= MAX_LEVEL
      requires Distinct([header] + order) && Sorted(m, order) && NodesOk(m, order, height, level)
      requires SameNodes(m, mem) && Levels(mem, header, Removed(order, k), height, 0, MAX_LEVEL)
      modifies `order, `level, `length
      ensures Valid() && order == Removed(old(order), k)
    {
      RemovedOrder(m, mem, header, order, k);
      order := Removed(order, k);
      Shrink();
      length := length - 1;
    }

    /** `zsl_delete_head`. */
    method DeleteHead()
      requires Valid()
      modifies this
      ensures Valid() && header == old(header) && height == old(height) && SameNodes(old(mem), mem)
      ensures order == if old(order) == [] then [] else old(order)[1..]
    {
      var x := Min();
      assert order != [] ==> NodeOk(mem, height, level, order[0]);
      if x == NULL {
        return;
      }
      ghost var m := mem;
      HighLevels(mem, order, height, level);
      UnlinkDown(x);
      assert Removed(order, 0) == order[1..];
      Drop(m, 0);
    }

    /** `zslDelete`: removes the first node that has the score, if there is one. */
    method Delete(score: nat)
      requires Valid()
      modifies this
      ensures Valid() && header == old(header) && height == old(height) && SameNodes(old(mem), mem)
      ensures var k := Rank(old(mem), old(order), score);
              order == if k < |old(order)| && Score(old(mem), old(order)[k]) == score then Removed(old(order), k)
                       else old(order)
    {
      var update := Search(score);
      ghost var k := Rank(mem, order, score);
      NextAtBottom(mem, header, order, height, level, k);
      assert k < |order| ==> NodeOk(mem, height, level, order[k]);
      var x := mem[update[0]].forward[0];
      if x != NULL && score == mem[x].score {
        ghost var m := mem;
        HighLevels(mem, order, height, level);
        UnlinkUp(x, update, k);
        Drop(m, k);
      }
    }
  }

  /** Changing two links of level `i` keeps the levels of a range without `i`. */
  lemma KeepLevels(m: Mem, header: Ptr, order: seq<Ptr>, height: map<Ptr, nat>, from: nat, to: nat,
                   p: Ptr, i: nat, q: Ptr, p': Ptr, q': Ptr)
    requires Levels(m, header, order, height, from, to) && !(from <= i < to)
    requires p in m && i < |m[p].forward| && p' in m && i < |m[p'].forward|
    ensures Levels(SetLink(m, p, i, q), header, order, height, from, to)
    ensures Levels(SetLink(SetLink(m, p, i, q), p', i, q'), header, order, height, from, to)
  {
    var m1 := SetLink(m, p, i, q);
    forall l: nat | from <= l < to ensures Links(SetLink(m1, p', i, q'), l, [header] + Lane(order, height, l))
                                   ensures Links(m1, l, [header] + Lane(order, height, l)) {
      SetLinkOther(m, p, i, q, l, [header] + Lane(order, height, l));
      SetLinkOther(m1, p', i, q', l, [header] + Lane(order, height, l));
    }
  }

  lemma KeepUnlinked(m: Mem, header: Ptr, order: seq<Ptr>, height: map<Ptr, nat>, from: nat, to: nat,
                     p: Ptr, x: Ptr, i: nat)
    requires Levels(m, header, order, height, from, to) && !(from <= i < to)
    requires p in m && i < |m[p].forward|
    ensures Levels(Unlinked(m, p, x, i), header, order, height, from, to)
  {
    if x in m && i < |m[x].forward| {
      KeepLevels(m, header, order, height, from, to, p, i, m[x].forward[i], p, NULL);
    }
  }

  /** No node is linked at or above `level`. */
  lemma HighLevels(m: Mem, order: seq<Ptr>, height: map<Ptr, nat>, level: nat)
    requires NodesOk(m, order, height, level)
    ensures forall i: nat | level <= i :: Lane(order, height, i) == []
  {
    forall i: nat | level <= i ensures Lane(order, height, i) == [] {
      LaneEmpty(order, height, i);
    }
  }

  lemma LaneHigher(m: Mem, order: seq<Ptr>, height: map<Ptr, nat>, level: nat, k: nat, i: nat)
    requires NodesOk(m, order, height, level) && k <= |order| && level <= i
    ensures Lane(order[..k], height, i) == []
  {
    forall p | p in order[..k] ensures !Tall(height, p, i) {
      assert p in order;
    }
    LaneEmpty(order[..k], height, i);
  }

  lemma InsertedLevels(m: Mem, header: Ptr, order: seq<Ptr>, height: map<Ptr, nat>, k: nat, n: Ptr, h: nat)
    requires k <= |order| && n !in order
    requires Levels(m, header, Inserted(order, k, n), height[n := h], 0, h)
    requires Levels(m, header, order, height, h, MAX_LEVEL)
    ensures Levels(m, header, Inserted(order, k, n), height[n := h], 0, MAX_LEVEL)
  {
    var order', height' := Inserted(order, k, n), height[n := h];
    forall i: nat | i < MAX_LEVEL ensures Links(m, i, [header] + Lane(order', height', i)) {
      InsertedPath(header, order, height, k, n, h, i);
    }
  }

  lemma InsertedTop(order: seq<Ptr>, height: map<Ptr, nat>, k: nat, n: Ptr, h: nat, level: nat)
    requires k <= |order| && n !in order && 1 <= h <= level
    requires level == 1 || h == level || Lane(order, height, level - 1) != []
    ensures level == 1 || Lane(Inserted(order, k, n), height[n := h], level - 1) != []
  {
    if level > 1 {
      LaneEmpty(order, height, level - 1);
      LaneEmpty(Inserted(order, k, n), height[n := h], level - 1);
      if h == level {
        assert n in Inserted(order, k, n) && Tall(height[n := h], n, level - 1);
      } else {
        var p :| p in order && Tall(height, p, level - 1);
        assert order == order[..k] + order[k..];
        assert p in Inserted(order, k, n) && Tall(height[n := h], p, level - 1);
      }
    }
  }

  /** Levels without a node are the same before and after a removal. */
  lemma EmptyLevels(m: Mem, header: Ptr, order: seq<Ptr>, height: map<Ptr, nat>, k: nat, level: nat)
    requires k < |order| && Levels(m, header, order, height, 0, MAX_LEVEL)
    requires forall i: nat | level <= i < MAX_LEVEL :: Lane(order, height, i) == []
    ensures Levels(m, header, Removed(order, k), height, level, MAX_LEVEL)
  {
    forall i: nat | level <= i < MAX_LEVEL ensures Links(m, i, [header] + Lane(Removed(order, k), height, i)) {
      LaneEmpty(order, height, i);
      RemovedPath(header, order, height, k, i);
    }
  }

  lemma TopEmpty(m: Mem, header: Ptr, order: seq<Ptr>, height: map<Ptr, nat>, level: nat)
    requires NodesOk(m, order, height, level) && level > 1
    requires Links(m, level - 1, [header] + Lane(order, height, level - 1))
    requires header in m && level - 1 < |m[header].forward| && m[header].forward[level - 1] == NULL
    ensures NodesOk(m, order, height, level - 1)
  {
    var lane := Lane(order, height, level - 1);
    assert ([header] + lane)[0] == header;
    if lane != [] {
      LaneMember(order, height, level - 1, lane[0]);
    }
    LaneEmpty(order, height, level - 1);
  }

  /** All nodes are on the bottom level. */
  lemma {:induction false} Bottom(m: Mem, order: seq<Ptr>, height: map<Ptr, nat>, level: nat)
    requires NodesOk(m, order, height, level)
    ensures Lane(order, height, 0) == order
  {
    if order != [] {
      assert NodeOk(m, height, level, order[0]);
      Bottom(m, order[1..], height, level);
    }
  }

  /** On the bottom level the node after `Pred` is the one at place `k`. */
  lemma NextAtBottom(m: Mem, header: Ptr, order: seq<Ptr>, height: map<Ptr, nat>, level: nat, k: nat)
    requires NodesOk(m, order, height, level) && k <= |order| && Levels(m, header, order, height, 0, MAX_LEVEL)
    ensures var p := Pred(header, order, height, k, 0);
            && p in m && 0 < |m[p].forward| && m[p].forward[0] == (if k < |order| then order[k] else NULL)
  {
    Bottom(m, order, height, level);
    Bottom(m, order[..k], height, level);
    PredAt(header, order, height, k, 0);
    assert Links(m, 0, [header] + Lane(order, height, 0));
  }

  /** Deletion removes the node it is given if and only if no node before it has the same score. */
  lemma DeletesGivenIff(m: Mem, order: seq<Ptr>, z: nat)
    requires z < |order| && Distinct(order) && Sorted(m, order)
    ensures var k := Rank(m, order, Score(m, order[z]));
            && k < |order| && Score(m, order[k]) == Score(m, order[z])
            && (order[k] == order[z] <==> (z == 0 || Score(m, order[z - 1]) < Score(m, order[z])))
  {
    var k := Rank(m, order, Score(m, order[z]));
    assert k <= z;
    assert 0 < z && k < z ==> Score(m, order[k]) <= Score(m, order[z - 1]);
  }

  /** The header's links are null at and above the level. */
  lemma HeaderNull(m: Mem, header: Ptr, order: seq<Ptr>, height: map<Ptr, nat>, level: nat, i: nat)
    requires NodesOk(m, order, height, level) && Levels(m, header, order, height, 0, MAX_LEVEL)
    requires level <= i < MAX_LEVEL
    ensures header in m && i < |m[header].forward| && m[header].forward[i] == NULL
  {
    HighLevels(m, order, height, level);
    assert Links(m, i, [header] + Lane(order, height, i));
    assert ([header] + Lane(order, height, i))[0] == header;
  }

  lemma CreatedLevels(m: Mem, header: Ptr, order: seq<Ptr>, height: map<Ptr, nat>, level: nat, n: Ptr, node: Node)
    requires NodesOk(m, order, height, level) && Levels(m, header, order, height, 0, MAX_LEVEL) && n !in m
    requires Sorted(m, order)
    ensures n !in order && NodesOk(m[n := node], order, height, level) && Sorted(m[n := node], order)
    ensures Levels(m[n := node], header, order, height, 0, MAX_LEVEL)
  {
    var m' := m[n := node];
    forall p | p in order ensures NodeOk(m', height, level, p) && p != n && Score(m', p) == Score(m, p) {
      assert NodeOk(m, height, level, p);
    }
    forall i: nat | 0 <= i < MAX_LEVEL ensures Links(m', i, [header] + Lane(order, height, i)) {
      assert Links(m, i, [header] + Lane(order, height, i));
    }
  }

  /** A list of the one node 1. */
  method One() returns (l: SkipList)
    ensures fresh(l) && l.Valid() && l.order == [1] && 1 in l.mem && l.mem[1].score == 5
    ensures l.mem.Keys == {3, 1} && l.header == 3
  {
    l := new SkipList(3);
    l.CreateNode(1, 5, 1);
    var inside := l.Insert(1, 1);
    assert l.order == [1];
  }

  /** Nodes 1 and 2 have the same score; deleting node 1 takes out node 2. */
  method DeletesOther() returns (l: SkipList)
    ensures l.Valid() && l.order == [1]
  {
    l := One();
    l.CreateNode(2, 5, 1);
    var inside := l.Insert(2, 1);
    assert l.order == [2, 1];
    l.Delete(l.mem[1].score);
  }
}
