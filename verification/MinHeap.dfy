/** The indexed binary heap of the timer: an array of entries, each of which knows its place. */
module MinHeap {
  import opened Pointers

  /** `timer_entry`: the expiry and the place in the heap, -1 when it is in none. */
  datatype Entry = Entry(time: nat, index: int)

  type Mem = map<Ptr, Entry>

  function Time(m: Mem, p: Ptr): nat {
    if p in m then m[p].time else 0
  }

  function Times(m: Mem, s: seq<Ptr>): (t: seq<nat>)
    ensures |t| == |s| && forall i | 0 <= i < |s| :: t[i] == Time(m, s[i])
  {
    seq(|s|, i requires 0 <= i < |s| => Time(m, s[i]))
  }

  function Parent(i: nat): nat {
    if i == 0 then 0 else (i - 1) / 2
  }

  // ----- heap order, on the times alone

  /** No time is before that of its parent. */
  ghost predicate Heap(t: seq<nat>) {
    forall i: nat | 0 < i < |t| :: t[Parent(i)] <= t[i]
  }

  /** The same, except perhaps at `hole`. */
  ghost predicate HeapBut(t: seq<nat>, hole: nat) {
    forall i: nat | 0 < i < |t| && i != hole :: t[Parent(i)] <= t[i]
  }

  /** The same, except perhaps below `hole`. */
  ghost predicate HeapAbove(t: seq<nat>, hole: nat) {
    forall i: nat | 0 < i < |t| && Parent(i) != hole :: t[Parent(i)] <= t[i]
  }

  /** What is below `hole` is not before what is above it. */
  ghost predicate Bridged(t: seq<nat>, hole: nat) {
    forall i: nat | 0 < i < |t| && 0 < hole < |t| && Parent(i) == hole :: t[Parent(hole)] <= t[i]
  }

  function Swap<T>(s: seq<T>, i: nat, j: nat): seq<T>
    requires i < |s| && j < |s|
  {
    s[i := s[j]][j := s[i]]
  }

  /** The parent moves down into the hole. */
  lemma UpTimes(t: seq<nat>, hole: nat)
    requires 0 < hole < |t| && HeapBut(t, hole) && Bridged(t, hole) && t[Parent(hole)] > t[hole]
    ensures HeapBut(Swap(t, hole, Parent(hole)), Parent(hole)) && Bridged(Swap(t, hole, Parent(hole)), Parent(hole))
  {
    var up := Parent(hole);
    var t' := Swap(t, hole, up);
    forall i: nat | 0 < i < |t'| && i != up ensures t'[Parent(i)] <= t'[i] {
      assert i != hole ==> t[Parent(i)] <= t[i];
    }
    forall i: nat | 0 < i < |t'| && 0 < up < |t'| && Parent(i) == up ensures t'[Parent(up)] <= t'[i] {
      assert t[Parent(up)] <= t[up];
      assert i != hole ==> t[Parent(i)] <= t[i];
    }
  }

  /** The child that a round downwards looks at: the earlier one, the left one on a tie or when it is alone. */
  function MinChild(t: seq<nat>, hole: nat): nat
    requires 2 * (hole + 1) <= |t|
  {
    var right := 2 * (hole + 1);
    if right == |t| || t[right] > t[right - 1] then right - 1 else right
  }

  lemma Children(i: nat, hole: nat)
    requires i > 0
    ensures Parent(i) == hole <==> i == 2 * hole + 1 || i == 2 * hole + 2
  {
  }

  /** The earlier child moves up into the hole. */
  lemma DownTimes(t: seq<nat>, hole: nat)
    requires 2 * (hole + 1) <= |t| && HeapAbove(t, hole) && Bridged(t, hole) && t[hole] > t[MinChild(t, hole)]
    ensures var c := MinChild(t, hole); HeapAbove(Swap(t, hole, c), c) && Bridged(Swap(t, hole, c), c)
  {
    var c := MinChild(t, hole);
    var t' := Swap(t, hole, c);
    Children(c, hole);
    forall i: nat | 0 < i < |t'| && Parent(i) != c ensures t'[Parent(i)] <= t'[i] {
      Children(i, hole);
      if Parent(i) != hole {
        assert t[Parent(i)] <= t[i];
        assert i == hole ==> t[Parent(hole)] <= t[c];
      }
    }
    forall i: nat | 0 < i < |t'| && Parent(i) == c ensures t'[Parent(c)] <= t'[i] {
      assert Parent(i) != hole && t[Parent(i)] <= t[i];
    }
  }

  lemma DownEnds(t: seq<nat>, hole: nat)
    requires hole < |t| && HeapAbove(t, hole)
    requires 2 * (hole + 1) <= |t| ==> t[hole] <= t[MinChild(t, hole)]
    ensures Heap(t)
  {
    forall i: nat | 0 < i < |t| ensures t[Parent(i)] <= t[i] {
      Children(i, hole);
    }
  }

  /** The root of a heap is earliest. */
  lemma {:induction false} RootEarliest(t: seq<nat>, i: nat)
    requires Heap(t) && i < |t|
    ensures t[0] <= t[i]
  {
    if i > 0 {
      RootEarliest(t, Parent(i));
    }
  }

  // ----- entries and their places

  /** Every entry, except perhaps the one at `hole`, knows its place. */
  ghost predicate PlacedBut(m: Mem, s: seq<Ptr>, hole: nat) {
    forall k: nat | k < |s| :: s[k] in m && (k != hole ==> m[s[k]].index == k)
  }

  ghost predicate Placed(m: Mem, s: seq<Ptr>) {
    forall k: nat | k < |s| :: s[k] in m && m[s[k]].index == k
  }

  ghost predicate Distinct(s: seq<Ptr>) {
    forall i, j | 0 <= i < j < |s| :: s[i] != s[j]
  }

  /** Only the remembered places change. */
  ghost predicate SameTimes(m: Mem, m': Mem) {
    m'.Keys == m.Keys && forall p | p in m :: m'[p].time == m[p].time
  }

  /** `m` with the entry told a new place. */
  function Told(m: Mem, p: Ptr, place: int): Mem
    requires p in m
  {
    m[p := m[p].(index := place)]
  }

  lemma ToldTimes(m: Mem, p: Ptr, place: int, s: seq<Ptr>)
    requires p in m
    ensures SameTimes(m, Told(m, p, place)) && Times(Told(m, p, place), s) == Times(m, s)
  {
  }

  lemma SwapTimes(m: Mem, s: seq<Ptr>, i: nat, j: nat)
    requires i < |s| && j < |s|
    ensures Times(m, Swap(s, i, j)) == Swap(Times(m, s), i, j)
  {
  }

  lemma SwapContents(s: seq<Ptr>, i: nat, j: nat)
    requires i < |s| && j < |s|
    ensures multiset(Swap(s, i, j)) == multiset(s)
  {
  }

  /** The entry of another place moves into the hole, which moves to that place. */
  lemma SwapPlaces(m: Mem, s: seq<Ptr>, hole: nat, other: nat)
    requires PlacedBut(m, s, hole) && Distinct(s) && hole < |s| && other < |s| && hole != other
    ensures s[other] in m && s[other] != s[hole]
    ensures PlacedBut(Told(m, s[other], hole), Swap(s, hole, other), other) && Distinct(Swap(s, hole, other))
  {
    var s', m' := Swap(s, hole, other), Told(m, s[other], hole);
    forall k: nat | k < |s'| ensures s'[k] in m' && (k != other ==> m'[s'[k]].index == k) {
      assert k != hole && k != other ==> s'[k] == s[k] && s[k] != s[other];
    }
  }

  /** `s` is a rearrangement of `start` with `e` in the hole, told all places but that one. */
  ghost predicate Moving(m0: Mem, start: seq<Ptr>, e: Ptr, m: Mem, s: seq<Ptr>, hole: nat) {
    && |s| == |start| && hole < |s| && s[hole] == e && multiset(s) == multiset(start) && SameTimes(m0, m)
    && PlacedBut(m, s, hole) && Distinct(s)
  }

  lemma MovingRound(m0: Mem, start: seq<Ptr>, e: Ptr, m: Mem, s: seq<Ptr>, hole: nat, other: nat)
    requires Moving(m0, start, e, m, s, hole) && other < |s| && other != hole
    ensures s[other] in m && s[other] != e
    ensures Moving(m0, start, e, Told(m, s[other], hole), Swap(s, hole, other), other)
    ensures Times(Told(m, s[other], hole), Swap(s, hole, other)) == Swap(Times(m, s), hole, other)
  {
    SwapPlaces(m, s, hole, other);
    SwapContents(s, hole, other);
    ToldTimes(m, s[other], hole, Swap(s, hole, other));
    SwapTimes(m, s, hole, other);
  }

  /** On the way up. */
  ghost predicate Rising(m0: Mem, start: seq<Ptr>, e: Ptr, m: Mem, s: seq<Ptr>, hole: nat) {
    Moving(m0, start, e, m, s, hole) && HeapBut(Times(m, s), hole) && Bridged(Times(m, s), hole)
  }

  lemma RisingRound(m0: Mem, start: seq<Ptr>, e: Ptr, m: Mem, s: seq<Ptr>, hole: nat)
    requires Rising(m0, start, e, m, s, hole) && hole > 0 && Time(m, s[Parent(hole)]) > Time(m, e)
    ensures s[Parent(hole)] in m && s[Parent(hole)] != e
    ensures Rising(m0, start, e, Told(m, s[Parent(hole)], hole), Swap(s, hole, Parent(hole)), Parent(hole))
  {
    UpTimes(Times(m, s), hole);
    MovingRound(m0, start, e, m, s, hole, Parent(hole));
  }

  lemma RisingDone(m0: Mem, start: seq<Ptr>, e: Ptr, m: Mem, s: seq<Ptr>, hole: nat)
    requires Rising(m0, start, e, m, s, hole) && (hole == 0 || Time(m, s[Parent(hole)]) <= Time(m, e))
    ensures e in m && Placed(Told(m, e, hole), s) && SameTimes(m0, Told(m, e, hole)) && Heap(Times(Told(m, e, hole), s))
  {
    MovingDone(m0, start, e, m, s, hole);
  }

  /** The entry is told where it has come to rest. */
  lemma MovingDone(m0: Mem, start: seq<Ptr>, e: Ptr, m: Mem, s: seq<Ptr>, hole: nat)
    requires Moving(m0, start, e, m, s, hole)
    ensures e in m && Placed(Told(m, e, hole), s) && SameTimes(m0, Told(m, e, hole))
    ensures Times(Told(m, e, hole), s) == Times(m, s)
  {
    ToldTimes(m, e, hole, s);
    forall k: nat | k < |s| ensures s[k] in m && Told(m, e, hole)[s[k]].index == k {
      assert k != hole ==> s[k] != e;
    }
  }

  /** The array holds `s` but for what it has at `hole`. */
  ghost predicate Shows(a: seq<Ptr>, s: seq<Ptr>, hole: nat) {
    |s| <= |a| && forall k: nat | k < |s| && k != hole :: a[k] == s[k]
  }

  lemma ShowsRound(a: seq<Ptr>, s: seq<Ptr>, hole: nat, other: nat)
    requires Shows(a, s, hole) && hole < |s| && other < |s| && hole != other
    ensures Shows(a[hole := a[other]], Swap(s, hole, other), other)
  {
  }

  lemma ShowsDone(a: seq<Ptr>, s: seq<Ptr>, hole: nat)
    requires Shows(a, s, hole) && hole < |s|
    ensures a[hole := s[hole]][..|s|] == s
  {
  }

  lemma PlacedDistinct(m: Mem, s: seq<Ptr>)
    requires Placed(m, s)
    ensures Distinct(s)
  {
  }

  /** `min_heap`: `p` has room for `p.Length` entries and holds `n`. */
  class MinHeap {
    var entries: Mem
    var p: array<Ptr>
    var n: nat

    ghost predicate Valid()
      reads this, p
    {
      n <= p.Length && Placed(entries, p[..n]) && Heap(Times(entries, p[..n]))
    }

    constructor (a: nat)
      ensures Valid() && n == 0 && fresh(p) && entries == map[]
    {
      entries := map[];
      p := new Ptr[a];
      n := 0;
    }

    /** Puts an entry into a place and tells it so. */
    method Fill(hole: nat, q: Ptr)
      requires hole < p.Length && q in entries
      modifies p, `entries
      ensures p[..] == old(p[..])[hole := q]
      ensures entries == Told(old(entries), q, hole)
    {
      p[hole] := q;
      entries := entries[q := entries[q].(index := hole)];
    }

    /** `min_heap_shift_up_`: `start` is the heap with `e` in the hole. */
    method ShiftUp(from: nat, e: Ptr, ghost start: seq<Ptr>)
      requires from == |start| - 1 && Shows(p[..], start, from) && Moving(entries, start, e, entries, start, from)
      requires HeapBut(Times(entries, start), from)
      modifies p, `entries
      ensures |start| <= p.Length && Heap(Times(entries, p[..|start|])) && Placed(entries, p[..|start|])
      ensures SameTimes(old(entries), entries) && multiset(p[..|start|]) == multiset(start)
    {
      ghost var s, m := start, entries;
      var hole: nat := from;
      var parent: nat := if hole == 0 then 0 else (hole - 1) / 2;
      while hole != 0 && entries[p[parent]].time > entries[e].time
        invariant Rising(m, start, e, entries, s, hole) && Shows(p[..], s, hole)
        invariant parent == Parent(hole) && (hole != 0 ==> p[..][parent] == s[parent])
        decreases hole
      {
        RisingRound(m, start, e, entries, s, hole);
        ShowsRound(p[..], s, hole, parent);
        s := Swap(s, hole, parent);
        Fill(hole, p[parent]);
        hole := parent;
        parent := if hole == 0 then 0 else (hole - 1) / 2;
      }
      RisingDone(m, start, e, entries, s, hole);
      ShowsDone(p[..], s, hole);
      Fill(hole, e);
      assert p[..][..|s|] == p[..|s|];
    }

    /** `min_heap_shift_down_` from the root of a heap of `n` entries. */
    method ShiftDown(e: Ptr, ghost start: seq<Ptr>)
      requires n == |start| > 0 && Shows(p[..], start, 0) && Moving(entries, start, e, entries, start, 0)
      requires HeapAbove(Times(entries, start), 0)
      modifies p, `entries
      ensures Heap(Times(entries, p[..n])) && Placed(entries, p[..n])
      ensures SameTimes(old(entries), entries) && multiset(p[..n]) == multiset(start)
    {
      ghost var s, m := start, entries;
      var hole: nat := 0;
      var minChild: nat := 2 * (hole + 1);
      while minChild <= n
        invariant Moving(m, start, e, entries, s, hole) && Shows(p[..], s, hole) && |s| == n
        invariant HeapAbove(Times(entries, s), hole) && Bridged(Times(entries, s), hole)
        invariant minChild == 2 * (hole + 1)
        decreases n - hole
      {
        minChild := Choose(minChild, s, hole);
        if !(entries[e].time > entries[p[minChild]].time) {
          break;
        }
        DownTimes(Times(entries, s), hole);
        MovingRound(m, start, e, entries, s, hole, minChild);
        ShowsRound(p[..], s, hole, minChild);
        s := Swap(s, hole, minChild);
        Fill(hole, p[minChild]);
        hole := minChild;
        minChild := 2 * (hole + 1);
      }
      DownEnds(Times(entries, s), hole);
      MovingDone(m, start, e, entries, s, hole);
      ShowsDone(p[..], s, hole);
      Fill(hole, e);
      assert p[..][..|s|] == p[..|s|];
    }

    /** The earlier child of the hole. */
    method Choose(right: nat, ghost s: seq<Ptr>, ghost hole: nat) returns (c: nat)
      requires right == 2 * (hole + 1) <= n == |s| && Shows(p[..], s, hole) && PlacedBut(entries, s, hole)
      ensures c == MinChild(Times(entries, s), hole) && c < p.Length && p[c] == s[c] && p[c] in entries
    {
      ChildShown(entries, p[..], s, hole);
      assert p[..][right - 1] == p[right - 1] && (right < n ==> p[..][right] == p[right]);
      c := right;
      if right == n || entries[p[right]].time > entries[p[right - 1]].time {
        c := right - 1;
      }
    }

    /** `min_heap_reserve`, with memory to be had: room for `need` entries, which stay where they are. */
    method Reserve(need: nat)
      requires n <= p.Length
      modifies `p
      ensures p.Length >= need && p.Length >= old(p.Length) && p[..n] == old(p[..n])
      ensures p == old(p) || fresh(p)
    {
      if p.Length < need {
        var a := if p.Length != 0 then p.Length * 2 else 8;
        if a < need {
          a := need;
        }
        var q := new Ptr[a];
        forall i | 0 <= i < n {
          q[i] := p[i];
        }
        assert q[..n] == p[..n];
        p := q;
      }
    }

    /** A new entry, in no heap. */
    method NewEntry(x: Ptr, time: nat)
      requires Valid() && x !in entries
      modifies `entries
      ensures Valid() && entries == old(entries)[x := Entry(time, -1)] && x !in p[..n]
    {
      NewOutside(entries, p[..n], x, time);
      entries := entries[x := Entry(time, -1)];
    }

    /** `min_heap_push` of an entry that is not in the heap. */
    method Push(x: Ptr)
      requires Valid() && x in entries && x !in p[..n]
      modifies this, p
      ensures Valid() && n == old(n) + 1 && (p == old(p) || fresh(p))
      ensures multiset(p[..n]) == multiset(old(p[..n])) + multiset{x}
      ensures SameTimes(old(entries), entries)
    {
      ghost var s := p[..n];
      PushReady(entries, s, x);
      Reserve(n + 1);
      n := n + 1;
      ShiftUp(n - 1, x, s + [x]);
    }

    /** `min_heap_top`. */
    method Top() returns (found: bool, x: Ptr)
      requires Valid()
      ensures found == (n > 0)
      ensures found ==> x == p[0] && forall y | y in p[..n] :: Time(entries, x) <= Time(entries, y)
    {
      x := 0;
      found := n > 0;
      if found {
        x := p[0];
        assert p[..n][0] == x;
        forall i: nat | i < n ensures Time(entries, x) <= Time(entries, p[..n][i]) {
          RootEarliest(Times(entries, p[..n]), i);
        }
      }
    }

    /** `min_heap_pop`: takes out an earliest entry. */
    method Pop() returns (found: bool, x: Ptr)
      requires Valid()
      modifies this, p
      ensures Valid() && p == old(p) && found == (old(n) > 0) && SameTimes(old(entries), entries)
      ensures !found ==> n == 0 && entries == old(entries)
      ensures found ==>
        && n == old(n) - 1 && multiset(old(p[..n])) == multiset(p[..n]) + multiset{x}
        && x in entries && entries[x].index == -1
        && forall y | y in old(p[..n]) :: Time(entries, x) <= Time(entries, y)
    {
      found, x := Top();
      if found {
        ghost var s, m := p[..n], entries;
        PlacedDistinct(entries, s);
        n := n - 1;
        var last := p[n];
        if n > 0 {
          PopReady(entries, s);
          PopContents(s);
          ShiftDown(last, s[..n][0 := last]);
          LeftOut(s, p[..n]);
        } else {
          Fill(0, last);
        }
        Forgotten(entries, p[..n], x);
        entries := entries[x := entries[x].(index := -1)];
      }
    }

    /** Popping until the heap is empty yields all entries in the order of their times. */
    method Drain() returns (drained: seq<Ptr>)
      requires Valid()
      modifies this, p
      ensures Valid() && n == 0 && SameTimes(old(entries), entries)
      ensures multiset(drained) == multiset(old(p[..n]))
      ensures forall i, j | 0 <= i < j < |drained| :: Time(entries, drained[i]) <= Time(entries, drained[j])
    {
      drained := [];
      ghost var m, all := entries, p[..n];
      var more := true;
      while more
        invariant Valid() && p == old(p) && SameTimes(m, entries) && (!more ==> n == 0)
        invariant Draining(m, all, drained, p[..n])
        decreases n, more
      {
        ghost var before, times := p[..n], entries;
        var x;
        more, x := Pop();
        if more {
          SameTimesKept(m, times, entries);
          DrainedOne(m, times, all, drained, before, p[..n], x);
          drained := drained + [x];
        }
      }
    }
  }

  lemma SameTimesKept(m0: Mem, m1: Mem, m2: Mem)
    requires SameTimes(m0, m1) && SameTimes(m1, m2)
    ensures SameTimes(m0, m2) && forall p :: Time(m0, p) == Time(m1, p) == Time(m2, p)
  {
  }

  /** What was drained so far is in order and not later than the rest. */
  ghost predicate Draining(m: Mem, all: seq<Ptr>, drained: seq<Ptr>, rest: seq<Ptr>) {
    && multiset(all) == multiset(drained) + multiset(rest)
    && (forall i, j | 0 <= i < j < |drained| :: Time(m, drained[i]) <= Time(m, drained[j]))
    && (forall d, y | d in drained && y in rest :: Time(m, d) <= Time(m, y))
  }

  lemma DrainedOne(m: Mem, times: Mem, all: seq<Ptr>, drained: seq<Ptr>, before: seq<Ptr>, after: seq<Ptr>, x: Ptr)
    requires SameTimes(m, times) && multiset(before) == multiset(after) + multiset{x}
    requires Draining(m, all, drained, before)
    requires forall y | y in before :: Time(times, x) <= Time(times, y)
    ensures Draining(m, all, drained + [x], after)
  {
    assert x in multiset(before);
    forall y | y in after ensures y in before {
      assert y in multiset(after) && y in multiset(before);
    }
  }

  /** The heap with a new entry in the hole at its end. */
  lemma PushReady(m: Mem, s: seq<Ptr>, x: Ptr)
    requires Placed(m, s) && Heap(Times(m, s)) && x in m && x !in s
    ensures Moving(m, s + [x], x, m, s + [x], |s|) && HeapBut(Times(m, s + [x]), |s|)
  {
    PlacedDistinct(m, s);
    assert Times(m, s + [x]) == Times(m, s) + [Time(m, x)];
  }

  lemma NewOutside(m: Mem, s: seq<Ptr>, x: Ptr, time: nat)
    requires Placed(m, s) && Heap(Times(m, s)) && x !in m
    ensures x !in s && Placed(m[x := Entry(time, -1)], s) && Heap(Times(m[x := Entry(time, -1)], s))
  {
    assert Times(m[x := Entry(time, -1)], s) == Times(m, s);
  }

  /** The heap without its last entry, which is in the hole at the root. */
  lemma PopReady(m: Mem, s: seq<Ptr>)
    requires Placed(m, s) && Heap(Times(m, s)) && |s| > 1
    ensures var start := s[..|s| - 1][0 := s[|s| - 1]];
            Moving(m, start, start[0], m, start, 0) && HeapAbove(Times(m, start), 0)
  {
    PlacedDistinct(m, s);
    var start := s[..|s| - 1][0 := s[|s| - 1]];
    forall i: nat | 0 < i < |start| && Parent(i) != 0 ensures Times(m, start)[Parent(i)] <= Times(m, start)[i] {
      assert Times(m, s)[Parent(i)] <= Times(m, s)[i];
    }
  }

  lemma LeftOut(s: seq<Ptr>, t: seq<Ptr>)
    requires Distinct(s) && s != [] && multiset(s) == multiset(t) + multiset{s[0]}
    ensures s[0] !in t
  {
    assert s == [s[0]] + s[1..];
    assert multiset(s) == multiset{s[0]} + multiset(s[1..]);
    assert s[0] !in multiset(s[1..]);
    assert multiset(s)[s[0]] == 1 && multiset(t)[s[0]] == 0;
  }

  lemma Forgotten(m: Mem, s: seq<Ptr>, x: Ptr)
    requires Heap(Times(m, s)) && Placed(m, s) && x !in s && x in m
    ensures Heap(Times(Told(m, x, -1), s)) && Placed(Told(m, x, -1), s)
  {
  }

  lemma ChildShown(m: Mem, a: seq<Ptr>, s: seq<Ptr>, hole: nat)
    requires Shows(a, s, hole) && PlacedBut(m, s, hole) && 2 * (hole + 1) <= |s|
    ensures var right := 2 * (hole + 1);
            && a[right - 1] == s[right - 1] && s[right - 1] in m
            && (right < |s| ==> a[right] == s[right] && s[right] in m)
  {
  }

  /** What is left when the root is taken out and the last entry put in its place. */
  lemma PopContents(s: seq<Ptr>)
    requires |s| > 1
    ensures multiset(s) == multiset(s[..|s| - 1][0 := s[|s| - 1]]) + multiset{s[0]}
  {
    var n := |s| - 1;
    assert s == [s[0]] + s[1..n] + [s[n]];
    assert s[..n][0 := s[n]] == [s[n]] + s[1..n];
  }
}
