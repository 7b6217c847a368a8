/** The timing wheel as it is stored: 512 singly linked lists whose nodes are relinked in
  place, and a 32-bit clock. Each method is proved against the functions of WheelSpec.

  A pointer is null, the dummy head of a slot, or a timer node, which is named by a number;
  `next[p]` is the field `p->next`. */
module TimingWheel {
  import opened WheelSlots
  import opened WheelSpec

  datatype Ptr = Null | Head(slot: Loc) | Node(id: nat)

  /** The `i`-th pointer of a chain, counted from the dummy head of slot `l`. */
  datatype Place = Place(l: Loc, i: nat)

  /** The linked memory: the fields of all nodes and the tail pointers of all slots, and, as a
      proof device, the pointers along every slot and the place of every linked pointer. */
  datatype Memory = Memory(
    next: map<Ptr, Ptr>, expire: map<Ptr, u32>, tail: map<Loc, Ptr>,
    spine: map<Loc, seq<Ptr>>, place: map<Ptr, Place>)

  ghost predicate SlotOk(m: Memory, slots: Slots, l: Loc) {
    && l in m.tail && l in m.spine && l in slots
    && |m.spine[l]| == |slots[l]| + 1
    && m.spine[l][0] == Head(l) && m.spine[l][|slots[l]|] == m.tail[l]
  }

  /** `p` is the node of timer `x`. */
  ghost predicate Carries(m: Memory, p: Ptr, x: Item) {
    p == Node(x.id) && p in m.expire && m.expire[p] == x.due % WRAP
  }

  ghost predicate LinkOk(m: Memory, slots: Slots, l: Loc, i: nat)
    requires l in m.spine && i < |m.spine[l]|
  {
    var p := m.spine[l][i];
    && p in m.next && p in m.place && m.place[p] == Place(l, i)
    && m.next[p] == (if i + 1 < |m.spine[l]| then m.spine[l][i + 1] else Null)
    && (i > 0 ==> l in slots && i <= |slots[l]| && Carries(m, p, slots[l][i - 1]))
  }

  ghost predicate Placed(m: Memory, p: Ptr)
    requires p in m.place
  {
    var Place(l, i) := m.place[p];
    ValidLoc(l) && l in m.spine && i < |m.spine[l]| && m.spine[l][i] == p
  }

  /** The memory holds `slots`: every slot is a null-terminated chain from its dummy head, and
      no pointer is linked twice. */
  ghost predicate Holds(m: Memory, slots: Slots) {
    && Total(slots)
    && (forall l | ValidLoc(l) :: SlotOk(m, slots, l))
    && (forall l, i: nat | ValidLoc(l) && l in m.spine && i < |m.spine[l]| :: LinkOk(m, slots, l, i))
    && (forall p | p in m.place :: Placed(m, p))
  }

  /** `link`. */
  function LinkMem(m: Memory, l: Loc, p: Ptr): Memory
    requires l in m.tail && l in m.spine
  {
    m.(next := m.next[m.tail[l] := p][p := Null], tail := m.tail[l := p],
       spine := m.spine[l := m.spine[l] + [p]], place := m.place[p := Place(l, |m.spine[l]|)])
  }

  lemma LinkHolds(m: Memory, slots: Slots, l: Loc, p: Ptr, x: Item)
    requires Holds(m, slots) && ValidLoc(l) && p !in m.place && Carries(m, p, x)
    ensures SlotOk(m, slots, l) && Holds(LinkMem(m, l, p), slots[l := slots[l] + [x]])
  {
    assert SlotOk(m, slots, l) && LinkOk(m, slots, l, |slots[l]|);
    var m', slots' := LinkMem(m, l, p), slots[l := slots[l] + [x]];
    forall k | ValidLoc(k)
      ensures SlotOk(m', slots', k)
    {
      assert SlotOk(m, slots, k);
    }
    forall k, i: nat | ValidLoc(k) && k in m'.spine && i < |m'.spine[k]|
      ensures LinkOk(m', slots', k, i)
    {
      if k != l || i <= |slots[l]| {
        assert LinkOk(m, slots, k, i);
      }
    }
  }

  ghost function Among(ps: seq<Ptr>): set<Ptr> {
    set p | p in ps
  }

  /** `link_clear`. */
  ghost function ClearMem(m: Memory, l: Loc): Memory
    requires l in m.spine && m.spine[l] != []
  {
    m.(next := m.next[Head(l) := Null], tail := m.tail[l := Head(l)],
       spine := m.spine[l := [Head(l)]], place := m.place - Among(m.spine[l][1..]))
  }

  function FirstOf(ps: seq<Ptr>): Ptr {
    if ps == [] then Null else ps[0]
  }

  /** `ps` is a detached chain that starts at `first` and carries `items`. */
  ghost predicate Detached(m: Memory, first: Ptr, ps: seq<Ptr>, items: seq<Item>) {
    && |ps| == |items|
    && first == FirstOf(ps)
    && (forall i | 0 <= i < |ps| :: DetachedAt(m, ps, items, i))
    && (forall i, j | 0 <= i < j < |ps| :: ps[i] != ps[j])
  }

  ghost predicate DetachedAt(m: Memory, ps: seq<Ptr>, items: seq<Item>, i: nat)
    requires i < |ps| == |items|
  {
    && ps[i] in m.next && ps[i] !in m.place && Carries(m, ps[i], items[i])
    && m.next[ps[i]] == (if i + 1 < |ps| then ps[i + 1] else Null)
  }

  lemma DetachedNull(m: Memory, ps: seq<Ptr>, items: seq<Item>)
    requires Detached(m, Null, ps, items)
    ensures items == []
  {
    forall i: nat | i < |ps|
      ensures ps[i] != Null
    {
      assert DetachedAt(m, ps, items, i);
    }
  }

  lemma ClearHolds(m: Memory, slots: Slots, l: Loc)
    requires Holds(m, slots) && ValidLoc(l)
    ensures SlotOk(m, slots, l) && Head(l) in m.next && Holds(ClearMem(m, l), slots[l := []])
    ensures Detached(ClearMem(m, l), m.next[Head(l)], m.spine[l][1..], slots[l])
  {
    assert SlotOk(m, slots, l) && LinkOk(m, slots, l, 0);
    var m', slots', ps := ClearMem(m, l), slots[l := []], m.spine[l][1..];
    forall i | 0 <= i < |ps|
      ensures DetachedAt(m', ps, slots[l], i) && ps[i] in m.place && m.place[ps[i]] == Place(l, i + 1)
    {
      assert LinkOk(m, slots, l, i + 1);
    }
    ClearRest(m, slots, l);
  }

  /** Another slot's pointers are not among those of slot `l`. */
  lemma Elsewhere(m: Memory, slots: Slots, l: Loc, k: Loc, i: nat)
    requires Holds(m, slots) && ValidLoc(l) && ValidLoc(k) && k != l && l in m.spine && k in m.spine
    requires i < |m.spine[k]|
    ensures m.spine[k][i] !in m.spine[l]
  {
    assert LinkOk(m, slots, k, i);
    forall j: nat | j < |m.spine[l]|
      ensures m.spine[l][j] != m.spine[k][i]
    {
      assert LinkOk(m, slots, l, j);
    }
  }

  lemma ClearRest(m: Memory, slots: Slots, l: Loc)
    requires Holds(m, slots) && ValidLoc(l) && SlotOk(m, slots, l)
    ensures Holds(ClearMem(m, l), slots[l := []])
  {
    var m', slots' := ClearMem(m, l), slots[l := []];
    forall k | ValidLoc(k)
      ensures SlotOk(m', slots', k)
    {
      assert SlotOk(m, slots, k);
    }
    forall k, i: nat | ValidLoc(k) && k in m'.spine && i < |m'.spine[k]|
      ensures LinkOk(m', slots', k, i)
    {
      assert LinkOk(m, slots, k, i);
      if k != l {
        Elsewhere(m, slots, l, k, i);
      } else {
        HeadFirst(m, slots, l);
      }
    }
    forall j: nat | 0 < j < |m.spine[l]|
      ensures m.spine[l][j] in m.spine[l][1..]
    {
      assert m.spine[l][1..][j - 1] == m.spine[l][j];
    }
    forall p | p in m'.place
      ensures Placed(m', p)
    {
      assert Placed(m, p);
      assert m.place[p].l == l ==> m.spine[l][m.place[p].i] == p;
    }
  }

  lemma HeadFirst(m: Memory, slots: Slots, l: Loc)
    requires Holds(m, slots) && ValidLoc(l) && SlotOk(m, slots, l)
    ensures Head(l) !in m.spine[l][1..]
  {
    forall i: nat | i < |m.spine[l]| - 1
      ensures m.spine[l][1..][i] != Head(l)
    {
      assert LinkOk(m, slots, l, i + 1);
    }
  }

  lemma ExpireHolds(m: Memory, slots: Slots, p: Ptr, e: u32)
    requires Holds(m, slots) && p !in m.place
    ensures Holds(m.(expire := m.expire[p := e]), slots)
  {
    var m' := m.(expire := m.expire[p := e]);
    forall k | ValidLoc(k)
      ensures SlotOk(m', slots, k)
    {
      assert SlotOk(m, slots, k);
    }
    forall k, i: nat | ValidLoc(k) && k in m'.spine && i < |m'.spine[k]|
      ensures LinkOk(m', slots, k, i)
    {
      assert LinkOk(m, slots, k, i);
    }
  }

  /** Linking the first node of a detached chain leaves the rest detached. */
  lemma LinkDetached(m: Memory, slots: Slots, l: Loc, ps: seq<Ptr>, items: seq<Item>)
    requires Holds(m, slots) && ValidLoc(l) && ps != [] && Detached(m, ps[0], ps, items)
    ensures SlotOk(m, slots, l) && ps[0] in m.next
    ensures Detached(LinkMem(m, l, ps[0]), m.next[ps[0]], ps[1..], items[1..])
  {
    assert SlotOk(m, slots, l) && LinkOk(m, slots, l, |slots[l]|);
    assert DetachedAt(m, ps, items, 0);
    var m' := LinkMem(m, l, ps[0]);
    forall i | 0 <= i < |ps| - 1
      ensures DetachedAt(m', ps[1..], items[1..], i)
    {
      assert DetachedAt(m, ps, items, i + 1);
    }
  }

  lemma ExpireDetached(m: Memory, p: Ptr, e: u32, ps: seq<Ptr>, items: seq<Item>)
    requires Detached(m, FirstOf(ps), ps, items) && p !in ps
    ensures Detached(m.(expire := m.expire[p := e]), FirstOf(ps), ps, items)
  {
    var m' := m.(expire := m.expire[p := e]);
    forall i | 0 <= i < |ps|
      ensures DetachedAt(m', ps, items, i)
    {
      assert DetachedAt(m, ps, items, i);
    }
  }

  /** Linking another node leaves a detached chain alone. */
  lemma LinkOther(m: Memory, slots: Slots, l: Loc, p: Ptr, ps: seq<Ptr>, items: seq<Item>)
    requires Holds(m, slots) && ValidLoc(l) && Detached(m, FirstOf(ps), ps, items) && p !in ps
    ensures SlotOk(m, slots, l) && Detached(LinkMem(m, l, p), FirstOf(ps), ps, items)
  {
    assert SlotOk(m, slots, l) && LinkOk(m, slots, l, |slots[l]|);
    var m' := LinkMem(m, l, p);
    forall i | 0 <= i < |ps|
      ensures DetachedAt(m', ps, items, i)
    {
      assert DetachedAt(m, ps, items, i);
    }
  }

  function Heads(): (r: set<Ptr>)
    ensures forall p :: p in r <==> p.Head? && ValidLoc(p.slot)
  {
    set l | l in AllLocs() :: Head(l)
  }

  ghost function EmptyMem(): Memory {
    Memory(map p | p in Heads() :: Null, map[], map l | l in AllLocs() :: Head(l),
           map l | l in AllLocs() :: [Head(l)], map p | p in Heads() :: Place(p.slot, 0))
  }

  lemma EmptyHolds()
    ensures Holds(EmptyMem(), EmptySlots())
  {
    var m, slots := EmptyMem(), EmptySlots();
    assert Total(slots);
    forall k | ValidLoc(k)
      ensures SlotOk(m, slots, k) && LinkOk(m, slots, k, 0)
    {
    }
  }

  function RingWidth(i: nat): (w: nat)
    requires i < 4
    ensures w == if i == 0 then W0 else if i == 1 then W1 else if i == 2 then W2 else W3
  {
    if i == 0 then NEAR else RingWidth(i - 1) * LEVEL
  }

  /** The mask of the loop of `add_node` when it looks at ring `i`; after the last ring it has wrapped to 0. */
  function MaskAt(i: nat): nat {
    if i == 0 then W1 else if i == 1 then W2 else if i == 2 then W3 else 0
  }

  lemma NextMask(i: nat)
    requires i < 3
    ensures MaskAt(i) * LEVEL % WRAP == MaskAt(i + 1)
  {
  }

  lemma SameTurn(expire: u32, ct: u32, i: nat)
    requires i < 3
    ensures OrMask(expire, MaskAt(i) - 1) == OrMask(ct, MaskAt(i) - 1) <==> expire / MaskAt(i) == ct / MaskAt(i)
  {
    OrMaskQuotient(expire, ct, MaskAt(i) - 1);
  }

  /** Two times differ in the digits of every ring before ring `i`. */
  predicate Differ(expire: u32, ct: u32, i: nat) {
    && (1 <= i ==> expire / W1 != ct / W1)
    && (2 <= i ==> expire / W2 != ct / W2)
    && (3 <= i ==> expire / W3 != ct / W3)
  }

  lemma RingFound(expire: u32, ct: u32, i: nat)
    requires expire / W0 != ct / W0 && i <= 3 && Differ(expire, ct, i)
    requires i == 0 ==> expire / W1 == ct / W1
    requires i == 1 ==> expire / W2 == ct / W2
    requires i == 2 ==> expire / W3 == ct / W3
    ensures Home(expire, ct) == Far(i, expire / RingWidth(i) % LEVEL)
  {
  }

  /** The loop of `add_node`: the finest coarse ring in whose turn `expire` and `ct` agree. */
  method FindRing(expire: u32, ct: u32) returns (i: nat)
    requires expire / W0 != ct / W0
    ensures i < 4 && Home(expire, ct) == Far(i, expire / RingWidth(i) % LEVEL)
  {
    i := 0;
    var mask := NEAR * LEVEL;
    while i < 3
      invariant 0 <= i <= 3
      invariant mask == MaskAt(i)
      invariant Differ(expire, ct, i)
    {
      SameTurn(expire, ct, i);
      if OrMask(expire, mask - 1) == OrMask(ct, mask - 1) {
        break;
      }
      NextMask(i);
      mask := mask * LEVEL % WRAP;
      i := i + 1;
    }
    RingFound(expire, ct, i);
  }

  /** What `timer_shift` has found out when it looks at ring `i`: all finer digits of a clock
      that is not zero are zero. */
  ghost function VisitedFrom(ct: u32, i: nat): Visit
    requires i < 4
    decreases 4 - i
  {
    if ct % RingWidth(i) != 0 then Nothing
    else if ct / RingWidth(i) % LEVEL != 0 || i == 3 then Slot(Far(i, ct / RingWidth(i) % LEVEL))
    else VisitedFrom(ct, i + 1)
  }

  lemma VisitedRing(ct: u32, i: nat)
    requires i < 4 && ct != 0 && ct % RingWidth(i) == 0
    ensures i == 3 ==> ct / RingWidth(i) % LEVEL != 0
    ensures ct / RingWidth(i) % LEVEL == 0 ==> ct % (RingWidth(i) * LEVEL) == 0
    ensures ct / RingWidth(i) / LEVEL == ct / (RingWidth(i) * LEVEL)
  {
    if i == 0 {
      NextRing0(ct);
    } else if i == 1 {
      NextRing1(ct);
    } else if i == 2 {
      NextRing2(ct);
    } else {
      LastRing(ct);
    }
  }

  lemma NextRing0(ct: u32)
    ensures ct / W0 / LEVEL == ct / W1
    ensures ct % W0 == 0 && ct / W0 % LEVEL == 0 ==> ct % W1 == 0
  {
  }

  lemma NextRing1(ct: u32)
    ensures ct / W1 / LEVEL == ct / W2
    ensures ct % W1 == 0 && ct / W1 % LEVEL == 0 ==> ct % W2 == 0
  {
  }

  lemma NextRing2(ct: u32)
    ensures ct / W2 / LEVEL == ct / W3
    ensures ct % W2 == 0 && ct / W2 % LEVEL == 0 ==> ct % W3 == 0
  {
  }

  lemma LastRing(ct: u32)
    requires ct != 0 && ct % W3 == 0
    ensures ct / W3 % LEVEL != 0 && ct % WRAP != 0 && ct / W3 / LEVEL == ct / WRAP
  {
  }

  lemma VisitedStart(ct: u32)
    requires ct != 0
    ensures Visited(ct) == VisitedFrom(ct, 0)
  {
    if ct % W0 == 0 {
      VisitedRing(ct, 0);
      if ct / W0 % LEVEL == 0 {
        VisitedRing(ct, 1);
        if ct / W1 % LEVEL == 0 {
          VisitedRing(ct, 2);
        }
      }
    }
  }

  class TimerWheel {
    /** `near[i]` is slot `Near(i)`, `t[k][i]` is slot `Far(k, i)`. */
    var next: map<Ptr, Ptr>
    var expire: map<Ptr, u32>
    var tail: map<Loc, Ptr>
    var time: u32
    ghost var spine: map<Loc, seq<Ptr>>
    ghost var place: map<Ptr, Place>
    /** What the wheel holds, slot by slot. */
    ghost var slots: Slots

    ghost function Mem(): Memory
      reads this
    {
      Memory(next, expire, tail, spine, place)
    }

    ghost predicate Valid()
      reads this
    {
      Holds(Mem(), slots)
    }

    /** `timer_create_timer`. */
    constructor ()
      ensures Valid() && time == 0 && slots == EmptySlots()
    {
      ghost var m := EmptyMem();
      EmptyHolds();
      next, tail, expire, time := map p | p in Heads() :: Null, map l | l in AllLocs() :: Head(l), map[], 0;
      spine, place, slots := m.spine, m.place, EmptySlots();
      new;
      assert Mem() == m;
    }

    /** `link`. `x` is the timer the node stands for. */
    method Link(l: Loc, p: Ptr, ghost x: Item)
      requires Valid() && ValidLoc(l) && p !in place && Carries(Mem(), p, x)
      modifies this
      ensures Valid() && slots == old(slots)[l := old(slots)[l] + [x]]
      ensures SlotOk(old(Mem()), old(slots), l) && Mem() == LinkMem(old(Mem()), l, p) && time == old(time)
    {
      LinkHolds(Mem(), slots, l, p, x);
      next, tail, place, spine, slots :=
        next[tail[l] := p][p := Null], tail[l := p],
        place[p := Place(l, |spine[l]|)], spine[l := spine[l] + [p]], slots[l := slots[l] + [x]];
      assert Mem() == LinkMem(old(Mem()), l, p);
    }

    /** `link_clear`: empty one slot and hand its nodes to the caller. */
    method LinkClear(l: Loc) returns (first: Ptr, ghost ps: seq<Ptr>)
      requires Valid() && ValidLoc(l)
      modifies this
      ensures Valid() && slots == old(slots)[l := []] && time == old(time)
      ensures Detached(Mem(), first, ps, old(slots)[l])
    {
      ClearHolds(Mem(), slots, l);
      ps := spine[l][1..];
      first := next[Head(l)];
      next, tail, place, spine, slots :=
        next[Head(l) := Null], tail[l := Head(l)],
        place - Among(ps), spine[l := [Head(l)]], slots[l := []];
      assert Mem() == ClearMem(old(Mem()), l);
    }

    /** `add_node`. */
    method AddNode(p: Ptr, ghost x: Item)
      requires Valid() && p !in place && Carries(Mem(), p, x)
      modifies this
      ensures Valid() && slots == Put(old(slots), x, time) && time == old(time)
      ensures var l := Home(x.due % WRAP, time);
        SlotOk(old(Mem()), old(slots), l) && Mem() == LinkMem(old(Mem()), l, p)
    {
      var e, ct := expire[p], time;
      OrMaskQuotient(e, ct, NEAR - 1);
      if OrMask(e, NEAR - 1) == OrMask(ct, NEAR - 1) {
        Link(Near(e % NEAR), p, x);
      } else {
        var i := FindRing(e, ct);
        Link(Far(i, e / RingWidth(i) % LEVEL), p, x);
      }
    }

    /** `timer_wheel_add`. `now` is the unwrapped clock; `id` names the timer and its node. A chain `ps` of
        detached nodes, whose callbacks are being run, is not touched. */
    method Add(p: Ptr, delay: u32, ghost id: nat, ghost now: nat, ghost ps: seq<Ptr>, ghost items: seq<Item>)
      requires Valid() && p == Node(id) && p !in place && time == now % WRAP
      requires Detached(Mem(), FirstOf(ps), ps, items) && p !in ps
      modifies this
      ensures Valid() && slots == Put(old(slots), Item(id, now, now + delay), time) && time == old(time)
      ensures Detached(Mem(), FirstOf(ps), ps, items)
    {
      ghost var x := Item(id, now, now + delay);
      WrapSum(now, delay);
      ExpireHolds(Mem(), slots, p, (delay + time) % WRAP);
      ExpireDetached(Mem(), p, (delay + time) % WRAP, ps, items);
      expire := expire[p := (delay + time) % WRAP];
      LinkOther(Mem(), slots, Home(x.due % WRAP, time), p, ps, items);
      AddNode(p, x);
    }

    /** One turn of the loop of `move_list`. */
    method MoveNode(current: Ptr, ghost ps: seq<Ptr>, ghost items: seq<Item>) returns (temp: Ptr)
      requires Valid() && current != Null && Detached(Mem(), current, ps, items)
      modifies this
      ensures Valid() && slots == Put(old(slots), items[0], time) && time == old(time)
      ensures Detached(Mem(), temp, ps[1..], items[1..])
    {
      assert DetachedAt(Mem(), ps, items, 0);
      LinkDetached(Mem(), slots, Home(items[0].due % WRAP, time), ps, items);
      temp := next[current];
      AddNode(current, items[0]);
    }

    /** `move_list`. */
    method MoveList(level: nat, idx: nat)
      requires Valid() && level < 4 && idx < LEVEL
      modifies this
      ensures Valid() && slots == Move(old(slots), Far(level, idx), time) && time == old(time)
    {
      var l := Far(level, idx);
      ghost var items := slots[l];
      var current;
      ghost var ps: seq<Ptr>;
      current, ps := LinkClear(l);
      ghost var goal := PutAll(slots, items, time);
      while current != Null
        invariant Valid() && time == old(time)
        invariant Detached(Mem(), current, ps, items)
        invariant PutAll(slots, items, time) == goal
        decreases |ps|
      {
        var temp := MoveNode(current, ps, items);
        current, ps, items := temp, ps[1..], items[1..];
      }
      DetachedNull(Mem(), ps, items);
    }

    /** `timer_shift`: advance the clock by one and empty at most one coarse slot. */
    method Shift()
      requires Valid()
      modifies this
      ensures Valid() && time == (old(time) + 1) % WRAP && slots == ShiftSlots(old(slots), time)
    {
      var mask := NEAR;
      time := (time + 1) % WRAP;
      var ct := time;
      if ct == 0 {
        MoveList(3, 0);
      } else {
        VisitedStart(ct);
        var rest := ct / NEAR;
        var i := 0;
        while ct % mask == 0
          invariant i < 4 && mask == RingWidth(i) && rest == ct / mask
          invariant Visited(ct) == VisitedFrom(ct, i)
          invariant Valid() && time == ct && slots == old(slots)
          decreases 4 - i
        {
          VisitedRing(ct, i);
          var idx := rest % LEVEL;
          if idx != 0 {
            MoveList(i, idx);
            break;
          }
          mask := mask * LEVEL;
          rest := rest / LEVEL;
          i := i + 1;
        }
      }
    }

    /** `near[idx].head.next`. */
    function HeadNext(): Ptr
      requires Head(Near(time % NEAR)) in next
      reads `next, `time
    {
      next[Head(Near(time % NEAR))]
    }

    lemma HeadNextNull()
      requires Valid()
      ensures Head(Near(time % NEAR)) in next
      ensures HeadNext() == Null <==> slots[Near(time % NEAR)] == []
    {
      var near := Near(time % NEAR);
      assert SlotOk(Mem(), slots, near) && LinkOk(Mem(), slots, near, 0);
      if slots[near] != [] {
        assert LinkOk(Mem(), slots, near, 1);
      }
    }

    /** The test and the body of the drain loop in `update_time_wheel_timer`: if the slot under
        the clock holds anything, it is emptied and its chain is handed to the callbacks. */
    method Take() returns (first: Ptr, ghost ps: seq<Ptr>)
      requires Valid()
      modifies this
      ensures Valid() && time == old(time)
      ensures var near := Near(time % NEAR);
        && (first == Null <==> old(slots)[near] == [])
        && slots == old(slots)[near := []]
        && Detached(Mem(), first, ps, old(slots)[near])
    {
      first, ps := LinkClear(Near(time % NEAR));
      if ps != [] {
        assert DetachedAt(Mem(), ps, old(slots)[Near(time % NEAR)], 0);
      }
    }
  }
}
