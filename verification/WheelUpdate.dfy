/** `add_time_wheel_timer` and `update_time_wheel_timer` on the linked slots: they follow the runs of
  WheelRun, step by step. */
module WheelUpdate {
  import opened Seqs
  import opened WheelSlots
  import opened WheelSpec
  import opened WheelRun
  import opened TimingWheel

  /** The numbers of the timers that have been handed over. */
  ghost function Ids(fired: seq<Firing>): seq<nat> {
    seq(|fired|, i requires 0 <= i < |fired| => fired[i].item.id)
  }

  /** The linked wheel `w` holds `slots`; the nodes `ps` of `items` are detached. */
  ghost predicate Stands(w: TimerWheel, slots: Slots, time: u32, ps: seq<Ptr>, items: seq<Item>)
    reads w
  {
    w.Valid() && w.slots == slots && w.time == time && Detached(w.Mem(), FirstOf(ps), ps, items)
  }

  /** It is the wheel of the state `s`, where the callbacks of `ps` are being run. */
  ghost predicate Stores(w: TimerWheel, s: State, ps: seq<Ptr>)
    reads w
  {
    Stands(w, s.slots, s.time, ps, Batch(s))
  }

  lemma OldId(s: State, x: Item)
    requires Inv(s) && (x in s.pending || x in Batch(s))
    ensures x.id < |s.added|
  {
    assert x in multiset(s.added);
  }

  lemma SlotOld(s: State, l: Loc, x: Item)
    requires Inv(s) && ValidLoc(l) && x in s.slots[l]
    ensures x.id < |s.added|
  {
    HeldIn(s.slots, l);
    assert x in multiset(s.pending);
    OldId(s, x);
  }

  lemma LinkedOld(m: Memory, s: State, p: Ptr)
    requires Holds(m, s.slots) && Inv(s) && p in m.place
    ensures p != Node(|s.added|)
  {
    var Place(l, i) := m.place[p];
    assert Placed(m, p);
    assert LinkOk(m, s.slots, l, i) && SlotOk(m, s.slots, l);
    if i > 0 {
      SlotOld(s, l, s.slots[l][i - 1]);
    }
  }

  /** The node of the next timer is not linked, and it is not among the detached ones. */
  lemma NotLinked(m: Memory, steps: seq<Step>, s: State, ps: seq<Ptr>)
    requires s == After(steps) && Holds(m, s.slots) && Detached(m, FirstOf(ps), ps, Batch(s))
    ensures Node(|s.added|) !in m.place && Node(|s.added|) !in ps
  {
    RunInv(steps);
    var p := Node(|s.added|);
    if p in m.place {
      LinkedOld(m, s, p);
    }
    forall i | 0 <= i < |ps|
      ensures ps[i] != p
    {
      assert DetachedAt(m, ps, Batch(s), i);
      OldId(s, Batch(s)[i]);
    }
  }

  // ----- one step of a run, part by part

  ghost predicate SameClock(s: State, t: State) {
    t.time == s.time && t.now == s.now
  }

  ghost predicate Added(s: State, d: u32, t: State) {
    && Total(s.slots) && s.time == s.now % WRAP && SameClock(s, t) && t.phase == s.phase
    && t.slots == Put(s.slots, Item(|s.added|, s.now, s.now + d), s.time)
    && |t.added| == |s.added| + 1 && t.fired == s.fired
  }

  lemma NextAdd(s: State, d: u32)
    requires Total(s.slots) && Numbered(s) && Enabled(s, Add(d))
    ensures Added(s, d, Next(s, Add(d)))
  {
  }

  lemma AddStep(steps: seq<Step>, s: State, d: u32) returns (t: State)
    requires s == After(steps) && Enabled(s, Add(d))
    ensures t == After(steps + [Add(d)]) && Added(s, d, t)
  {
    RunInv(steps);
    AfterOne(steps, Add(d));
    t := Next(s, Add(d));
    NextAdd(s, d);
  }

  ghost predicate Taken(s: State, t: State) {
    var near := Near(s.time % NEAR);
    && Total(s.slots) && s.phase.Draining? && SameClock(s, t) && t.added == s.added && t.fired == s.fired
    && t.phase == Calling(s.phase.second, s.slots[near]) && t.slots == s.slots[near := []]
  }

  lemma TakeStep(steps: seq<Step>, s: State) returns (t: State)
    requires s == After(steps) && Enabled(s, Take)
    ensures t == After(steps + [Take]) && Taken(s, t)
  {
    AfterOne(steps, Take);
    t := Next(s, Take);
  }

  ghost predicate Fired(s: State, t: State) {
    && s.phase.Calling? && s.phase.batch != [] && SameClock(s, t) && t.added == s.added && t.slots == s.slots
    && t.phase == Calling(s.phase.second, s.phase.batch[1..])
    && Ids(t.fired) == Ids(s.fired) + [s.phase.batch[0].id]
  }

  lemma FireStep(steps: seq<Step>, s: State) returns (t: State)
    requires s == After(steps) && Enabled(s, Fire)
    ensures t == After(steps + [Fire]) && Fired(s, t)
  {
    AfterOne(steps, Fire);
    t := Next(s, Fire);
  }

  ghost predicate Moved(s: State, t: State, phase: Phase) {
    t == s.(phase := phase)
  }

  lemma PhaseStep(steps: seq<Step>, s: State, step: Step) returns (t: State)
    requires s == After(steps) && Enabled(s, step) && (step.Lock? || step.Relock? || step.Unlock?)
    ensures t == After(steps + [step])
    ensures Moved(s, t, if step.Lock? then Draining(false) else if step.Relock? then Draining(s.phase.second) else Idle)
  {
    AfterOne(steps, step);
    t := Next(s, step);
  }

  ghost predicate Shifted(s: State, t: State) {
    && Total(s.slots) && t.time == Tick(s.time) && t.now == s.now + 1 && t.slots == ShiftSlots(s.slots, t.time)
    && t.phase == Draining(true) && t.added == s.added && t.fired == s.fired
  }

  lemma ShiftStep(steps: seq<Step>, s: State) returns (t: State)
    requires s == After(steps) && Enabled(s, Shift)
    ensures t == After(steps + [Shift]) && Shifted(s, t)
  {
    AfterOne(steps, Shift);
    t := Next(s, Shift);
  }

  // ----- the methods

  /** The run `steps` has led to the state `s`, which `w` stores; `created` nodes have been handed out. */
  ghost predicate At(w: TimerWheel, steps: seq<Step>, s: State, ps: seq<Ptr>, created: nat)
    reads w
  {
    s == After(steps) && Stores(w, s, ps) && created == |s.added|
  }

  method AddNode(w: TimerWheel, id: nat, delay: u32, ghost now: nat, ghost time: u32, ghost slots: Slots,
                 ghost ps: seq<Ptr>, ghost items: seq<Item>)
    requires Stands(w, slots, time, ps, items) && time == now % WRAP
    requires Node(id) !in w.place && Node(id) !in ps
    modifies w
    ensures Stands(w, Put(slots, Item(id, now, now + delay), time), time, ps, items)
  {
    w.Add(Node(id), delay, id, now, ps, items);
  }

  lemma AtAdded(w: TimerWheel, created: nat, d: u32, steps: seq<Step>, s: State, ps: seq<Ptr>) returns (t: State)
    requires s == After(steps) && !s.phase.Draining? && created == |s.added|
    requires Stands(w, Put(s.slots, Item(created, s.now, s.now + d), s.time), s.time, ps, Batch(s))
    ensures Added(s, d, t) && At(w, steps + [Add(d)], t, ps, created + 1)
  {
    t := AddStep(steps, s, d);
  }

  lemma ReadyToAdd(w: TimerWheel, created: nat, steps: seq<Step>, s: State, ps: seq<Ptr>)
    requires At(w, steps, s, ps, created) && !s.phase.Draining?
    ensures Total(s.slots) && s.time == s.now % WRAP && created == |s.added|
    ensures Stands(w, s.slots, s.time, ps, Batch(s)) && Node(created) !in w.place && Node(created) !in ps
  {
    NotLinked(w.Mem(), steps, s, ps);
    RunInv(steps);
  }

  method AddFresh(w: TimerWheel, delay: u32, created: nat, ghost steps: seq<Step>, ghost s: State, ghost ps: seq<Ptr>)
      returns (ghost t: State)
    requires s == After(steps) && !s.phase.Draining? && created == |s.added| && s.time == s.now % WRAP
    requires Stands(w, s.slots, s.time, ps, Batch(s)) && Node(created) !in w.place && Node(created) !in ps
    modifies w
    ensures Added(s, delay, t) && At(w, steps + [Add(delay)], t, ps, created + 1)
  {
    AddNode(w, created, delay, s.now, s.time, s.slots, ps, Batch(s));
    t := AtAdded(w, created, delay, steps, s, ps);
  }

  /** `add_time_wheel_timer`, by any thread while the lock is free. */
  method AddTimer(w: TimerWheel, delay: u32, created: nat, ghost steps: seq<Step>, ghost s: State, ghost ps: seq<Ptr>)
      returns (ghost t: State)
    requires At(w, steps, s, ps, created) && !s.phase.Draining?
    modifies w
    ensures Added(s, delay, t) && At(w, steps + [Add(delay)], t, ps, created + 1)
  {
    ReadyToAdd(w, created, steps, s, ps);
    t := AddFresh(w, delay, created, steps, s, ps);
  }

  /** What other threads, or callbacks, add while the lock is free. */
  method AddTimers(w: TimerWheel, delays: seq<u32>, created0: nat, ghost steps0: seq<Step>, ghost s: State,
                   ghost ps: seq<Ptr>)
      returns (created: nat, ghost steps: seq<Step>, ghost t: State)
    requires At(w, steps0, s, ps, created0) && !s.phase.Draining?
    modifies w
    ensures At(w, steps, t, ps, created) && steps0 <= steps
    ensures SameClock(s, t) && t.phase == s.phase && t.fired == s.fired && (delays == [] ==> t == s)
  {
    created, steps, t := created0, steps0, s;
    for i := 0 to |delays|
      invariant At(w, steps, t, ps, created) && steps0 <= steps
      invariant SameClock(s, t) && t.phase == s.phase && t.fired == s.fired && (i == 0 ==> t == s)
    {
      t := AddTimer(w, delays[i], created, steps, t, ps);
      created, steps := created + 1, steps + [Add(delays[i])];
    }
  }

  lemma DetachedRest(m: Memory, ps: seq<Ptr>, items: seq<Item>)
    requires Detached(m, FirstOf(ps), ps, items) && FirstOf(ps) != Null
    ensures ps != [] && items != [] && ps[0] in m.next && ps[0] == Node(items[0].id)
    ensures m.next[ps[0]] == FirstOf(ps[1..]) && Detached(m, FirstOf(ps[1..]), ps[1..], items[1..])
  {
    assert DetachedAt(m, ps, items, 0);
    forall i | 0 <= i < |ps| - 1
      ensures DetachedAt(m, ps[1..], items[1..], i)
    {
      assert DetachedAt(m, ps, items, i + 1);
    }
  }

  /** One callback: the node is unchained and the callback of its timer is run. */
  method CallOne(w: TimerWheel, current: Ptr, created: nat, ghost steps: seq<Step>, ghost s: State, ghost ps: seq<Ptr>)
      returns (next: Ptr, id: nat, ghost t: State)
    requires At(w, steps, s, ps, created) && s.phase.Calling? && current == FirstOf(ps) != Null
    ensures ps != [] && Fired(s, t) && id == s.phase.batch[0].id
    ensures At(w, steps + [Fire], t, ps[1..], created) && next == FirstOf(ps[1..])
  {
    DetachedRest(w.Mem(), ps, s.phase.batch);
    t := FireStep(steps, s);
    next, id := w.next[current], current.id;
  }

  /** The callbacks of a detached list, while others add timers: `delays[i]` are those added before the `i`-th
      one is run. Then the lock is taken again. */
  method RunCallbacks(w: TimerWheel, first: Ptr, delays0: seq<seq<u32>>, created0: nat, ghost steps0: seq<Step>,
                      ghost s: State, ghost ps0: seq<Ptr>)
      returns (called: seq<nat>, delays: seq<seq<u32>>, created: nat, ghost steps: seq<Step>, ghost t: State)
    requires At(w, steps0, s, ps0, created0) && s.phase.Calling? && first == FirstOf(ps0) != Null
    modifies w
    ensures At(w, steps, t, [], created) && steps0 <= steps
    ensures SameClock(s, t) && t.phase == Draining(s.phase.second) && Ids(t.fired) == Ids(s.fired) + called
    ensures if delays0 == [] then delays == [] && t.slots == s.slots else |delays| < |delays0|
  {
    var current := first;
    ghost var ps := ps0;
    called, delays, created, steps, t := [], delays0, created0, steps0, s;
    while current != Null
      invariant At(w, steps, t, ps, created) && current == FirstOf(ps) && steps0 <= steps
      invariant SameClock(s, t) && t.phase.Calling? && t.phase.second == s.phase.second
      invariant Ids(t.fired) == Ids(s.fired) + called
      invariant if delays0 == [] then delays == [] && t.slots == s.slots
                else |delays| < |delays0| || (delays == delays0 && current == first)
      decreases |ps|
    {
      if delays != [] {
        created, steps, t := AddTimers(w, delays[0], created, steps, t, ps);
        delays := delays[1..];
      }
      var id;
      current, id, t := CallOne(w, current, created, steps, t, ps);
      called, steps, ps := called + [id], steps + [Fire], ps[1..];
    }
    NoneLeft(w.Mem(), ps, t.phase.batch);
    t := PhaseStep(steps, t, Relock);
    steps := steps + [Relock];
  }

  lemma NoneLeft(m: Memory, ps: seq<Ptr>, items: seq<Item>)
    requires Detached(m, FirstOf(ps), ps, items) && FirstOf(ps) == Null
    ensures ps == [] && items == []
  {
    DetachedNull(m, ps, items);
  }

  /** The test of the drain loop: is anything under the clock? */
  method Pending(w: TimerWheel, ghost s: State) returns (b: bool)
    requires Stores(w, s, []) && Total(s.slots)
    ensures b <==> s.slots[Near(s.time % NEAR)] != []
  {
    w.HeadNextNull();
    b := w.HeadNext() != Null;
  }

  /** `link_clear` of the slot under the clock. */
  method TakeNear(w: TimerWheel, created: nat, ghost steps: seq<Step>, ghost s: State)
      returns (first: Ptr, ghost ps: seq<Ptr>, ghost t: State)
    requires At(w, steps, s, [], created) && Enabled(s, Take)
    modifies w
    ensures Taken(s, t) && At(w, steps + [Take], t, ps, created) && first == FirstOf(ps) != Null
  {
    t := TakeStep(steps, s);
    first, ps := w.Take();
  }

  /** From `s` to `t` without a tick: `called` are the timers handed over on the way. */
  ghost predicate Onward(steps0: seq<Step>, s: State, steps: seq<Step>, t: State, called: seq<nat>) {
    steps0 <= steps && SameClock(s, t) && Ids(t.fired) == Ids(s.fired) + called
  }

  lemma OnwardAgain(steps0: seq<Step>, s: State, steps1: seq<Step>, t: State, steps: seq<Step>, u: State,
                    a: seq<nat>, b: seq<nat>)
    requires Onward(steps0, s, steps1, t, a) && Onward(steps1, t, steps, u, b)
    ensures Onward(steps0, s, steps, u, a + b)
  {
  }

  /** One turn of the drain loop. */
  method DrainTurn(w: TimerWheel, delays0: seq<seq<u32>>, created0: nat, ghost steps0: seq<Step>, ghost s: State)
      returns (called: seq<nat>, delays: seq<seq<u32>>, created: nat, ghost steps: seq<Step>, ghost t: State)
    requires At(w, steps0, s, [], created0) && Enabled(s, Take)
    modifies w
    ensures At(w, steps, t, [], created) && Onward(steps0, s, steps, t, called) && t.phase == s.phase
    ensures if delays0 == [] then delays == [] && Total(t.slots) && t.slots[Near(t.time % NEAR)] == []
            else |delays| < |delays0|
  {
    var first;
    ghost var ps, mid;
    first, ps, mid := TakeNear(w, created0, steps0, s);
    called, delays, created, steps, t := RunCallbacks(w, first, delays0, created0, steps0 + [Take], mid, ps);
  }

  /** The drain loop `timerExecute`, lock held: as long as anything is under the clock, it is detached, and its
      callbacks are run with the lock released, while others may add timers. */
  method DrainNear(w: TimerWheel, delays0: seq<seq<u32>>, created0: nat, ghost steps0: seq<Step>, ghost s: State)
      returns (called: seq<nat>, delays: seq<seq<u32>>, created: nat, ghost steps: seq<Step>, ghost t: State)
    requires At(w, steps0, s, [], created0) && s.phase.Draining?
    modifies w
    ensures At(w, steps, t, [], created) && Onward(steps0, s, steps, t, called) && t.phase == s.phase
    ensures Total(t.slots) && t.slots[Near(t.time % NEAR)] == []
  {
    called, delays, created, steps, t := [], delays0, created0, steps0, s;
    var more := Pending(w, t);
    while more
      invariant At(w, steps, t, [], created) && Onward(steps0, s, steps, t, called) && t.phase == s.phase
      invariant Total(t.slots) && (more <==> t.slots[Near(t.time % NEAR)] != [])
      decreases |delays|, more
    {
      ghost var steps1, t1 := steps, t;
      var ran;
      ran, delays, created, steps, t := DrainTurn(w, delays, created, steps, t);
      OnwardAgain(steps0, s, steps1, t1, steps, t, called, ran);
      called := called + ran;
      more := Pending(w, t);
    }
  }

  lemma SetPhase(w: TimerWheel, created: nat, steps: seq<Step>, s: State, step: Step) returns (t: State)
    requires At(w, steps, s, [], created) && Enabled(s, step) && (step.Lock? || step.Unlock?)
    ensures At(w, steps + [step], t, [], created) && SameClock(s, t) && t.fired == s.fired
    ensures t.phase == if step.Lock? then Draining(false) else Idle
  {
    t := PhaseStep(steps, s, step);
  }

  method ShiftStored(w: TimerWheel, ghost s: State, ghost t: State)
    requires Stores(w, s, []) && Shifted(s, t)
    modifies w
    ensures Stores(w, t, [])
  {
    w.Shift();
  }

  method ShiftWheel(w: TimerWheel, created: nat, ghost steps: seq<Step>, ghost s: State) returns (ghost t: State)
    requires At(w, steps, s, [], created) && Enabled(s, Shift)
    modifies w
    ensures Shifted(s, t) && At(w, steps + [Shift], t, [], created)
  {
    t := ShiftStep(steps, s);
    ShiftStored(w, s, t);
  }

  /** Lock, first drain, shift. */
  method UpdateFirst(w: TimerWheel, delays0: seq<seq<u32>>, created0: nat, ghost steps0: seq<Step>, ghost s: State)
      returns (called: seq<nat>, delays: seq<seq<u32>>, created: nat, ghost steps: seq<Step>, ghost t: State)
    requires At(w, steps0, s, [], created0) && s.phase.Idle?
    modifies w
    ensures At(w, steps, t, [], created) && steps0 <= steps && t.now == s.now + 1 && t.phase == Draining(true)
    ensures Ids(t.fired) == Ids(s.fired) + called
  {
    t := SetPhase(w, created0, steps0, s, Lock);
    called, delays, created, steps, t := DrainNear(w, delays0, created0, steps0 + [Lock], t);
    t := ShiftWheel(w, created, steps, t);
    steps := steps + [Shift];
  }

  /** Every timer that is met on time and due by now has been handed over at its expiry. */
  ghost predicate DueFired(s: State) {
    forall x | x in s.added && MetOnTime(x) && x.due <= s.now :: Firing(x, x.due) in s.fired
  }

  /** The release of the lock after the second drain. */
  lemma Release(w: TimerWheel, created: nat, steps: seq<Step>, s: State) returns (t: State)
    requires At(w, steps, s, [], created) && Enabled(s, Unlock)
    ensures At(w, steps + [Unlock], t, [], created) && SameClock(s, t) && t.fired == s.fired && t.phase.Idle?
    ensures DueFired(t)
  {
    t := SetPhase(w, created, steps, s, Unlock);
    forall x | x in t.added && MetOnTime(x) && x.due <= t.now
      ensures Firing(x, x.due) in t.fired
    {
      ReleasedFired(steps, Unlock, x);
    }
  }

  lemma {:induction false} AddedStays(steps0: seq<Step>, steps: seq<Step>)
    requires steps0 <= steps
    ensures After(steps0).added <= After(steps).added
  {
    if |steps| == |steps0| {
      assert steps0 == steps;
    } else {
      AddedStays(steps0, steps[..|steps| - 1]);
    }
  }

  /** Second drain, unlock. */
  method UpdateSecond(w: TimerWheel, delays0: seq<seq<u32>>, created0: nat, ghost steps0: seq<Step>, ghost s: State)
      returns (called: seq<nat>, created: nat, ghost steps: seq<Step>, ghost t: State)
    requires At(w, steps0, s, [], created0) && s.phase == Draining(true)
    modifies w
    ensures At(w, steps, t, [], created) && steps0 <= steps && t.now == s.now && t.phase.Idle?
    ensures Ids(t.fired) == Ids(s.fired) + called && DueFired(t)
  {
    var delays;
    called, delays, created, steps, t := DrainNear(w, delays0, created0, steps0, s);
    t := Release(w, created, steps, t);
    steps := steps + [Unlock];
  }

  /** `update_time_wheel_timer`: drain, shift, drain. It answers the numbers of the timers whose callbacks it has
      run, in order: they are those handed over in a run that ends with the clock one tick further, and no timer
      that is met on time and due by then is left. */
  method Update(w: TimerWheel, delays0: seq<seq<u32>>, created0: nat, ghost steps0: seq<Step>, ghost s: State)
      returns (called: seq<nat>, created: nat, ghost steps: seq<Step>, ghost t: State)
    requires At(w, steps0, s, [], created0) && s.phase.Idle?
    modifies w
    ensures At(w, steps, t, [], created) && steps0 <= steps && t.phase.Idle? && t.now == s.now + 1
    ensures Ids(t.fired) == Ids(s.fired) + called
    ensures DueFired(t) && s.added <= t.added
  {
    var early, late, delays;
    ghost var steps1, mid;
    early, delays, created, steps1, mid := UpdateFirst(w, delays0, created0, steps0, s);
    late, created, steps, t := UpdateSecond(w, delays, created, steps1, mid);
    called := early + late;
    Assoc(Ids(s.fired), early, late);
    AddedStays(steps0, steps);
  }

  method Start() returns (w: TimerWheel)
    ensures fresh(w) && At(w, [], Init(), [], 0)
  {
    w := new TimerWheel();
  }
}
