/** Runs of the timer thread against any number of adding threads.

  A state holds the wheel, where the timer thread is in `update_time_wheel_timer`, and a
  history. Every locked region is one step; adding needs the lock to be free. A step that is
  not enabled changes nothing, so every sequence of steps is a run. */
module WheelRun {
  import opened Seqs
  import opened WheelSlots
  import opened WheelSpec

  /** Idle: lock free, between two updates. Draining: lock held, at the loop test of the
      first or second drain. Calling: lock free, running the callbacks of a detached list. */
  datatype Phase =
    | Idle
    | Draining(second: bool)
    | Calling(second: bool, batch: seq<Item>)

  datatype Firing = Firing(item: Item, at: nat)

  datatype State = State(
    slots: Slots, time: u32, phase: Phase,
    now: nat, added: seq<Item>, pending: seq<Item>, fired: seq<Firing>)

  datatype Step = Add(delay: u32) | Lock | Take | Fire | Relock | Shift | Unlock

  function Init(): State {
    State(EmptySlots(), 0, Idle, 0, [], [], [])
  }

  predicate Enabled(s: State, step: Step)
    requires Total(s.slots)
  {
    match step
    case Add(_) => !s.phase.Draining?
    case Lock => s.phase.Idle?
    case Take => s.phase.Draining? && s.slots[Near(s.time % NEAR)] != []
    case Fire => s.phase.Calling? && s.phase.batch != []
    case Relock => s.phase.Calling? && s.phase.batch == []
    case Shift => s.phase == Draining(false) && s.slots[Near(s.time % NEAR)] == []
    case Unlock => s.phase == Draining(true) && s.slots[Near(s.time % NEAR)] == []
  }

  /** `++T->time` on 32 bits. */
  function Tick(time: u32): u32 {
    (time + 1) % WRAP
  }

  ghost function Apply(s: State, step: Step): State
    requires Total(s.slots) && Enabled(s, step)
  {
    match step
    case Add(d) =>
      var x := Item(|s.added|, s.now, s.now + d);
      s.(slots := Put(s.slots, x, s.time), added := s.added + [x], pending := s.pending + [x])
    case Lock => s.(phase := Draining(false))
    case Take =>
      var near := Near(s.time % NEAR);
      s.(slots := s.slots[near := []], phase := Calling(s.phase.second, s.slots[near]),
         pending := Sel(s.pending, x => x !in s.slots[near]))
    case Fire =>
      s.(phase := s.phase.(batch := s.phase.batch[1..]),
         fired := s.fired + [Firing(s.phase.batch[0], s.now)])
    case Relock => s.(phase := Draining(s.phase.second))
    case Shift =>
      s.(time := Tick(s.time), slots := ShiftSlots(s.slots, Tick(s.time)),
         phase := Draining(true), now := s.now + 1)
    case Unlock => s.(phase := Idle)
  }

  ghost function Next(s: State, step: Step): State
    requires Total(s.slots)
  {
    if Enabled(s, step) then Apply(s, step) else s
  }

  // ----- the invariant

  ghost predicate MetOnTime(x: Item) {
    x.added <= x.due < x.added + WRAP && OnTime(x.added % WRAP, x.due - x.added)
  }

  ghost predicate Fated(x: Item, l: Loc, now: nat) {
    if MetOnTime(x) then WillMeet(l, x.due, now) else WillMiss(l, x.due, now)
  }

  function Batch(s: State): seq<Item> {
    if s.phase.Calling? then s.phase.batch else []
  }

  function Items(fs: seq<Firing>): (r: seq<Item>)
    ensures |r| == |fs| && forall i | 0 <= i < |r| :: r[i] == fs[i].item
  {
    seq(|fs|, i requires 0 <= i < |fs| => fs[i].item)
  }

  ghost predicate Numbered(s: State) {
    && s.time == s.now % WRAP
    && forall i | 0 <= i < |s.added| ::
         s.added[i].id == i && s.added[i].added <= s.now && s.added[i].added <= s.added[i].due < s.added[i].added + WRAP
  }

  /** The slots are a filing of the plain list of pending timers. */
  ghost predicate Refines(s: State)
    requires Total(s.slots)
  {
    Files(s.slots, s.now, s.pending) && Awaited(s.pending, s.now)
  }

  /** Every added timer is in exactly one place, once. */
  ghost predicate Conserved(s: State)
    requires Total(s.slots)
  {
    && All(s.slots) == multiset(s.pending)
    && multiset(s.added) == multiset(s.pending) + multiset(Batch(s)) + multiset(Items(s.fired))
  }

  ghost predicate DueAt(x: Item, due: nat) {
    InReach(x) && x.due == due
  }

  /** Timers within reach and with the same expiry leave in insertion order. */
  ghost predicate InOrderAt(s: State, due: nat) {
    Due(Items(s.fired), due) + Due(Batch(s), due) + Due(s.pending, due) == Due(s.added, due)
  }

  /** The timers within reach that expire at `due`, in order. */
  ghost function Due(xs: seq<Item>, due: nat): seq<Item> {
    Sel(xs, x => DueAt(x, due))
  }

  lemma DueConcat(a: seq<Item>, b: seq<Item>, due: nat)
    ensures Due(a + b, due) == Due(a, due) + Due(b, due)
  {
    SelConcat(a, b, x => DueAt(x, due));
  }

  ghost predicate InOrder(s: State) {
    forall due: nat :: InOrderAt(s, due)
  }

  ghost predicate SlotFates(slots: Slots, now: nat)
    requires Total(slots)
  {
    forall l | ValidLoc(l) :: forall x | x in slots[l] :: Fated(x, l, now)
  }

  ghost predicate BatchFates(batch: seq<Item>, now: nat) {
    forall x | x in batch :: x.due == now <==> MetOnTime(x)
  }

  ghost predicate FiredFates(fired: seq<Firing>) {
    forall f | f in fired :: f.at == f.item.due <==> MetOnTime(f.item)
  }

  ghost predicate Fates(s: State)
    requires Total(s.slots)
  {
    && SlotFates(s.slots, s.now)
    && BatchFates(Batch(s), s.now)
    && FiredFates(s.fired)
  }

  ghost predicate Inv(s: State) {
    Total(s.slots) && Numbered(s) && Refines(s) && Conserved(s) && InOrder(s) && Fates(s)
  }

  // ----- every step keeps it

  lemma InitInv()
    ensures Inv(Init())
  {
    var s := Init();
    assert Total(s.slots) && forall l | ValidLoc(l) :: s.slots[l] == [];
    EmptyInv(s);
  }

  lemma EmptyInv(s: State)
    requires Total(s.slots) && forall l | ValidLoc(l) :: s.slots[l] == []
    requires s == State(s.slots, 0, Idle, 0, [], [], [])
    ensures Inv(s)
  {
    EmptyHeld(s.slots, 512);
    assert Items(s.fired) == [] && Batch(s) == [];
    assert InOrder(s);
  }

  lemma {:induction false} EmptyHeld(s: Slots, k: nat)
    requires Total(s) && k <= 512 && forall l | ValidLoc(l) :: s[l] == []
    ensures Held(s, k) == multiset{}
  {
    if k > 0 {
      EmptyHeld(s, k - 1);
    }
  }

  function NewItem(s: State, d: u32): Item {
    Item(|s.added|, s.now, s.now + d)
  }

  lemma AddInv(s: State, d: u32)
    requires Inv(s) && Enabled(s, Add(d))
    ensures Inv(Apply(s, Add(d)))
  {
    AddRefines(s, d);
    AddConserves(s, d);
    AddInOrder(s, d);
    AddFates(s, d);
    AddNumbers(s, d);
  }

  lemma AddNumbers(s: State, d: u32)
    requires Total(s.slots) && Numbered(s) && Enabled(s, Add(d))
    ensures Numbered(Apply(s, Add(d)))
  {
  }

  lemma AddRefines(s: State, d: u32)
    requires Total(s.slots) && s.time == s.now % WRAP && Refines(s) && Enabled(s, Add(d))
    ensures Total(Apply(s, Add(d)).slots) && Refines(Apply(s, Add(d)))
  {
    PendingFiles(s.slots, s.time, s.now, s.pending, NewItem(s, d));
  }

  lemma PendingFiles(slots: Slots, time: u32, now: nat, pending: seq<Item>, x: Item)
    requires Total(slots) && Files(slots, now, pending) && Awaited(pending, now)
    requires time == now % WRAP && x.added == now <= x.due
    ensures Files(Put(slots, x, time), now, pending + [x]) && Awaited(pending + [x], now)
  {
    AddFiles(slots, now, pending, x);
    AwaitedLast(pending, now, x);
  }

  lemma AwaitedLast(pending: seq<Item>, now: nat, x: Item)
    requires Awaited(pending, now) && x.added == now <= x.due
    ensures Awaited(pending + [x], now)
  {
  }

  lemma AddConserves(s: State, d: u32)
    requires Total(s.slots) && Conserved(s) && Enabled(s, Add(d))
    ensures Conserved(Apply(s, Add(d)))
  {
    PutHolds(s.slots, NewItem(s, d), s.time);
    Pushed(s.pending, NewItem(s, d));
    Pushed(s.added, NewItem(s, d));
    OneMore(multiset(s.pending), multiset(Batch(s)), multiset(Items(s.fired)), multiset{NewItem(s, d)});
  }

  lemma OneMore<T>(pending: multiset<T>, batch: multiset<T>, fired: multiset<T>, x: multiset<T>)
    ensures pending + batch + fired + x == pending + x + batch + fired
  {
  }

  lemma Pushed<T>(s: seq<T>, x: T)
    ensures multiset(s + [x]) == multiset(s) + multiset{x}
  {
  }

  lemma AddInOrder(s: State, d: u32)
    requires Total(s.slots) && InOrder(s) && Enabled(s, Add(d))
    ensures InOrder(Apply(s, Add(d)))
  {
    forall due: nat
      ensures InOrderAt(Apply(s, Add(d)), due)
    {
      assert InOrderAt(s, due);
      DueConcat(s.pending, [NewItem(s, d)], due);
      DueConcat(s.added, [NewItem(s, d)], due);
      Assoc(Due(Items(s.fired), due) + Due(Batch(s), due), Due(s.pending, due), Due([NewItem(s, d)], due));
    }
  }

  lemma NewItemFate(s: State, d: u32)
    requires Numbered(s)
    ensures Fated(NewItem(s, d), Home(NewItem(s, d).due % WRAP, s.time), s.now)
  {
    AddedEitherWay(s.now, d);
  }

  lemma AddFates(s: State, d: u32)
    requires Total(s.slots) && Numbered(s) && Fates(s) && Enabled(s, Add(d))
    ensures Fates(Apply(s, Add(d)))
  {
    var s' := Apply(s, Add(d));
    NewItemFate(s, d);
    forall l | ValidLoc(l)
      ensures forall x | x in s'.slots[l] :: Fated(x, l, s.now)
    {
      assert forall x | x in s.slots[l] :: Fated(x, l, s.now);
    }
  }

  /** The list under the clock, seen through the plain list of pending timers. */
  lemma TakeSplits(s: State)
    requires Inv(s)
    ensures var xs := s.slots[Near(s.time % NEAR)];
      && multiset(xs) <= multiset(s.pending)
      && multiset(Sel(s.pending, x => x !in xs)) == multiset(s.pending) - multiset(xs)
      && Sel(xs, InReach) == Sel(s.pending, x => InReach(x) && x.due == s.now)
      && Sel(Sel(s.pending, x => x !in xs), InReach) == Sel(s.pending, x => InReach(x) && x.due != s.now)
  {
    assert s.time % NEAR == s.now % NEAR by { LowDigit(s.now); }
    var xs := s.slots[Near(s.time % NEAR)];
    HeldIn(s.slots, Near(s.time % NEAR));
    forall x
      ensures multiset(Sel(s.pending, y => y !in xs))[x] == (multiset(s.pending) - multiset(xs))[x]
    {
      SelCount(s.pending, y => y !in xs, x);
      PendingOnce(s, x);
    }
    TakeDue(s.slots, s.now, s.pending);
    forall x | x in s.pending && InReach(x)
      ensures x in xs <==> x.due == s.now
    {
      SelMember(xs, InReach, x);
      SelMember(s.pending, y => InReach(y) && y.due == s.now, x);
    }
    SelSel(s.pending, x => x !in xs, InReach, x => InReach(x) && x.due != s.now);
  }

  lemma LowDigit(x: nat)
    ensures x % WRAP % NEAR == x % NEAR
  {
    assert x == x / WRAP * WRAP + x % WRAP;
  }

  lemma AddedOnce(s: State, x: Item)
    requires Numbered(s)
    ensures multiset(s.added)[x] <= 1
  {
    AddedPrefixOnce(s, x, |s.added|);
    assert s.added[..|s.added|] == s.added;
  }

  lemma {:induction false} AddedPrefixOnce(s: State, x: Item, n: nat)
    requires Numbered(s) && n <= |s.added|
    ensures multiset(s.added[..n])[x] <= (if x.id < n then 1 else 0)
  {
    if n > 0 {
      AddedPrefixOnce(s, x, n - 1);
      assert s.added[..n] == s.added[..n - 1] + [s.added[n - 1]];
    }
  }

  lemma PendingOnce(s: State, x: Item)
    requires Inv(s)
    ensures multiset(s.pending)[x] <= 1
  {
    AddedOnce(s, x);
  }

  lemma TakeInv(s: State)
    requires Inv(s) && Enabled(s, Take)
    ensures Inv(Apply(s, Take))
  {
    TakeRefines(s);
    TakeConserves(s);
    TakeInOrder(s);
    TakeFates(s);
  }

  lemma TakeRefines(s: State)
    requires Inv(s) && Enabled(s, Take)
    ensures Total(Apply(s, Take).slots) && Refines(Apply(s, Take))
  {
    LowDigit(s.now);
    TakeSplits(s);
    TakeFiles(s.slots, s.now, s.pending, Apply(s, Take).pending);
  }

  lemma TakeFates(s: State)
    requires Total(s.slots) && Numbered(s) && Fates(s) && Enabled(s, Take)
    ensures Fates(Apply(s, Take))
  {
    var s' := Apply(s, Take);
    var near := Near(s.time % NEAR);
    forall l | ValidLoc(l)
      ensures forall x | x in s'.slots[l] :: Fated(x, l, s.now)
    {
      assert forall x | x in s.slots[l] :: Fated(x, l, s.now);
    }
    forall x | x in s.slots[near]
      ensures x.due == s.now <==> MetOnTime(x)
    {
      assert Fated(x, near, s.now);
      LowDigit(s.now);
      FateDecided(x.due, s.now);
    }
  }

  lemma TakeConserves(s: State)
    requires Inv(s) && Enabled(s, Take)
    ensures Conserved(Apply(s, Take))
  {
    var near := Near(s.time % NEAR);
    TakeSplits(s);
    TakeHolds(s.slots, near);
    Regroup(multiset(s.pending), multiset(s.slots[near]), All(s.slots[near := []]), multiset(Items(s.fired)));
  }

  lemma Regroup<T>(pending: multiset<T>, taken: multiset<T>, left: multiset<T>, fired: multiset<T>)
    requires left + taken == pending
    ensures pending - taken == left
    ensures pending + multiset{} + fired == (pending - taken) + taken + fired
  {
  }

  lemma TakeInOrder(s: State)
    requires Inv(s) && Enabled(s, Take)
    ensures InOrder(Apply(s, Take))
  {
    TakeSplits(s);
    forall due: nat
      ensures InOrderAt(Apply(s, Take), due)
    {
      assert InOrderAt(s, due);
      TakeInOrderAt(s, due);
    }
  }

  lemma TakeInOrderAt(s: State, due: nat)
    requires Total(s.slots) && Enabled(s, Take) && InOrderAt(s, due)
    requires var xs := s.slots[Near(s.time % NEAR)];
      && Sel(xs, InReach) == Sel(s.pending, x => InReach(x) && x.due == s.now)
      && Sel(Sel(s.pending, x => x !in xs), InReach) == Sel(s.pending, x => InReach(x) && x.due != s.now)
    ensures InOrderAt(Apply(s, Take), due)
  {
    var xs := s.slots[Near(s.time % NEAR)];
    assert Batch(s) == [] && Due([], due) == [];
    TakeParts(Items(s.fired), s.pending, xs, Sel(s.pending, x => x !in xs), s.added, s.now, due);
  }

  lemma TakeParts(fired: seq<Item>, pending: seq<Item>, xs: seq<Item>, rest: seq<Item>, added: seq<Item>,
                  now: nat, due: nat)
    requires Due(fired, due) + [] + Due(pending, due) == Due(added, due)
    requires Sel(xs, InReach) == Sel(pending, x => InReach(x) && x.due == now)
    requires Sel(rest, InReach) == Sel(pending, x => InReach(x) && x.due != now)
    ensures Due(fired, due) + Due(xs, due) + Due(rest, due) == Due(added, due)
  {
    SplitOrder(pending, xs, rest, now, due);
    Assoc(Due(fired, due), Due(xs, due), Due(rest, due));
    assert Due(fired, due) + [] == Due(fired, due);
  }

  lemma SplitOrder(pending: seq<Item>, xs: seq<Item>, rest: seq<Item>, now: nat, due: nat)
    requires Sel(xs, InReach) == Sel(pending, x => InReach(x) && x.due == now)
    requires Sel(rest, InReach) == Sel(pending, x => InReach(x) && x.due != now)
    ensures Due(xs, due) + Due(rest, due) == Due(pending, due)
  {
    SelSel(xs, InReach, x => DueAt(x, due), x => DueAt(x, due));
    SelSel(rest, InReach, x => DueAt(x, due), x => DueAt(x, due));
    SelNone(pending, x => false);
    if due == now {
      SelSel(pending, x => InReach(x) && x.due == now, x => DueAt(x, due), x => DueAt(x, due));
      SelSel(pending, x => InReach(x) && x.due != now, x => DueAt(x, due), x => false);
    } else {
      SelSel(pending, x => InReach(x) && x.due == now, x => DueAt(x, due), x => false);
      SelSel(pending, x => InReach(x) && x.due != now, x => DueAt(x, due), x => DueAt(x, due));
    }
  }

  lemma FireInv(s: State)
    requires Inv(s) && Enabled(s, Fire)
    ensures Inv(Apply(s, Fire))
  {
    FireConserves(s);
    FireInOrder(s);
    FireFates(s);
    assert Numbered(Apply(s, Fire));
  }

  lemma FireItems(s: State)
    requires Total(s.slots) && Enabled(s, Fire)
    ensures Items(Apply(s, Fire).fired) == Items(s.fired) + [s.phase.batch[0]]
    ensures Batch(s) == [s.phase.batch[0]] + Batch(Apply(s, Fire))
  {
  }

  lemma FireConserves(s: State)
    requires Total(s.slots) && Conserved(s) && Enabled(s, Fire)
    ensures Conserved(Apply(s, Fire))
  {
    FireItems(s);
  }

  lemma FireInOrder(s: State)
    requires Total(s.slots) && InOrder(s) && Enabled(s, Fire)
    ensures InOrder(Apply(s, Fire))
  {
    FireItems(s);
    forall due: nat
      ensures InOrderAt(Apply(s, Fire), due)
    {
      assert InOrderAt(s, due);
      DueConcat(Items(s.fired), [s.phase.batch[0]], due);
      DueConcat([s.phase.batch[0]], Batch(Apply(s, Fire)), due);
      Assoc(Due(Items(s.fired), due), Due([s.phase.batch[0]], due), Due(Batch(Apply(s, Fire)), due));
    }
  }

  lemma FireFates(s: State)
    requires Total(s.slots) && Fates(s) && Enabled(s, Fire)
    ensures Fates(Apply(s, Fire))
  {
    assert s.phase.batch[0] in Batch(s);
  }

  lemma ShiftInv(s: State)
    requires Inv(s) && Enabled(s, Shift)
    ensures Inv(Apply(s, Shift))
  {
    NothingDue(s);
    ShiftNumbers(s);
    ShiftFiled(s);
    ShiftConserves(s);
    ShiftInOrder(s);
    ShiftFates(s);
  }

  lemma ShiftFiled(s: State)
    requires Total(s.slots) && s.time == s.now % WRAP && Refines(s) && Enabled(s, Shift)
    requires forall x | x in s.pending && InReach(x) :: x.due != s.now
    ensures Refines(Apply(s, Shift))
  {
    ShiftedSlots(s);
    ShiftRefines(s.slots, s.pending, s.time, s.now);
    assert Apply(s, Shift).pending == s.pending && Apply(s, Shift).now == s.now + 1;
  }

  lemma ShiftedSlots(s: State)
    requires Total(s.slots) && Enabled(s, Shift)
    ensures Apply(s, Shift).slots == ShiftSlots(s.slots, Tick(s.time))
  {
  }

  lemma ShiftRefines(slots: Slots, pending: seq<Item>, time: u32, now: nat)
    requires Total(slots) && time == now % WRAP && Files(slots, now, pending) && Awaited(pending, now)
    requires forall x | x in pending && InReach(x) :: x.due != now
    ensures Files(ShiftSlots(slots, Tick(time)), now + 1, pending) && Awaited(pending, now + 1)
  {
    NextWrap(now);
    ShiftFiles(slots, now, pending, Tick(time));
    AwaitedNext(pending, now);
  }

  lemma AwaitedNext(pending: seq<Item>, now: nat)
    requires Awaited(pending, now) && forall x | x in pending && InReach(x) :: x.due != now
    ensures Awaited(pending, now + 1)
  {
  }

  lemma ShiftNumbers(s: State)
    requires Total(s.slots) && Numbered(s) && Enabled(s, Shift)
    ensures Numbered(Apply(s, Shift))
  {
    NextWrap(s.now);
  }

  lemma ShiftConserves(s: State)
    requires Total(s.slots) && Conserved(s) && Enabled(s, Shift)
    ensures Conserved(Apply(s, Shift))
  {
    ShiftHolds(s.slots, Apply(s, Shift).time);
  }

  lemma ShiftInOrder(s: State)
    requires Total(s.slots) && InOrder(s) && Enabled(s, Shift)
    ensures InOrder(Apply(s, Shift))
  {
    forall due: nat ensures InOrderAt(Apply(s, Shift), due) {
      assert InOrderAt(s, due);
    }
  }

  lemma NextWrap(now: nat)
    ensures Tick(now % WRAP) == (now + 1) % WRAP
  {
  }

  /** The clock cannot pass a timer within reach: the drain before the shift has emptied its slot. */
  lemma NothingDue(s: State)
    requires Inv(s) && s.slots[Near(s.time % NEAR)] == []
    ensures forall x | x in s.pending && InReach(x) :: x.due != s.now
  {
    TakeSplits(s);
    forall x | x in s.pending && InReach(x)
      ensures x.due != s.now
    {
      SelMember(s.pending, y => InReach(y) && y.due == s.now, x);
    }
  }

  lemma ShiftResult(s: State)
    requires Total(s.slots) && Numbered(s) && Enabled(s, Shift)
    ensures var s' := Apply(s, Shift);
      && s'.slots == ShiftSlots(s.slots, (s.now + 1) % WRAP) && s'.time == (s.now + 1) % WRAP
      && s'.now == s.now + 1 && s'.fired == s.fired && s'.added == s.added && Batch(s') == [] == Batch(s)
  {
    NextWrap(s.now);
  }

  lemma ShiftFates(s: State)
    requires Total(s.slots) && Numbered(s) && Fates(s) && Enabled(s, Shift)
    ensures Fates(Apply(s, Shift))
  {
    ShiftResult(s);
    ShiftSlotFates(s, Apply(s, Shift).slots);
  }

  lemma ShiftSlotFates(s: State, slots': Slots)
    requires Total(s.slots) && Numbered(s) && Fates(s) && Enabled(s, Shift)
    requires slots' == ShiftSlots(s.slots, (s.now + 1) % WRAP)
    ensures SlotFates(slots', s.now + 1)
  {
    forall l, x | ValidLoc(l) && x in slots'[l]
      ensures Fated(x, l, s.now + 1)
    {
      ShiftFate(s, l, x);
    }
  }

  lemma ShiftFate(s: State, l: Loc, x: Item)
    requires Total(s.slots) && Numbered(s) && Fates(s) && Enabled(s, Shift) && ValidLoc(l)
    requires x in ShiftSlots(s.slots, (s.now + 1) % WRAP)[l]
    ensures Fated(x, l, s.now + 1)
  {
    var l0 := ShiftOrigin(s.slots, s.now, l, x);
    assert Fated(x, l0, s.now);
    LowDigit(s.now);
    FateShifts(x, l0, l, s.now);
  }

  lemma FateShifts(x: Item, l0: Loc, l: Loc, now: nat)
    requires Fated(x, l0, now)
    requires if Visited(now + 1) == Slot(l0) then At(x, l, (now + 1) % WRAP) else l0 == l
    requires l0 != Near(now % NEAR)
    ensures Fated(x, l, now + 1)
  {
    if Visited(now + 1) == Slot(l0) {
      FateMoves(l0, x.due, now);
    } else {
      FateStays(l0, x.due, now);
    }
  }

  /** Where a node of slot `l` was before the shift. */
  lemma ShiftOrigin(slots: Slots, now: nat, l: Loc, x: Item) returns (l0: Loc)
    requires Total(slots) && ValidLoc(l)
    requires x in ShiftSlots(slots, (now + 1) % WRAP)[l]
    ensures ValidLoc(l0) && x in slots[l0]
    ensures if Visited(now + 1) == Slot(l0) then At(x, l, (now + 1) % WRAP) else l0 == l
  {
    var ct := (now + 1) % WRAP;
    VisitedWrap(now + 1);
    ShiftAt(slots, ct, l);
    if x in slots[l] && Visited(now + 1) != Slot(l) {
      l0 := l;
    } else {
      l0 := Visited(now + 1).loc;
      SelMember(slots[l0], y => At(y, l, ct), x);
    }
  }

  lemma NextInv(s: State, step: Step)
    requires Inv(s)
    ensures Inv(Next(s, step))
  {
    if Enabled(s, step) {
      match step
      case Add(d) => AddInv(s, d);
      case Take => TakeInv(s);
      case Fire => FireInv(s);
      case Shift => ShiftInv(s);
      case Lock => SamePlaces(s, Apply(s, step));
      case Relock => SamePlaces(s, Apply(s, step));
      case Unlock => SamePlaces(s, Apply(s, step));
    }
  }

  lemma SamePlaces(s: State, s': State)
    requires Inv(s) && s' == s.(phase := s'.phase) && Batch(s) == Batch(s')
    ensures Inv(s')
  {
    forall due: nat
      ensures InOrderAt(s', due)
    {
      assert InOrderAt(s, due);
    }
  }

  // ----- all runs

  ghost function After(steps: seq<Step>): (s: State)
    ensures Total(s.slots)
  {
    if steps == [] then Init()
    else Next(After(steps[..|steps| - 1]), steps[|steps| - 1])
  }

  lemma AfterOne(steps: seq<Step>, step: Step)
    ensures After(steps + [step]) == Next(After(steps), step)
  {
    assert (steps + [step])[..|steps|] == steps;
  }

  lemma {:induction false} RunInv(steps: seq<Step>)
    ensures Inv(After(steps))
  {
    if steps == [] {
      InitInv();
    } else {
      RunInv(steps[..|steps| - 1]);
      NextInv(After(steps[..|steps| - 1]), steps[|steps| - 1]);
    }
  }

  lemma ItemsFired(fs: seq<Firing>, x: Item)
    ensures x in Items(fs) <==> exists f | f in fs :: f.item == x
  {
    if x in Items(fs) {
      var i :| 0 <= i < |fs| && Items(fs)[i] == x;
      assert fs[i] in fs;
    }
  }

  lemma OnTimeNotPast(s: State, x: Item)
    requires Inv(s) && x in s.pending && MetOnTime(x)
    ensures s.now <= x.due
  {
    assert x in All(s.slots);
    var l := HeldSome(s.slots, 512, x);
    assert Fated(x, l, s.now);
    MeetNotPast(l, x.due, s.now);
  }

  // ----- nothing stays behind the second drain

  /** From the shift to the release of the lock, callbacks of the second drain included. */
  predicate Second(p: Phase) {
    !p.Idle? && p.second
  }

  /** Outside the second drain a timer whose expiry has come still waits only if it was added at this very tick. */
  ghost predicate Prompt(s: State) {
    !Second(s.phase) ==>
      forall x | (x in s.pending || x in Batch(s)) && MetOnTime(x) && x.due <= s.now :: x.added == s.now
  }

  lemma WaitsAhead(s: State, x: Item)
    requires Inv(s) && x in s.pending && MetOnTime(x) && s.slots[Near(s.time % NEAR)] == []
    ensures s.now < x.due
  {
    OnTimeNotPast(s, x);
    assert x in All(s.slots);
    var l := HeldSome(s.slots, 512, x);
    assert Fated(x, l, s.now);
    LowDigit(s.now);
  }

  /** Whatever leads from the second drain to the release of the lock: no timer met on time that is due by then
      is pending. */
  lemma ReleasedDrained(s: State, step: Step, x: Item)
    requires Inv(s) && s.phase == Draining(true) && Next(s, step).phase.Idle?
    requires x in Next(s, step).pending && MetOnTime(x)
    ensures Next(s, step).now < x.due
  {
    WaitsAhead(s, x);
  }

  lemma NextPrompt(s: State, step: Step)
    requires Inv(s) && Prompt(s)
    ensures Prompt(Next(s, step))
  {
    var t := Next(s, step);
    forall x | (x in t.pending || x in Batch(t)) && MetOnTime(x) && x.due <= t.now && !Second(t.phase)
      ensures x.added == t.now
    {
      if Second(s.phase) {
        ReleasedDrained(s, step, x);
      } else if step.Take? && Enabled(s, step) {
        TakeSplits(s);
        assert x in s.pending || x in multiset(s.pending);
      }
    }
  }

  lemma {:induction false} RunPrompt(steps: seq<Step>)
    ensures Prompt(After(steps))
  {
    if steps != [] {
      var before := steps[..|steps| - 1];
      RunPrompt(before);
      RunInv(before);
      NextPrompt(After(before), steps[|steps| - 1]);
    }
  }

  /** The update that lets the clock show the expiry of `x` is over, or a later one has begun. */
  predicate TimeUp(s: State, x: Item) {
    x.due < s.now || (x.due == s.now && x.added < s.now && !Second(s.phase))
  }

  /** What a history tells of one timer: it was handed over at most once, at its expiry iff
      its delay was `OnTime` when it was added; and with the end of the update in which the clock
      comes to show the expiry, it has been handed over at the expiry iff the delay was `OnTime`. */
  ghost predicate ExactlyFired(s: State, x: Item) {
    && multiset(Items(s.fired))[x] <= 1
    && (forall f | f in s.fired && f.item == x :: f.at == x.due <==> MetOnTime(x))
    && (TimeUp(s, x) ==> (Firing(x, x.due) in s.fired <==> MetOnTime(x)))
  }

  lemma FiredOnce(s: State, x: Item)
    requires Inv(s)
    ensures multiset(Items(s.fired))[x] <= 1
  {
    AddedOnce(s, x);
  }

  lemma FiredByNow(s: State, x: Item)
    requires Inv(s) && Prompt(s) && x in s.added && MetOnTime(x) && TimeUp(s, x)
    ensures Firing(x, x.due) in s.fired
  {
    if x in s.pending {
      OnTimeNotPast(s, x);
    }
    assert x in multiset(s.added);
    ItemsFired(s.fired, x);
  }

  /** Exact firing, for every run and every 32-bit delay. */
  lemma ExactFiring(steps: seq<Step>, x: Item)
    requires x in After(steps).added
    ensures ExactlyFired(After(steps), x)
  {
    var s := After(steps);
    RunInv(steps);
    RunPrompt(steps);
    FiredOnce(s, x);
    if MetOnTime(x) && TimeUp(s, x) {
      FiredByNow(s, x);
    }
  }

  /** When a run comes from the second drain to the release of the lock, every timer that is met on time and due
      by then has been handed over, whenever it was added. */
  lemma ReleasedFired(steps: seq<Step>, step: Step, x: Item)
    requires After(steps).phase == Draining(true) && After(steps + [step]).phase.Idle?
    requires x in After(steps + [step]).added && MetOnTime(x) && x.due <= After(steps + [step]).now
    ensures Firing(x, x.due) in After(steps + [step]).fired
  {
    var s, t := After(steps), After(steps + [step]);
    AfterOne(steps, step);
    RunInv(steps);
    RunInv(steps + [step]);
    if x in t.pending {
      ReleasedDrained(s, step, x);
    }
    assert x in multiset(t.added);
    ItemsFired(t.fired, x);
  }

  lemma ReachIsOnTime(x: Item)
    requires InReach(x) && x.due < x.added + WRAP
    ensures MetOnTime(x)
  {
    WrapTop(x.added);
    ReachOf(x.added, x.due - x.added);
  }

  /** Same-expiry order, for every run: of the timers within reach that expire at `due`, those
      handed over so far are the first ones added, in the order they were added; once the clock
      has passed `due` they are all of them. */
  lemma SameExpiryInOrder(steps: seq<Step>, due: nat)
    ensures var s := After(steps);
      && Due(Items(s.fired), due) <= Due(s.added, due)
      && (due < s.now ==> Due(Items(s.fired), due) == Due(s.added, due))
  {
    var s := After(steps);
    RunInv(steps);
    assert InOrderAt(s, due);
    if due < s.now {
      forall x | x in s.pending
        ensures !DueAt(x, due)
      {
      }
      SelNone(s.pending, x => DueAt(x, due));
      forall x | x in Batch(s)
        ensures !DueAt(x, due)
      {
        assert x in multiset(s.added);
        if DueAt(x, due) {
          ReachIsOnTime(x);
        }
      }
      SelNone(Batch(s), x => DueAt(x, due));
    }
  }

  /** Every delay up to 2^32 - 2^26 is within reach and is met on time. */
  lemma ReachBound(now: nat, d: u32)
    requires d <= WRAP - W3
    ensures InReach(Item(0, now, now + d)) && OnTime(now % WRAP, d)
  {
    WrapTop(now);
    ReachOf(now, d);
  }

  /** One tick short of a full turn, asked for at clock 1, is not met. */
  lemma LongDelayMisses()
    ensures !OnTime(1, WRAP - 1)
  {
  }

  /** The slots of every reachable state are the plain list of pending timers, filed by
      `add_node` for the present time; in particular slot 0 of the three finer coarse rings
      never holds a timer within reach. */
  lemma SlotsFilePending(steps: seq<Step>)
    ensures var s := After(steps);
      && Files(s.slots, s.now, s.pending)
      && All(s.slots) == multiset(s.pending)
      && s.time == s.now % WRAP
      && forall k | 0 <= k < 3 :: Sel(s.slots[Far(k, 0)], InReach) == []
  {
    var s := After(steps);
    RunInv(steps);
    forall k | 0 <= k < 3
      ensures Sel(s.slots[Far(k, 0)], InReach) == []
    {
      forall x | x in s.pending
        ensures !HomeIs(x, Far(k, 0), s.now)
      {
        if InReach(x) {
          NotInSlotZero(x.due, s.now, k);
        }
      }
      SelNone(s.pending, x => HomeIs(x, Far(k, 0), s.now));
    }
  }
}
