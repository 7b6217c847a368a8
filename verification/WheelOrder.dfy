/** In which order timers with one expiry are handed over, when both are met on time.

  A timer whose expiry falls, modulo 2^32, behind the clock in the current top-level slot may
  sit in a slot that `add_node` would no longer choose. A timer added meanwhile for the same
  expiry goes to the slot `add_node` chooses now, and the older one joins it there later. */
module WheelOrder {
  import opened Seqs
  import opened WheelSlots
  import opened WheelSpec
  import opened WheelRun
  import opened WheelTurns

  /** `x` is in `q`, before any `y`. */
  ghost predicate Foremost(q: seq<Item>, x: Item, y: Item) {
    q != [] && (q[0] == x || (q[0] != y && Foremost(q[1..], x, y)))
  }

  ghost predicate Neither(q: seq<Item>, x: Item, y: Item) {
    x !in q && y !in q
  }

  lemma {:induction false} ForemostIn(q: seq<Item>, x: Item, y: Item)
    requires Foremost(q, x, y)
    ensures x in q
  {
    if q[0] != x {
      ForemostIn(q[1..], x, y);
    }
  }

  lemma {:induction false} ForemostOne(q: seq<Item>, x: Item, y: Item)
    requires x in q && y !in q
    ensures Foremost(q, x, y)
  {
    if q[0] != x {
      ForemostOne(q[1..], x, y);
    }
  }

  lemma {:induction false} ForemostNot(q: seq<Item>, x: Item, y: Item)
    requires x != y && Foremost(q, x, y)
    ensures !Foremost(q, y, x)
  {
    if q[0] != x {
      ForemostNot(q[1..], x, y);
    }
  }

  lemma {:induction false} ForemostEither(q: seq<Item>, x: Item, y: Item)
    requires x in q || y in q
    ensures Foremost(q, x, y) || Foremost(q, y, x)
  {
    if q[0] != x && q[0] != y {
      ForemostEither(q[1..], x, y);
    }
  }

  lemma {:induction false} ForemostMore(q: seq<Item>, r: seq<Item>, x: Item, y: Item)
    ensures if Neither(q, x, y) then Foremost(q + r, x, y) == Foremost(r, x, y)
            else Foremost(q + r, x, y) == Foremost(q, x, y)
  {
    if q == [] {
      assert q + r == r;
    } else {
      assert (q + r)[1..] == q[1..] + r;
      ForemostMore(q[1..], r, x, y);
    }
  }

  lemma {:induction false} ForemostSel(q: seq<Item>, p: Item -> bool, x: Item, y: Item)
    requires p(x) && p(y)
    ensures Foremost(Sel(q, p), x, y) == Foremost(q, x, y)
  {
    if q != [] {
      ForemostSel(q[1..], p, x, y);
      if !p(q[0]) {
        assert [] + Sel(q[1..], p) == Sel(q[1..], p);
      }
    }
  }

  // ----- slots that are out of date

  lemma StaleDigits(k: nat, past: Digits, now: Digits)
    requires k <= 2 && past.Valid() && now.Valid() && DriftingDigits(k, past, now) && past.NoZeroFrom(k)
    requires past.HomeAt(now) != Far(k, past.Digit(k))
    ensures past.HomeAt(now.Next()) == past.HomeAt(now) && now.Next().Visits() != Slot(past.HomeAt(now))
  {
  }

  lemma DriftTop(k: nat, past: Digits, now: Digits)
    requires k <= 2 && past.Valid() && now.Valid() && DriftingDigits(k, past, now) && past.NoZeroFrom(k)
    ensures past.top <= now.top <= past.top + 1 && past.top <= now.Next().top <= past.top + 1
  {
  }

  /** While a timer sits in a slot that is out of date, the slot for its expiry does not change and is
      not visited. */
  lemma Stale(l: Loc, due: nat, now: nat)
    requires WillMeet(l, due, now) && Home(due % WRAP, now % WRAP) != l
    ensures Visited(now + 1) != Slot(Home(due % WRAP, now % WRAP))
    ensures Home(due % WRAP, (now + 1) % WRAP) == Home(due % WRAP, now % WRAP)
  {
    if Filed(l, due, now) {
      WrapHome(due, now);
      assert false;
    } else {
      StaleDrift(l, due, now);
    }
  }

  lemma PastHomes(due: nat, now: nat)
    requires due >= WRAP && Cut(due - WRAP).top <= Cut(now).top <= Cut(now + 1).top <= Cut(due - WRAP).top + 1
    ensures Home(due % WRAP, now % WRAP) == Cut(due - WRAP).HomeAt(Cut(now))
    ensures Home(due % WRAP, (now + 1) % WRAP) == Cut(due - WRAP).HomeAt(Cut(now + 1))
  {
    PastHome(due, now);
    PastHome(due, now + 1);
  }

  lemma StaleDrift(l: Loc, due: nat, now: nat)
    requires Drifting(l, due, now) && Cut(due - WRAP).NoZeroFrom(l.level) && Home(due % WRAP, now % WRAP) != l
    ensures Visited(now + 1) != Slot(Home(due % WRAP, now % WRAP))
    ensures Home(due % WRAP, (now + 1) % WRAP) == Home(due % WRAP, now % WRAP)
  {
    CutNext(now);
    CutVisited(now + 1);
    CutValue(due - WRAP);
    CutValue(now);
    DriftTop(l.level, Cut(due - WRAP), Cut(now));
    PastHomes(due, now);
    StaleDigits(l.level, Cut(due - WRAP), Cut(now));
  }

  // ----- which of two timers goes first

  ghost predicate Alone(slots: Slots, x: Item, y: Item, l: Loc)
    requires Total(slots)
  {
    forall k | ValidLoc(k) && k != l :: Neither(slots[k], x, y)
  }

  /** `x` is before `y` in slot `l`, which holds both or is the slot for their expiry. */
  ghost predicate LeadsAt(slots: Slots, time: u32, x: Item, y: Item, l: Loc)
    requires Total(slots)
  {
    ValidLoc(l) && Foremost(slots[l], x, y) && (l == Home(x.due % WRAP, time) || Alone(slots, x, y, l))
  }

  ghost predicate LeadsIn(slots: Slots, time: u32, x: Item, y: Item)
    requires Total(slots)
  {
    exists l :: LeadsAt(slots, time, x, y, l)
  }

  /** What has left the slots, in that order. */
  ghost function Out(s: State): seq<Item> {
    Items(s.fired) + Batch(s)
  }

  /** Of the two, `x` is or will be handed over first. */
  ghost predicate Leads(s: State, x: Item, y: Item)
    requires Total(s.slots)
  {
    if Neither(Out(s), x, y) then LeadsIn(s.slots, s.time, x, y) else Foremost(Out(s), x, y)
  }

  ghost predicate Rivals(s: State, x: Item, y: Item) {
    x != y && x.due == y.due && x in s.added && y in s.added && MetOnTime(x) && MetOnTime(y)
  }

  /** What sits in a slot of the two will meet the expiry. */
  lemma InSlot(s: State, x: Item, y: Item, k: Loc)
    requires Total(s.slots) && SlotFates(s.slots, s.now)
    requires Rivals(s, x, y) && ValidLoc(k) && !Neither(s.slots[k], x, y)
    ensures WillMeet(k, x.due, s.now)
  {
    if x in s.slots[k] {
      assert Fated(x, k, s.now);
    } else {
      assert Fated(y, k, s.now);
    }
  }

  lemma AddLeads(s: State, d: u32, x: Item, y: Item)
    requires Inv(s) && Enabled(s, Add(d)) && Rivals(s, x, y) && Leads(s, x, y)
    ensures Leads(Apply(s, Add(d)), x, y)
  {
    NewItemNew(s, d, x);
    NewItemNew(s, d, y);
    AddedState(s, d);
    if Neither(Out(s), x, y) {
      PutLeads(s.slots, s.time, NewItem(s, d), x, y);
    }
  }

  lemma AddedState(s: State, d: u32)
    requires Total(s.slots) && Enabled(s, Add(d))
    ensures var s', x := Apply(s, Add(d)), NewItem(s, d);
      && Home(x.due % WRAP, s.time) in s.slots && s'.slots == Put(s.slots, x, s.time)
      && s'.time == s.time && s'.now == s.now && s'.added == s.added + [x] && Out(s') == Out(s)
  {
  }

  lemma NewItemNew(s: State, d: u32, x: Item)
    requires Numbered(s) && x in s.added
    ensures NewItem(s, d) != x
  {
  }

  lemma PutLeads(slots: Slots, time: u32, z: Item, x: Item, y: Item)
    requires Total(slots) && LeadsIn(slots, time, x, y) && z != x && z != y
    ensures LeadsIn(Put(slots, z, time), time, x, y)
  {
    var l :| LeadsAt(slots, time, x, y, l);
    ForemostIn(slots[l], x, y);
    ForemostMore(slots[l], [z], x, y);
    assert LeadsAt(Put(slots, z, time), time, x, y, l);
  }

  lemma TakeOut(s: State)
    requires Inv(s) && Enabled(s, Take)
    ensures var s', near := Apply(s, Take), Near(s.time % NEAR);
      && near in s.slots && Total(s'.slots) && Out(s') == Out(s) + s.slots[near]
  {
  }

  lemma TakeLeads(s: State, x: Item, y: Item)
    requires Inv(s) && Enabled(s, Take) && Rivals(s, x, y) && Leads(s, x, y)
    ensures Leads(Apply(s, Take), x, y)
  {
    TakeOut(s);
    ForemostMore(Out(s), s.slots[Near(s.time % NEAR)], x, y);
    if Neither(Out(s), x, y) {
      TakeLeadsIn(s, x, y);
    }
  }

  lemma TakeLeadsIn(s: State, x: Item, y: Item)
    requires Inv(s) && Enabled(s, Take) && Rivals(s, x, y) && LeadsIn(s.slots, s.time, x, y)
    requires Neither(Out(s), x, y)
    ensures Leads(Apply(s, Take), x, y)
  {
    var near := Near(s.time % NEAR);
    var l :| LeadsAt(s.slots, s.time, x, y, l);
    TakeOut(s);
    ForemostMore(Out(s), s.slots[near], x, y);
    if l == near {
      ForemostIn(s.slots[l], x, y);
    } else {
      LeadsLeft(s, x, y, l);
    }
  }

  lemma LeadsLeft(s: State, x: Item, y: Item, l: Loc)
    requires Inv(s) && Enabled(s, Take) && Rivals(s, x, y) && LeadsAt(s.slots, s.time, x, y, l)
    requires l != Near(s.time % NEAR)
    ensures var s' := Apply(s, Take); Total(s'.slots) && LeadsAt(s'.slots, s'.time, x, y, l)
    ensures Neither(s.slots[Near(s.time % NEAR)], x, y)
  {
    NotTaken(s, x, y, l);
  }

  lemma NotTaken(s: State, x: Item, y: Item, l: Loc)
    requires Inv(s) && Rivals(s, x, y) && LeadsAt(s.slots, s.time, x, y, l) && l != Near(s.time % NEAR)
    ensures Neither(s.slots[Near(s.time % NEAR)], x, y)
  {
    var near := Near(s.time % NEAR);
    if !Neither(s.slots[near], x, y) {
      InSlot(s, x, y, near);
      LowDigit(s.now);
      FateDecided(x.due, s.now);
      assert false;
    }
  }

  lemma ShiftLeads(s: State, x: Item, y: Item)
    requires Inv(s) && Enabled(s, Shift) && Rivals(s, x, y) && Leads(s, x, y)
    ensures Leads(Apply(s, Shift), x, y)
  {
    if Neither(Out(s), x, y) {
      ShiftResult(s);
      ShiftLeadsIn(s, x, y);
    }
  }

  lemma ShiftLeadsIn(s: State, x: Item, y: Item)
    requires Inv(s) && Rivals(s, x, y) && LeadsIn(s.slots, s.time, x, y)
    ensures LeadsIn(ShiftSlots(s.slots, (s.now + 1) % WRAP), (s.now + 1) % WRAP, x, y)
  {
    var l :| LeadsAt(s.slots, s.time, x, y, l);
    VisitedWrap(s.now + 1);
    if Visited(s.now + 1) == Slot(l) {
      LeaderMoves(s, x, y, l);
    } else {
      LeaderStays(s, x, y, l);
    }
  }

  /** The other one is in another slot `k`, which is out of date then. */
  lemma StaleSlot(s: State, x: Item, y: Item, l: Loc, k: Loc)
    requires Total(s.slots) && SlotFates(s.slots, s.now) && s.time == s.now % WRAP
    requires Rivals(s, x, y) && LeadsAt(s.slots, s.time, x, y, l)
    requires ValidLoc(k) && k != l && !Neither(s.slots[k], x, y)
    ensures l == Home(x.due % WRAP, (s.now + 1) % WRAP) && Visited(s.now + 1) != Slot(l)
  {
    InSlot(s, x, y, k);
    LeaderHome(s.slots, s.time, x, y, l, k);
    StaleOther(l, k, x.due, s.now, s.time);
  }

  lemma LeaderHome(slots: Slots, time: u32, x: Item, y: Item, l: Loc, k: Loc)
    requires Total(slots) && LeadsAt(slots, time, x, y, l) && ValidLoc(k) && k != l && !Neither(slots[k], x, y)
    ensures l == Home(x.due % WRAP, time)
  {
  }

  lemma StaleOther(l: Loc, k: Loc, due: nat, now: nat, time: u32)
    requires time == now % WRAP && l == Home(due % WRAP, time) && k != l && WillMeet(k, due, now)
    ensures l == Home(due % WRAP, (now + 1) % WRAP) && Visited(now + 1) != Slot(l)
  {
    Stale(k, due, now);
  }

  /** The slot of the first of the two is visited: then the other one is in it, too. */
  lemma LeaderMoves(s: State, x: Item, y: Item, l: Loc)
    requires Inv(s) && Rivals(s, x, y) && LeadsAt(s.slots, s.time, x, y, l) && Visited(s.now + 1) == Slot(l)
    requires Visited((s.now + 1) % WRAP) == Visited(s.now + 1)
    ensures var ct := (s.now + 1) % WRAP;
      LeadsAt(ShiftSlots(s.slots, ct), ct, x, y, Home(x.due % WRAP, ct))
  {
    var ct := (s.now + 1) % WRAP;
    forall k | ValidLoc(k) && k != l
      ensures Neither(s.slots[k], x, y)
    {
      if !Neither(s.slots[k], x, y) {
        StaleSlot(s, x, y, l, k);
        assert false;
      }
    }
    MovesForemost(s.slots, ct, x, y, l);
  }

  lemma MovesForemost(slots: Slots, ct: u32, x: Item, y: Item, l: Loc)
    requires Total(slots) && ValidLoc(l) && Foremost(slots[l], x, y) && Visited(ct) == Slot(l)
    requires x.due == y.due && Alone(slots, x, y, l)
    ensures Foremost(ShiftSlots(slots, ct)[Home(x.due % WRAP, ct)], x, y)
  {
    var h := Home(x.due % WRAP, ct);
    ShiftAt(slots, ct, h);
    ForemostSel(slots[l], z => At(z, h, ct), x, y);
    ForemostMore(if h == l then [] else slots[h], Sel(slots[l], z => At(z, h, ct)), x, y);
  }

  /** It is not visited: the other one may join it behind. */
  lemma LeaderStays(s: State, x: Item, y: Item, l: Loc)
    requires Inv(s) && Rivals(s, x, y) && LeadsAt(s.slots, s.time, x, y, l) && Visited(s.now + 1) != Slot(l)
    requires Visited((s.now + 1) % WRAP) == Visited(s.now + 1)
    ensures LeadsAt(ShiftSlots(s.slots, (s.now + 1) % WRAP), (s.now + 1) % WRAP, x, y, l)
  {
    var ct := (s.now + 1) % WRAP;
    StaysForemost(s.slots, ct, x, y, l);
    if !Alone(s.slots, x, y, l) {
      var k :| ValidLoc(k) && k != l && !Neither(s.slots[k], x, y);
      StaleSlot(s, x, y, l, k);
    } else {
      StaysAlone(s.slots, ct, x, y, l);
    }
  }

  lemma StaysForemost(slots: Slots, ct: u32, x: Item, y: Item, l: Loc)
    requires Total(slots) && ValidLoc(l) && Foremost(slots[l], x, y) && Visited(ct) != Slot(l)
    ensures Foremost(ShiftSlots(slots, ct)[l], x, y)
  {
    ShiftAt(slots, ct, l);
    ForemostIn(slots[l], x, y);
    if Visited(ct).Slot? {
      ForemostMore(slots[l], Sel(slots[Visited(ct).loc], z => At(z, l, ct)), x, y);
    }
  }

  lemma StaysAlone(slots: Slots, ct: u32, x: Item, y: Item, l: Loc)
    requires Total(slots) && ValidLoc(l) && Alone(slots, x, y, l) && Visited(ct) != Slot(l)
    ensures Alone(ShiftSlots(slots, ct), x, y, l)
  {
    forall k | ValidLoc(k) && k != l
      ensures Neither(ShiftSlots(slots, ct)[k], x, y)
    {
      ShiftAt(slots, ct, k);
    }
  }

  lemma NextLeads(s: State, step: Step, x: Item, y: Item)
    requires Inv(s) && Rivals(s, x, y) && Leads(s, x, y)
    ensures Rivals(Next(s, step), x, y) && Leads(Next(s, step), x, y)
  {
    if Enabled(s, step) {
      StillRivals(s, step, x, y);
      match step
      case Add(d) => AddLeads(s, d, x, y);
      case Take => TakeLeads(s, x, y);
      case Shift => ShiftLeads(s, x, y);
      case _ => SameOut(s, step);
    }
  }

  lemma StillRivals(s: State, step: Step, x: Item, y: Item)
    requires Total(s.slots) && Enabled(s, step) && Rivals(s, x, y)
    ensures Rivals(Apply(s, step), x, y)
  {
    assert s.added <= Apply(s, step).added;
  }

  lemma SameOut(s: State, step: Step)
    requires Total(s.slots) && Enabled(s, step) && !step.Add? && !step.Take? && !step.Shift?
    ensures var s' := Apply(s, step); Out(s') == Out(s) && s'.slots == s.slots && s'.time == s.time
  {
    if step.Fire? {
      FireItems(s);
    }
  }

  lemma LastSplit<T>(a: seq<T>, b: seq<T>)
    requires b != []
    ensures a + b == a + b[..|b| - 1] + [b[|b| - 1]]
  {
  }

  lemma Places(s: State, x: Item)
    requires Inv(s) && x in s.pending
    ensures x !in Out(s)
    ensures exists l :: ValidLoc(l) && x in s.slots[l] && forall k | ValidLoc(k) && k != l :: x !in s.slots[k]
  {
    AddedOnce(s, x);
    assert x in multiset(s.pending);
    var l := HeldSome(s.slots, 512, x);
    forall k | ValidLoc(k) && k != l
      ensures x !in s.slots[k]
    {
      OnePlace(s.slots, l, k, x);
    }
  }

  lemma OnePlace(slots: Slots, l: Loc, k: Loc, x: Item)
    requires Total(slots) && ValidLoc(l) && ValidLoc(k) && k != l && All(slots)[x] <= 1 && x in slots[l]
    ensures x !in slots[k]
  {
    TakeHolds(slots, l);
    HeldIn(slots[l := []], k);
  }

  lemma Nowhere(s: State, x: Item)
    requires Inv(s) && x !in s.added
    ensures x !in Out(s) && forall k | ValidLoc(k) :: x !in s.slots[k]
  {
    assert x !in multiset(s.added);
    forall k | ValidLoc(k)
      ensures x !in s.slots[k]
    {
      HeldIn(s.slots, k);
    }
  }

  /** A timer `y` is added while `x`, with the same expiry, is pending: `x` leads if it is in the slot
      that `y` goes to, otherwise `y` does. */
  lemma LeadsFrom(s: State, d: u32, x: Item)
    requires Inv(s) && Enabled(s, Add(d)) && x in s.pending && x.due == s.now + d
    ensures var s', y := Apply(s, Add(d)), NewItem(s, d);
      if x in s.slots[Home(x.due % WRAP, s.time)] then Leads(s', x, y) else Leads(s', y, x)
  {
    var y := NewItem(s, d);
    var h := Home(x.due % WRAP, s.time);
    Places(s, x);
    assert y !in s.added;
    Nowhere(s, y);
    AddedState(s, d);
    LeadsInNew(s.slots, s.time, x, y);
  }

  lemma LeadsInNew(slots: Slots, time: u32, x: Item, y: Item)
    requires Total(slots) && x != y && x.due == y.due && forall k | ValidLoc(k) :: y !in slots[k]
    requires exists l :: ValidLoc(l) && x in slots[l] && forall k | ValidLoc(k) && k != l :: x !in slots[k]
    ensures var h := Home(x.due % WRAP, time);
      if x in slots[h] then LeadsIn(Put(slots, y, time), time, x, y) else LeadsIn(Put(slots, y, time), time, y, x)
  {
    var h := Home(x.due % WRAP, time);
    var slots' := Put(slots, y, time);
    assert slots'[h] == slots[h] + [y];
    if x in slots[h] {
      ForemostOne(slots[h], x, y);
      ForemostMore(slots[h], [y], x, y);
      assert LeadsAt(slots', time, x, y, h);
    } else {
      ForemostOne(slots'[h], y, x);
      assert LeadsAt(slots', time, y, x, h);
    }
  }

  /** Once one of two timers leads, it does so for the rest of the run. */
  lemma {:induction false} RunLeads(steps0: seq<Step>, steps: seq<Step>, x: Item, y: Item)
    requires Rivals(After(steps0), x, y) && Leads(After(steps0), x, y)
    ensures Rivals(After(steps0 + steps), x, y) && Leads(After(steps0 + steps), x, y)
  {
    if steps == [] {
      assert steps0 + steps == steps0;
    } else {
      var n := |steps| - 1;
      RunLeads(steps0, steps[..n], x, y);
      RunInv(steps0 + steps[..n]);
      NextLeads(After(steps0 + steps[..n]), steps[n], x, y);
      LastSplit(steps0, steps);
      AfterOne(steps0 + steps[..n], steps[n]);
    }
  }

  /** Of `x` and `y` the first to be handed over, if any was, is `x`. */
  lemma FirstFired(s: State, x: Item, y: Item)
    requires Total(s.slots) && x != y && Leads(s, x, y) && (x in Items(s.fired) || y in Items(s.fired))
    ensures Foremost(Items(s.fired), x, y) && !Foremost(Items(s.fired), y, x)
  {
    ForemostMore(Items(s.fired), Batch(s), x, y);
    ForemostNot(Items(s.fired), x, y);
  }

  lemma BothFired(steps: seq<Step>, x: Item, y: Item)
    requires Rivals(After(steps), x, y) && x.due < After(steps).now
    ensures x in Items(After(steps).fired) && y in Items(After(steps).fired)
  {
    RunInv(steps);
    RunPrompt(steps);
    var s := After(steps);
    FiredByNow(s, x);
    FiredByNow(s, y);
    ItemsFired(s.fired, x);
    ItemsFired(s.fired, y);
  }

  lemma LeaderFirst(steps0: seq<Step>, steps: seq<Step>, x: Item, y: Item)
    requires Rivals(After(steps0), x, y) && Leads(After(steps0), x, y) && x.due < After(steps0 + steps).now
    ensures var out := Items(After(steps0 + steps).fired);
      x in out && y in out && Foremost(out, x, y) && !Foremost(out, y, x)
  {
    RunLeads(steps0, steps, x, y);
    BothFired(steps0 + steps, x, y);
    FirstFired(After(steps0 + steps), x, y);
  }

  lemma AfterAdd(steps: seq<Step>, d: u32, x: Item)
    requires Enabled(After(steps), Add(d)) && Inv(After(steps)) && x in After(steps).pending
    ensures After(steps + [Add(d)]) == Apply(After(steps), Add(d))
    ensures var s', y := After(steps + [Add(d)]), NewItem(After(steps), d);
      x in s'.added && y in s'.added && x != y
  {
    AfterOne(steps, Add(d));
    PendingAdded(After(steps), x);
    NewItemNew(After(steps), d, x);
    AddedState(After(steps), d);
  }

  lemma PendingAdded(s: State, x: Item)
    requires Total(s.slots) && Conserved(s) && x in s.pending
    ensures x in s.added
  {
    assert x in multiset(s.added);
  }

  /** Same-expiry order exactly, for every run and every pair of timers that are met on time, in reach or
      not: when a timer is added while an earlier one with the same expiry is pending, the earlier one is
      handed over first if and only if it is in the slot that the later one is filed in. */
  lemma InOrderIff(steps0: seq<Step>, d: u32, steps: seq<Step>, x: Item)
    requires var s0, y := After(steps0), NewItem(After(steps0), d);
      && Enabled(s0, Add(d)) && x in s0.pending && x.due == y.due && MetOnTime(x) && MetOnTime(y)
    requires x.due < After(steps0 + [Add(d)] + steps).now
    ensures var s0, y := After(steps0), NewItem(After(steps0), d);
      var out := Items(After(steps0 + [Add(d)] + steps).fired);
      && x in out && y in out
      && (Foremost(out, x, y) <==> x in s0.slots[Home(x.due % WRAP, s0.time)])
  {
    var s0, y := After(steps0), NewItem(After(steps0), d);
    RunInv(steps0);
    LeadsFrom(s0, d, x);
    AfterAdd(steps0, d, x);
    if x in s0.slots[Home(x.due % WRAP, s0.time)] {
      LeaderFirst(steps0 + [Add(d)], steps, x, y);
    } else {
      LeaderFirst(steps0 + [Add(d)], steps, y, x);
    }
  }

  // ----- a pair that is handed over in the other order

  /** When `A` is added, its expiry lies, modulo 2^32, one slot of the third coarse ring behind the clock. */
  const ADDED_A := 2 * W2
  const DUE := WRAP + W2
  const DELAY_A: u32 := WRAP - W2
  /** `B` is added for the same expiry when the topmost digit of the clock has changed. */
  const ADDED_B := W3
  const DELAY_B: u32 := DUE - W3

  lemma BothOnTime()
    ensures MetOnTime(Item(0, ADDED_A, DUE)) && MetOnTime(Item(1, ADDED_B, DUE))
    ensures Home(DUE % WRAP, ADDED_A) == Far(2, 1) && Home(DUE % WRAP, ADDED_B) == Far(3, 0)
  {
  }

  /** The slot of `A` is not visited before `B` comes. */
  lemma NotYet(n: nat)
    requires ADDED_A < n <= ADDED_B
    ensures Visited(n) != Slot(Far(2, 1))
  {
    if n % W2 == 0 {
      assert n / W2 > 2;
    }
  }

  /** The wheel that holds `A` alone, when `A` has just been added. */
  ghost function HoldsA(): State {
    var x := Item(0, ADDED_A, DUE);
    Init().(now := ADDED_A, time := ADDED_A, slots := Init().slots[Far(2, 1) := [x]], added := [x], pending := [x])
  }

  lemma FirstAdded(s: State)
    requires s == Init().(now := ADDED_A, time := ADDED_A)
    ensures Next(s, Add(DELAY_A)) == HoldsA()
  {
    BothOnTime();
    var x := Item(0, ADDED_A, DUE);
    assert NewItem(s, DELAY_A) == x;
    assert s.slots[Far(2, 1)] + [x] == [x] && s.added + [x] == [x];
  }

  lemma QuietStart() returns (steps: seq<Step>)
    ensures After(steps) == Init().(now := ADDED_A, time := ADDED_A)
  {
    Idling(ADDED_A);
    steps := Ticks(ADDED_A);
  }

  lemma QuietA()
    ensures Total(HoldsA().slots) && Quiet(HoldsA(), ADDED_B - ADDED_A)
  {
    InitStill(0);
    forall n: nat | ADDED_A < n <= ADDED_B
      ensures Still(HoldsA().slots, n)
    {
      InitStill(n);
      NotYet(n);
    }
  }

  /** `A` is pending in a slot that its expiry no longer leads to: `B`, which is filed in the other one, will be
      handed over first. */
  ghost predicate Outdated(s: State)
    requires Total(s.slots)
  {
    var x := Item(0, ADDED_A, DUE);
    && s.phase.Idle? && s.now == s.time == ADDED_B && s.pending == s.added == [x]
    && NewItem(s, DELAY_B) == Item(1, ADDED_B, DUE) && s.slots[Home(DUE % WRAP, s.time)] == []
  }

  lemma LateA()
    ensures Total(HoldsA().slots) && Outdated(Later(HoldsA(), ADDED_B - ADDED_A))
  {
    BothOnTime();
    InitStill(0);
  }

  lemma Overtaken() returns (steps: seq<Step>)
    ensures Outdated(After(steps))
  {
    steps := QuietStart();
    FirstAdded(After(steps));
    AfterOne(steps, Add(DELAY_A));
    steps := steps + [Add(DELAY_A)];
    QuietA();
    LateA();
    StillRun(steps, ADDED_B - ADDED_A);
    steps := steps + Ticks(ADDED_B - ADDED_A);
  }

  /** So the order of insertion is lost: a run that hands over `B` before `A`. */
  lemma OrderLost() returns (steps: seq<Step>)
    ensures var s, x, y := After(steps), Item(0, ADDED_A, DUE), Item(1, ADDED_B, DUE);
      && s.added == [x, y] && MetOnTime(x) && MetOnTime(y)
      && x in Items(s.fired) && Foremost(Items(s.fired), y, x)
  {
    var x, y := Item(0, ADDED_A, DUE), Item(1, ADDED_B, DUE);
    var steps0 := Overtaken();
    BothOnTime();
    AfterOne(steps0, Add(DELAY_B));
    var more := ClockReaches(steps0 + [Add(DELAY_B)], DUE);
    InOrderIff(steps0, DELAY_B, more, x);
    steps := steps0 + [Add(DELAY_B)] + more;
    ForemostEither(Items(After(steps).fired), x, y);
  }
}
