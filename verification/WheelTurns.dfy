/** The timer thread can always go on, and what a wheel in which nothing happens looks like later. */
module WheelTurns {
  import opened Seqs
  import opened WheelSlots
  import opened WheelSpec
  import opened WheelRun

  ghost predicate SamePlace(s: State, t: State) {
    t.now == s.now && t.time == s.time && t.added == s.added
  }

  /** The callbacks of the detached list are run, then the lock is taken again. */
  lemma {:induction false} Callbacks(steps: seq<Step>) returns (more: seq<Step>)
    requires After(steps).phase.Calling?
    ensures var s, t := After(steps), After(steps + more);
      SamePlace(s, t) && t.phase == Draining(s.phase.second) && t.slots == s.slots
    decreases |After(steps).phase.batch|
  {
    if After(steps).phase.batch == [] {
      more := [Relock];
      AfterOne(steps, Relock);
    } else {
      AfterOne(steps, Fire);
      more := Callbacks(steps + [Fire]);
      Assoc(steps, [Fire], more);
      more := [Fire] + more;
    }
  }

  /** The drain loop ends with nothing left under the clock. */
  lemma Drain(steps: seq<Step>) returns (more: seq<Step>)
    requires After(steps).phase.Draining?
    ensures var s, t := After(steps), After(steps + more);
      SamePlace(s, t) && t.phase == s.phase && t.slots[Near(s.time % NEAR)] == []
  {
    if After(steps).slots[Near(After(steps).time % NEAR)] == [] {
      more := [];
      assert steps + more == steps;
    } else {
      AfterOne(steps, Take);
      more := Callbacks(steps + [Take]);
      Assoc(steps, [Take], more);
      more := [Take] + more;
    }
  }

  /** The drain loop and what follows it: the shift after the first one, the release after the second. */
  lemma DrainThen(steps: seq<Step>, last: Step) returns (more: seq<Step>)
    requires After(steps).phase == Draining(last.Unlock?) && (last.Shift? || last.Unlock?)
    ensures var s, t := After(steps), After(steps + more);
      && t.added == s.added
      && if last.Shift? then t.phase == Draining(true) && t.now == s.now + 1 else t.phase.Idle? && t.now == s.now
  {
    more := Drain(steps);
    AfterOne(steps + more, last);
    Assoc(steps, more, [last]);
    more := more + [last];
  }

  /** One whole update. */
  lemma Update(steps: seq<Step>) returns (more: seq<Step>)
    requires After(steps).phase.Idle?
    ensures var s, t := After(steps), After(steps + more);
      t.phase.Idle? && t.now == s.now + 1 && t.added == s.added
  {
    AfterOne(steps, Lock);
    var one := DrainThen(steps + [Lock], Shift);
    var two := DrainThen(steps + [Lock] + one, Unlock);
    more := [Lock] + one + two;
    assert steps + more == steps + [Lock] + one + two;
  }

  /** Every idle wheel can be brought to every later time. */
  lemma {:induction false} ClockReaches(steps: seq<Step>, n: nat) returns (more: seq<Step>)
    requires After(steps).phase.Idle?
    ensures var s, t := After(steps), After(steps + more);
      t.phase.Idle? && t.now == s.now + n && t.added == s.added
  {
    if n == 0 {
      more := [];
      assert steps + more == steps;
    } else {
      more := ClockReaches(steps, n - 1);
      var last := Update(steps + more);
      Assoc(steps, more, last);
      more := more + last;
    }
  }

  // ----- when nothing is due and nothing moves

  ghost predicate Still(slots: Slots, now: nat)
    requires Total(slots)
  {
    Visited(now).Slot? ==> slots[Visited(now).loc] == []
  }

  ghost predicate NoneNear(slots: Slots)
    requires Total(slots)
  {
    forall i: nat | i < NEAR :: slots[Near(i)] == []
  }

  lemma StillShift(slots: Slots, now: nat)
    requires Total(slots) && Still(slots, now)
    ensures ShiftSlots(slots, now % WRAP) == slots
  {
    VisitedWrap(now);
    match Visited(now)
    case Nothing =>
    case Slot(l) => assert slots[l := []] == slots;
  }

  /** `s`, `n` ticks later. */
  ghost function Later(s: State, n: nat): State {
    s.(now := s.now + n, time := (s.now + n) % WRAP)
  }

  lemma LaterAgain(s: State, n: nat)
    ensures Later(Later(s, n), 1) == Later(s, n + 1)
  {
  }

  /** For `n` ticks nothing will be due and nothing will move. */
  ghost predicate Quiet(s: State, n: nat)
    requires Total(s.slots)
  {
    && s.phase.Idle? && s.time == s.now % WRAP && NoneNear(s.slots)
    && forall i: nat | s.now < i <= s.now + n :: Still(s.slots, i)
  }

  lemma QuietNext(s: State, n: nat)
    requires Total(s.slots) && Quiet(s, n) && n > 0
    ensures Quiet(s, n - 1) && Quiet(Later(s, n - 1), 1)
  {
  }

  lemma StillTick(s: State)
    requires Total(s.slots) && Quiet(s, 1)
    ensures Total(Next(Next(s, Lock), Shift).slots)
    ensures Next(Next(Next(s, Lock), Shift), Unlock) == Later(s, 1)
  {
    assert Still(s.slots, s.now + 1);
    NextWrap(s.now);
    StillShift(s.slots, s.now + 1);
    var s1 := Next(s, Lock);
    assert s1 == s.(phase := Draining(false));
    var s2 := Next(s1, Shift);
    assert s2 == s.(phase := Draining(true), now := s.now + 1, time := (s.now + 1) % WRAP);
  }

  lemma AfterThree(steps: seq<Step>, a: Step, b: Step, c: Step)
    ensures After(steps + [a] + [b] + [c]) == Next(Next(Next(After(steps), a), b), c)
  {
    AfterOne(steps, a);
    AfterOne(steps + [a], b);
    AfterOne(steps + [a] + [b], c);
  }

  /** `n` updates without callbacks. */
  ghost function Ticks(n: nat): seq<Step> {
    if n == 0 then [] else Ticks(n - 1) + [Lock] + [Shift] + [Unlock]
  }

  lemma TicksJoin(steps: seq<Step>, n: nat)
    requires n > 0
    ensures steps + Ticks(n) == steps + Ticks(n - 1) + [Lock] + [Shift] + [Unlock]
  {
  }

  lemma StillAfter(steps: seq<Step>, s: State)
    requires After(steps) == s && Quiet(s, 1)
    ensures After(steps + [Lock] + [Shift] + [Unlock]) == Later(s, 1)
  {
    StillTick(s);
    AfterThree(steps, Lock, Shift, Unlock);
  }

  lemma StillStep(before: seq<Step>, steps: seq<Step>, s: State, n: nat)
    requires Total(s.slots) && n > 0 && After(before) == Later(s, n - 1) && Quiet(After(before), 1)
    requires steps == before + [Lock] + [Shift] + [Unlock]
    ensures After(steps) == Later(s, n)
  {
    StillAfter(before, Later(s, n - 1));
    LaterAgain(s, n - 1);
  }

  lemma {:induction false} StillRun(steps: seq<Step>, n: nat)
    requires Quiet(After(steps), n)
    ensures After(steps + Ticks(n)) == Later(After(steps), n)
  {
    if n == 0 {
      assert steps + [] == steps;
    } else {
      QuietNext(After(steps), n);
      StillRun(steps, n - 1);
      TicksJoin(steps, n);
      StillStep(steps + Ticks(n - 1), steps + Ticks(n), After(steps), n);
    }
  }

  lemma InitStill(n: nat)
    ensures After([]).slots == Init().slots && NoneNear(Init().slots) && Still(Init().slots, n)
  {
  }

  lemma Idling(n: nat)
    ensures After(Ticks(n)) == Later(Init(), n)
  {
    forall k: nat ensures Still(Init().slots, k) {
      InitStill(k);
    }
    InitStill(0);
    StillRun([], n);
    assert [] + Ticks(n) == Ticks(n);
  }

  /** At clock 1 a timer is added with the longest delay. */
  lemma LongestAdded() returns (steps: seq<Step>)
    ensures var s := After(steps); s.phase.Idle? && s.now == 1 && s.added == [Item(0, 1, WRAP)]
  {
    Idling(1);
    AfterOne(Ticks(1), Add(WRAP - 1));
    steps := Ticks(1) + [Add(WRAP - 1)];
  }

  /** A run in which a timer is not handed over at its expiry. */
  lemma ExpiryMissed() returns (steps: seq<Step>)
    ensures var s, x := After(steps), Item(0, 1, WRAP);
      x in s.added && x.due < s.now && forall f | f in s.fired && f.item == x :: f.at != x.due
  {
    var first := LongestAdded();
    var more := ClockReaches(first, WRAP);
    steps := first + more;
    LongDelayMisses();
    ExactFiring(steps, Item(0, 1, WRAP));
  }
}
