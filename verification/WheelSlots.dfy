/** Slot arithmetic of the hierarchical timing wheel.

  The wheel has a near ring of 256 slots and four coarser rings of 64 slots. A 32-bit
  time is cut into digits: one of 8 bits, then four of 6 bits. Times that never wrap
  (`due`, `now`) are natural numbers; the wheel itself only sees them modulo 2^32. */
module WheelSlots {
  const NEAR := 0x100
  const LEVEL := 64
  /** 2^8, 2^14, 2^20, 2^26: how much time one slot of each coarse ring covers. */
  const W0 := 0x100
  const W1 := 0x4000
  const W2 := 0x10_0000
  const W3 := 0x400_0000
  const WRAP := 0x1_0000_0000

  type u32 = x: nat | x < WRAP witness 0

  datatype Loc = Near(idx: nat) | Far(level: nat, idx: nat)
  datatype Visit = Nothing | Slot(loc: Loc)

  predicate ValidLoc(l: Loc) {
    match l
    case Near(i) => i < NEAR
    case Far(k, i) => k < 4 && i < LEVEL
  }

  /** The slot `add_node` selects for expiry `e` at clock `ct`: the coarsest digit in
      which they differ names the ring, that digit of `e` names the slot. */
  function Home(e: nat, ct: nat): (l: Loc)
    ensures ValidLoc(l)
  {
    if e / W0 == ct / W0 then Near(e % NEAR)
    else if e / W1 == ct / W1 then Far(0, e / W0 % LEVEL)
    else if e / W2 == ct / W2 then Far(1, e / W1 % LEVEL)
    else if e / W3 == ct / W3 then Far(2, e / W2 % LEVEL)
    else Far(3, e / W3 % LEVEL)
  }

  /** The one slot `timer_shift` empties when the clock becomes `ct`. */
  function Visited(ct: nat): (v: Visit)
    ensures v.Slot? ==> ValidLoc(v.loc)
  {
    if ct % WRAP == 0 then Slot(Far(3, 0))
    else if ct % W0 != 0 then Nothing
    else if ct / W0 % LEVEL != 0 then Slot(Far(0, ct / W0 % LEVEL))
    else if ct / W1 % LEVEL != 0 then Slot(Far(1, ct / W1 % LEVEL))
    else if ct / W2 % LEVEL != 0 then Slot(Far(2, ct / W2 % LEVEL))
    else Slot(Far(3, ct / W3 % LEVEL))
  }

  /** `x | mask` for a mask of the form 2^k - 1: the low k bits are set. */
  function OrMask(x: nat, mask: nat): nat {
    x / (mask + 1) * (mask + 1) + mask
  }

  lemma OrMaskQuotient(x: nat, y: nat, mask: nat)
    ensures OrMask(x, mask) == OrMask(y, mask) <==> x / (mask + 1) == y / (mask + 1)
  {
    MulLess(x / (mask + 1), y / (mask + 1), mask + 1);
    MulLess(y / (mask + 1), x / (mask + 1), mask + 1);
  }

  lemma MulLess(p: nat, q: nat, w: nat)
    requires w > 0
    ensures p < q ==> p * w < q * w
  {
    if p < q {
      assert (p + 1) * w <= q * w;
    }
  }

  /** The quotient and the remainder by the width of a top-level slot are the only ones there are. */
  lemma WithRemainder(x: nat, q: nat, r: nat)
    requires x == q * W3 + r && r < W3
    ensures x / W3 == q && x % W3 == r
  {
  }

  lemma WithWrap(x: nat, q: nat, r: nat)
    requires x == q * WRAP + r && r < WRAP
    ensures x / WRAP == q && x % WRAP == r
  {
  }

  // ----- digits

  /** A time cut into its digits; the topmost one is not reduced modulo 64. */
  datatype Digits = Digits(top: nat, d2: nat, d1: nat, d0: nat, low: nat) {
    ghost predicate Valid() {
      d2 < LEVEL && d1 < LEVEL && d0 < LEVEL && low < NEAR
    }

    ghost function Value(): nat {
      (((top * LEVEL + d2) * LEVEL + d1) * LEVEL + d0) * NEAR + low
    }

    ghost predicate Before(o: Digits) {
      top < o.top || (top == o.top
      && (d2 < o.d2 || (d2 == o.d2
      && (d1 < o.d1 || (d1 == o.d1
      && (d0 < o.d0 || (d0 == o.d0 && low < o.low)))))))
    }

    ghost function Next(): Digits {
      if low + 1 < NEAR then this.(low := low + 1)
      else if d0 + 1 < LEVEL then this.(low := 0, d0 := d0 + 1)
      else if d1 + 1 < LEVEL then this.(low := 0, d0 := 0, d1 := d1 + 1)
      else if d2 + 1 < LEVEL then this.(low := 0, d0 := 0, d1 := 0, d2 := d2 + 1)
      else Digits(top + 1, 0, 0, 0, 0)
    }

    ghost function Digit(k: nat): nat
      requires k <= 2
    {
      if k == 0 then d0 else if k == 1 then d1 else d2
    }

    ghost predicate NoZeroFrom(k: nat) {
      (k <= 0 ==> d0 != 0) && (k <= 1 ==> d1 != 0) && (k <= 2 ==> d2 != 0)
    }

    /** The first later instant at which ring `k` shows this digit `k` again, in its next turn. */
    ghost function Return(k: nat): Digits
      requires k <= 2
    {
      if k == 0 then this.(low := NEAR - 1, d0 := LEVEL - 1).Next().(d0 := d0)
      else if k == 1 then this.(low := NEAR - 1, d0 := LEVEL - 1, d1 := LEVEL - 1).Next().(d1 := d1)
      else this.(low := NEAR - 1, d0 := LEVEL - 1, d1 := LEVEL - 1, d2 := LEVEL - 1).Next().(d2 := d2)
    }

    ghost function HomeAt(ct: Digits): Loc {
      if top != ct.top then Far(3, top % LEVEL)
      else if d2 != ct.d2 then Far(2, d2)
      else if d1 != ct.d1 then Far(1, d1)
      else if d0 != ct.d0 then Far(0, d0)
      else Near(low)
    }

    /** Seen from `ct`, this time belongs in ring `k` or in a coarser one. */
    ghost predicate NotFinerAt(k: nat, ct: Digits) {
      HomeAt(ct).Far? && HomeAt(ct).level >= k
    }

    ghost function Visits(): Visit {
      if low != 0 then Nothing
      else if d0 != 0 then Slot(Far(0, d0))
      else if d1 != 0 then Slot(Far(1, d1))
      else if d2 != 0 then Slot(Far(2, d2))
      else Slot(Far(3, top % LEVEL))
    }
  }

  ghost function Cut(x: nat): (d: Digits) {
    Digits(x / W3, x / W2 % LEVEL, x / W1 % LEVEL, x / W0 % LEVEL, x % NEAR)
  }

  lemma CutValue(x: nat)
    ensures Cut(x).Valid() && Cut(x).Value() == x
    ensures x / W3 == Cut(x).top
    ensures x / W2 == Cut(x).top * LEVEL + Cut(x).d2
    ensures x / W1 == (Cut(x).top * LEVEL + Cut(x).d2) * LEVEL + Cut(x).d1
    ensures x / W0 == ((Cut(x).top * LEVEL + Cut(x).d2) * LEVEL + Cut(x).d1) * LEVEL + Cut(x).d0
  {
    assert x / W1 == x / W0 / LEVEL && x / W2 == x / W1 / LEVEL && x / W3 == x / W2 / LEVEL;
  }

  lemma ValueCut(d: Digits)
    requires d.Valid()
    ensures Cut(d.Value()) == d
  {
    CutValue(d.Value());
    ValueInjective(Cut(d.Value()), d);
  }

  lemma ValueInjective(a: Digits, b: Digits)
    requires a.Valid() && b.Valid()
    ensures a.Value() == b.Value() ==> a == b
    ensures a.Value() < b.Value() <==> a.Before(b)
  {
  }

  lemma CutNext(x: nat)
    ensures Cut(x + 1) == Cut(x).Next()
  {
    CutValue(x);
    NextValue(Cut(x));
    ValueCut(Cut(x).Next());
  }

  lemma NextValue(d: Digits)
    requires d.Valid()
    ensures d.Next().Valid() && d.Next().Value() == d.Value() + 1
  {
  }

  lemma CutBefore(x: nat, y: nat)
    ensures x < y <==> Cut(x).Before(Cut(y))
  {
    CutValue(x);
    CutValue(y);
    ValueInjective(Cut(x), Cut(y));
  }

  lemma CutHome(e: nat, ct: nat)
    ensures Home(e, ct) == Cut(e).HomeAt(Cut(ct))
  {
    CutValue(e);
    CutValue(ct);
  }

  lemma CutVisited(ct: nat)
    ensures Visited(ct) == Cut(ct).Visits()
  {
    CutValue(ct);
    assert ct / WRAP == ct / W3 / LEVEL;
  }

  /** Reducing modulo 2^32 only reduces the topmost digit. */
  lemma CutWrap(x: nat)
    ensures Cut(x % WRAP) == Cut(x).(top := Cut(x).top % LEVEL)
  {
    var d := Cut(x).(top := Cut(x).top % LEVEL);
    CutValue(x);
    WrapRemainder(Cut(x), d, Cut(x).top / LEVEL);
    ValueCut(d);
  }

  lemma WrapRemainder(c: Digits, d: Digits, q: nat)
    requires c.Valid() && c.top == q * LEVEL + d.top && d.top < LEVEL && d == c.(top := d.top)
    ensures c.Value() % WRAP == d.Value()
  {
    ValueSplit(c, d, q);
    WithWrap(c.Value(), q, d.Value());
  }

  lemma ValueSplit(c: Digits, d: Digits, q: nat)
    requires c.Valid() && c.top == q * LEVEL + d.top && d.top < LEVEL && d == c.(top := d.top)
    ensures c.Value() == q * WRAP + d.Value() && d.Value() < WRAP
  {
  }

  // ----- one tick seen from one pending time

  lemma WrapHomeDigits(a: Digits, b: Digits)
    requires -63 <= a.top - b.top <= 63
    ensures a.(top := a.top % LEVEL).HomeAt(b.(top := b.top % LEVEL)) == a.HomeAt(b)
  {
  }

  lemma StayDigits(due: Digits, now: Digits)
    requires due.Valid() && now.Valid() && now.Before(due) && due.top - now.top <= 63
    ensures now.Next().Visits() != Slot(due.HomeAt(now)) <==> due.HomeAt(now.Next()) == due.HomeAt(now)
  {
  }

  lemma ArriveDigits(due: Digits, other: Digits, now: Digits)
    requires due.Valid() && now.Valid() && now.Before(due) && due.top - now.top <= 63
    requires other.Valid() && now.Before(other) && other.top - now.top <= 63
    requires now.Next().Visits() == Slot(due.HomeAt(now))
    ensures other.HomeAt(now) != due.HomeAt(now.Next())
  {
  }

  /** Two times less than 64 top-level slots apart are told apart by their 32-bit images. */
  lemma WrapHome(a: nat, b: nat)
    requires -63 <= a / W3 - b / W3 <= 63
    ensures Home(a % WRAP, b % WRAP) == Home(a, b)
  {
    CutWrap(a);
    CutWrap(b);
    CutHome(a, b);
    CutHome(a % WRAP, b % WRAP);
    WrapHomeDigits(Cut(a), Cut(b));
  }

  lemma VisitedWrap(ct: nat)
    ensures Visited(ct % WRAP) == Visited(ct)
  {
    CutWrap(ct);
    CutVisited(ct);
    CutVisited(ct % WRAP);
  }

  /** Outside the visited slot nothing has to move; inside it everything does. */
  lemma Stay(due: nat, now: nat)
    requires now < due && due / W3 - now / W3 <= 63
    ensures Visited(now + 1) != Slot(Home(due, now)) <==> Home(due, now + 1) == Home(due, now)
  {
    CutNext(now);
    CutVisited(now + 1);
    CutHome(due, now);
    CutHome(due, now + 1);
    CutBefore(now, due);
    CutValue(due);
    CutValue(now);
    StayDigits(Cut(due), Cut(now));
  }

  /** A slot that receives from the visited slot was empty before the tick. */
  lemma Arrive(due: nat, other: nat, now: nat)
    requires now < due && due / W3 - now / W3 <= 63
    requires now < other && other / W3 - now / W3 <= 63
    requires Visited(now + 1) == Slot(Home(due, now))
    ensures Home(other, now) != Home(due, now + 1)
  {
    CutNext(now);
    CutVisited(now + 1);
    CutHome(due, now);
    CutHome(other, now);
    CutHome(due, now + 1);
    CutBefore(now, due);
    CutBefore(now, other);
    CutValue(due);
    CutValue(now);
    CutValue(other);
    ArriveDigits(Cut(due), Cut(other), Cut(now));
  }

  /** The near slot under the clock holds exactly what is due. */
  lemma UnderClock(due: nat, now: nat)
    requires now <= due
    ensures Home(due, now) == Near(now % NEAR) <==> due == now
  {
  }

  // ----- delays that reach back into the current top-level slot

  /** With a delay so long that the expiry falls, modulo 2^32, into the current top-level
      slot but behind the clock, `add_node` files the node by an instant that has already
      passed: `due - WRAP`, called `past` below. Such a node drifts: its slot is next visited
      only after the ring has turned, and is then filed again. */
  ghost predicate DriftingDigits(k: nat, past: Digits, now: Digits)
    requires k <= 2
  {
    past.Before(now) && past.NotFinerAt(k, now) && (past.Digit(k) != 0 ==> now.Before(past.Return(k)))
  }

  lemma DriftGoesOn(k: nat, past: Digits, now: Digits)
    requires k <= 2 && past.Valid() && now.Valid() && DriftingDigits(k, past, now)
    requires now.Next().Visits() != Slot(Far(k, past.Digit(k)))
    ensures DriftingDigits(k, past, now.Next())
  {
  }

  lemma DriftReturns(k: nat, past: Digits, now: Digits)
    requires k <= 2 && past.Valid() && now.Valid() && DriftingDigits(k, past, now)
    requires now.Next().Visits() == Slot(Far(k, past.Digit(k)))
    ensures past.Digit(k) != 0 && now.Next() == past.Return(k)
  {
  }

  lemma DriftRefiled(k: nat, past: Digits)
    requires k <= 2 && past.Valid() && past.Digit(k) != 0
    ensures past.Return(k).top == past.top + 1 ==> past.NoZeroFrom(k)
    ensures past.Return(k).top == past.top ==>
      && past.HomeAt(past.Return(k)).Far?
      && var j := past.HomeAt(past.Return(k)).level;
      && j <= 2 && past.HomeAt(past.Return(k)) == Far(j, past.Digit(j))
      && DriftingDigits(j, past, past.Return(k))
      && (past.NoZeroFrom(k) <==> past.NoZeroFrom(j))
    ensures past.Return(k).top == past.top || past.Return(k).top == past.top + 1
  {
  }

  lemma DriftBegins(past: Digits, now: Digits)
    requires past.Valid() && now.Valid() && past.Before(now) && past.top == now.top
    ensures past.HomeAt(now).Far? ==>
      && past.HomeAt(now).level <= 2
      && past.HomeAt(now) == Far(past.HomeAt(now).level, past.Digit(past.HomeAt(now).level))
      && DriftingDigits(past.HomeAt(now).level, past, now)
  {
  }

  ghost predicate Drifting(l: Loc, due: nat, now: nat) {
    && due >= WRAP && l.Far? && l.level <= 2
    && l.idx == Cut(due - WRAP).Digit(l.level)
    && DriftingDigits(l.level, Cut(due - WRAP), Cut(now))
  }

  // ----- when is a delay met exactly?

  /** What a caller can check before adding delay `d` at clock `ct`: the expiry stays within
      63 top-level slots of the clock, or it is filed in a coarse ring under digits none of
      which is zero. */
  predicate OnTime(ct: u32, d: u32) {
    ct % W3 + d < WRAP
    || var e := (ct + d) % WRAP;
       match Home(e, ct)
       case Near(_) => false
       case Far(k, _) => DigitsNonZero(k, e)
  }

  /** No digit of `e` from ring `k` up to ring 2 is zero. */
  predicate DigitsNonZero(k: nat, e: nat) {
    && (k <= 0 ==> e / W0 % LEVEL != 0)
    && (k <= 1 ==> e / W1 % LEVEL != 0)
    && (k <= 2 ==> e / W2 % LEVEL != 0)
  }

  lemma CutNonZero(k: nat, e: nat)
    ensures DigitsNonZero(k, e) <==> Cut(e).NoZeroFrom(k)
  {
  }

  /** A pending node filed where `add_node` would file it now, within reach of the wheel. */
  ghost predicate Filed(l: Loc, due: nat, now: nat) {
    now <= due && due / W3 - now / W3 <= 63 && l == Home(due, now)
  }

  /** A pending node at slot `l` that will be dispatched exactly when it is due. */
  ghost predicate WillMeet(l: Loc, due: nat, now: nat) {
    Filed(l, due, now) || (Drifting(l, due, now) && Cut(due - WRAP).NoZeroFrom(l.level))
  }

  /** A pending node at slot `l` that will be dispatched too early, or never. */
  ghost predicate WillMiss(l: Loc, due: nat, now: nat) {
    || (l == Near(due % NEAR) && now + NEAR <= due)
    || (Drifting(l, due, now) && !Cut(due - WRAP).NoZeroFrom(l.level))
  }

  lemma PastDue(due: nat)
    requires due >= WRAP
    ensures (due - WRAP) % WRAP == due % WRAP && (due - WRAP) % NEAR == due % NEAR
    ensures (due - WRAP) / W3 == due / W3 - LEVEL
  {
  }

  lemma WrapTop(now: nat)
    ensures now % WRAP % W3 == now % W3
  {
    var m := now % WRAP;
    WithRemainder(now, now / WRAP * LEVEL + m / W3, m % W3);
  }

  lemma WrapSum(now: nat, d: nat)
    ensures (now % WRAP + d) % WRAP == (now + d) % WRAP
  {
    var s := now % WRAP + d;
    WithWrap(now + d, now / WRAP + s / WRAP, s % WRAP);
  }

  /** A delay in reach is one that leads at most 63 top-level slots ahead. */
  lemma ReachOf(now: nat, d: u32)
    ensures now % W3 + d < WRAP <==> (now + d) / W3 - now / W3 <= 63
    ensures (now + d) / W3 - now / W3 <= 64
  {
    var s := now % W3 + d;
    WithRemainder(now + d, now / W3 + s / W3, s % W3);
  }

  lemma AddedEitherWay(now: nat, d: u32)
    ensures var l := Home((now + d) % WRAP, now % WRAP);
      if OnTime(now % WRAP, d) then WillMeet(l, now + d, now) else WillMiss(l, now + d, now)
  {
    ReachOf(now, d);
    WrapTop(now);
    WrapSum(now, d);
    if now % W3 + d < WRAP {
      WrapHome(now + d, now);
    } else {
      AddedBehind(now, d);
    }
  }

  lemma AddedBehind(now: nat, d: u32)
    requires (now + d) / W3 - now / W3 == 64
    ensures var l, past := Home((now + d) % WRAP, now % WRAP), now + d - WRAP;
      && past >= 0
      && (l.Far? ==> Drifting(l, now + d, now))
      && (l.Far? ==> (DigitsNonZero(l.level, (now + d) % WRAP) <==> Cut(past).NoZeroFrom(l.level)))
      && (l.Near? ==> l == Near((now + d) % NEAR) && now + NEAR <= now + d)
  {
    Nested(now + d);
    var past := now + d - WRAP;
    PastDue(now + d);
    WrapHome(past, now);
    CutHome(past, now);
    CutValue(past);
    CutValue(now);
    CutBefore(past, now);
    DriftBegins(Cut(past), Cut(now));
    if Home(past, now).Far? {
      CutWrap(past);
      CutNonZero(Home(past, now).level, past % WRAP);
    } else {
      assert d >= NEAR;
    }
  }

  lemma Nested(x: nat)
    ensures x / W3 >= LEVEL ==> x >= WRAP
  {
  }

  lemma DriftStays(l: Loc, due: nat, now: nat)
    requires Visited(now + 1) != Slot(l) && Drifting(l, due, now)
    ensures Drifting(l, due, now + 1)
  {
    CutNext(now);
    CutVisited(now + 1);
    CutValue(due - WRAP);
    CutValue(now);
    DriftGoesOn(l.level, Cut(due - WRAP), Cut(now));
  }

  lemma FiledStays(l: Loc, due: nat, now: nat)
    requires Visited(now + 1) != Slot(l) && l != Near(now % NEAR) && Filed(l, due, now)
    ensures Filed(l, due, now + 1)
  {
    UnderClock(due, now);
    Stay(due, now);
  }

  lemma MissStays(l: Loc, due: nat, now: nat)
    requires Visited(now + 1) != Slot(l) && l != Near(now % NEAR) && WillMiss(l, due, now)
    ensures WillMiss(l, due, now + 1)
  {
    if Drifting(l, due, now) {
      DriftStays(l, due, now);
    } else {
      assert due != now + NEAR by { NearAgain(now); }
    }
  }

  lemma MeetStays(l: Loc, due: nat, now: nat)
    requires Visited(now + 1) != Slot(l) && l != Near(now % NEAR) && WillMeet(l, due, now)
    ensures WillMeet(l, due, now + 1)
  {
    if Filed(l, due, now) {
      FiledStays(l, due, now);
    } else {
      DriftStays(l, due, now);
    }
  }

  /** A tick that leaves the node's slot alone keeps its fate. */
  lemma FateStays(l: Loc, due: nat, now: nat)
    requires Visited(now + 1) != Slot(l)
    requires l != Near(now % NEAR)
    ensures WillMeet(l, due, now) ==> WillMeet(l, due, now + 1)
    ensures WillMiss(l, due, now) ==> WillMiss(l, due, now + 1)
  {
    if WillMeet(l, due, now) {
      MeetStays(l, due, now);
    }
    if WillMiss(l, due, now) {
      MissStays(l, due, now);
    }
  }

  lemma NearAgain(now: nat)
    ensures (now + NEAR) % NEAR == now % NEAR
  {
  }

  /** `add_node` cannot tell an instant from the one 2^32 ticks earlier. */
  lemma PastHome(due: nat, now: nat)
    requires due >= WRAP && -63 <= (due - WRAP) / W3 - now / W3 <= 63
    ensures Home(due % WRAP, now % WRAP) == Cut(due - WRAP).HomeAt(Cut(now))
  {
    PastDue(due);
    WrapHome(due - WRAP, now);
    CutHome(due - WRAP, now);
  }

  lemma DriftMovesDigits(k: nat, past: Digits, now: Digits)
    requires k <= 2 && past.Valid() && now.Valid() && DriftingDigits(k, past, now)
    requires now.Next().Visits() == Slot(Far(k, past.Digit(k)))
    ensures now.Next().top == past.top ==>
      && past.HomeAt(now.Next()).Far?
      && var j := past.HomeAt(now.Next()).level;
      && j <= 2 && past.HomeAt(now.Next()) == Far(j, past.Digit(j))
      && DriftingDigits(j, past, now.Next())
      && (past.NoZeroFrom(k) <==> past.NoZeroFrom(j))
    ensures now.Next().top != past.top ==> now.Next().top == past.top + 1 && past.NoZeroFrom(k)
  {
    DriftReturns(k, past, now);
    DriftRefiled(k, past);
  }

  lemma DriftOn(l: Loc, due: nat, now: nat)
    requires Visited(now + 1) == Slot(l) && Drifting(l, due, now) && Cut(now + 1).top == Cut(due - WRAP).top
    ensures var h := Home(due % WRAP, (now + 1) % WRAP);
            Drifting(h, due, now + 1) && (Cut(due - WRAP).NoZeroFrom(l.level) <==> Cut(due - WRAP).NoZeroFrom(h.level))
  {
    CutNext(now);
    CutVisited(now + 1);
    DriftMovesDigits(l.level, Cut(due - WRAP), Cut(now));
    PastHome(due, now + 1);
  }

  lemma DriftOff(l: Loc, due: nat, now: nat)
    requires Visited(now + 1) == Slot(l) && Drifting(l, due, now) && Cut(now + 1).top != Cut(due - WRAP).top
    ensures now + 1 <= due && Filed(Home(due % WRAP, (now + 1) % WRAP), due, now + 1)
    ensures Cut(due - WRAP).NoZeroFrom(l.level)
  {
    CutNext(now);
    CutVisited(now + 1);
    DriftMovesDigits(l.level, Cut(due - WRAP), Cut(now));
    DriftSettles(due, now + 1);
  }

  lemma DriftMoves(l: Loc, due: nat, now: nat)
    requires Visited(now + 1) == Slot(l) && Drifting(l, due, now)
    ensures var h, past := Home(due % WRAP, (now + 1) % WRAP), due - WRAP;
      if Cut(now + 1).top == Cut(past).top then
        Drifting(h, due, now + 1) && (Cut(past).NoZeroFrom(l.level) <==> Cut(past).NoZeroFrom(h.level))
      else
        Filed(h, due, now + 1) && Cut(past).NoZeroFrom(l.level)
  {
    if Cut(now + 1).top == Cut(due - WRAP).top {
      DriftOn(l, due, now);
    } else {
      DriftOff(l, due, now);
    }
  }

  lemma DriftSettles(due: nat, now: nat)
    requires due >= WRAP && now / W3 == (due - WRAP) / W3 + 1
    ensures Filed(Home(due % WRAP, now % WRAP), due, now)
  {
    PastDue(due);
    TopAhead(now, due);
    WrapHome(due, now);
  }

  lemma TopAhead(now: nat, due: nat)
    requires now / W3 < due / W3
    ensures now < due
  {
  }

  /** A tick that files the node again keeps its fate. */
  lemma FateMoves(l: Loc, due: nat, now: nat)
    requires Visited(now + 1) == Slot(l)
    ensures var h := Home(due % WRAP, (now + 1) % WRAP);
      && (WillMeet(l, due, now) ==> WillMeet(h, due, now + 1))
      && (WillMiss(l, due, now) ==> WillMiss(h, due, now + 1))
  {
    if Drifting(l, due, now) {
      DriftMoves(l, due, now);
    } else if Filed(l, due, now) {
      UnderClock(due, now);
      Reach(due, now);
      WrapHome(due, now + 1);
    }
  }

  lemma Reach(due: nat, now: nat)
    requires now < due
    ensures 0 <= due / W3 - (now + 1) / W3 <= due / W3 - now / W3
  {
  }

  /** Under the clock, a node is dispatched: on time or not. */
  lemma FateDecided(due: nat, now: nat)
    ensures WillMeet(Near(now % NEAR), due, now) ==> due == now
    ensures WillMiss(Near(now % NEAR), due, now) ==> due != now
  {
    if now <= due {
      UnderClock(due, now);
    }
  }

  lemma MeetNotPast(l: Loc, due: nat, now: nat)
    requires WillMeet(l, due, now)
    ensures now <= due
  {
    if !Filed(l, due, now) {
      PastDue(due);
      CutBefore(now, due);
      CutValue(due);
      ReturnSoon(l.level, Cut(due - WRAP));
    }
  }

  lemma ReturnSoon(k: nat, d: Digits)
    requires k <= 2
    ensures d.Return(k).top <= d.top + 1
  {
  }

  lemma NotInSlotZero(due: nat, now: nat, k: nat)
    requires now <= due && k < 3
    ensures Home(due, now) != Far(k, 0)
  {
    CutHome(due, now);
    CutBefore(due, now);
    CutValue(due);
    CutValue(now);
    NotInSlotZeroDigits(Cut(due), Cut(now), k);
  }

  lemma NotInSlotZeroDigits(due: Digits, now: Digits, k: nat)
    requires !due.Before(now) && k < 3
    ensures due.HomeAt(now) != Far(k, 0)
  {
  }
}
