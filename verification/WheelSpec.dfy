/** The wheel as a value: what `add_node`, `move_list` and `timer_shift` do to the slots,
  and why the slots are a filing of one plain list of pending timers. */
module WheelSpec {
  import opened Seqs
  import opened WheelSlots

  /** A pending timer: identity, unwrapped time of insertion and unwrapped expiry. */
  datatype Item = Item(id: nat, added: nat, due: nat)

  type Slots = map<Loc, seq<Item>>

  function AllLocs(): (r: set<Loc>)
    ensures forall l :: l in r <==> ValidLoc(l)
  {
    (set i: nat | i < NEAR :: Near(i)) + (set k: nat, i: nat | k < 4 && i < LEVEL :: Far(k, i))
  }

  /** A wheel without timers. */
  function EmptySlots(): Slots {
    map l: Loc | l in AllLocs() :: []
  }

  ghost predicate Total(s: Slots) {
    forall l: Loc :: ValidLoc(l) <==> l in s
  }

  function Put(s: Slots, x: Item, ct: u32): (r: Slots)
    requires Home(x.due % WRAP, ct) in s
  {
    var l := Home(x.due % WRAP, ct);
    s[l := s[l] + [x]]
  }

  ghost function PutAll(s: Slots, xs: seq<Item>, ct: u32): (r: Slots)
    requires Total(s)
    ensures Total(r)
  {
    if xs == [] then s else PutAll(Put(s, xs[0], ct), xs[1..], ct)
  }

  ghost function Move(s: Slots, l: Loc, ct: u32): (r: Slots)
    requires Total(s) && ValidLoc(l)
    ensures Total(r)
  {
    PutAll(s[l := []], s[l], ct)
  }

  ghost function ShiftSlots(s: Slots, ct: u32): (r: Slots)
    requires Total(s)
    ensures Total(r)
  {
    match Visited(ct)
    case Nothing => s
    case Slot(l) => Move(s, l, ct)
  }

  // ----- what a shift does to one slot

  ghost predicate At(x: Item, l: Loc, ct: u32) {
    Home(x.due % WRAP, ct) == l
  }

  lemma {:induction false} PutAllAt(s: Slots, xs: seq<Item>, ct: u32, l: Loc)
    requires Total(s) && ValidLoc(l)
    ensures PutAll(s, xs, ct)[l] == s[l] + Sel(xs, x => At(x, l, ct))
  {
    if xs != [] {
      PutAllAt(Put(s, xs[0], ct), xs[1..], ct, l);
    }
  }

  lemma ShiftAt(s: Slots, ct: u32, l: Loc)
    requires Total(s) && ValidLoc(l)
    ensures Visited(ct) == Nothing ==> ShiftSlots(s, ct)[l] == s[l]
    ensures Visited(ct).Slot? ==>
      (ShiftSlots(s, ct)[l]
       == (if l == Visited(ct).loc then [] else s[l]) + Sel(s[Visited(ct).loc], x => At(x, l, ct)))
  {
    if Visited(ct).Slot? {
      var v := Visited(ct).loc;
      PutAllAt(s[v := []], s[v], ct, l);
    }
  }

  // ----- refinement of a plain list

  /** The delay was within the wheel's reach when the timer was added. */
  ghost predicate InReach(x: Item) {
    x.added <= x.due && x.due / W3 - x.added / W3 <= 63
  }

  ghost predicate HomeIs(x: Item, l: Loc, now: nat) {
    InReach(x) && Home(x.due, now) == l
  }

  /** Every slot holds, in the order of insertion, exactly the pending timers within reach
      that `add_node` would file there at this moment (and possibly others out of reach). */
  ghost predicate Files(s: Slots, now: nat, pending: seq<Item>)
    requires Total(s)
  {
    forall l | ValidLoc(l) :: Sel(s[l], InReach) == Sel(pending, x => HomeIs(x, l, now))
  }

  ghost predicate Awaited(pending: seq<Item>, now: nat) {
    forall x | x in pending && InReach(x) :: x.added <= now <= x.due
  }

  lemma StillInReach(x: Item, now: nat)
    requires InReach(x) && x.added <= now <= x.due
    ensures 0 <= x.due / W3 - now / W3 <= 63
    ensures Home(x.due % WRAP, now % WRAP) == Home(x.due, now)
  {
    WrapHome(x.due, now);
  }

  lemma AddFiles(s: Slots, now: nat, pending: seq<Item>, x: Item)
    requires Total(s) && Files(s, now, pending)
    requires x.added == now <= x.due
    ensures Files(Put(s, x, now % WRAP), now, pending + [x])
  {
    var s' := Put(s, x, now % WRAP);
    forall l | ValidLoc(l)
      ensures Sel(s'[l], InReach) == Sel(pending + [x], y => HomeIs(y, l, now))
    {
      SelLast(pending, x, y => HomeIs(y, l, now));
      SelLast(s[l], x, InReach);
      if InReach(x) {
        StillInReach(x, now);
      }
    }
  }

  /** `timer_shift` leaves the plain list alone: it only files it for the new time. */
  lemma ShiftFiles(s: Slots, now: nat, pending: seq<Item>, ct: u32)
    requires Total(s) && Files(s, now, pending) && Awaited(pending, now) && ct == (now + 1) % WRAP
    requires forall x | x in pending && InReach(x) :: x.due != now
    ensures Files(ShiftSlots(s, ct), now + 1, pending)
  {
    forall l | ValidLoc(l)
      ensures Sel(ShiftSlots(s, ct)[l], InReach) == Sel(pending, x => HomeIs(x, l, now + 1))
    {
      ShiftFilesAt(s, now, pending, l);
    }
  }

  lemma ShiftFilesAt(s: Slots, now: nat, pending: seq<Item>, l: Loc)
    requires Total(s) && Files(s, now, pending) && Awaited(pending, now) && ValidLoc(l)
    requires forall x | x in pending && InReach(x) :: x.due != now
    ensures Sel(ShiftSlots(s, (now + 1) % WRAP)[l], InReach) == Sel(pending, x => HomeIs(x, l, now + 1))
  {
    var ct := (now + 1) % WRAP;
    VisitedWrap(now + 1);
    ShiftAt(s, ct, l);
    forall x | x in pending && InReach(x)
      ensures Visited(now + 1) != Slot(Home(x.due, now)) <==> Home(x.due, now + 1) == Home(x.due, now)
    {
      StillInReach(x, now);
      Stay(x.due, now);
    }
    match Visited(now + 1)
    case Nothing =>
      SelAgree(pending, x => HomeIs(x, l, now), x => HomeIs(x, l, now + 1));
    case Slot(v) =>
      MovedAt(s, now, pending, v, l);
      if l == v {
        SelConcat([], Sel(s[v], x => At(x, l, ct)), InReach);
        SelNone(pending, x => HomeIs(x, v, now) && HomeIs(x, l, now + 1));
        SelNone(pending, x => HomeIs(x, l, now + 1));
      } else {
        SelConcat(s[l], Sel(s[v], x => At(x, l, ct)), InReach);
        MergedAt(now, pending, v, l);
      }
  }

  /** What the visited slot `v` hands to slot `l`. */
  lemma MovedAt(s: Slots, now: nat, pending: seq<Item>, v: Loc, l: Loc)
    requires Total(s) && Files(s, now, pending) && Awaited(pending, now) && ValidLoc(l) && ValidLoc(v)
    requires forall x | x in pending && InReach(x) :: x.due != now
    ensures Sel(Sel(s[v], x => At(x, l, (now + 1) % WRAP)), InReach)
         == Sel(pending, x => HomeIs(x, v, now) && HomeIs(x, l, now + 1))
  {
    var ct := (now + 1) % WRAP;
    forall x | x in pending && InReach(x)
      ensures At(x, l, ct) <==> HomeIs(x, l, now + 1)
    {
      StillInReach(x, now + 1);
    }
    SelSel(s[v], x => At(x, l, ct), InReach, x => InReach(x) && At(x, l, ct));
    SelSel(s[v], InReach, x => At(x, l, ct), x => InReach(x) && At(x, l, ct));
    SelSel(pending, x => HomeIs(x, v, now), x => At(x, l, ct), x => HomeIs(x, v, now) && HomeIs(x, l, now + 1));
  }

  /** Where `x` arrives, no `y` was before. */
  lemma NotBefore(now: nat, x: Item, y: Item, v: Loc, l: Loc)
    requires Visited(now + 1) == Slot(v) && HomeIs(x, v, now) && HomeIs(x, l, now + 1)
    requires InReach(y) && x.added <= now < x.due && y.added <= now < y.due
    ensures !HomeIs(y, l, now)
  {
    StillInReach(x, now);
    StillInReach(y, now);
    Arrive(x.due, y.due, now);
  }

  lemma NoneBefore(now: nat, pending: seq<Item>, x: Item, v: Loc, l: Loc)
    requires Visited(now + 1) == Slot(v) && Awaited(pending, now) && x in pending
    requires HomeIs(x, v, now) && HomeIs(x, l, now + 1)
    requires forall y | y in pending && InReach(y) :: y.due != now
    ensures Sel(pending, y => HomeIs(y, l, now)) == []
  {
    forall y | y in pending
      ensures !HomeIs(y, l, now)
    {
      if InReach(y) {
        NotBefore(now, x, y, v, l);
      }
    }
    SelNone(pending, y => HomeIs(y, l, now));
  }

  lemma AllArrive(now: nat, pending: seq<Item>, v: Loc, l: Loc)
    requires Visited(now + 1) == Slot(v) && Sel(pending, x => HomeIs(x, l, now)) == []
    requires forall x | x in pending && InReach(x) ::
      Visited(now + 1) != Slot(Home(x.due, now)) <==> Home(x.due, now + 1) == Home(x.due, now)
    ensures Sel(pending, x => HomeIs(x, v, now) && HomeIs(x, l, now + 1)) == Sel(pending, x => HomeIs(x, l, now + 1))
  {
    forall x | x in pending
      ensures !HomeIs(x, l, now)
    {
      SelMember(pending, y => HomeIs(y, l, now), x);
    }
    SelAgree(pending, y => HomeIs(y, v, now) && HomeIs(y, l, now + 1), y => HomeIs(y, l, now + 1));
  }

  /** Either nothing was in `l` before or nothing arrives there, so insertion order survives. */
  lemma MergedAt(now: nat, pending: seq<Item>, v: Loc, l: Loc)
    requires Visited(now + 1) == Slot(v) && l != v && Awaited(pending, now)
    requires forall x | x in pending && InReach(x) :: x.due != now
    requires forall x | x in pending && InReach(x) ::
      Visited(now + 1) != Slot(Home(x.due, now)) <==> Home(x.due, now + 1) == Home(x.due, now)
    ensures Sel(pending, x => HomeIs(x, l, now)) + Sel(pending, x => HomeIs(x, v, now) && HomeIs(x, l, now + 1))
         == Sel(pending, x => HomeIs(x, l, now + 1))
  {
    if exists x :: x in pending && HomeIs(x, v, now) && HomeIs(x, l, now + 1) {
      var x :| x in pending && HomeIs(x, v, now) && HomeIs(x, l, now + 1);
      NoneBefore(now, pending, x, v, l);
      AllArrive(now, pending, v, l);
    } else {
      SelNone(pending, y => HomeIs(y, v, now) && HomeIs(y, l, now + 1));
      SelAgree(pending, y => HomeIs(y, l, now), y => HomeIs(y, l, now + 1));
    }
  }

  /** The slot under the clock holds exactly what is due, in insertion order. */
  lemma TakeDue(s: Slots, now: nat, pending: seq<Item>)
    requires Total(s) && Files(s, now, pending) && Awaited(pending, now)
    ensures Sel(s[Near(now % NEAR)], InReach) == Sel(pending, x => InReach(x) && x.due == now)
  {
    var near := Near(now % NEAR);
    forall x | x in pending && InReach(x)
      ensures Home(x.due, now) == near <==> x.due == now
    {
      UnderClock(x.due, now);
    }
    SelAgree(pending, x => HomeIs(x, near, now), x => InReach(x) && x.due == now);
  }

  /** Taking that slot removes from the plain list exactly what is due. */
  lemma TakeFiles(s: Slots, now: nat, pending: seq<Item>, rest: seq<Item>)
    requires Total(s) && Files(s, now, pending) && Awaited(pending, now)
    requires Sel(rest, InReach) == Sel(pending, x => InReach(x) && x.due != now)
    ensures Files(s[Near(now % NEAR) := []], now, rest)
  {
    forall x | x in pending && InReach(x)
      ensures Home(x.due, now) == Near(now % NEAR) <==> x.due == now
    {
      UnderClock(x.due, now);
    }
    forall l | ValidLoc(l)
      ensures Sel(s[Near(now % NEAR) := []][l], InReach) == Sel(rest, x => HomeIs(x, l, now))
    {
      TakeFilesAt(s, now, pending, rest, l);
    }
  }

  lemma TakeFilesAt(s: Slots, now: nat, pending: seq<Item>, rest: seq<Item>, l: Loc)
    requires Total(s) && Files(s, now, pending) && ValidLoc(l)
    requires Sel(rest, InReach) == Sel(pending, x => InReach(x) && x.due != now)
    requires forall x | x in pending && InReach(x) :: Home(x.due, now) == Near(now % NEAR) <==> x.due == now
    ensures Sel(if l == Near(now % NEAR) then [] else s[l], InReach) == Sel(rest, x => HomeIs(x, l, now))
  {
    SelSel(rest, InReach, x => HomeIs(x, l, now), x => HomeIs(x, l, now));
    if l == Near(now % NEAR) {
      SelSel(pending, x => InReach(x) && x.due != now, x => HomeIs(x, l, now), x => false);
      SelNone(pending, x => false);
    } else {
      SelSel(pending, x => InReach(x) && x.due != now, x => HomeIs(x, l, now), x => HomeIs(x, l, now));
    }
  }

  // ----- nothing is lost or duplicated

  /** The slots in a fixed order: the near ring, then the four coarse rings. */
  function LocOf(k: nat): (l: Loc)
    requires k < 512
    ensures ValidLoc(l)
  {
    if k < NEAR then Near(k)
    else if k < NEAR + LEVEL then Far(0, k - NEAR)
    else if k < NEAR + 2 * LEVEL then Far(1, k - NEAR - LEVEL)
    else if k < NEAR + 3 * LEVEL then Far(2, k - NEAR - 2 * LEVEL)
    else Far(3, k - NEAR - 3 * LEVEL)
  }

  function IndexOf(l: Loc): (k: nat)
    requires ValidLoc(l)
    ensures k < 512 && LocOf(k) == l
    ensures forall j: nat | j < 512 && LocOf(j) == l :: j == k
  {
    match l
    case Near(i) => i
    case Far(r, i) => NEAR + r * LEVEL + i
  }

  /** Everything filed in the first `k` slots. */
  ghost function Held(s: Slots, k: nat): multiset<Item>
    requires Total(s) && k <= 512
  {
    if k == 0 then multiset{} else Held(s, k - 1) + multiset(s[LocOf(k - 1)])
  }

  ghost function All(s: Slots): multiset<Item>
    requires Total(s)
  {
    Held(s, 512)
  }

  lemma {:induction false} HeldOutside(s: Slots, l: Loc, xs: seq<Item>, k: nat)
    requires Total(s) && ValidLoc(l) && k <= IndexOf(l)
    ensures Held(s[l := xs], k) == Held(s, k)
  {
    if k > 0 {
      HeldOutside(s, l, xs, k - 1);
      assert LocOf(k - 1) != l;
    }
  }

  lemma {:induction false} HeldUpdate(s: Slots, l: Loc, xs: seq<Item>, k: nat, x: Item)
    requires Total(s) && ValidLoc(l) && IndexOf(l) < k <= 512
    ensures Held(s[l := xs], k)[x] + multiset(s[l])[x] == Held(s, k)[x] + multiset(xs)[x]
  {
    if IndexOf(l) == k - 1 {
      HeldOutside(s, l, xs, k - 1);
      assert LocOf(k - 1) == l;
    } else {
      HeldUpdate(s, l, xs, k - 1, x);
      assert LocOf(k - 1) != l;
    }
  }

  lemma PutHolds(s: Slots, x: Item, ct: u32)
    requires Total(s)
    ensures All(Put(s, x, ct)) == All(s) + multiset{x}
  {
    var l := Home(x.due % WRAP, ct);
    forall y
      ensures All(Put(s, x, ct))[y] == (All(s) + multiset{x})[y]
    {
      HeldUpdate(s, l, s[l] + [x], 512, y);
    }
  }

  lemma TakeHolds(s: Slots, l: Loc)
    requires Total(s) && ValidLoc(l)
    ensures All(s[l := []]) + multiset(s[l]) == All(s)
  {
    forall x
      ensures (All(s[l := []]) + multiset(s[l]))[x] == All(s)[x]
    {
      HeldUpdate(s, l, [], 512, x);
    }
  }

  lemma {:induction false} PutAllHolds(s: Slots, xs: seq<Item>, ct: u32)
    requires Total(s)
    ensures All(PutAll(s, xs, ct)) == All(s) + multiset(xs)
  {
    if xs != [] {
      assert xs == [xs[0]] + xs[1..];
      PutHolds(s, xs[0], ct);
      PutAllHolds(Put(s, xs[0], ct), xs[1..], ct);
    }
  }

  /** `timer_shift` conserves the pending multiset. */
  lemma ShiftHolds(s: Slots, ct: u32)
    requires Total(s)
    ensures All(ShiftSlots(s, ct)) == All(s)
  {
    match Visited(ct)
    case Nothing =>
    case Slot(l) =>
      TakeHolds(s, l);
      PutAllHolds(s[l := []], s[l], ct);
  }

  lemma {:induction false} HeldSome(s: Slots, k: nat, x: Item) returns (l: Loc)
    requires Total(s) && k <= 512 && x in Held(s, k)
    ensures ValidLoc(l) && x in s[l]
  {
    if x in s[LocOf(k - 1)] {
      l := LocOf(k - 1);
    } else {
      l := HeldSome(s, k - 1, x);
    }
  }

  lemma HeldIn(s: Slots, l: Loc)
    requires Total(s) && ValidLoc(l)
    ensures multiset(s[l]) <= All(s)
  {
    TakeHolds(s, l);
  }
}
