/** Coroutines and sessions of one service, as the message dispatcher drives them.

  A coroutine that calls, sleeps or waits gives its session to the dispatcher and yields; a reply
  to that session, or a wakeup of its token, resumes it. The tables are those of the dispatcher:
  `marks` maps a session to its coroutine or to the mark left by a wakeup, `sleeping` maps a token
  to the session it sleeps on. */
module SessionRun {
  import opened Seqs

  type Session = nat
  type Token = nat
  type Co = nat

  /** Why a coroutine waits for its session. `Start`: it was created by `timeout` and has not begun. */
  datatype Reason = Calls | Sleeps(token: Token) | Waits(token: Token) | Start {
    predicate Holds(t: Token) {
      (Sleeps? || Waits?) && token == t
    }
  }

  datatype Status = Active | Awaits(session: Session, why: Reason) | Forked | Pooled | Dead

  datatype Mark = Owner(co: Co) | Break

  /** What the dispatcher is doing: nothing, running a coroutine, looking through the wakeup queue
      after a coroutine yielded, or looking through the fork queue. */
  datatype Mode = Idle | Runs(co: Co) | Waking | Forking

  /** `resumed` records the sessions on whose account a coroutine was resumed; `asked` are the sessions whose
      reply is still to come, from a timer or from the service that was called. */
  datatype State = State(
    mode: Mode, marks: map<Session, Mark>, sleeping: map<Token, Session>, wakeups: seq<Token>, forks: seq<Co>,
    status: map<Co, Status>, next: Session, resumed: seq<Session>, asked: set<Session>)

  datatype Step =
    | Response(s: Session)
    | Request(co: Co)
    | Call
    | Sleep(token: Token)
    | Wait(token: Token)
    | Timeout(co: Co)
    | Fork(co: Co)
    | Wakeup(token: Token)
    | Finish
    | Fail
    | WakeNext
    | ForkNext

  const FIRST_SESSION: Session := 10

  const INIT := State(Idle, map[], map[], [], [], map[], FIRST_SESSION, [], {})

  /** A new coroutine, or one that finished and went back to the pool. */
  predicate CanCreate(st: State, c: Co) {
    c in st.status ==> st.status[c].Pooled?
  }

  predicate Enabled(st: State, step: Step) {
    match step
    case Response(s) => st.mode.Idle? && s in st.asked
    case Request(c) => st.mode.Idle? && CanCreate(st, c)
    case Timeout(c) => st.mode.Runs? && CanCreate(st, c)
    case Fork(c) => st.mode.Runs? && CanCreate(st, c)
    case WakeNext => st.mode.Waking?
    case ForkNext => st.mode.Forking?
    case _ => st.mode.Runs?
  }

  /** A new session, handed to coroutine `c`. That of `wait` is only counted: nobody will reply to it. */
  function Open(st: State, c: Co, why: Reason): State {
    st.(marks := st.marks[st.next := Owner(c)], next := st.next + 1,
        asked := if why.Waits? then st.asked else st.asked + {st.next})
  }

  /** The coroutine waits for the new session. */
  function Await(st: State, c: Co, why: Reason): State {
    Open(st, c, why).(status := st.status[c := Awaits(st.next, why)])
  }

  /** `suspend_sleep`: the session is handed over before the token is found to be taken, which raises
      an error in the coroutine; the coroutine may catch it and go on. */
  function SleepOn(st: State, c: Co, why: Reason): State
    requires why.Sleeps? || why.Waits?
  {
    if why.token in st.sleeping then Open(st, c, why)
    else Await(st, c, why).(sleeping := st.sleeping[why.token := st.next], mode := Waking)
  }

  /** Resumes `c` for session `s`. What it does first is to clear the token it slept on, and after
      `wait` also the mark of the session it waited for. */
  function Resume(st: State, c: Co, s: Session): State {
    if c in st.status && st.status[c].Awaits? then
      var why := st.status[c].why;
      st.(mode := Runs(c), status := st.status[c := Active], resumed := st.resumed + [s],
          sleeping := if why.Sleeps? || why.Waits? then st.sleeping - {why.token} else st.sleeping,
          marks := if why.Waits? then st.marks - {st.status[c].session} else st.marks)
    else
      st.(mode := Forking)
  }

  /** The branch of `raw_dispatch_message` for a reply. */
  function ApplyReply(st: State, s: Session): State {
    if s !in st.marks then st.(mode := Forking)
    else if st.marks[s].Break? then st.(mode := Forking, marks := st.marks - {s})
    else Resume(st.(marks := st.marks - {s}), st.marks[s].co, s)
  }

  function Apply(st: State, step: Step): State
    requires Enabled(st, step)
  {
    match step
    case Response(s) => ApplyReply(st.(asked := st.asked - {s}), s)
    case Request(c) => st.(mode := Runs(c), status := st.status[c := Active])
    case Call => Await(st, st.mode.co, Calls).(mode := Waking)
    case Sleep(t) => SleepOn(st, st.mode.co, Sleeps(t))
    case Wait(t) => SleepOn(st, st.mode.co, Waits(t))
    case Timeout(c) => Await(st, c, Start)
    case Fork(c) => st.(status := st.status[c := Forked], forks := st.forks + [c])
    case Wakeup(t) => if t in st.sleeping then st.(wakeups := st.wakeups + [t]) else st
    case Finish => st.(mode := Waking, status := st.status[st.mode.co := Pooled])
    case Fail => st.(mode := Forking, status := st.status[st.mode.co := Dead])
    case WakeNext => ApplyWake(st)
    case ForkNext =>
      if st.forks == [] then st.(mode := Idle)
      else st.(mode := Runs(st.forks[0]), forks := st.forks[1..], status := st.status[st.forks[0] := Active])
  }

  /** One round of the loop of `dispatch_wakeup`. */
  function ApplyWake(st: State): State {
    if st.wakeups == [] then st.(mode := Forking)
    else
      var t := st.wakeups[0];
      var rest := st.(wakeups := st.wakeups[1..]);
      if t !in st.sleeping then rest
      else
        var s := st.sleeping[t];
        if s in st.marks && st.marks[s].Owner? then
          Resume(rest.(marks := st.marks[s := Break]), st.marks[s].co, s)
        else
          rest.(mode := Forking)
  }

  function Next(st: State, step: Step): State {
    if Enabled(st, step) then Apply(st, step) else st
  }

  // ----- the invariant

  ghost predicate MarksOk(st: State) {
    forall s | s in st.marks :: s < st.next && MarkOk(st, s, st.marks[s])
  }

  /** An owner waits for its session, or nobody will reply to it; the mark of a wakeup waits for the reply. */
  ghost predicate MarkOk(st: State, s: Session, m: Mark) {
    match m
    case Owner(c) => s !in st.asked || (c in st.status && st.status[c].Awaits? && st.status[c].session == s)
    case Break => s in st.resumed && s in st.asked
  }

  ghost predicate AskedOk(st: State) {
    forall s | s in st.asked :: s in st.marks
  }

  ghost predicate AwaitsOk(st: State) {
    forall c | c in st.status && st.status[c].Awaits? :: AwaitOk(st, c, st.status[c].session, st.status[c].why)
  }

  ghost predicate AwaitOk(st: State, c: Co, s: Session, why: Reason) {
    && s in st.marks && st.marks[s] == Owner(c) && s !in st.resumed && (s in st.asked <==> !why.Waits?)
    && (why.Sleeps? || why.Waits? ==> why.token in st.sleeping && st.sleeping[why.token] == s)
  }

  ghost predicate SleepsOk(st: State) {
    forall t | t in st.sleeping :: SleepOk(st, t, st.sleeping[t])
  }

  ghost predicate SleepOk(st: State, t: Token, s: Session) {
    && s in st.marks && st.marks[s].Owner? && st.marks[s].co in st.status
    && st.status[st.marks[s].co].Awaits? && st.status[st.marks[s].co].session == s
    && st.status[st.marks[s].co].why.Holds(t)
  }

  ghost predicate ForksOk(st: State) {
    && (forall i | 0 <= i < |st.forks| :: st.forks[i] in st.status && st.status[st.forks[i]].Forked?)
    && (forall i, j | 0 <= i < j < |st.forks| :: st.forks[i] != st.forks[j])
  }

  ghost predicate ActiveOk(st: State) {
    && (st.mode.Runs? ==> st.mode.co in st.status && st.status[st.mode.co].Active?)
    && (forall c | c in st.status && st.status[c].Active? :: st.mode == Runs(c))
  }

  ghost predicate ResumedOk(st: State) {
    && (forall i | 0 <= i < |st.resumed| :: st.resumed[i] < st.next)
    && (forall i, j | 0 <= i < j < |st.resumed| :: st.resumed[i] != st.resumed[j])
  }

  /** Between messages no fork is left. */
  ghost predicate DrainedOk(st: State) {
    st.mode.Idle? ==> st.forks == []
  }

  ghost predicate Inv(st: State) {
    && MarksOk(st) && AskedOk(st) && AwaitsOk(st) && SleepsOk(st) && ForksOk(st) && ActiveOk(st) && ResumedOk(st)
    && DrainedOk(st)
  }

  /** The step is not a `sleep` on a token that somebody sleeps on. */
  predicate TokenFree(st: State, step: Step) {
    Enabled(st, step) && step.Sleep? ==> step.token !in st.sleeping
  }

  lemma TimeoutInv(st: State, c: Co)
    requires Inv(st) && CanCreate(st, c) && st.mode.Runs?
    ensures Inv(Apply(st, Timeout(c)))
  {
  }

  lemma CallInv(st: State)
    requires Inv(st) && st.mode.Runs?
    ensures Inv(Apply(st, Call))
  {
  }

  lemma SleepMarks(st: State, c: Co, why: Reason)
    requires Inv(st) && st.mode == Runs(c) && (why.Sleeps? || why.Waits?) && why.token !in st.sleeping
    ensures MarksOk(SleepOn(st, c, why)) && AskedOk(SleepOn(st, c, why)) && AwaitsOk(SleepOn(st, c, why))
  {
    var n := SleepOn(st, c, why);
    forall s | s in n.marks ensures s < n.next && MarkOk(n, s, n.marks[s]) {
      assert s in st.marks ==> MarkOk(st, s, st.marks[s]);
    }
    forall d | d in n.status && n.status[d].Awaits? ensures AwaitOk(n, d, n.status[d].session, n.status[d].why) {
      if d != c {
        assert AwaitOk(st, d, st.status[d].session, st.status[d].why);
        assert MarkOk(st, st.status[d].session, st.marks[st.status[d].session]);
      }
    }
  }

  lemma SleepSleeps(st: State, c: Co, why: Reason)
    requires Inv(st) && st.mode == Runs(c) && (why.Sleeps? || why.Waits?) && why.token !in st.sleeping
    ensures SleepsOk(SleepOn(st, c, why))
  {
    var n := SleepOn(st, c, why);
    forall t | t in n.sleeping ensures SleepOk(n, t, n.sleeping[t]) {
      if t != why.token {
        assert SleepOk(st, t, st.sleeping[t]);
        assert MarkOk(st, st.sleeping[t], st.marks[st.sleeping[t]]);
      }
    }
  }

  lemma SleepInv(st: State, c: Co, why: Reason)
    requires Inv(st) && st.mode == Runs(c) && (why.Sleeps? || why.Waits?) && why.token !in st.sleeping
    ensures Inv(SleepOn(st, c, why))
  {
    SleepMarks(st, c, why);
    SleepSleeps(st, c, why);
  }

  /** A `wait` on a taken token leaves an owner that nobody will reply to. */
  lemma WaitClashInv(st: State, why: Reason)
    requires Inv(st) && st.mode.Runs? && why.Waits? && why.token in st.sleeping
    ensures Inv(Open(st, st.mode.co, why))
  {
    var n := Open(st, st.mode.co, why);
    forall s | s in n.marks ensures s < n.next && MarkOk(n, s, n.marks[s]) {
      assert s in st.marks ==> MarkOk(st, s, st.marks[s]);
    }
    forall d | d in n.status && n.status[d].Awaits? ensures AwaitOk(n, d, n.status[d].session, n.status[d].why) {
      assert AwaitOk(st, d, st.status[d].session, st.status[d].why);
      assert MarkOk(st, st.status[d].session, st.marks[st.status[d].session]);
    }
    forall t | t in n.sleeping ensures SleepOk(n, t, n.sleeping[t]) {
      assert SleepOk(st, t, st.sleeping[t]);
      assert MarkOk(st, st.sleeping[t], st.marks[st.sleeping[t]]);
    }
  }

  /** What resuming the owner of session `s` makes of the tables: a wakeup leaves its mark unless the
      coroutine came from `wait`. */
  ghost function Woken(st: State, s: Session, c: Co, why: Reason, marked: bool): State {
    st.(mode := Runs(c), status := st.status[c := Active], resumed := st.resumed + [s],
        sleeping := if why.Sleeps? || why.Waits? then st.sleeping - {why.token} else st.sleeping,
        marks := if marked then st.marks[s := Break] else st.marks - {s},
        asked := if marked then st.asked else st.asked - {s})
  }

  ghost predicate Owned(st: State, s: Session, c: Co, why: Reason) {
    && Inv(st) && (st.mode.Idle? || st.mode.Waking?)
    && s in st.marks && st.marks[s] == Owner(c) && c in st.status && st.status[c] == Awaits(s, why)
  }

  lemma WokenMarks(st: State, s: Session, c: Co, why: Reason, marked: bool)
    requires Owned(st, s, c, why) && (marked ==> !why.Waits?)
    ensures MarksOk(Woken(st, s, c, why, marked)) && AskedOk(Woken(st, s, c, why, marked))
  {
    var n := Woken(st, s, c, why, marked);
    assert n.resumed[|st.resumed|] == s;
    assert AwaitOk(st, c, s, why);
    forall u | u in n.marks ensures u < n.next && MarkOk(n, u, n.marks[u]) {
      assert u != s ==> MarkOk(st, u, st.marks[u]);
    }
  }

  lemma WokenAwaits(st: State, s: Session, c: Co, why: Reason, marked: bool)
    requires Owned(st, s, c, why)
    ensures AwaitsOk(Woken(st, s, c, why, marked))
  {
    var n := Woken(st, s, c, why, marked);
    assert AwaitOk(st, c, s, why);
    forall d | d in n.status && n.status[d].Awaits? ensures AwaitOk(n, d, n.status[d].session, n.status[d].why) {
      assert AwaitOk(st, d, st.status[d].session, st.status[d].why);
    }
  }

  lemma WokenSleeps(st: State, s: Session, c: Co, why: Reason, marked: bool)
    requires Owned(st, s, c, why)
    ensures SleepsOk(Woken(st, s, c, why, marked))
  {
    var n := Woken(st, s, c, why, marked);
    forall t | t in n.sleeping ensures SleepOk(n, t, n.sleeping[t]) {
      assert SleepOk(st, t, st.sleeping[t]);
    }
  }

  lemma WokenResumed(st: State, s: Session, c: Co, why: Reason, marked: bool)
    requires Owned(st, s, c, why)
    ensures ResumedOk(Woken(st, s, c, why, marked))
  {
    assert AwaitOk(st, c, s, why);
    assert MarkOk(st, s, st.marks[s]) && s < st.next;
  }

  lemma WokenInv(st: State, s: Session, c: Co, why: Reason, marked: bool)
    requires Owned(st, s, c, why) && (marked ==> !why.Waits?)
    ensures Inv(Woken(st, s, c, why, marked))
  {
    WokenMarks(st, s, c, why, marked);
    WokenAwaits(st, s, c, why, marked);
    WokenSleeps(st, s, c, why, marked);
    WokenResumed(st, s, c, why, marked);
  }

  lemma ResponseInv(st: State, s: Session)
    requires Inv(st) && st.mode.Idle? && s in st.asked
    ensures s in st.marks && Inv(Apply(st, Response(s)))
  {
    if st.marks[s].Owner? {
      var c := st.marks[s].co;
      assert MarkOk(st, s, st.marks[s]);
      WokenInv(st, s, c, st.status[c].why, false);
      assert st.marks - {s} - {s} == st.marks - {s};
      assert Apply(st, Response(s)) == Woken(st, s, c, st.status[c].why, false);
    } else {
      SwallowInv(st, s);
    }
  }

  lemma SwallowInv(st: State, s: Session)
    requires Inv(st) && st.mode.Idle? && s in st.marks && st.marks[s].Break?
    ensures Inv(st.(mode := Forking, marks := st.marks - {s}, asked := st.asked - {s}))
  {
    var n := st.(mode := Forking, marks := st.marks - {s}, asked := st.asked - {s});
    forall u | u in n.marks ensures u < n.next && MarkOk(n, u, n.marks[u]) {
      assert MarkOk(st, u, st.marks[u]);
    }
    forall d | d in n.status && n.status[d].Awaits? ensures AwaitOk(n, d, n.status[d].session, n.status[d].why) {
      assert AwaitOk(st, d, st.status[d].session, st.status[d].why);
    }
    forall t | t in n.sleeping ensures SleepOk(n, t, n.sleeping[t]) {
      assert SleepOk(st, t, st.sleeping[t]);
    }
  }

  lemma WakeInv(st: State)
    requires Inv(st) && st.mode.Waking?
    ensures Inv(Apply(st, WakeNext))
  {
    if st.wakeups != [] {
      var rest := st.(wakeups := st.wakeups[1..]);
      RestInv(st);
      var t := st.wakeups[0];
      if t in st.sleeping {
        var s := st.sleeping[t];
        assert SleepOk(st, t, s);
        var c := st.marks[s].co;
        var why := st.status[c].why;
        assert AwaitOk(st, c, s, why);
        WokenInv(rest, s, c, why, !why.Waits?);
        assert why.Waits? ==> st.asked - {s} == st.asked;
        assert why.Waits? ==> st.marks[s := Break] - {s} == st.marks - {s};
        assert Apply(st, WakeNext) == Woken(rest, s, c, why, !why.Waits?);
      }
    } else {
      IdlingInv(st, Forking);
    }
  }

  lemma IdlingInv(st: State, mode: Mode)
    requires Inv(st) && (st.mode.Waking? || st.mode.Forking?) && (mode.Forking? || (mode.Idle? && st.forks == []))
    ensures Inv(st.(mode := mode))
  {
    var n := st.(mode := mode);
    assert forall s | s in n.marks :: MarkOk(n, s, n.marks[s]) == MarkOk(st, s, st.marks[s]);
  }

  lemma RestInv(st: State)
    requires Inv(st) && st.mode.Waking? && st.wakeups != []
    ensures Inv(st.(wakeups := st.wakeups[1..]))
  {
  }

  lemma StartInv(st: State, c: Co)
    requires Inv(st) && st.mode.Idle? && CanCreate(st, c)
    ensures Inv(Apply(st, Request(c)))
  {
  }

  lemma ForkInv(st: State, c: Co)
    requires Inv(st) && st.mode.Runs? && CanCreate(st, c)
    ensures Inv(Apply(st, Fork(c)))
  {
  }

  lemma ForkNextInv(st: State)
    requires Inv(st) && st.mode.Forking? && st.forks != []
    ensures Inv(Apply(st, ForkNext))
  {
  }

  lemma WakeupInv(st: State, t: Token)
    requires Inv(st) && st.mode.Runs?
    ensures Inv(Apply(st, Wakeup(t)))
  {
  }

  lemma EndInv(st: State, step: Step)
    requires Inv(st) && st.mode.Runs? && (step.Finish? || step.Fail?)
    ensures Inv(Apply(st, step))
  {
  }

  lemma StepInv(st: State, step: Step)
    requires Inv(st) && Enabled(st, step) && TokenFree(st, step)
    ensures Inv(Apply(st, step))
  {
    match step
    case Response(s) => ResponseInv(st, s);
    case Request(c) => StartInv(st, c);
    case Call => CallInv(st);
    case Sleep(t) => SleepInv(st, st.mode.co, Sleeps(t));
    case Wait(t) =>
      if t in st.sleeping { WaitClashInv(st, Waits(t)); } else { SleepInv(st, st.mode.co, Waits(t)); }
    case Timeout(c) => TimeoutInv(st, c);
    case Fork(c) => ForkInv(st, c);
    case Wakeup(t) => WakeupInv(st, t);
    case Finish => EndInv(st, step);
    case Fail => EndInv(st, step);
    case WakeNext => WakeInv(st);
    case ForkNext => if st.forks != [] { ForkNextInv(st); } else { IdlingInv(st, Idle); }
  }

  /** The tables stay consistent unless a `sleep` uses a taken token: the session is handed over before the
      guard of `suspend_sleep` is checked, which leaves an owner that does not wait for the timer's reply. */
  lemma StepInvIff(st: State, step: Step)
    requires Inv(st) && Enabled(st, step)
    ensures Inv(Apply(st, step)) <==> TokenFree(st, step)
  {
    if TokenFree(st, step) {
      StepInv(st, step);
    } else {
      var n := Apply(st, step);
      assert n.marks[st.next] == Owner(st.mode.co) && n.status[st.mode.co].Active?;
      assert !MarkOk(n, st.next, n.marks[st.next]);
    }
  }

  // ----- every run

  ghost function Run(st: State, steps: seq<Step>): State {
    if steps == [] then st else Next(Run(st, steps[..|steps| - 1]), steps[|steps| - 1])
  }

  /** No `sleep` of the run uses a token that somebody sleeps on. */
  ghost predicate Distinct(st: State, steps: seq<Step>) {
    steps != [] ==>
      && Distinct(st, steps[..|steps| - 1])
      && TokenFree(Run(st, steps[..|steps| - 1]), steps[|steps| - 1])
  }

  lemma {:induction false} RunInv(st: State, steps: seq<Step>)
    requires Inv(st) && Distinct(st, steps)
    ensures Inv(Run(st, steps))
  {
    if steps != [] {
      var before := steps[..|steps| - 1];
      RunInv(st, before);
      if Enabled(Run(st, before), steps[|steps| - 1]) {
        StepInv(Run(st, before), steps[|steps| - 1]);
      }
    }
  }

  lemma {:induction false} RunJoin(st: State, a: seq<Step>, b: seq<Step>)
    ensures Run(st, a + b) == Run(Run(st, a), b)
  {
    if b == [] {
      assert a + b == a;
    } else {
      assert (a + b)[..|a + b| - 1] == a + b[..|b| - 1];
      RunJoin(st, a, b[..|b| - 1]);
    }
  }

  /** In a run with distinct tokens no session resumes a coroutine twice, be it by its reply, by its
      timeout or by a wakeup. */
  lemma AtMostOnce(steps: seq<Step>, i: nat, j: nat)
    requires Distinct(INIT, steps) && i < j < |Run(INIT, steps).resumed|
    ensures Run(INIT, steps).resumed[i] != Run(INIT, steps).resumed[j]
  {
    RunInv(INIT, steps);
  }

  /** What a step resumes: nothing that waits, or exactly the coroutine that waits for session `s`. */
  ghost predicate ResumesFor(st: State, n: State, c: Co, s: Session) {
    && c in st.status && st.status[c].Awaits? && st.status[c].session == s && s !in st.resumed
    && n.status == st.status[c := Active] && n.mode == Runs(c) && n.resumed == st.resumed + [s]
  }

  ghost predicate Moves(st: State, step: Step, c: Co) {
    && c in st.status && st.status[c].Awaits?
    && (c in Next(st, step).status ==> Next(st, step).status[c] != st.status[c])
  }

  /** The step answers the session that `c` waits for, or takes its token from the wakeup queue. */
  ghost predicate Answers(st: State, step: Step, c: Co)
    requires c in st.status && st.status[c].Awaits?
  {
    match step
    case Response(s) => s == st.status[c].session
    case WakeNext => st.wakeups != [] && st.status[c].why.Holds(st.wakeups[0])
    case _ => false
  }

  lemma ReplyMoves(st: State, s: Session, c: Co)
    requires Inv(st) && Moves(st, Response(s), c)
    ensures ResumesFor(st, Next(st, Response(s)), c, st.status[c].session) && Answers(st, Response(s), c)
  {
    assert AwaitOk(st, c, st.status[c].session, st.status[c].why);
    assert MarkOk(st, s, st.marks[s]);
  }

  lemma WakeMoves(st: State, c: Co)
    requires Inv(st) && Moves(st, WakeNext, c)
    ensures ResumesFor(st, Next(st, WakeNext), c, st.status[c].session) && Answers(st, WakeNext, c)
  {
    assert AwaitOk(st, c, st.status[c].session, st.status[c].why);
    assert SleepOk(st, st.wakeups[0], st.sleeping[st.wakeups[0]]);
  }

  /** Whoever goes on by the step goes on because its own session is answered or its own token is woken,
      and on account of that session. */
  ghost predicate Orderly(st: State, step: Step) {
    forall c | Moves(st, step, c) ::
      ResumesFor(st, Next(st, step), c, st.status[c].session) && Answers(st, step, c)
  }

  lemma InvOrderly(st: State, step: Step)
    requires Inv(st)
    ensures Orderly(st, step)
  {
    forall c | Moves(st, step, c)
      ensures ResumesFor(st, Next(st, step), c, st.status[c].session) && Answers(st, step, c)
    {
      if step.Response? {
        ReplyMoves(st, step.s, c);
      } else if step.WakeNext? {
        WakeMoves(st, c);
      }
    }
  }

  lemma AnsweredMoves(st: State, step: Step, c: Co)
    requires Inv(st) && Enabled(st, step) && c in st.status && st.status[c].Awaits? && Answers(st, step, c)
    ensures Moves(st, step, c)
  {
    assert AwaitOk(st, c, st.status[c].session, st.status[c].why);
    if step.Response? {
      assert MarkOk(st, step.s, st.marks[step.s]);
    }
  }

  /** In a run with distinct tokens a reply to the session that a coroutine waits for, and a wakeup that comes
      to the front of the queue while a coroutine sleeps on its token, does resume that coroutine. */
  lemma AnswerResumes(steps: seq<Step>, step: Step, c: Co)
    requires Distinct(INIT, steps) && Enabled(Run(INIT, steps), step)
    requires c in Run(INIT, steps).status && Run(INIT, steps).status[c].Awaits? && Answers(Run(INIT, steps), step, c)
    ensures ResumesFor(Run(INIT, steps), Run(INIT, steps + [step]), c, Run(INIT, steps).status[c].session)
  {
    var st := Run(INIT, steps);
    RunInv(INIT, steps);
    RunOne(INIT, steps, step);
    AnsweredMoves(st, step, c);
    InvOrderly(st, step);
  }

  /** Who waits can be answered: the reply is still to come, unless it is a `wait`, and a wakeup of the token it
      sleeps on is put into the queue. */
  lemma WaiterReachable(steps: seq<Step>, c: Co, t: Token)
    requires Distinct(INIT, steps) && c in Run(INIT, steps).status && Run(INIT, steps).status[c].Awaits?
    ensures var st := Run(INIT, steps);
      && (st.mode.Idle? && !st.status[c].why.Waits? ==> Enabled(st, Response(st.status[c].session)))
      && (st.mode.Runs? && st.status[c].why.Holds(t) ==> Next(st, Wakeup(t)).wakeups == st.wakeups + [t])
  {
    var st := Run(INIT, steps);
    RunInv(INIT, steps);
    assert AwaitOk(st, c, st.status[c].session, st.status[c].why);
  }

  lemma RunOne(st: State, steps: seq<Step>, step: Step)
    ensures Run(st, steps + [step]) == Next(Run(st, steps), step)
  {
    assert (steps + [step])[..|steps|] == steps;
  }

  /** In a run with distinct tokens a coroutine that waits goes on only when the session it waits for is
      answered or its token is woken. */
  lemma ResumesOwner(steps: seq<Step>, step: Step)
    requires Distinct(INIT, steps)
    ensures Orderly(Run(INIT, steps), step)
  {
    RunInv(INIT, steps);
    InvOrderly(Run(INIT, steps), step);
  }

  /** Whatever sleeps is a suspended coroutine, which the dispatcher can resume. */
  lemma SleepersSuspended(steps: seq<Step>, t: Token)
    requires Distinct(INIT, steps) && t in Run(INIT, steps).sleeping
    ensures var st := Run(INIT, steps);
            var s := st.sleeping[t];
            && s in st.marks && st.marks[s].Owner? && st.marks[s].co in st.status
            && (st.status[st.marks[s].co] == Awaits(s, Sleeps(t)) || st.status[st.marks[s].co] == Awaits(s, Waits(t)))
  {
    RunInv(INIT, steps);
    assert SleepOk(Run(INIT, steps), t, Run(INIT, steps).sleeping[t]);
  }

  // ----- the two queues

  /** What the step puts behind the wakeup queue: the token of a wakeup that finds somebody asleep on it. */
  ghost function Queued(st: State, step: Step): seq<Token> {
    if Enabled(st, step) && step.Wakeup? && step.token in st.sleeping then [step.token] else []
  }

  ghost function QueuedIn(st: State, steps: seq<Step>): seq<Token> {
    if steps == [] then []
    else QueuedIn(st, steps[..|steps| - 1]) + Queued(Run(st, steps[..|steps| - 1]), steps[|steps| - 1])
  }

  /** How many wakeups the dispatcher has looked at. */
  ghost function LookedAt(st: State, steps: seq<Step>): nat {
    if steps == [] then 0
    else
      var before := Run(st, steps[..|steps| - 1]);
      LookedAt(st, steps[..|steps| - 1])
      + if Enabled(before, steps[|steps| - 1]) && steps[|steps| - 1].WakeNext? && before.wakeups != [] then 1 else 0
  }

  lemma WakeupQueue(st: State, step: Step)
    ensures var took := if Enabled(st, step) && step.WakeNext? && st.wakeups != [] then 1 else 0;
            took <= |st.wakeups| && Next(st, step).wakeups == st.wakeups[took..] + Queued(st, step)
  {
  }

  /** In every run the wakeup queue holds the wakeups but the first ones, of which there are as many as were
      looked at. */
  lemma {:induction false} WakeupsInOrder(steps: seq<Step>)
    ensures LookedAt(INIT, steps) <= |QueuedIn(INIT, steps)|
    ensures Run(INIT, steps).wakeups == QueuedIn(INIT, steps)[LookedAt(INIT, steps)..]
  {
    if steps != [] {
      var before, last := steps[..|steps| - 1], steps[|steps| - 1];
      WakeupsInOrder(before);
      WakeupQueue(Run(INIT, before), last);
      DropAppend(QueuedIn(INIT, before), LookedAt(INIT, before), LookedAt(INIT, steps),
                 Queued(Run(INIT, before), last));
    }
  }

  lemma DropAppend<T>(q: seq<T>, i: nat, j: nat, more: seq<T>)
    requires i <= j <= |q|
    ensures q[i..][j - i..] + more == (q + more)[j..]
  {
  }

  /** What the step puts behind the fork queue. */
  ghost function ForkedBy(st: State, step: Step): seq<Co> {
    if Enabled(st, step) && step.Fork? then [step.co] else []
  }

  ghost function ForkedIn(st: State, steps: seq<Step>): seq<Co> {
    if steps == [] then []
    else ForkedIn(st, steps[..|steps| - 1]) + ForkedBy(Run(st, steps[..|steps| - 1]), steps[|steps| - 1])
  }

  /** Who runs after the step because the dispatcher found somebody in the fork queue. */
  ghost function Begun(st: State, step: Step): seq<Co> {
    if Enabled(st, step) && step.ForkNext? && st.forks != [] && Next(st, step).mode.Runs? then [Next(st, step).mode.co]
    else []
  }

  ghost function BegunIn(st: State, steps: seq<Step>): seq<Co> {
    if steps == [] then []
    else BegunIn(st, steps[..|steps| - 1]) + Begun(Run(st, steps[..|steps| - 1]), steps[|steps| - 1])
  }

  lemma ForkQueue(st: State, step: Step)
    ensures Begun(st, step) + Next(st, step).forks == st.forks + ForkedBy(st, step)
  {
  }

  /** In every run the forked functions are begun in the order they were forked: those that have run are the
      first ones, those in the queue the others. */
  lemma {:induction false} ForksInOrder(steps: seq<Step>)
    ensures BegunIn(INIT, steps) + Run(INIT, steps).forks == ForkedIn(INIT, steps)
  {
    if steps != [] {
      var before, last := steps[..|steps| - 1], steps[|steps| - 1];
      ForksInOrder(before);
      ForkQueue(Run(INIT, before), last);
      Assoc(BegunIn(INIT, before), Begun(Run(INIT, before), last), Run(INIT, steps).forks);
      Assoc(BegunIn(INIT, before), Run(INIT, before).forks, ForkedBy(Run(INIT, before), last));
    }
  }

  // ----- what becomes of each coroutine

  /** `c` begins its function: for a request, or because it is next in the fork queue. */
  ghost predicate Begins(st: State, step: Step, c: Co) {
    step == Request(c) || (step.ForkNext? && st.forks != [] && st.forks[0] == c)
  }

  /** Why the running coroutine waits after the step, if it does. */
  ghost function Asks(st: State, step: Step): seq<Reason> {
    match step
    case Call => [Calls]
    case Sleep(t) => if t in st.sleeping then [] else [Sleeps(t)]
    case Wait(t) => if t in st.sleeping then [] else [Waits(t)]
    case _ => []
  }

  /** A coroutine that is not in the table has not been created. */
  function StatusOf(st: State, c: Co): Status {
    if c in st.status then st.status[c] else Pooled
  }

  /** What coroutine `c` does after the step. */
  ghost function Turned(st: State, step: Step, c: Co): Status {
    if Begins(st, step, c) || (StatusOf(st, c).Awaits? && Answers(st, step, c)) then Active
    else if step == Timeout(c) then Awaits(st.next, Start)
    else if step == Fork(c) then Forked
    else if st.mode != Runs(c) then StatusOf(st, c)
    else if Asks(st, step) != [] then Awaits(st.next, Asks(st, step)[0])
    else if step.Finish? then Pooled
    else if step.Fail? then Dead
    else StatusOf(st, c)
  }

  /** In every run with distinct tokens a step does to each coroutine what it is for and to the others nothing,
      and the session it may wait for is new. */
  lemma EachTurns(steps: seq<Step>, step: Step, c: Co)
    requires Distinct(INIT, steps + [step]) && Enabled(Run(INIT, steps), step)
    ensures StatusOf(Run(INIT, steps + [step]), c) == Turned(Run(INIT, steps), step, c)
    ensures StatusOf(Run(INIT, steps), c).Awaits? ==> StatusOf(Run(INIT, steps), c).session < Run(INIT, steps).next
  {
    var st := Run(INIT, steps);
    assert (steps + [step])[..|steps|] == steps;
    RunInv(INIT, steps);
    RunOne(INIT, steps, step);
    StepTurns(st, step, c);
    if StatusOf(st, c).Awaits? {
      assert AwaitOk(st, c, st.status[c].session, st.status[c].why);
    }
  }

  lemma StepTurns(st: State, step: Step, c: Co)
    requires Inv(st) && Enabled(st, step) && TokenFree(st, step)
    ensures StatusOf(Next(st, step), c) == Turned(st, step, c)
  {
    if StatusOf(st, c).Awaits? {
      WaiterTurns(st, step, c);
    } else if step.Response? {
      assert step.s in st.marks ==> MarkOk(st, step.s, st.marks[step.s]);
    } else if step.WakeNext? {
      if st.wakeups != [] && st.wakeups[0] in st.sleeping {
        assert SleepOk(st, st.wakeups[0], st.sleeping[st.wakeups[0]]);
      }
    } else {
      OtherTurns(st, step, c);
    }
  }

  lemma WaiterTurns(st: State, step: Step, c: Co)
    requires Inv(st) && Enabled(st, step) && TokenFree(st, step) && c in st.status && st.status[c].Awaits?
    ensures StatusOf(Next(st, step), c) == Turned(st, step, c)
  {
    assert AwaitOk(st, c, st.status[c].session, st.status[c].why);
    if Answers(st, step, c) {
      AnsweredMoves(st, step, c);
    }
    InvOrderly(st, step);
  }

  lemma OtherTurns(st: State, step: Step, c: Co)
    requires Inv(st) && Enabled(st, step) && TokenFree(st, step) && !StatusOf(st, c).Awaits?
    requires !step.Response? && !step.WakeNext?
    ensures StatusOf(Next(st, step), c) == Turned(st, step, c)
  {
    if step.Call? || step.Sleep? || step.Wait? {
      AskerTurns(st, step, c);
    }
  }

  lemma AskerTurns(st: State, step: Step, c: Co)
    requires Enabled(st, step) && TokenFree(st, step) && (step.Call? || step.Sleep? || step.Wait?)
    ensures StatusOf(Next(st, step), c) == Turned(st, step, c)
  {
  }

  // ----- wakeups that are left undelivered

  /** The step ends the turn of the running coroutine, which yields or finishes: the dispatcher looks
      through the wakeup queue. */
  ghost predicate Yields(st: State, step: Step) {
    Enabled(st, step) && st.mode.Runs? && Next(st, step).mode.Waking?
  }

  /** The last coroutine of the run that ended its turn failed, and left wakeups behind. */
  ghost predicate FailedLast(steps: seq<Step>) {
    steps != [] &&
      var before := Run(INIT, steps[..|steps| - 1]);
      var step := steps[|steps| - 1];
      if Enabled(before, step) && step.Fail? then before.wakeups != []
      else !Yields(before, step) && FailedLast(steps[..|steps| - 1])
  }

  /** When no coroutine runs, `failed` tells whether wakeups are left. */
  ghost predicate LeftIff(st: State, failed: bool) {
    && (st.mode.Idle? || st.mode.Forking? ==> (st.wakeups != [] <==> failed))
    && (st.mode.Waking? ==> !failed)
  }

  lemma LeftStep(st: State, step: Step, failed: bool)
    requires Inv(st) && LeftIff(st, failed)
    ensures LeftIff(Next(st, step), if Enabled(st, step) && step.Fail? then st.wakeups != []
                                    else !Yields(st, step) && failed)
  {
    if Enabled(st, step) {
      if step.WakeNext? && st.wakeups != [] && st.wakeups[0] in st.sleeping {
        assert SleepOk(st, st.wakeups[0], st.sleeping[st.wakeups[0]]);
      } else if step.Response? && step.s in st.marks {
        assert MarkOk(st, step.s, st.marks[step.s]);
      }
    }
  }

  lemma {:induction false} LeftRun(steps: seq<Step>)
    requires Distinct(INIT, steps)
    ensures LeftIff(Run(INIT, steps), FailedLast(steps))
  {
    if steps != [] {
      var before := steps[..|steps| - 1];
      LeftRun(before);
      RunInv(INIT, before);
      LeftStep(Run(INIT, before), steps[|steps| - 1], FailedLast(before));
    }
  }

  /** Between two messages nothing is left in the fork queue. A wakeup is left if and only if the last
      coroutine that ended its turn failed while wakeups were queued. */
  lemma QueuesDrained(steps: seq<Step>)
    requires Distinct(INIT, steps) && Run(INIT, steps).mode.Idle?
    ensures Run(INIT, steps).forks == []
    ensures Run(INIT, steps).wakeups != [] <==> FailedLast(steps)
  {
    RunInv(INIT, steps);
    LeftRun(steps);
  }

  /** No coroutine yields or finishes in the run. */
  ghost predicate NobodyYields(st: State, steps: seq<Step>) {
    steps != [] ==>
      && NobodyYields(st, steps[..|steps| - 1])
      && !Yields(Run(st, steps[..|steps| - 1]), steps[|steps| - 1])
  }

  /** Until some coroutine yields or finishes, no wakeup is taken from the queue. */
  lemma {:induction false} UndeliveredUntilYield(st: State, steps: seq<Step>)
    requires !st.mode.Waking? && NobodyYields(st, steps)
    ensures !Run(st, steps).mode.Waking? && st.wakeups <= Run(st, steps).wakeups
  {
    if steps != [] {
      UndeliveredUntilYield(st, steps[..|steps| - 1]);
    }
  }

  // ----- what a taken token does

  /** Ends whatever is going on: who runs fails, and the queues are emptied. */
  ghost function Settle(st: State): (steps: seq<Step>)
    ensures forall k | 0 <= k < |steps| :: steps[k].Fail? || steps[k].WakeNext? || steps[k].ForkNext?
    decreases 3 * (|st.wakeups| + |st.forks|)
              + (match st.mode case Idle => 0 case Forking => 1 case Runs(_) => 2 case Waking => 3)
  {
    match st.mode
    case Idle => []
    case Runs(_) => [Fail] + Settle(Apply(st, Fail))
    case Waking => [WakeNext] + Settle(Apply(st, WakeNext))
    case Forking => [ForkNext] + Settle(Apply(st, ForkNext))
  }

  /** `c` waits for session `u`, but session `s` would resume it as well. */
  ghost predicate Misled(st: State, c: Co, s: Session, u: Session) {
    && s != u && s in st.marks && st.marks[s] == Owner(c) && s in st.asked
    && c in st.status && st.status[c] == Awaits(u, Calls) && st.mode != Runs(c)
    && SleepsOk(st) && ForksOk(st)
    && (st.mode.Runs? ==> st.mode.co in st.status && st.status[st.mode.co].Active?)
  }

  lemma MisledFail(st: State, c: Co, s: Session, u: Session)
    requires Misled(st, c, s, u) && st.mode.Runs?
    ensures Misled(Apply(st, Fail), c, s, u)
  {
    var n := Apply(st, Fail);
    forall t | t in n.sleeping ensures SleepOk(n, t, n.sleeping[t]) {
      assert SleepOk(st, t, st.sleeping[t]);
    }
  }

  lemma MisledFork(st: State, c: Co, s: Session, u: Session)
    requires Misled(st, c, s, u) && st.mode.Forking?
    ensures Misled(Apply(st, ForkNext), c, s, u)
  {
    var n := Apply(st, ForkNext);
    forall t | t in n.sleeping ensures SleepOk(n, t, n.sleeping[t]) {
      assert SleepOk(st, t, st.sleeping[t]);
    }
  }

  lemma MisledWake(st: State, c: Co, s: Session, u: Session)
    requires Misled(st, c, s, u) && st.mode.Waking?
    ensures Misled(Apply(st, WakeNext), c, s, u)
  {
    var n := Apply(st, WakeNext);
    if st.wakeups != [] && st.wakeups[0] in st.sleeping {
      assert SleepOk(st, st.wakeups[0], st.sleeping[st.wakeups[0]]);
    }
    forall t | t in n.sleeping ensures SleepOk(n, t, n.sleeping[t]) {
      assert SleepOk(st, t, st.sleeping[t]);
    }
  }

  lemma {:induction false} MisledSettles(st: State, c: Co, s: Session, u: Session)
    requires Misled(st, c, s, u)
    ensures Misled(Run(st, Settle(st)), c, s, u) && Run(st, Settle(st)).mode.Idle?
    decreases |Settle(st)|
  {
    if !st.mode.Idle? {
      var step := Settle(st)[0];
      match st.mode {
        case Runs(_) => MisledFail(st, c, s, u);
        case Waking => MisledWake(st, c, s, u);
        case Forking => MisledFork(st, c, s, u);
      }
      var n := Apply(st, step);
      MisledSettles(n, c, s, u);
      RunJoin(st, [step], Settle(n));
      assert [step][..0] == [] && Run(st, [step]) == n;
    }
  }

  lemma {:induction false} NoSleepDistinct(st: State, steps: seq<Step>)
    requires forall k | 0 <= k < |steps| :: !steps[k].Sleep?
    ensures Distinct(st, steps)
  {
    if steps != [] {
      NoSleepDistinct(st, steps[..|steps| - 1]);
    }
  }

  /** However a run with distinct tokens goes on from here, it stays orderly. */
  ghost predicate StaysOrderly(st: State) {
    forall more, step :: Distinct(st, more) ==> Orderly(Run(st, more), step)
  }

  lemma InvStaysOrderly(st: State)
    requires Inv(st)
    ensures StaysOrderly(st)
  {
    forall more, step | Distinct(st, more) ensures Orderly(Run(st, more), step) {
      RunInv(st, more);
      InvOrderly(Run(st, more), step);
    }
  }

  /** What may follow a clash: the coroutine catches the error and calls, the dispatcher comes to rest,
      and the reply to the session of the clash arrives. */
  ghost function AfterClash(n: State): seq<Step>
    requires n.mode.Runs?
  {
    [Call] + Settle(Apply(n, Call))
  }

  /** Every `sleep` on a taken token can mislead the timer's reply: it resumes the coroutine, which waits for
      another session. */
  lemma ClashMisleads(st: State, step: Step)
    requires Inv(st) && Enabled(st, step) && !TokenFree(st, step)
    ensures st.mode.Runs? && Next(st, step).mode == st.mode
    ensures var m := Run(Next(st, step), AfterClash(Next(st, step)));
            && Distinct(Next(st, step), AfterClash(Next(st, step)))
            && m.mode.Idle? && st.mode.co in m.status && m.status[st.mode.co] == Awaits(st.next + 1, Calls)
            && Next(m, Response(st.next)).mode == st.mode && !Orderly(m, Response(st.next))
  {
    var c, n := st.mode.co, Next(st, step);
    var called := Apply(n, Call);
    ClashCalls(st, step);
    MisledSettles(called, c, st.next, st.next + 1);
    AfterClashRun(n);
    MisledReply(Run(called, Settle(called)), c, st.next, st.next + 1);
  }

  /** After the clash and the call the coroutine owns two sessions and waits for one. */
  lemma ClashCalls(st: State, step: Step)
    requires Inv(st) && Enabled(st, step) && !TokenFree(st, step)
    ensures st.mode.Runs? && Next(st, step).mode == st.mode
    ensures Misled(Apply(Next(st, step), Call), st.mode.co, st.next, st.next + 1)
  {
    var called := Apply(Next(st, step), Call);
    forall t | t in called.sleeping ensures SleepOk(called, t, called.sleeping[t]) {
      assert SleepOk(st, t, st.sleeping[t]);
      assert st.sleeping[t] in st.marks && MarkOk(st, st.sleeping[t], st.marks[st.sleeping[t]]);
    }
  }

  lemma AfterClashRun(n: State)
    requires n.mode.Runs?
    ensures Run(n, AfterClash(n)) == Run(Apply(n, Call), Settle(Apply(n, Call))) && Distinct(n, AfterClash(n))
  {
    RunJoin(n, [Call], Settle(Apply(n, Call)));
    assert [Call][..0] == [] && Run(n, [Call]) == Apply(n, Call);
    NoSleepDistinct(n, AfterClash(n));
  }

  lemma MisledReply(m: State, c: Co, s: Session, u: Session)
    requires Misled(m, c, s, u) && m.mode.Idle?
    ensures Next(m, Response(s)).mode == Runs(c) && !Orderly(m, Response(s))
  {
    assert Moves(m, Response(s), c);
  }

  /** A step keeps the future orderly if and only if it does not sleep on a taken token. */
  lemma OrderlyIff(st: State, step: Step)
    requires Inv(st) && Enabled(st, step)
    ensures StaysOrderly(Apply(st, step)) <==> TokenFree(st, step)
  {
    if TokenFree(st, step) {
      StepInv(st, step);
      InvStaysOrderly(Apply(st, step));
    } else {
      ClashMisleads(st, step);
    }
  }

  /** A run stays orderly at every point, whatever may follow there, if and only if no `sleep` of it uses a
      taken token. */
  lemma {:induction false} RunOrderlyIff(steps: seq<Step>)
    ensures (forall k | 0 <= k <= |steps| :: StaysOrderly(Run(INIT, steps[..k]))) <==> Distinct(INIT, steps)
  {
    if steps == [] {
      InvStaysOrderly(INIT);
    } else {
      var before, last := steps[..|steps| - 1], steps[|steps| - 1];
      RunOrderlyIff(before);
      assert steps[..|steps|] == steps && forall k | 0 <= k < |steps| :: steps[..k] == before[..k];
      if Distinct(INIT, before) {
        RunInv(INIT, before);
        if Enabled(Run(INIT, before), last) {
          OrderlyIff(Run(INIT, before), last);
        }
      }
    }
  }

  // ----- what a `wait` on a taken token leaves behind

  /** The step is a `wait` on a token that somebody sleeps on. */
  predicate WaitTaken(st: State, step: Step) {
    Enabled(st, step) && step.Wait? && step.token in st.sleeping
  }

  ghost predicate Expects(st: State, c: Co, s: Session) {
    c in st.status && st.status[c].Awaits? && st.status[c].session == s
  }

  /** The table holds an owner for session `s` that does not wait for it. */
  ghost predicate Orphan(st: State, s: Session) {
    s in st.marks && st.marks[s].Owner? && !Expects(st, st.marks[s].co, s)
  }

  /** The coroutine goes on running, its session stays in the table, and however the run goes on, replies
      resume only their owners. */
  lemma WaitClash(st: State, step: Step)
    requires Inv(st) && WaitTaken(st, step)
    ensures var n := Next(st, step);
            n.mode == st.mode && Orphan(n, st.next) && st.next !in n.asked && StaysOrderly(n)
  {
    StepInv(st, step);
    InvStaysOrderly(Next(st, step));
  }

  /** Nothing else leaves such an entry, and nothing ever removes one. */
  lemma OrphanIff(st: State, step: Step, s: Session)
    requires Inv(st) && TokenFree(st, step)
    ensures Orphan(Next(st, step), s) <==> Orphan(st, s) || (WaitTaken(st, step) && s == st.next)
  {
    if Enabled(st, step) {
      assert s in st.marks ==> s < st.next && MarkOk(st, s, st.marks[s]);
      match step
      case Response(u) => ReplyOrphan(st, u, s);
      case WakeNext => WakeOrphan(st, s);
      case _ =>
    }
  }

  lemma ReplyOrphan(st: State, u: Session, s: Session)
    requires Inv(st) && Enabled(st, Response(u))
    ensures Orphan(Apply(st, Response(u)), s) <==> Orphan(st, s)
  {
    assert u in st.marks && MarkOk(st, u, st.marks[u]);
    if st.marks[u].Owner? {
      assert AwaitOk(st, st.marks[u].co, u, st.status[st.marks[u].co].why);
    }
  }

  lemma WakeOrphan(st: State, s: Session)
    requires Inv(st) && Enabled(st, WakeNext)
    ensures Orphan(Apply(st, WakeNext), s) <==> Orphan(st, s)
  {
    if st.wakeups != [] && st.wakeups[0] in st.sleeping {
      assert SleepOk(st, st.wakeups[0], st.sleeping[st.wakeups[0]]);
    }
  }

  ghost predicate HasOrphan(st: State) {
    exists s :: Orphan(st, s)
  }

  lemma HasOrphanIff(st: State, step: Step)
    requires Inv(st) && TokenFree(st, step)
    ensures HasOrphan(Next(st, step)) <==> HasOrphan(st) || WaitTaken(st, step)
  {
    var n := Next(st, step);
    if HasOrphan(n) {
      var s :| Orphan(n, s);
      OrphanIff(st, step, s);
    }
    if HasOrphan(st) {
      var s :| Orphan(st, s);
      OrphanIff(st, step, s);
    }
    OrphanIff(st, step, st.next);
  }

  /** Some `wait` of the run used a taken token. */
  ghost predicate WaitClashed(steps: seq<Step>) {
    steps != [] &&
      (WaitClashed(steps[..|steps| - 1]) || WaitTaken(Run(INIT, steps[..|steps| - 1]), steps[|steps| - 1]))
  }

  /** The table keeps an entry that nobody will ever answer if and only if some `wait` used a taken token. */
  lemma {:induction false} OrphansIff(steps: seq<Step>)
    requires Distinct(INIT, steps)
    ensures HasOrphan(Run(INIT, steps)) <==> WaitClashed(steps)
  {
    if steps != [] {
      var before := steps[..|steps| - 1];
      OrphansIff(before);
      RunInv(INIT, before);
      HasOrphanIff(Run(INIT, before), steps[|steps| - 1]);
    }
  }

  /** The branch for an unknown reply is never taken: each reply finds its owner or the mark of a wakeup. */
  lemma NoUnknownReply(steps: seq<Step>, s: Session)
    requires Distinct(INIT, steps) && Enabled(Run(INIT, steps), Response(s))
    ensures s in Run(INIT, steps).marks
  {
    RunInv(INIT, steps);
  }

  // ----- the reply that comes after a wakeup

  lemma BreakStays(st: State, step: Step, s: Session)
    requires Inv(st) && s in st.marks && st.marks[s].Break? && step != Response(s)
    ensures var n := Next(st, step); s in n.marks && n.marks[s].Break?
  {
    if Enabled(st, step) && step.WakeNext? && st.wakeups != [] && st.wakeups[0] in st.sleeping {
      assert SleepOk(st, st.wakeups[0], st.sleeping[st.wakeups[0]]);
    } else if Enabled(st, step) && step.Response? && step.s in st.marks {
      assert MarkOk(st, step.s, st.marks[step.s]);
    }
  }

  lemma {:induction false} BreakLasts(st: State, steps: seq<Step>, s: Session)
    requires Inv(st) && Distinct(st, steps) && s in st.marks && st.marks[s].Break?
    requires Response(s) !in steps
    ensures s in Run(st, steps).marks && Run(st, steps).marks[s].Break?
  {
    if steps != [] {
      var before := steps[..|steps| - 1];
      BreakLasts(st, before, s);
      RunInv(st, before);
      BreakStays(Run(st, before), steps[|steps| - 1], s);
    }
  }

  /** After a wakeup of a sleeper, however the run goes on, the timer's reply to its session finds the
      mark, removes it and resumes nobody. */
  lemma LateReplySwallowed(st: State, steps: seq<Step>, s: Session, c: Co, t: Token)
    requires Inv(st) && c in st.status && st.status[c] == Awaits(s, Sleeps(t))
    requires Next(st, WakeNext).resumed == st.resumed + [s]
    requires Distinct(Next(st, WakeNext), steps) && Response(s) !in steps
    requires Run(Next(st, WakeNext), steps).mode.Idle?
    ensures var n := Run(Next(st, WakeNext), steps);
            s in n.asked && Next(n, Response(s)) == n.(mode := Forking, marks := n.marks - {s}, asked := n.asked - {s})
  {
    StepInv(st, WakeNext);
    assert AwaitOk(st, c, s, Sleeps(t));
    assert SleepOk(st, st.wakeups[0], st.sleeping[st.wakeups[0]]);
    var u := st.sleeping[st.wakeups[0]];
    assert Next(st, WakeNext).resumed[|st.resumed|] == u;
    BreakLasts(Next(st, WakeNext), steps, s);
    RunInv(Next(st, WakeNext), steps);
    assert MarkOk(Run(Next(st, WakeNext), steps), s, Break);
  }

  // ----- two runs that go wrong

  lemma Extend(steps: seq<Step>, step: Step)
    ensures Run(INIT, steps + [step]) == Next(Run(INIT, steps), step)
  {
    assert (steps + [step])[..|steps|] == steps;
  }

  const ASLEEP := [Request(1)] + [Sleep(7)] + [WakeNext] + [ForkNext]
  const TAKEN := ASLEEP + [Request(2)] + [Sleep(7)]
  const CLASHED := TAKEN + [Call] + [WakeNext] + [ForkNext]
  const FAILED := ASLEEP + [Request(2)] + [Wakeup(7)] + [Fail] + [ForkNext]

  lemma AfterSleep()
    ensures Run(INIT, [Request(1)] + [Sleep(7)])
            == State(Waking, map[10 := Owner(1)], map[7 := 10], [], [], map[1 := Awaits(10, Sleeps(7))], 11, [], {10})
  {
    Extend([], Request(1));
    assert [] + [Request(1)] == [Request(1)];
    Extend([Request(1)], Sleep(7));
  }

  lemma AfterAsleep()
    ensures Run(INIT, ASLEEP)
            == State(Idle, map[10 := Owner(1)], map[7 := 10], [], [], map[1 := Awaits(10, Sleeps(7))], 11, [], {10})
  {
    AfterSleep();
    Extend([Request(1)] + [Sleep(7)], WakeNext);
    Extend([Request(1)] + [Sleep(7)] + [WakeNext], ForkNext);
  }

  lemma AfterTaken()
    ensures Run(INIT, TAKEN)
            == State(Runs(2), map[10 := Owner(1), 11 := Owner(2)], map[7 := 10], [], [],
                     map[1 := Awaits(10, Sleeps(7)), 2 := Active], 12, [], {10, 11})
  {
    AfterAsleep();
    Extend(ASLEEP, Request(2));
    Extend(ASLEEP + [Request(2)], Sleep(7));
  }

  /** With a token that is taken, a coroutine that catches the error and then waits for the answer to a
      call on session 12 is resumed by the timer's reply to session 11. */
  lemma TokenClash()
    ensures var st := Run(INIT, CLASHED);
            && st.mode.Idle? && 2 in st.status && st.status[2] == Awaits(12, Calls)
            && Next(st, Response(11)).mode == Runs(2) && Next(st, Response(11)).resumed == [11]
  {
    AfterTaken();
    var steps := TAKEN;
    Extend(steps, Call);
    steps := steps + [Call];
    Extend(steps, WakeNext);
    steps := steps + [WakeNext];
    Extend(steps, ForkNext);
  }

  /** When the coroutine that called `wakeup` fails before it yields, the wakeup is still pending when
      the dispatcher is idle again, and the sleeper sleeps on. */
  lemma WakeupPending()
    ensures var st := Run(INIT, FAILED);
            && st.mode.Idle? && st.wakeups == [7] && 1 in st.status && st.status[1] == Awaits(10, Sleeps(7))
  {
    AfterAsleep();
    var steps := ASLEEP;
    Extend(steps, Request(2));
    steps := steps + [Request(2)];
    Extend(steps, Wakeup(7));
    steps := steps + [Wakeup(7)];
    Extend(steps, Fail);
    steps := steps + [Fail];
    Extend(steps, ForkNext);
  }
}
