/** Workers and senders of the actor system, interleaved in every way.

  A service owns a message queue and the flag `Invoke_`. A sender pushes a message, then tries
  to raise the flag; whoever raises it puts the service on the global queue. A worker takes a
  service from there, handles as many messages as it found, and either puts the service back or
  lowers the flag. The right to be on the global queue or to be run is a token. */
module ActorRun {
  import opened Seqs

  type Msg = nat

  /** A service. `locked`: a push has added its message and not yet counted it. `sent` and
      `handled` record the history. */
  datatype Service = Service(
    queue: seq<Msg>, count: nat, locked: bool, invoke: bool, sent: seq<Msg>, handled: seq<Msg>)

  /** Where a sender is in `send(service_id, msg)`. */
  datatype Sender = Ready | Counting(s: nat) | Swapping(s: nat) | Raised(s: nat)

  /** Where a worker is in its loop and in `service::start`; `left` messages are to be handled. */
  datatype Worker =
    | Waiting
    | Starting(s: nat)
    | Looping(s: nat, left: nat)
    | Testing(s: nat)
    | Requeuing(s: nat)
    | Clearing(s: nat)

  datatype State = State(services: seq<Service>, global: seq<nat>, senders: seq<Sender>, workers: seq<Worker>)

  datatype Step =
    | Push(t: nat, s: nat, m: Msg)
    | Count(t: nat)
    | Swap(t: nat, spurious: bool)
    | Enqueue(t: nat)
    | Take(w: nat)
    | Size(w: nat)
    | PopMsg(w: nat)
    | Done(w: nat)
    | Test(w: nat)
    | Requeue(w: nat)
    | Clear(w: nat)

  /** How many services, senders and workers there are. */
  datatype Config = Config(services: nat, senders: nat, workers: nat)

  function Init(c: Config): State {
    State(seq(c.services, i => Service([], 0, false, false, [], [])), [],
          seq(c.senders, i => Ready), seq(c.workers, i => Waiting))
  }

  /** All threads speak of existing services. */
  ghost predicate Sound(s: State) {
    && (forall i | 0 <= i < |s.global| :: s.global[i] < |s.services|)
    && (forall t | 0 <= t < |s.senders| :: s.senders[t] != Ready ==> s.senders[t].s < |s.services|)
    && (forall w | 0 <= w < |s.workers| :: s.workers[w] != Waiting ==> s.workers[w].s < |s.services|)
  }

  ghost predicate Enabled(s: State, step: Step)
    requires Sound(s)
  {
    match step
    case Push(t, i, _) => t < |s.senders| && s.senders[t] == Ready && i < |s.services| && !s.services[i].locked
    case Count(t) => t < |s.senders| && s.senders[t].Counting?
    case Swap(t, _) => t < |s.senders| && s.senders[t].Swapping?
    case Enqueue(t) => t < |s.senders| && s.senders[t].Raised?
    case Take(w) => w < |s.workers| && s.workers[w] == Waiting && s.global != []
    case Size(w) => w < |s.workers| && s.workers[w].Starting?
    case PopMsg(w) =>
      w < |s.workers| && s.workers[w].Looping? && s.workers[w].left > 0 && !s.services[s.workers[w].s].locked
    case Done(w) => w < |s.workers| && s.workers[w].Looping? && s.workers[w].left == 0
    case Test(w) => w < |s.workers| && s.workers[w].Testing? && !s.services[s.workers[w].s].locked
    case Requeue(w) => w < |s.workers| && s.workers[w].Requeuing?
    case Clear(w) => w < |s.workers| && s.workers[w].Clearing?
  }

  /** One atomic step; a locked region is one step, except that a push is counted separately. */
  ghost function Apply(s: State, step: Step): State
    requires Sound(s) && Enabled(s, step)
  {
    match step
    case Push(t, i, m) =>
      var v := s.services[i];
      s.(services := s.services[i := v.(queue := v.queue + [m], sent := v.sent + [m], locked := true)],
         senders := s.senders[t := Counting(i)])
    case Count(t) =>
      var i := s.senders[t].s;
      var v := s.services[i];
      s.(services := s.services[i := v.(count := v.count + 1, locked := false)], senders := s.senders[t := Swapping(i)])
    case Swap(t, spurious) =>
      var i := s.senders[t].s;
      if s.services[i].invoke || spurious then s.(senders := s.senders[t := Ready])
      else s.(services := s.services[i := s.services[i].(invoke := true)], senders := s.senders[t := Raised(i)])
    case Enqueue(t) =>
      s.(global := s.global + [s.senders[t].s], senders := s.senders[t := Ready])
    case Take(w) =>
      s.(global := s.global[1..], workers := s.workers[w := Starting(s.global[0])])
    case Size(w) =>
      var i := s.workers[w].s;
      s.(workers := s.workers[w := Looping(i, s.services[i].count)])
    case PopMsg(w) =>
      var i := s.workers[w].s;
      var v := s.services[i];
      // an empty queue would answer with a null message, which is skipped
      if v.queue == [] then s.(workers := s.workers[w := Looping(i, s.workers[w].left - 1)])
      else s.(services := s.services[i := v.(queue := v.queue[1..], count := if v.count > 0 then v.count - 1 else 0,
                                               handled := v.handled + [v.queue[0]])],
              workers := s.workers[w := Looping(i, s.workers[w].left - 1)])
    case Done(w) => s.(workers := s.workers[w := Testing(s.workers[w].s)])
    case Test(w) =>
      var i := s.workers[w].s;
      s.(workers := s.workers[w := if s.services[i].count != 0 then Requeuing(i) else Clearing(i)])
    case Requeue(w) =>
      s.(global := s.global + [s.workers[w].s], workers := s.workers[w := Waiting])
    case Clear(w) =>
      var i := s.workers[w].s;
      s.(services := s.services[i := s.services[i].(invoke := false)], workers := s.workers[w := Waiting])
  }

  ghost function Next(s: State, step: Step): State
    requires Sound(s)
  {
    if Enabled(s, step) then Apply(s, step) else s
  }

  // ----- counting tokens

  /** How many elements of `xs` satisfy `p`. */
  ghost function CountIf<T>(xs: seq<T>, p: T -> bool): nat {
    if xs == [] then 0 else (if p(xs[|xs| - 1]) then 1 else 0) + CountIf(xs[..|xs| - 1], p)
  }

  lemma {:induction false} CountUpdate<T>(xs: seq<T>, k: nat, x: T, p: T -> bool)
    requires k < |xs|
    ensures CountIf(xs[k := x], p) + (if p(xs[k]) then 1 else 0) == CountIf(xs, p) + (if p(x) then 1 else 0)
  {
    var n := |xs| - 1;
    if k == n {
      assert xs[k := x][..n] == xs[..n];
    } else {
      assert xs[k := x][..n] == xs[..n][k := x];
      CountUpdate(xs[..n], k, x, p);
    }
  }

  lemma CountAppend<T>(xs: seq<T>, x: T, p: T -> bool)
    ensures CountIf(xs + [x], p) == CountIf(xs, p) + (if p(x) then 1 else 0)
  {
    assert (xs + [x])[..|xs|] == xs;
  }

  lemma {:induction false} CountTail<T>(xs: seq<T>, p: T -> bool)
    requires xs != []
    ensures CountIf(xs, p) == (if p(xs[0]) then 1 else 0) + CountIf(xs[1..], p)
  {
    if |xs| > 1 {
      CountTail(xs[..|xs| - 1], p);
      assert xs[1..][..|xs| - 2] == xs[..|xs| - 1][1..];
    } else {
      assert xs[1..] == [] && xs[..0] == [];
    }
  }

  lemma {:induction false} CountSome<T>(xs: seq<T>, k: nat, p: T -> bool)
    requires k < |xs| && p(xs[k])
    ensures CountIf(xs, p) >= 1
  {
    if k < |xs| - 1 {
      CountSome(xs[..|xs| - 1], k, p);
    }
  }

  lemma {:induction false} CountTwo<T>(xs: seq<T>, j: nat, k: nat, p: T -> bool)
    requires j < k < |xs| && p(xs[j]) && p(xs[k])
    ensures CountIf(xs, p) >= 2
  {
    if k < |xs| - 1 {
      CountTwo(xs[..|xs| - 1], j, k, p);
    } else {
      CountSome(xs[..|xs| - 1], j, p);
    }
  }

  ghost predicate Runs(w: Worker, i: nat) {
    w != Waiting && w.s == i
  }

  ghost function Names(i: nat): nat -> bool { g => g == i }

  ghost function Raises(i: nat): Sender -> bool { t => t == Raised(i) }

  ghost function Counts(i: nat): Sender -> bool { t => t == Counting(i) }

  ghost function Serves(i: nat): Worker -> bool { w => Runs(w, i) }

  /** The tokens of service `i`: on the global queue, with a sender that raised the flag, or with a worker. */
  ghost function Tokens(s: State, i: nat): nat {
    CountIf(s.global, Names(i)) + CountIf(s.senders, Raises(i)) + CountIf(s.workers, Serves(i))
  }

  // ----- the invariant

  ghost predicate TokenOk(s: State, i: nat)
    requires i < |s.services|
  {
    Tokens(s, i) == if s.services[i].invoke then 1 else 0
  }

  ghost predicate QueueOk(s: State, i: nat)
    requires i < |s.services|
  {
    var v := s.services[i];
    && v.handled + v.queue == v.sent
    && v.count + (if v.locked then 1 else 0) == |v.queue|
    && CountIf(s.senders, Counts(i)) == (if v.locked then 1 else 0)
  }

  ghost predicate LoopOk(s: State, w: nat)
    requires Sound(s) && w < |s.workers|
  {
    s.workers[w].Looping? ==> s.workers[w].left <= s.services[s.workers[w].s].count
  }

  ghost predicate Inv(s: State) {
    && Sound(s)
    && (forall i: nat | i < |s.services| :: TokenOk(s, i) && QueueOk(s, i))
    && (forall w: nat | w < |s.workers| :: LoopOk(s, w))
  }

  // ----- one step keeps the invariant

  /** Two workers never hold the same service: `service::start` of a service never runs twice at once. */
  lemma OneRunner(s: State, j: nat, k: nat)
    requires Inv(s) && j < k < |s.workers| && s.workers[j] != Waiting
    ensures !Runs(s.workers[k], s.workers[j].s)
  {
    var i := s.workers[j].s;
    if Runs(s.workers[k], i) {
      assert TokenOk(s, i);
      CountTwo(s.workers, j, k, Serves(i));
    }
  }

  lemma RunnerKeepsFlag(s: State, w: nat)
    requires Inv(s) && w < |s.workers| && s.workers[w] != Waiting
    ensures s.services[s.workers[w].s].invoke
  {
    assert TokenOk(s, s.workers[w].s);
    CountSome(s.workers, w, Serves(s.workers[w].s));
  }

  lemma StepSound(s: State, step: Step)
    requires Sound(s) && Enabled(s, step)
    ensures Sound(Apply(s, step)) && |Apply(s, step).services| == |s.services|
  {
  }

  lemma SenderTokens(s: State, step: Step, i: nat)
    requires Inv(s) && Enabled(s, step) && i < |s.services|
    requires step.Push? || step.Count? || step.Swap? || step.Enqueue?
    ensures TokenOk(Apply(s, step), i)
  {
    assert TokenOk(s, i);
    var t := step.t;
    CountUpdate(s.senders, t, Apply(s, step).senders[t], Raises(i));
    if step.Enqueue? {
      CountAppend(s.global, s.senders[t].s, Names(i));
    }
  }

  lemma TakeTokens(s: State, w: nat, i: nat)
    requires Sound(s) && Enabled(s, Take(w)) && i < |s.services| && TokenOk(s, i)
    ensures TokenOk(Apply(s, Take(w)), i)
  {
    CountUpdate(s.workers, w, Starting(s.global[0]), Serves(i));
    CountTail(s.global, Names(i));
  }

  lemma RequeueTokens(s: State, w: nat, i: nat)
    requires Sound(s) && Enabled(s, Requeue(w)) && i < |s.services| && TokenOk(s, i)
    ensures TokenOk(Apply(s, Requeue(w)), i)
  {
    CountUpdate(s.workers, w, Waiting, Serves(i));
    CountAppend(s.global, s.workers[w].s, Names(i));
  }

  lemma ClearTokens(s: State, w: nat, i: nat)
    requires Sound(s) && Enabled(s, Clear(w)) && i < |s.services| && TokenOk(s, i)
    requires s.services[s.workers[w].s].invoke
    ensures TokenOk(Apply(s, Clear(w)), i)
  {
    CountUpdate(s.workers, w, Waiting, Serves(i));
  }

  /** A worker that goes on with its service. */
  lemma InnerTokens(s: State, step: Step, i: nat)
    requires Sound(s) && Enabled(s, step) && i < |s.services| && TokenOk(s, i)
    requires step.Size? || step.PopMsg? || step.Done? || step.Test?
    ensures TokenOk(Apply(s, step), i)
  {
    CountUpdate(s.workers, step.w, Apply(s, step).workers[step.w], Serves(i));
  }

  lemma WorkerTokens(s: State, step: Step, i: nat)
    requires Inv(s) && Enabled(s, step) && i < |s.services|
    requires !(step.Push? || step.Count? || step.Swap? || step.Enqueue?)
    ensures TokenOk(Apply(s, step), i)
  {
    assert TokenOk(s, i);
    if step.Take? {
      TakeTokens(s, step.w, i);
    } else if step.Requeue? {
      RequeueTokens(s, step.w, i);
    } else if step.Clear? {
      RunnerKeepsFlag(s, step.w);
      ClearTokens(s, step.w, i);
    } else {
      InnerTokens(s, step, i);
    }
  }

  lemma SenderQueue(s: State, step: Step, i: nat)
    requires Inv(s) && Enabled(s, step) && i < |s.services|
    requires step.Push? || step.Count? || step.Swap? || step.Enqueue?
    ensures QueueOk(Apply(s, step), i)
  {
    assert QueueOk(s, i);
    CountUpdate(s.senders, step.t, Apply(s, step).senders[step.t], Counts(i));
    if step.Count? && s.senders[step.t].s == i {
      CountSome(s.senders, step.t, Counts(i));
    }
  }

  lemma WorkerQueue(s: State, step: Step, i: nat)
    requires Inv(s) && Enabled(s, step) && i < |s.services|
    requires !(step.Push? || step.Count? || step.Swap? || step.Enqueue?)
    ensures QueueOk(Apply(s, step), i)
  {
    assert QueueOk(s, i);
    if step.PopMsg? {
      PopFinds(s, step.w);
    }
  }

  /** The branch of `service::start` for a null message is never taken. */
  lemma PopFinds(s: State, w: nat)
    requires Inv(s) && Enabled(s, PopMsg(w))
    ensures s.services[s.workers[w].s].queue != [] && s.services[s.workers[w].s].count > 0
  {
    assert LoopOk(s, w) && QueueOk(s, s.workers[w].s);
  }

  lemma StepLoop(s: State, step: Step, w: nat)
    requires Inv(s) && Enabled(s, step) && w < |s.workers|
    ensures Sound(Apply(s, step)) && |Apply(s, step).workers| == |s.workers|
    ensures LoopOk(Apply(s, step), w)
  {
    StepSound(s, step);
    assert LoopOk(s, w);
    if step.PopMsg? {
      PopFinds(s, step.w);
      if w < step.w && s.workers[w] != Waiting {
        OneRunner(s, w, step.w);
      } else if step.w < w {
        OneRunner(s, step.w, w);
      }
    }
  }

  lemma StepInv(s: State, step: Step)
    requires Inv(s)
    ensures Inv(Next(s, step))
  {
    if Enabled(s, step) {
      StepSound(s, step);
      forall i: nat | i < |s.services| ensures TokenOk(Apply(s, step), i) && QueueOk(Apply(s, step), i) {
        if step.Push? || step.Count? || step.Swap? || step.Enqueue? {
          SenderTokens(s, step, i);
          SenderQueue(s, step, i);
        } else {
          WorkerTokens(s, step, i);
          WorkerQueue(s, step, i);
        }
      }
      forall w: nat | w < |s.workers| ensures LoopOk(Apply(s, step), w) {
        StepLoop(s, step, w);
      }
    }
  }

  lemma {:induction false} CountNone<T>(xs: seq<T>, p: T -> bool)
    requires forall k | 0 <= k < |xs| :: !p(xs[k])
    ensures CountIf(xs, p) == 0
  {
    if xs != [] {
      CountNone(xs[..|xs| - 1], p);
    }
  }

  lemma InitInv(c: Config)
    ensures Inv(Init(c))
  {
    var s := Init(c);
    forall i: nat | i < |s.services| ensures TokenOk(s, i) && QueueOk(s, i) {
      CountNone(s.global, Names(i));
      CountNone(s.senders, Raises(i));
      CountNone(s.senders, Counts(i));
      CountNone(s.workers, Serves(i));
    }
  }

  // ----- every run

  /** The state after `steps`, from the idle system; a step that is not enabled does nothing. */
  ghost function After(c: Config, steps: seq<Step>): (s: State)
    ensures Inv(s)
  {
    if steps == [] then
      InitInv(c);
      Init(c)
    else
      var last := |steps| - 1;
      var before := After(c, steps[..last]);
      StepInv(before, steps[last]);
      Next(before, steps[last])
  }

  /** In every reachable state a service has one token exactly when its flag is up, and none otherwise. */
  lemma TokenIffInvoke(c: Config, steps: seq<Step>, i: nat)
    requires i < |After(c, steps).services|
    ensures var s := After(c, steps);
            Tokens(s, i) == if s.services[i].invoke then 1 else 0
  {
    assert TokenOk(After(c, steps), i);
  }

  /** In no reachable state do two workers run the same service. */
  lemma MutualExclusion(c: Config, steps: seq<Step>, j: nat, k: nat)
    requires j < k < |After(c, steps).workers|
    ensures var s := After(c, steps);
            s.workers[j] == Waiting || s.workers[k] == Waiting || s.workers[j].s != s.workers[k].s
  {
    var s := After(c, steps);
    if s.workers[j] != Waiting {
      OneRunner(s, j, k);
    }
  }

  /** The messages pushed to service `i` along a run, in the order of the pushes that took place. */
  ghost function PushedTo(c: Config, steps: seq<Step>, i: nat): seq<Msg> {
    if steps == [] then []
    else
      var last := |steps| - 1;
      var before := After(c, steps[..last]);
      PushedTo(c, steps[..last], i)
      + if Enabled(before, steps[last]) && steps[last].Push? && steps[last].s == i then [steps[last].m] else []
  }

  /** The message of service `i` that the step pops, if it pops one. */
  ghost function Popped(s: State, step: Step, i: nat): seq<Msg>
    requires Sound(s)
  {
    if Enabled(s, step) && step.PopMsg? && s.workers[step.w].s == i && s.services[i].queue != [] then
      [s.services[i].queue[0]]
    else
      []
  }

  /** The messages of service `i` that workers popped along a run. */
  ghost function PoppedFrom(c: Config, steps: seq<Step>, i: nat): seq<Msg> {
    if steps == [] then []
    else
      var last := |steps| - 1;
      var before := After(c, steps[..last]);
      PoppedFrom(c, steps[..last], i) + Popped(before, steps[last], i)
  }

  lemma StepHistory(s: State, step: Step, i: nat)
    requires Sound(s) && i < |s.services|
    ensures |Next(s, step).services| == |s.services|
    ensures Next(s, step).services[i].sent
            == s.services[i].sent + if Enabled(s, step) && step.Push? && step.s == i then [step.m] else []
    ensures Next(s, step).services[i].handled
            == s.services[i].handled + Popped(s, step, i)
  {
  }

  lemma {:induction false} HistoryKept(c: Config, steps: seq<Step>, i: nat)
    requires i < c.services
    ensures |After(c, steps).services| == c.services
    ensures After(c, steps).services[i].sent == PushedTo(c, steps, i)
    ensures After(c, steps).services[i].handled == PoppedFrom(c, steps, i)
  {
    if steps != [] {
      var last := |steps| - 1;
      HistoryKept(c, steps[..last], i);
      StepHistory(After(c, steps[..last]), steps[last], i);
    }
  }

  /** Messages are handled in push order: what was handled and what still waits is what was pushed. */
  lemma HandledInOrder(c: Config, steps: seq<Step>, i: nat)
    requires i < c.services
    ensures |After(c, steps).services| == c.services
    ensures PoppedFrom(c, steps, i)
            + After(c, steps).services[i].queue == PushedTo(c, steps, i)
  {
    HistoryKept(c, steps, i);
    assert QueueOk(After(c, steps), i);
  }

  /** A pop that a worker makes always yields a message. */
  lemma NoNullPop(c: Config, steps: seq<Step>, w: nat)
    requires Enabled(After(c, steps), PopMsg(w))
    ensures var s := After(c, steps);
            s.services[s.workers[w].s].queue != []
  {
    PopFinds(After(c, steps), w);
  }

  // ----- the order of the global queue

  /** The service that the step puts on the global queue. */
  ghost function QueuedBy(s: State, step: Step): seq<nat>
    requires Sound(s)
  {
    if !Enabled(s, step) then []
    else if step.Enqueue? then [s.senders[step.t].s]
    else if step.Requeue? then [s.workers[step.w].s]
    else []
  }

  ghost function QueuedIn(c: Config, steps: seq<Step>): seq<nat> {
    if steps == [] then []
    else QueuedIn(c, steps[..|steps| - 1]) + QueuedBy(After(c, steps[..|steps| - 1]), steps[|steps| - 1])
  }

  /** The service that the worker holds after taking one. */
  ghost function TakenBy(s: State, step: Step): seq<nat>
    requires Sound(s)
  {
    if Enabled(s, step) && step.Take? then
      var n := Apply(s, step);
      if step.w < |n.workers| && n.workers[step.w] != Waiting then [n.workers[step.w].s] else []
    else
      []
  }

  ghost function TakenIn(c: Config, steps: seq<Step>): seq<nat> {
    if steps == [] then []
    else TakenIn(c, steps[..|steps| - 1]) + TakenBy(After(c, steps[..|steps| - 1]), steps[|steps| - 1])
  }

  lemma GlobalQueue(s: State, step: Step)
    requires Sound(s)
    ensures TakenBy(s, step) + Next(s, step).global == s.global + QueuedBy(s, step)
  {
  }

  /** In every run the workers take the services in the order in which they were put on the global queue. */
  lemma {:induction false} TakenInOrder(c: Config, steps: seq<Step>)
    ensures TakenIn(c, steps) + After(c, steps).global == QueuedIn(c, steps)
  {
    if steps != [] {
      var before, last := steps[..|steps| - 1], steps[|steps| - 1];
      TakenInOrder(c, before);
      GlobalQueue(After(c, before), last);
      Assoc(TakenIn(c, before), TakenBy(After(c, before), last), After(c, steps).global);
      Assoc(TakenIn(c, before), After(c, before).global, QueuedBy(After(c, before), last));
    }
  }

  // ----- what a turn of a worker handles

  /** A worker between two steps of a turn. `found`: the messages that were there when it counted them.
      `popped`: those it has handled since. `late`: those pushed since it last looked whether any are left. */
  datatype Turn = Turn(found: seq<Msg>, popped: seq<Msg>, late: seq<Msg>)

  /** The messages of a service that are counted: all but one that a push has not counted yet. */
  function Counted(v: Service): seq<Msg> {
    if v.locked && v.queue != [] then v.queue[..|v.queue| - 1] else v.queue
  }

  ghost function TurnNext(s: State, step: Step, w: nat, turn: Turn): Turn
    requires Sound(s) && w < |s.workers|
  {
    if !Enabled(s, step) || s.workers[w] == Waiting then turn
    else
      var i := s.workers[w].s;
      if step == Size(w) then turn.(found := Counted(s.services[i]), popped := [])
      else if step == PopMsg(w) then turn.(popped := turn.popped + Popped(s, step, i))
      else if step == Test(w) then turn.(late := [])
      else if step.Push? && step.s == i then turn.(late := turn.late + [step.m])
      else turn
  }

  ghost function TurnOf(c: Config, steps: seq<Step>, w: nat): Turn
    requires w < c.workers
  {
    if steps == [] then Turn([], [], [])
    else
      var before := After(c, steps[..|steps| - 1]);
      ThreadsStay(c, steps[..|steps| - 1]);
      TurnNext(before, steps[|steps| - 1], w, TurnOf(c, steps[..|steps| - 1], w))
  }

  lemma NobodyLeaves(s: State, step: Step)
    requires Sound(s)
    ensures |Next(s, step).workers| == |s.workers| && |Next(s, step).senders| == |s.senders|
  {
  }

  lemma {:induction false} ThreadsStay(c: Config, steps: seq<Step>)
    ensures |After(c, steps).workers| == c.workers && |After(c, steps).senders| == c.senders
  {
    if steps != [] {
      ThreadsStay(c, steps[..|steps| - 1]);
      NobodyLeaves(After(c, steps[..|steps| - 1]), steps[|steps| - 1]);
    }
  }

  ghost predicate TurnOk(s: State, w: nat, turn: Turn)
    requires Sound(s) && w < |s.workers|
  {
    match s.workers[w]
    case Looping(i, left) =>
      left <= |s.services[i].queue| && turn.popped + s.services[i].queue[..left] == turn.found
    case Testing(_) => turn.popped == turn.found
    case Requeuing(i) => turn.popped == turn.found && s.services[i].queue != []
    case Clearing(i) => turn.popped == turn.found && s.services[i].queue == turn.late
    case _ => true
  }

  lemma OwnTurn(s: State, step: Step, w: nat, turn: Turn)
    requires Inv(s) && w < |s.workers| && TurnOk(s, w, turn) && Enabled(s, step)
    requires step.Take? || step.Size? || step.PopMsg? || step.Done? || step.Test? || step.Requeue? || step.Clear?
    requires step.w == w
    ensures Sound(Apply(s, step)) && w < |Apply(s, step).workers|
    ensures TurnOk(Apply(s, step), w, TurnNext(s, step, w, turn))
  {
    StepSound(s, step);
    if s.workers[w] != Waiting {
      assert QueueOk(s, s.workers[w].s);
    }
  }

  /** Nobody but the worker itself takes messages from the service it holds. */
  lemma OthersTurn(s: State, step: Step, w: nat, turn: Turn)
    requires Inv(s) && w < |s.workers| && TurnOk(s, w, turn) && Enabled(s, step)
    requires step.Push? || step.Count? || step.Swap? || step.Enqueue? || step.w != w
    ensures Sound(Apply(s, step)) && w < |Apply(s, step).workers|
    ensures TurnOk(Apply(s, step), w, TurnNext(s, step, w, turn))
  {
    StepSound(s, step);
    if step.PopMsg? && s.workers[w] != Waiting {
      if w < step.w {
        OneRunner(s, w, step.w);
      } else {
        OneRunner(s, step.w, w);
      }
    }
  }

  /** In every run a turn handles exactly the messages that were counted when it began, in order; what is left
      after that has been pushed since the emptiness test if the worker goes on to lower the flag, and is
      not nothing if it puts the service back. */
  lemma {:induction false} TurnHandles(c: Config, steps: seq<Step>, w: nat)
    requires w < c.workers
    ensures |After(c, steps).workers| == c.workers && TurnOk(After(c, steps), w, TurnOf(c, steps, w))
  {
    ThreadsStay(c, steps);
    if steps != [] {
      var before, last := After(c, steps[..|steps| - 1]), steps[|steps| - 1];
      TurnHandles(c, steps[..|steps| - 1], w);
      if Enabled(before, last) {
        if last.Push? || last.Count? || last.Swap? || last.Enqueue? || last.w != w {
          OthersTurn(before, last, w, TurnOf(c, steps[..|steps| - 1], w));
        } else {
          OwnTurn(before, last, w, TurnOf(c, steps[..|steps| - 1], w));
        }
      }
    }
  }

  // ----- nobody is stuck

  /** The sender of a push that holds the lock of service `i`. */
  lemma Pusher(s: State, i: nat) returns (t: nat)
    requires Inv(s) && i < |s.services| && s.services[i].locked
    ensures t < |s.senders| && s.senders[t] == Counting(i)
  {
    assert QueueOk(s, i);
    if forall k | 0 <= k < |s.senders| :: !Counts(i)(s.senders[k]) {
      CountNone(s.senders, Counts(i));
      assert false;
    }
    t :| t < |s.senders| && Counts(i)(s.senders[t]);
  }

  ghost predicate SenderGoes(s: State, t: nat)
    requires Sound(s)
  {
    Enabled(s, Count(t)) || Enabled(s, Swap(t, false)) || Enabled(s, Enqueue(t))
  }

  ghost predicate WorkerGoes(s: State, w: nat)
    requires Sound(s)
  {
    || Enabled(s, Take(w)) || Enabled(s, Size(w)) || Enabled(s, PopMsg(w)) || Enabled(s, Done(w))
    || Enabled(s, Test(w)) || Enabled(s, Requeue(w)) || Enabled(s, Clear(w))
  }

  lemma WorkerFree(s: State, w: nat)
    requires Inv(s) && w < |s.workers| && s.workers[w] != Waiting && !WorkerGoes(s, w)
    ensures s.services[s.workers[w].s].locked
  {
  }

  /** In every reachable state a sender with a message on its way can go on, and a waiting worker can go on if and
      only if a service is on the global queue. */
  lemma NobodyStuck(c: Config, steps: seq<Step>, t: nat, w: nat)
    requires t < c.senders && w < c.workers
    ensures var s := After(c, steps);
      && |s.senders| == c.senders && |s.workers| == c.workers
      && (s.senders[t] != Ready ==> SenderGoes(s, t))
      && (s.workers[w] == Waiting ==> (WorkerGoes(s, w) <==> s.global != []))
  {
    ThreadsStay(c, steps);
  }

  /** A worker with a service can go on, unless a push holds the lock of its queue; then that push can go on. */
  lemma HolderNotStuck(c: Config, steps: seq<Step>, w: nat)
    requires w < |After(c, steps).workers| && After(c, steps).workers[w] != Waiting
    ensures var s := After(c, steps);
      || WorkerGoes(s, w)
      || exists u | 0 <= u < |s.senders| :: s.senders[u] == Counting(s.workers[w].s) && SenderGoes(s, u)
  {
    var s := After(c, steps);
    if !WorkerGoes(s, w) {
      WorkerFree(s, w);
      var u := Pusher(s, s.workers[w].s);
      assert SenderGoes(s, u);
    }
  }

  // ----- where a message can be stranded

  ghost function Tries(i: nat): Sender -> bool { t => t == Counting(i) || t == Swapping(i) }

  /** Someone will see to the messages of service `i`: the flag is up, or a sender is about to raise it. */
  ghost predicate Attended(s: State, i: nat)
    requires i < |s.services|
  {
    s.services[i].queue == [] || s.services[i].invoke || CountIf(s.senders, Tries(i)) > 0
  }

  /** The steps that strand messages of service `i`: lowering the flag over a queue filled since it was
      found empty, and a compare-exchange that fails on a lowered flag, with no other sender on its way. */
  ghost predicate Strands(s: State, step: Step, i: nat)
    requires Sound(s) && Enabled(s, step) && i < |s.services|
  {
    && s.services[i].queue != []
    && match step {
         case Clear(w) => s.workers[w].s == i && CountIf(s.senders, Tries(i)) == 0
         case Swap(t, spurious) =>
           s.senders[t].s == i && spurious && !s.services[i].invoke && CountIf(s.senders, Tries(i)) == 1
         case _ => false
       }
  }

  /** A step leaves messages unattended if and only if it is one of those two. */
  lemma StrandedIff(s: State, step: Step, i: nat)
    requires Inv(s) && Enabled(s, step) && i < |s.services| && Attended(s, i)
    ensures |Apply(s, step).services| == |s.services|
    ensures !Attended(Apply(s, step), i) <==> Strands(s, step, i)
  {
    if step.Push? || step.Count? || step.Swap? || step.Enqueue? {
      CountUpdate(s.senders, step.t, Apply(s, step).senders[step.t], Tries(i));
      if step.Enqueue? && s.senders[step.t].s == i {
        CountSome(s.senders, step.t, Raises(i));
        assert TokenOk(s, i);
      }
    }
  }

  // ----- every run: what is stranded stays so

  ghost predicate PushesTo(s: State, step: Step, i: nat)
    requires Sound(s)
  {
    Enabled(s, step) && step.Push? && step.s == i
  }

  lemma NobodyHolds(s: State, i: nat)
    requires Inv(s) && i < |s.services| && !s.services[i].invoke
    ensures forall w | 0 <= w < |s.workers| :: !Runs(s.workers[w], i)
    ensures forall t | 0 <= t < |s.senders| :: s.senders[t] != Raised(i)
  {
    assert TokenOk(s, i);
    forall w: nat | w < |s.workers| ensures !Runs(s.workers[w], i) {
      if Runs(s.workers[w], i) {
        CountSome(s.workers, w, Serves(i));
      }
    }
    forall t: nat | t < |s.senders| ensures s.senders[t] != Raised(i) {
      if s.senders[t] == Raised(i) {
        CountSome(s.senders, t, Raises(i));
      }
    }
  }

  lemma NobodyTries(s: State, i: nat)
    requires CountIf(s.senders, Tries(i)) == 0
    ensures forall t | 0 <= t < |s.senders| :: !Tries(i)(s.senders[t])
  {
    forall t: nat | t < |s.senders| ensures !Tries(i)(s.senders[t]) {
      if Tries(i)(s.senders[t]) {
        CountSome(s.senders, t, Tries(i));
      }
    }
  }

  /** Messages that nobody attends to stay in the queue, unattended, under every step but a push to it. */
  lemma StaysStranded(s: State, step: Step, i: nat)
    requires Inv(s) && i < |s.services| && !Attended(s, i) && !PushesTo(s, step, i)
    ensures |Next(s, step).services| == |s.services|
    ensures !Attended(Next(s, step), i) && Next(s, step).services[i].queue == s.services[i].queue
  {
    if Enabled(s, step) {
      NobodyHolds(s, i);
      NobodyTries(s, i);
      if step.Push? || step.Count? || step.Swap? || step.Enqueue? {
        CountUpdate(s.senders, step.t, Apply(s, step).senders[step.t], Tries(i));
      }
    }
  }

  /** After a push its sender will try to raise the flag. */
  lemma PushAttends(s: State, step: Step, i: nat)
    requires Sound(s) && i < |s.services| && PushesTo(s, step, i)
    ensures |Next(s, step).services| == |s.services| && Attended(Next(s, step), i)
  {
    CountSome(Next(s, step).senders, step.t, Tries(i));
  }

  lemma NextStrandedIff(s: State, step: Step, i: nat)
    requires Inv(s) && i < |s.services|
    ensures |Next(s, step).services| == |s.services|
    ensures !Attended(Next(s, step), i) <==>
      if Attended(s, i) then Enabled(s, step) && Strands(s, step, i) else !PushesTo(s, step, i)
  {
    if Attended(s, i) {
      if Enabled(s, step) {
        StrandedIff(s, step, i);
      }
    } else if PushesTo(s, step, i) {
      PushAttends(s, step, i);
    } else {
      StaysStranded(s, step, i);
    }
  }

  /** A step that strands messages finds somebody attending to them. */
  lemma StrandsAttended(s: State, step: Step, i: nat)
    requires Inv(s) && Enabled(s, step) && i < |s.services| && Strands(s, step, i)
    ensures Attended(s, i) && !PushesTo(s, step, i)
  {
    if step.Clear? {
      RunnerKeepsFlag(s, step.w);
    }
  }

  /** What a step does to the messages of one service, as far as attention to them goes. */
  datatype Event = Stranding | Pushing | Other

  ghost function EventOf(s: State, step: Step, i: nat): Event
    requires Sound(s) && i < |s.services|
  {
    if Enabled(s, step) && Strands(s, step, i) then Stranding
    else if PushesTo(s, step, i) then Pushing
    else Other
  }

  /** The events of a run, step by step. */
  ghost function Events(c: Config, steps: seq<Step>, i: nat): (r: seq<Event>)
    requires i < c.services
    ensures |r| == |steps|
  {
    if steps == [] then []
    else
      var last := |steps| - 1;
      HistoryKept(c, steps[..last], i);
      Events(c, steps[..last], i) + [EventOf(After(c, steps[..last]), steps[last], i)]
  }

  ghost predicate LeftAt(events: seq<Event>, k: nat)
    requires k < |events|
  {
    events[k] == Stranding && forall j | k < j < |events| :: events[j] != Pushing
  }

  /** Some step strands messages, and no push takes place after it. */
  ghost predicate LeftBehind(events: seq<Event>) {
    exists k: nat :: k < |events| && LeftAt(events, k)
  }

  lemma LeftBehindNext(events: seq<Event>, e: Event)
    ensures LeftBehind(events + [e]) <==> e == Stranding || (LeftBehind(events) && e != Pushing)
  {
    var all := events + [e];
    if LeftBehind(all) {
      var k: nat :| k < |all| && LeftAt(all, k);
      if k < |events| {
        assert all[|events|] != Pushing;
        forall j | k < j < |events| ensures events[j] != Pushing {
          assert all[j] == events[j];
        }
        assert LeftAt(events, k);
      }
    }
    if e == Stranding {
      assert LeftAt(all, |events|);
    } else if LeftBehind(events) && e != Pushing {
      var k: nat :| k < |events| && LeftAt(events, k);
      assert LeftAt(all, k);
    }
  }

  lemma NextLeft(s: State, step: Step, i: nat)
    requires Inv(s) && i < |s.services|
    ensures |Next(s, step).services| == |s.services|
    ensures var e := EventOf(s, step, i);
      !Attended(Next(s, step), i) <==> e == Stranding || (!Attended(s, i) && e != Pushing)
  {
    NextStrandedIff(s, step, i);
    if Enabled(s, step) && Strands(s, step, i) {
      StrandsAttended(s, step, i);
    }
  }

  /** In every run, messages of a service are in its queue with nobody to attend to them if and only if some
      step stranded them and no push to the service took place after it. */
  lemma {:induction false} LeftBehindIff(c: Config, steps: seq<Step>, i: nat)
    requires i < c.services
    ensures |After(c, steps).services| == c.services
    ensures !Attended(After(c, steps), i) <==> LeftBehind(Events(c, steps, i))
  {
    if steps != [] {
      var last := |steps| - 1;
      var s := After(c, steps[..last]);
      LeftBehindIff(c, steps[..last], i);
      NextLeft(s, steps[last], i);
      LeftBehindNext(Events(c, steps[..last], i), EventOf(s, steps[last], i));
    }
  }

  // ----- two runs that strand a message

  lemma AfterOne(c: Config, steps: seq<Step>, step: Step)
    ensures After(c, steps + [step]) == Next(After(c, steps), step)
  {
    assert (steps + [step])[..|steps|] == steps;
  }

  /** The state with one service, one sender and one worker. */
  ghost function Tiny(v: Service, global: seq<nat>, t: Sender, w: Worker): State {
    State([v], global, [t], [w])
  }

  /** Two states with one service each are equal if their parts are. */
  ghost predicate Alike(r: State, n: State) {
    && |r.services| == |n.services| == 1
    && r.services[0].queue == n.services[0].queue && r.services[0].count == n.services[0].count
    && r.services[0].locked == n.services[0].locked && r.services[0].invoke == n.services[0].invoke
    && r.services[0].sent == n.services[0].sent && r.services[0].handled == n.services[0].handled
    && r.global == n.global && r.senders == n.senders && r.workers == n.workers
  }

  lemma AlikeEqual(r: State, n: State)
    requires Alike(r, n)
    ensures r == n
  {
    assert r.services == n.services;
  }

  lemma Extend(steps: seq<Step>, step: Step, s: State, n: State)
    requires After(Config(1, 1, 1), steps) == s && Sound(s) && Enabled(s, step) && Alike(Apply(s, step), n)
    ensures After(Config(1, 1, 1), steps + [step]) == n
  {
    AfterOne(Config(1, 1, 1), steps, step);
    AlikeEqual(Apply(s, step), n);
  }

  const FIRST_SENT := [Push(0, 0, 1)] + [Count(0)] + [Swap(0, false)] + [Enqueue(0)]
  const FIRST_POPPED := FIRST_SENT + [Take(0)] + [Size(0)] + [PopMsg(0)]
  const FIRST_HANDLED := FIRST_POPPED + [Done(0)] + [Test(0)]
  const SECOND_MISSED := FIRST_HANDLED + [Push(0, 0, 2)] + [Count(0)] + [Swap(0, false)] + [Clear(0)]

  lemma AfterCounted()
    ensures After(Config(1, 1, 1), [Push(0, 0, 1)] + [Count(0)])
            == Tiny(Service([1], 1, false, false, [1], []), [], Swapping(0), Waiting)
  {
    var s0, s1 := Service([], 0, false, false, [], []), Service([1], 0, true, false, [1], []);
    var s2 := Service([1], 1, false, false, [1], []);
    assert After(Config(1, 1, 1), []) == Tiny(s0, [], Ready, Waiting) by {
      var s := Init(Config(1, 1, 1));
      assert s.services == [s0] && s.senders == [Ready] && s.workers == [Waiting];
    }
    Extend([], Push(0, 0, 1), Tiny(s0, [], Ready, Waiting), Tiny(s1, [], Counting(0), Waiting));
    assert [] + [Push(0, 0, 1)] == [Push(0, 0, 1)];
    Extend([Push(0, 0, 1)], Count(0), Tiny(s1, [], Counting(0), Waiting), Tiny(s2, [], Swapping(0), Waiting));
  }

  lemma AfterFirstSent()
    ensures After(Config(1, 1, 1), FIRST_SENT) == Tiny(Service([1], 1, false, true, [1], []), [0], Ready, Waiting)
  {
    var s2, s3 := Service([1], 1, false, false, [1], []), Service([1], 1, false, true, [1], []);
    AfterCounted();
    Extend([Push(0, 0, 1)] + [Count(0)], Swap(0, false),
           Tiny(s2, [], Swapping(0), Waiting), Tiny(s3, [], Raised(0), Waiting));
    Extend([Push(0, 0, 1)] + [Count(0)] + [Swap(0, false)], Enqueue(0),
           Tiny(s3, [], Raised(0), Waiting), Tiny(s3, [0], Ready, Waiting));
  }

  lemma AfterFirstPopped()
    ensures After(Config(1, 1, 1), FIRST_POPPED)
            == Tiny(Service([], 0, false, true, [1], [1]), [], Ready, Looping(0, 0))
  {
    AfterFirstSent();
    var s3, s4 := Service([1], 1, false, true, [1], []), Service([], 0, false, true, [1], [1]);
    var steps := FIRST_SENT;
    Extend(steps, Take(0), Tiny(s3, [0], Ready, Waiting), Tiny(s3, [], Ready, Starting(0)));
    steps := steps + [Take(0)];
    Extend(steps, Size(0), Tiny(s3, [], Ready, Starting(0)), Tiny(s3, [], Ready, Looping(0, 1)));
    steps := steps + [Size(0)];
    Extend(steps, PopMsg(0), Tiny(s3, [], Ready, Looping(0, 1)), Tiny(s4, [], Ready, Looping(0, 0)));
  }

  lemma AfterFirstHandled()
    ensures After(Config(1, 1, 1), FIRST_HANDLED)
            == Tiny(Service([], 0, false, true, [1], [1]), [], Ready, Clearing(0))
  {
    AfterFirstPopped();
    var s4 := Service([], 0, false, true, [1], [1]);
    Extend(FIRST_POPPED, Done(0), Tiny(s4, [], Ready, Looping(0, 0)), Tiny(s4, [], Ready, Testing(0)));
    Extend(FIRST_POPPED + [Done(0)], Test(0), Tiny(s4, [], Ready, Testing(0)), Tiny(s4, [], Ready, Clearing(0)));
  }

  lemma AfterSecondPushed()
    ensures After(Config(1, 1, 1), FIRST_HANDLED + [Push(0, 0, 2)] + [Count(0)])
            == Tiny(Service([2], 1, false, true, [1, 2], [1]), [], Swapping(0), Clearing(0))
  {
    AfterFirstHandled();
    var s4, s5 := Service([], 0, false, true, [1], [1]), Service([2], 0, true, true, [1, 2], [1]);
    var s6 := Service([2], 1, false, true, [1, 2], [1]);
    Extend(FIRST_HANDLED, Push(0, 0, 2), Tiny(s4, [], Ready, Clearing(0)), Tiny(s5, [], Counting(0), Clearing(0)));
    Extend(FIRST_HANDLED + [Push(0, 0, 2)], Count(0),
           Tiny(s5, [], Counting(0), Clearing(0)), Tiny(s6, [], Swapping(0), Clearing(0)));
  }

  /** A run in which every thread ends idle, the flag is down and a message is left in the queue: it was
      pushed after the worker found the queue empty and before the worker lowered the flag. */
  lemma MessageLeftBehind()
    ensures After(Config(1, 1, 1), SECOND_MISSED)
            == Tiny(Service([2], 1, false, false, [1, 2], [1]), [], Ready, Waiting)
  {
    AfterSecondPushed();
    var s6, s7 := Service([2], 1, false, true, [1, 2], [1]), Service([2], 1, false, false, [1, 2], [1]);
    var steps := FIRST_HANDLED + [Push(0, 0, 2)] + [Count(0)];
    Extend(steps, Swap(0, false), Tiny(s6, [], Swapping(0), Clearing(0)), Tiny(s6, [], Ready, Clearing(0)));
    steps := steps + [Swap(0, false)];
    Extend(steps, Clear(0), Tiny(s6, [], Ready, Clearing(0)), Tiny(s7, [], Ready, Waiting));
  }

  /** The same after a single push, when the compare-exchange of its sender fails for no reason. */
  lemma SpuriouslyLeftBehind()
    ensures After(Config(1, 1, 1), [Push(0, 0, 1)] + [Count(0)] + [Swap(0, true)])
            == Tiny(Service([1], 1, false, false, [1], []), [], Ready, Waiting)
  {
    var s2 := Service([1], 1, false, false, [1], []);
    AfterCounted();
    Extend([Push(0, 0, 1)] + [Count(0)], Swap(0, true),
           Tiny(s2, [], Swapping(0), Waiting), Tiny(s2, [], Ready, Waiting));
  }
}
