/** The direct consumer: a dispatcher, workers, a monitor that restarts panicked workers, and
    shutdown, as a transition system over their channel operations. */
module Consumer {

  type Message = nat

  /** Where a worker goroutine is: at its select, holding a message it has received, inside
      `process`, requeueing after a panic, sending its id for a restart, or ended. */
  datatype Phase = Idle | Holding(m: Message) | Busy(m: Message) | Retrying(m: Message) | Sending | Gone

  datatype Worker = Worker(id: nat, phase: Phase)

  datatype Dispatcher = Receiving | Hand(m: Message) | Closed

  datatype Monitor = Waiting | Has(id: nat) | Ended

  /** `Start` itself: spawning workers, waiting for cancellation, waiting for the goroutines
      after closing `restart`, returned. */
  datatype Main = Spawning | Running | Joining | Returned

  datatype State = State(
    concurrency: nat,
    main: Main, spawned: nat,
    dispatcher: Dispatcher, monitor: Monitor, workers: seq<Worker>,
    buffer: seq<Message>,
    busyCounter: int,
    cancelled: bool, inputClosed: bool, workerCancelled: bool, crashed: bool,
    received: set<Message>, finished: multiset<Message>,
    /** The deliveries the broker has no answer to yet; it sends no more than the prefetch limit. */
    unanswered: set<Message>)

  datatype Step =
    | Cancel | CloseInput | CancelWorkers                // the environment
    | Deliver(m: Message) | Enqueue | CloseMessages      // dispatcher
    | Spawn | Watch | CloseRestart | Return              // Start
    | Handoff(w: nat) | Respawn | EndMonitor             // monitor
    | Take(w: nat) | Begin(w: nat) | Complete(w: nat)    // worker
    | Panic(w: nat) | Retry(w: nat) | SendClosed(w: nat)
    | End(w: nat) | Quit(w: nat) | Answer(m: Message)

  function Init(n: nat): State {
    State(n, Spawning, 0, Receiving, Waiting, [], [], 0, false, false, false, false, {}, multiset{}, {})
  }

  predicate At(s: State, w: nat, phase: Phase) {
    w < |s.workers| && s.workers[w].phase == phase
  }

  predicate RestartOpen(s: State) {
    s.main == Spawning || s.main == Running
  }

  predicate Live(p: Worker) {
    p.phase != Gone
  }

  predicate AllGone(s: State) {
    forall w :: 0 <= w < |s.workers| ==> !Live(s.workers[w])
  }

  /** The prefetch limit is the concurrency; zero is no limit. */
  predicate Prefetches(s: State) {
    s.concurrency == 0 || |s.unanswered| < s.concurrency
  }

  predicate IsProcessing(p: Worker, m: Message) {
    p.phase == Busy(m) || p.phase == Retrying(m)
  }

  /** A delivery may be answered from when it is processed. */
  predicate Started(s: State, m: Message) {
    m in s.finished || exists w :: 0 <= w < |s.workers| && IsProcessing(s.workers[w], m)
  }

  predicate Enabled(s: State, step: Step) {
    !s.crashed && s.main != Returned &&
    match step
    case Cancel => true
    case CloseInput => true
    case CancelWorkers => true
    case Deliver(m) => s.dispatcher == Receiving && !s.inputClosed && m !in s.received && Prefetches(s)
    case Enqueue => s.dispatcher.Hand? && |s.buffer| < s.concurrency
    case CloseMessages => s.dispatcher == Receiving && s.inputClosed
    case Spawn => s.main == Spawning && s.spawned < s.concurrency
    case Watch => s.main == Spawning && s.spawned == s.concurrency
    case CloseRestart => s.main == Running && s.cancelled
    case Return => s.main == Joining && s.dispatcher == Closed && s.monitor == Ended && AllGone(s)
    case Handoff(w) => At(s, w, Sending) && s.monitor == Waiting && RestartOpen(s)
    case Respawn => s.monitor.Has?
    case EndMonitor => s.monitor == Waiting && !RestartOpen(s)
    case Take(w) => At(s, w, Idle) && s.buffer != []
    case Begin(w) => w < |s.workers| && s.workers[w].phase.Holding?
    case Complete(w) => w < |s.workers| && s.workers[w].phase.Busy?
    case Panic(w) => w < |s.workers| && s.workers[w].phase.Busy?
    case Retry(w) => w < |s.workers| && s.workers[w].phase.Retrying?
    case SendClosed(w) => At(s, w, Sending) && !RestartOpen(s)
    case End(w) => At(s, w, Idle) && s.buffer == [] && s.dispatcher == Closed
    case Quit(w) => At(s, w, Idle) && s.workerCancelled
    case Answer(m) => m in s.unanswered && Started(s, m)
  }

  function Move(s: State, w: nat, phase: Phase): State
    requires w < |s.workers|
  {
    s.(workers := s.workers[w := Worker(s.workers[w].id, phase)])
  }

  function Do(s: State, step: Step): State
    requires Enabled(s, step)
  {
    match step
    case Cancel => s.(cancelled := true)
    case CloseInput => s.(inputClosed := true)
    case CancelWorkers => s.(workerCancelled := true)
    case Deliver(m) => s.(dispatcher := Hand(m), received := s.received + {m}, unanswered := s.unanswered + {m})
    case Enqueue => s.(dispatcher := Receiving, buffer := s.buffer + [s.dispatcher.m])
    case CloseMessages => s.(dispatcher := Closed)
    case Spawn => s.(spawned := s.spawned + 1, workers := s.workers + [Worker(s.spawned + 1, Idle)])
    case Watch => s.(main := Running)
    case CloseRestart => s.(main := Joining)
    case Return => s.(main := Returned)
    case Handoff(w) => Move(s, w, Gone).(monitor := Has(s.workers[w].id))
    case Respawn => s.(monitor := Waiting, workers := s.workers + [Worker(s.monitor.id, Idle)])
    case EndMonitor => s.(monitor := Ended)
    case Take(w) => Move(s, w, Holding(s.buffer[0])).(buffer := s.buffer[1..])
    case Begin(w) => Move(s, w, Busy(s.workers[w].phase.m)).(busyCounter := s.busyCounter + 1)
    case Complete(w) => Move(s, w, Idle).(busyCounter := s.busyCounter - 1, finished := s.finished +
                                          multiset{s.workers[w].phase.m})
    case Panic(w) => Move(s, w, Retrying(s.workers[w].phase.m)).(busyCounter := s.busyCounter - 1)
    case Retry(w) => Move(s, w, Sending).(finished := s.finished + multiset{s.workers[w].phase.m})
    case SendClosed(w) => s.(crashed := true)
    case End(w) => Move(s, w, Gone)
    case Quit(w) => Move(s, w, Gone)
    case Answer(m) => s.(unanswered := s.unanswered - {m})
  }

  /** `run` is the list of states that `steps` lead through from the start. */
  ghost predicate IsRun(n: nat, steps: seq<Step>, run: seq<State>) {
    && |run| == |steps| + 1 && run[0] == Init(n)
    && forall i :: 0 <= i < |steps| ==> Enabled(run[i], steps[i]) && run[i + 1] == Do(run[i], steps[i])
  }

  // ----- Where the messages are

  function Carries(p: Worker): multiset<Message> {
    if p.phase.Holding? || p.phase.Busy? || p.phase.Retrying? then multiset{p.phase.m} else multiset{}
  }

  function Carried(ws: seq<Worker>): multiset<Message> {
    if ws == [] then multiset{} else Carries(ws[0]) + Carried(ws[1..])
  }

  /** The messages in the dispatcher's hand, in the buffer, with a worker, and finished. */
  function Places(s: State): multiset<Message> {
    (if s.dispatcher.Hand? then multiset{s.dispatcher.m} else multiset{}) + multiset(s.buffer) + Carried(s.workers) +
      s.finished
  }

  /** Every received message is in exactly one place, exactly once, and nothing else is anywhere. */
  predicate Conserved(s: State) {
    Places(s) == multiset(s.received)
  }

  // ----- Deliveries not started yet

  function HeldBy(p: Worker): multiset<Message> {
    if p.phase.Holding? then multiset{p.phase.m} else multiset{}
  }

  function Held(ws: seq<Worker>): multiset<Message> {
    if ws == [] then multiset{} else HeldBy(ws[0]) + Held(ws[1..])
  }

  function InHand(s: State): multiset<Message> {
    if s.dispatcher.Hand? then multiset{s.dispatcher.m} else multiset{}
  }

  function Unstarted(s: State): multiset<Message> {
    InHand(s) + multiset(s.buffer) + Held(s.workers)
  }

  /** No delivery is answered before it is processed, and there are never more without an answer
      than the prefetch limit. */
  predicate Prefetched(s: State) {
    && s.unanswered <= s.received
    && (s.concurrency > 0 ==> |s.unanswered| <= s.concurrency)
    && (s.concurrency == 0 ==> s.finished == multiset{})
    && Unstarted(s) <= multiset(s.unanswered)
  }

  // ----- Worker ids and the busy counter

  /** Ids of live workers are distinct, never that of the worker being restarted, and among those spawned. */
  predicate DistinctIds(s: State) {
    && s.spawned <= s.concurrency
    && (s.main != Spawning ==> s.spawned == s.concurrency)
    && (forall v, w :: 0 <= v < w < |s.workers| && Live(s.workers[v]) && Live(s.workers[w]) ==>
        s.workers[v].id != s.workers[w].id)
    && (forall w :: 0 <= w < |s.workers| ==> 1 <= s.workers[w].id <= s.spawned)
    && (s.monitor.Has? ==> 1 <= s.monitor.id <= s.spawned && forall w :: 0 <= w < |s.workers| && Live(s.workers[w]) ==>
        s.workers[w].id != s.monitor.id)
  }

  function Count(b: bool): nat {
    if b then 1 else 0
  }

  function BusyWorkers(ws: seq<Worker>): nat {
    if ws == [] then 0 else Count(ws[0].phase.Busy?) + BusyWorkers(ws[1..])
  }

  // ----- Shutdown

  /** `id` belongs to a live worker or to the one being restarted. */
  predicate Manned(s: State, id: nat) {
    (exists w :: 0 <= w < |s.workers| && Live(s.workers[w]) && s.workers[w].id == id) || s.monitor == Has(id)
  }

  /** Unless the worker context was cancelled, a worker ends only once the buffer is drained
      and closed. The monitor ends only after `restart` is closed, the last goroutine to be
      waited for before `Start` returns. */
  predicate Graceful(s: State) {
    && |s.buffer| <= s.concurrency
    && (s.dispatcher == Closed ==> s.inputClosed)
    && (!s.workerCancelled && !(s.dispatcher == Closed && s.buffer == []) ==> forall id :: 1 <= id <= s.spawned ==>
        Manned(s, id))
    && (s.monitor == Ended ==> !RestartOpen(s))
    && (!RestartOpen(s) ==> s.cancelled)
    && (s.crashed ==> s.main == Joining)
    && (s.main == Returned ==> s.dispatcher == Closed && s.monitor == Ended && AllGone(s))
  }

  predicate Inv(s: State) {
    Conserved(s) && DistinctIds(s) && Graceful(s) && Prefetched(s) && s.busyCounter == BusyWorkers(s.workers)
  }

  // ----- Replacing or adding a worker

  lemma Swapped(first: multiset<Message>, a: multiset<Message>, x: multiset<Message>, b: multiset<Message>,
                y: multiset<Message>)
    requires a + x == b + y
    ensures (first + a) + x == (first + b) + y
  {
    assert (first + a) + x == first + (a + x) && (first + b) + y == first + (b + y);
  }

  lemma {:induction false} MovedCarried(ws: seq<Worker>, w: nat, p: Worker)
    requires w < |ws|
    ensures Carried(ws[w := p]) + Carries(ws[w]) == Carried(ws) + Carries(p)
  {
    var vs := ws[w := p];
    if w == 0 {
      assert vs[1..] == ws[1..];
      assert (Carries(p) + Carried(ws[1..])) + Carries(ws[0]) == (Carries(ws[0]) + Carried(ws[1..])) + Carries(p);
    } else {
      assert vs[1..] == ws[1..][w - 1 := p] && vs[0] == ws[0];
      MovedCarried(ws[1..], w - 1, p);
      Swapped(Carries(ws[0]), Carried(ws[1..][w - 1 := p]), Carries(ws[w]), Carried(ws[1..]), Carries(p));
    }
  }

  lemma {:induction false} MovedBusy(ws: seq<Worker>, w: nat, p: Worker)
    requires w < |ws|
    ensures BusyWorkers(ws[w := p]) + Count(ws[w].phase.Busy?) == BusyWorkers(ws) + Count(p.phase.Busy?)
  {
    var vs := ws[w := p];
    if w == 0 {
      assert vs[1..] == ws[1..];
    } else {
      assert vs[1..] == ws[1..][w - 1 := p] && vs[0] == ws[0];
      MovedBusy(ws[1..], w - 1, p);
    }
  }

  lemma {:induction false} AddedWorker(ws: seq<Worker>, p: Worker)
    ensures Carried(ws + [p]) == Carried(ws) + Carries(p)
    ensures BusyWorkers(ws + [p]) == BusyWorkers(ws) + Count(p.phase.Busy?)
  {
    if ws == [] {
      assert (ws + [p])[1..] == [];
    } else {
      assert (ws + [p])[1..] == ws[1..] + [p];
      AddedWorker(ws[1..], p);
    }
  }

  lemma {:induction false} MovedHeld(ws: seq<Worker>, w: nat, p: Worker)
    requires w < |ws|
    ensures Held(ws[w := p]) + HeldBy(ws[w]) == Held(ws) + HeldBy(p)
  {
    var vs := ws[w := p];
    if w == 0 {
      assert vs[1..] == ws[1..];
      assert (HeldBy(p) + Held(ws[1..])) + HeldBy(ws[0]) == (HeldBy(ws[0]) + Held(ws[1..])) + HeldBy(p);
    } else {
      assert vs[1..] == ws[1..][w - 1 := p] && vs[0] == ws[0];
      MovedHeld(ws[1..], w - 1, p);
      Swapped(HeldBy(ws[0]), Held(ws[1..][w - 1 := p]), HeldBy(ws[w]), Held(ws[1..]), HeldBy(p));
    }
  }

  lemma {:induction false} AddedHeld(ws: seq<Worker>, p: Worker)
    ensures Held(ws + [p]) == Held(ws) + HeldBy(p)
  {
    if ws == [] {
      assert (ws + [p])[1..] == [];
    } else {
      assert (ws + [p])[1..] == ws[1..] + [p];
      AddedHeld(ws[1..], p);
    }
  }

  lemma {:induction false} HeldIsCarried(ws: seq<Worker>)
    ensures Held(ws) <= Carried(ws)
  {
    if ws != [] {
      HeldIsCarried(ws[1..]);
    }
  }

  lemma {:induction false} ProcessingIsNotHeld(ws: seq<Worker>, w: nat, m: Message)
    requires w < |ws| && IsProcessing(ws[w], m)
    ensures Held(ws)[m] < Carried(ws)[m]
  {
    HeldIsCarried(ws[1..]);
    if w > 0 {
      ProcessingIsNotHeld(ws[1..], w - 1, m);
    }
  }

  lemma InitInv(n: nat)
    ensures Inv(Init(n))
  {
  }

  /** One worker moves: the messages it, the buffer and the finished bag hold are the same in sum. */
  lemma MoveConserves(s: State, t: State, w: nat)
    requires Conserved(s) && s.busyCounter == BusyWorkers(s.workers)
    requires w < |s.workers| && |t.workers| == |s.workers| && t.workers == s.workers[w := t.workers[w]]
    requires t.dispatcher == s.dispatcher && t.received == s.received
    requires multiset(t.buffer) + Carries(t.workers[w]) + t.finished == multiset(s.buffer) + Carries(s.workers[w]) +
      s.finished
    requires t.busyCounter - s.busyCounter == Count(t.workers[w].phase.Busy?) - Count(s.workers[w].phase.Busy?)
    ensures Conserved(t) && t.busyCounter == BusyWorkers(t.workers)
  {
    MovedCarried(s.workers, w, t.workers[w]);
    MovedBusy(s.workers, w, t.workers[w]);
    assert Carried(t.workers) + Carries(s.workers[w]) == Carried(s.workers) + Carries(t.workers[w]);
    forall m
      ensures Places(t)[m] == Places(s)[m]
    {
      assert Carried(t.workers)[m] + Carries(s.workers[w])[m] == (Carried(t.workers) + Carries(s.workers[w]))[m];
      assert Carried(s.workers)[m] + Carries(t.workers[w])[m] == (Carried(s.workers) + Carries(t.workers[w]))[m];
      var x, y := multiset(t.buffer) + Carries(t.workers[w]) + t.finished, multiset(s.buffer) + Carries(s.workers[w]) +
        s.finished;
      assert x[m] == y[m];
    }
  }

  lemma AddConserves(s: State, t: State)
    requires Conserved(s) && s.busyCounter == BusyWorkers(s.workers)
    requires |t.workers| == |s.workers| + 1 && t.workers == s.workers + [Worker(t.workers[|s.workers|].id, Idle)]
    requires t.dispatcher == s.dispatcher && t.received == s.received && t.buffer == s.buffer &&
      t.finished == s.finished
    requires t.busyCounter == s.busyCounter
    ensures Conserved(t) && t.busyCounter == BusyWorkers(t.workers)
  {
    AddedWorker(s.workers, t.workers[|s.workers|]);
  }

  /** The worker a step moves, if any. */
  function Mover(step: Step): (w: int) {
    match step
    case Handoff(w) => w
    case Take(w) => w
    case Begin(w) => w
    case Complete(w) => w
    case Panic(w) => w
    case Retry(w) => w
    case End(w) => w
    case Quit(w) => w
    case _ => -1
  }

  lemma MoverShape(s: State, step: Step)
    requires Enabled(s, step) && Mover(step) >= 0
    ensures Mover(step) < |s.workers| && |Do(s, step).workers| == |s.workers|
    ensures Do(s, step).workers == s.workers[Mover(step) := Do(s, step).workers[Mover(step)]]
    ensures Do(s, step).dispatcher == s.dispatcher
    ensures Do(s, step).received == s.received && Do(s, step).unanswered == s.unanswered
  {
    match step {
      case Handoff(_) =>
      case Take(_) =>
      case Begin(_) =>
      case Complete(_) =>
      case Panic(_) =>
      case Retry(_) =>
      case End(_) =>
      case Quit(_) =>
    }
  }

  lemma MoverMessages(s: State, step: Step)
    requires Enabled(s, step) && Mover(step) >= 0
    ensures Mover(step) < |s.workers| && |Do(s, step).workers| == |s.workers|
    ensures var t, w := Do(s, step), Mover(step);
      multiset(t.buffer) + Carries(t.workers[w]) + t.finished == multiset(s.buffer) + Carries(s.workers[w]) + s.finished
  {
    if step.Take? {
      assert s.buffer == [s.buffer[0]] + s.buffer[1..];
    } else {
      OtherMessages(s, step);
    }
  }

  lemma OtherMessages(s: State, step: Step)
    requires Enabled(s, step) && Mover(step) >= 0 && !step.Take?
    ensures var t, w := Do(s, step), Mover(step);
      t.buffer == s.buffer && Carries(t.workers[w]) + t.finished == Carries(s.workers[w]) + s.finished
  {
  }

  lemma MoverBusy(s: State, step: Step)
    requires Enabled(s, step) && Mover(step) >= 0
    ensures Mover(step) < |s.workers| && |Do(s, step).workers| == |s.workers|
    ensures var t, w := Do(s, step), Mover(step);
      t.busyCounter - s.busyCounter == Count(t.workers[w].phase.Busy?) - Count(s.workers[w].phase.Busy?)
  {
  }

  lemma StepConserves(s: State, step: Step)
    requires Conserved(s) && s.busyCounter == BusyWorkers(s.workers) && Enabled(s, step)
    ensures Conserved(Do(s, step))
    ensures Do(s, step).busyCounter == BusyWorkers(Do(s, step).workers)
  {
    var t := Do(s, step);
    if Mover(step) >= 0 {
      MoverShape(s, step);
      MoverMessages(s, step);
      MoverBusy(s, step);
      MoveConserves(s, t, Mover(step));
    } else if step.Spawn? || step.Respawn? {
      AddConserves(s, t);
    } else if step.Deliver? {
      assert multiset(s.received + {step.m}) == multiset(s.received) + multiset{step.m};
    } else {
      OtherPlaces(s, step);
    }
  }

  lemma OtherPlaces(s: State, step: Step)
    requires Enabled(s, step) && Mover(step) < 0 && !step.Spawn? && !step.Respawn? && !step.Deliver?
    ensures
      var t := Do(s, step);
      && Places(t) == Places(s) && t.received == s.received
      && t.busyCounter == s.busyCounter && t.workers == s.workers
  {
    if step.Enqueue? {
      var t := Do(s, step);
      assert multiset(t.buffer) == multiset(s.buffer) + InHand(s);
    }
  }

  /** A delivery that is processed, or was, is nowhere else. */
  lemma StartedOnce(s: State, m: Message)
    requires Conserved(s) && Started(s, m)
    ensures Unstarted(s)[m] == 0
  {
    assert Places(s)[m] <= 1;
    HeldIsCarried(s.workers);
    if m !in s.finished {
      var w :| 0 <= w < |s.workers| && IsProcessing(s.workers[w], m);
      ProcessingIsNotHeld(s.workers, w, m);
    }
  }

  lemma MoverHeld(s: State, step: Step)
    requires Enabled(s, step) && Mover(step) >= 0
    ensures Mover(step) < |s.workers| && |Do(s, step).workers| == |s.workers| && Do(s, step).unanswered == s.unanswered
    ensures
      var t, w := Do(s, step), Mover(step);
      multiset(t.buffer) + HeldBy(t.workers[w]) <= multiset(s.buffer) + HeldBy(s.workers[w])
  {
    if step.Take? {
      assert s.buffer == [s.buffer[0]] + s.buffer[1..];
    } else {
      OtherMessages(s, step);
    }
  }

  lemma MoveUnstarted(s: State, t: State, w: nat)
    requires w < |s.workers| && |t.workers| == |s.workers| && t.workers == s.workers[w := t.workers[w]]
    requires t.dispatcher == s.dispatcher
    requires multiset(t.buffer) + HeldBy(t.workers[w]) <= multiset(s.buffer) + HeldBy(s.workers[w])
    ensures Unstarted(t) <= Unstarted(s)
  {
    MovedHeld(s.workers, w, t.workers[w]);
    forall m
      ensures multiset(t.buffer)[m] + Held(t.workers)[m] <= multiset(s.buffer)[m] + Held(s.workers)[m]
    {
      assert (Held(t.workers) + HeldBy(s.workers[w]))[m] == (Held(s.workers) + HeldBy(t.workers[w]))[m];
      assert (multiset(t.buffer) + HeldBy(t.workers[w]))[m] <= (multiset(s.buffer) + HeldBy(s.workers[w]))[m];
    }
  }

  lemma SomeWorker(s: State)
    requires DistinctIds(s) && s.workers != []
    ensures s.concurrency > 0
  {
    assert 1 <= s.workers[0].id <= s.spawned;
  }

  lemma KeepsLimits(s: State, step: Step)
    requires Enabled(s, step) && !step.Deliver? && !step.Answer?
    ensures Do(s, step).unanswered == s.unanswered && Do(s, step).received == s.received
  {
    if Mover(step) >= 0 {
      MoverShape(s, step);
    }
  }

  /** Without a worker nothing is ever finished. */
  lemma NoneFinished(s: State, step: Step)
    requires Enabled(s, step) && s.workers == []
    ensures Do(s, step).finished == s.finished
  {
  }

  lemma LessOne(u: set<Message>, m: Message)
    ensures |u - {m}| <= |u|
  {
    if m in u {
      assert u == (u - {m}) + {m};
    } else {
      assert u - {m} == u;
    }
  }

  lemma StepLimits(s: State, step: Step)
    requires DistinctIds(s) && Prefetched(s) && Enabled(s, step)
    ensures
      var t := Do(s, step);
      && t.unanswered <= t.received
      && (s.concurrency > 0 ==> |t.unanswered| <= s.concurrency)
      && (s.concurrency == 0 ==> t.finished == multiset{})
  {
    if s.workers != [] {
      SomeWorker(s);
    } else {
      NoneFinished(s, step);
    }
    if step.Answer? {
      LessOne(s.unanswered, step.m);
    } else if !step.Deliver? {
      KeepsLimits(s, step);
    }
  }

  lemma WithoutOne(a: multiset<Message>, u: set<Message>, m: Message)
    requires a <= multiset(u) && a[m] == 0
    ensures a <= multiset(u - {m})
  {
    forall x
      ensures a[x] <= multiset(u - {m})[x]
    {
      assert a[x] <= multiset(u)[x];
    }
  }

  lemma AnswerUnstarted(s: State, m: Message)
    requires Conserved(s) && Started(s, m) && Unstarted(s) <= multiset(s.unanswered)
    ensures Unstarted(s.(unanswered := s.unanswered - {m})) <= multiset(s.unanswered - {m})
  {
    StartedOnce(s, m);
    WithoutOne(Unstarted(s), s.unanswered, m);
    assert Unstarted(s.(unanswered := s.unanswered - {m})) == Unstarted(s);
  }

  lemma DeliverUnstarted(s: State, m: Message)
    requires Enabled(s, Deliver(m)) && s.unanswered <= s.received && Unstarted(s) <= multiset(s.unanswered)
    ensures Unstarted(Do(s, Deliver(m))) <= multiset(Do(s, Deliver(m)).unanswered)
  {
    var t := Do(s, Deliver(m));
    assert InHand(s) == multiset{} && InHand(t) == multiset{m};
    assert Unstarted(t) == Unstarted(s) + multiset{m};
    assert multiset(t.unanswered) == multiset(s.unanswered) + multiset{m};
  }

  lemma EnqueueUnstarted(s: State)
    requires Enabled(s, Enqueue)
    ensures Unstarted(Do(s, Enqueue)) == Unstarted(s) && Do(s, Enqueue).unanswered == s.unanswered
  {
    var t := Do(s, Enqueue);
    assert InHand(t) == multiset{} && multiset(t.buffer) == multiset(s.buffer) + InHand(s);
  }

  lemma OtherUnstarted(s: State, step: Step)
    requires Enabled(s, step) && Mover(step) < 0
    requires !step.Spawn? && !step.Respawn? && !step.Deliver? && !step.Enqueue? && !step.Answer?
    ensures Unstarted(Do(s, step)) == Unstarted(s) && Do(s, step).unanswered == s.unanswered
  {
  }

  lemma StepPrefetched(s: State, step: Step)
    requires Conserved(s) && DistinctIds(s) && Prefetched(s) && Enabled(s, step)
    ensures Prefetched(Do(s, step))
  {
    var t := Do(s, step);
    StepLimits(s, step);
    StepConcurrency(s, step);
    if Mover(step) >= 0 {
      MoverShape(s, step);
      MoverHeld(s, step);
      MoveUnstarted(s, t, Mover(step));
    } else if step.Spawn? || step.Respawn? {
      AddedHeld(s.workers, t.workers[|s.workers|]);
    } else if step.Deliver? {
      DeliverUnstarted(s, step.m);
    } else if step.Enqueue? {
      EnqueueUnstarted(s);
    } else if step.Answer? {
      AnswerUnstarted(s, step.m);
    } else {
      OtherUnstarted(s, step);
    }
  }

  /** A step that adds no worker and takes none over keeps each worker's id and revives none. */
  lemma StepKeepsIds(s: State, step: Step)
    requires Enabled(s, step) && !step.Spawn? && !step.Respawn?
    ensures |Do(s, step).workers| == |s.workers|
    ensures forall v :: 0 <= v < |s.workers| ==> Do(s, step).workers[v].id == s.workers[v].id
    ensures forall v :: 0 <= v < |s.workers| && Live(Do(s, step).workers[v]) ==> Live(s.workers[v])
  {
    if Mover(step) >= 0 {
      MoverShape(s, step);
      assert Live(s.workers[Mover(step)]);
    } else {
      assert Do(s, step).workers == s.workers;
    }
  }

  lemma StepDistinctIds(s: State, step: Step)
    requires DistinctIds(s) && Enabled(s, step)
    ensures DistinctIds(Do(s, step))
  {
    var t := Do(s, step);
    if step.Spawn? || step.Respawn? {
      NewId(s, t);
    } else {
      StepKeepsIds(s, step);
      if step.Handoff? {
        HandedId(s, t, step.w);
      } else {
        IdsKept(s, t);
      }
    }
  }

  lemma HandedId(s: State, t: State, w: nat)
    requires DistinctIds(s) && w < |s.workers| && Live(s.workers[w])
    requires t.workers == s.workers[w := Worker(s.workers[w].id, Gone)] && t.monitor == Has(s.workers[w].id)
    requires t.spawned == s.spawned && t.concurrency == s.concurrency && t.main == s.main
    ensures DistinctIds(t)
  {
  }

  /** A worker is added under an id no live worker has. */
  lemma NewId(s: State, t: State)
    requires DistinctIds(s) && |t.workers| == |s.workers| + 1 && t.workers[..|s.workers|] == s.workers
    requires s.spawned <= t.spawned <= t.concurrency && t.main == s.main && t.concurrency == s.concurrency
    requires t.main != Spawning ==> t.spawned == s.spawned
    requires
      var id := t.workers[|s.workers|].id;
      1 <= id <= t.spawned && (id == s.spawned + 1 == t.spawned || s.monitor == Has(id))
    requires (t.monitor == s.monitor && t.workers[|s.workers|].id == s.spawned + 1) || t.monitor == Waiting
    ensures DistinctIds(t)
  {
    assert forall v :: 0 <= v < |s.workers| ==> t.workers[v] == s.workers[v];
  }

  /** Moving one worker on, without reviving an ended one, keeps the ids distinct. */
  lemma IdsKept(s: State, t: State)
    requires DistinctIds(s) && |t.workers| == |s.workers|
    requires forall v :: 0 <= v < |s.workers| ==>
      t.workers[v].id == s.workers[v].id && (Live(t.workers[v]) ==> Live(s.workers[v]))
    requires (t.monitor == s.monitor || !t.monitor.Has?) && t.spawned == s.spawned && t.concurrency == s.concurrency
    requires t.main != Spawning ==> t.spawned == t.concurrency
    ensures DistinctIds(t)
  {
  }

  lemma StepGraceful(s: State, step: Step)
    requires Graceful(s) && Enabled(s, step)
    ensures Graceful(Do(s, step))
  {
    var t := Do(s, step);
    if !t.workerCancelled && !(t.dispatcher == Closed && t.buffer == []) {
      forall id | 1 <= id <= t.spawned
        ensures Manned(t, id)
      {
        if step.Spawn? && id == t.spawned {
          assert Live(t.workers[|s.workers|]);
        } else {
          assert !s.workerCancelled && !(s.dispatcher == Closed && s.buffer == []);
          assert Manned(s, id);
          StillManned(s, step, id);
        }
      }
    }
    StepGracefulRest(s, step);
  }

  lemma StepGracefulRest(s: State, step: Step)
    requires Graceful(s) && Enabled(s, step)
    ensures var t := Do(s, step);
      && |t.buffer| <= t.concurrency
      && (t.dispatcher == Closed ==> t.inputClosed)
      && (t.monitor == Ended ==> !RestartOpen(t))
      && (!RestartOpen(t) ==> t.cancelled)
      && (t.crashed ==> t.main == Joining)
      && (t.main == Returned ==> t.dispatcher == Closed && t.monitor == Ended && AllGone(t))
  {
  }

  /** No worker ends before the buffer is drained and closed, unless it is to be restarted. */
  lemma StillManned(s: State, step: Step, id: nat)
    requires Enabled(s, step) && Manned(s, id) && !s.workerCancelled && !(s.dispatcher == Closed && s.buffer == [])
    ensures Manned(Do(s, step), id)
  {
    var t := Do(s, step);
    if s.monitor == Has(id) {
      if step.Respawn? {
        assert Live(t.workers[|s.workers|]);
      } else {
        assert t.monitor == Has(id);
      }
    } else {
      var v :| 0 <= v < |s.workers| && Live(s.workers[v]) && s.workers[v].id == id;
      if step.Handoff? && step.w == v {
        assert t.monitor == Has(id);
      } else {
        assert Live(t.workers[v]) && t.workers[v].id == id;
      }
    }
  }

  lemma StepInv(s: State, step: Step)
    requires Inv(s) && Enabled(s, step)
    ensures Inv(Do(s, step))
  {
    StepConserves(s, step);
    StepDistinctIds(s, step);
    StepGraceful(s, step);
    StepPrefetched(s, step);
  }

  lemma StepConcurrency(s: State, step: Step)
    requires Enabled(s, step)
    ensures Do(s, step).concurrency == s.concurrency
  {
  }

  /** The invariant holds in every state of every run. */
  lemma {:induction false} RunInv(n: nat, steps: seq<Step>, run: seq<State>, i: nat)
    requires IsRun(n, steps, run) && i < |run|
    ensures Inv(run[i]) && run[i].concurrency == n
  {
    if i == 0 {
      InitInv(n);
    } else {
      RunInv(n, steps, run, i - 1);
      StepInv(run[i - 1], steps[i - 1]);
      StepConcurrency(run[i - 1], steps[i - 1]);
    }
  }

  // ----- What the invariant means

  lemma {:induction false} BusyBound(ws: seq<Worker>, n: nat, ids: set<nat>)
    requires forall v, w :: 0 <= v < w < |ws| && Live(ws[v]) && Live(ws[w]) ==> ws[v].id != ws[w].id
    requires forall w :: 0 <= w < |ws| && Live(ws[w]) ==> ws[w].id in ids
    ensures BusyWorkers(ws) <= |ids|
  {
    if ws != [] {
      if Live(ws[0]) {
        BusyBound(ws[1..], n, ids - {ws[0].id});
      } else {
        BusyBound(ws[1..], n, ids);
      }
    }
  }

  function Ids(n: nat): (ids: set<nat>)
    ensures |ids| == n && forall id :: id in ids <==> 1 <= id <= n
  {
    if n == 0 then {} else Ids(n - 1) + {n}
  }

  /** In every state of every run: each received message is in exactly one place, live worker
      ids are distinct, and the busy counter counts the workers inside `process`, at most one
      per configured worker. */
  lemma Conservation(n: nat, steps: seq<Step>, run: seq<State>, i: nat)
    requires IsRun(n, steps, run) && i < |run|
    ensures Places(run[i]) == multiset(run[i].received) && DistinctIds(run[i])
    ensures run[i].busyCounter == BusyWorkers(run[i].workers) <= n
  {
    RunInv(n, steps, run, i);
    BusyBound(run[i].workers, n, Ids(n));
  }

  lemma {:induction false} NoneCarried(ws: seq<Worker>)
    requires forall w :: 0 <= w < |ws| ==> !Live(ws[w])
    ensures Carried(ws) == multiset{}
  {
    if ws != [] {
      NoneCarried(ws[1..]);
    }
  }

  /** If the worker context is never cancelled, `Start` returns only when every delivery it
      received has been processed, each exactly once, whatever panicked along the way. */
  lemma GracefulShutdown(n: nat, steps: seq<Step>, run: seq<State>)
    requires IsRun(n, steps, run)
    requires run[|steps|].main == Returned && !run[|steps|].workerCancelled
    ensures run[|steps|].finished == multiset(run[|steps|].received)
  {
    var s := run[|steps|];
    RunInv(n, steps, run, |steps|);
    NoneCarried(s.workers);
    Unmanned(s, 1);
    assert s.buffer == [];
  }

  /** Whatever was cancelled, when `Start` returns every delivery it received has been processed, each
      exactly once, or is left in the buffer, at most one a worker, and has no answer: the broker
      has it still. */
  lemma ReturnLeaves(n: nat, steps: seq<Step>, run: seq<State>)
    requires IsRun(n, steps, run) && run[|steps|].main == Returned
    ensures
      var s := run[|steps|];
      && s.finished + multiset(s.buffer) == multiset(s.received) && |s.buffer| <= n
      && (forall m :: m in s.buffer ==> m in s.unanswered)
      && (!s.workerCancelled ==> s.buffer == [])
  {
    var s := run[|steps|];
    RunInv(n, steps, run, |steps|);
    NoneCarried(s.workers);
    Unmanned(s, 1);
    forall m | m in s.buffer
      ensures m in s.unanswered
    {
      assert Unstarted(s)[m] > 0;
    }
  }

  lemma Unmanned(s: State, id: nat)
    requires AllGone(s) && s.monitor == Ended
    ensures !Manned(s, id)
  {
  }

  // ----- Shutdown ends

  function PhaseWeight(p: Worker): nat {
    match p.phase
    case Idle => 1
    case Holding(_) => 9
    case Busy(_) => 8
    case Retrying(_) => 7
    case Sending => 6
    case Gone => 0
  }

  function WorkersWeight(ws: seq<Worker>): nat {
    if ws == [] then 0 else PhaseWeight(ws[0]) + WorkersWeight(ws[1..])
  }

  function DispatcherWeight(d: Dispatcher): nat {
    match d case Receiving => 1 case Hand(_) => 12 case Closed => 0
  }

  function MonitorWeight(m: Monitor): nat {
    match m case Waiting => 1 case Has(_) => 5 case Ended => 0
  }

  function MainWeight(m: Main): nat {
    match m case Spawning => 3 case Running => 2 case Joining => 1 case Returned => 0
  }

  /** What is left to do but for the workers. */
  function OtherWeight(s: State): nat {
    DispatcherWeight(s.dispatcher) + 10 * |s.buffer| + MonitorWeight(s.monitor) + MainWeight(s.main) + |s.unanswered|
    + 2 * (if s.spawned <= s.concurrency then s.concurrency - s.spawned else 0)
    + (if s.crashed then 0 else 1)
  }

  /** How much is left to do once the input is closed. */
  function Weight(s: State): nat {
    OtherWeight(s) + WorkersWeight(s.workers)
  }

  predicate Environment(step: Step) {
    step.Cancel? || step.CloseInput? || step.CancelWorkers?
  }

  lemma {:induction false} MovedWeight(ws: seq<Worker>, w: nat, p: Worker)
    requires w < |ws|
    ensures WorkersWeight(ws[w := p]) + PhaseWeight(ws[w]) == WorkersWeight(ws) + PhaseWeight(p)
  {
    var vs := ws[w := p];
    if w == 0 {
      assert vs[1..] == ws[1..];
    } else {
      assert vs[1..] == ws[1..][w - 1 := p] && vs[0] == ws[0];
      MovedWeight(ws[1..], w - 1, p);
    }
  }

  lemma {:induction false} AddedWeight(ws: seq<Worker>, p: Worker)
    ensures WorkersWeight(ws + [p]) == WorkersWeight(ws) + PhaseWeight(p)
  {
    if ws == [] {
      assert (ws + [p])[1..] == [];
    } else {
      assert (ws + [p])[1..] == ws[1..] + [p];
      AddedWeight(ws[1..], p);
    }
  }

  lemma MoverWeight(s: State, step: Step)
    requires Enabled(s, step) && Mover(step) >= 0
    ensures Mover(step) < |s.workers| && |Do(s, step).workers| == |s.workers|
    ensures
      var t, w := Do(s, step), Mover(step);
      OtherWeight(t) + PhaseWeight(t.workers[w]) < OtherWeight(s) + PhaseWeight(s.workers[w])
  {
    if step.Take? {
      assert |Do(s, step).buffer| == |s.buffer| - 1;
    }
  }

  lemma RestWeight(s: State, step: Step)
    requires Enabled(s, step) && s.inputClosed && !Environment(step) && Mover(step) < 0
    ensures !step.Spawn? && !step.Respawn? ==>
      Do(s, step).workers == s.workers && OtherWeight(Do(s, step)) < OtherWeight(s)
    ensures step.Spawn? || step.Respawn? ==> OtherWeight(Do(s, step)) + 1 < OtherWeight(s)
  {
  }

  /** Once the input is closed every step of the consumer, panics included, brings it nearer
      to its end: shutdown cannot go on forever. */
  lemma ShutdownProgress(s: State, step: Step)
    requires Enabled(s, step) && s.inputClosed && !Environment(step)
    ensures Weight(Do(s, step)) < Weight(s)
  {
    var t := Do(s, step);
    if Mover(step) >= 0 {
      MoverShape(s, step);
      MoverWeight(s, step);
      MovedWeight(s.workers, Mover(step), t.workers[Mover(step)]);
    } else {
      RestWeight(s, step);
      if step.Spawn? || step.Respawn? {
        AddedWeight(s.workers, t.workers[|s.workers|]);
      }
    }
  }

  lemma Fewer(a: multiset<Message>, b: multiset<Message>)
    requires a <= b
    ensures |a| <= |b|
  {
    assert b == a + (b - a);
  }

  /** The prefetch limit leaves room in the buffer for a delivery in the dispatcher's hand. */
  lemma HandFits(s: State)
    requires Inv(s) && s.dispatcher.Hand? && s.concurrency > 0
    ensures |s.buffer| < s.concurrency
  {
    Fewer(InHand(s) + multiset(s.buffer), multiset(s.unanswered));
  }

  /** With no workers at all, and all else ended, a delivery in hand can go nowhere. */
  predicate Stuck(s: State) {
    s.concurrency == 0 && s.dispatcher.Hand? && s.main == Joining && s.monitor == Ended
  }

  /** A step of the consumer on the way to its end, and not one on which a message may insist. */
  predicate GoesOn(step: Step) {
    !Environment(step) && !step.Panic? && !step.Answer?
  }

  /** And it is never stuck: with the input closed and the context cancelled, a consumer that
      has neither returned nor crashed has a step of its own to take, without a panic and before any
      answer; only one of no workers that was sent a delivery does not. */
  lemma NeverStuck(n: nat, steps: seq<Step>, run: seq<State>, i: nat)
    requires IsRun(n, steps, run) && i < |run|
    requires run[i].inputClosed && run[i].cancelled && run[i].main != Returned && !run[i].crashed
    ensures (exists step :: Enabled(run[i], step) && GoesOn(step)) <==> !Stuck(run[i])
  {
    var s := run[i];
    RunInv(n, steps, run, i);
    if Stuck(s) {
      if s.workers != [] {
        SomeWorker(s);
      }
    } else if w :| 0 <= w < |s.workers| && Live(s.workers[w]) && !Waits(s, s.workers[w]) {
      WorkerMoves(s, w);
    } else {
      OthersMove(s);
    }
  }

  /** A worker at its select with no message to come yet. */
  predicate Waits(s: State, p: Worker) {
    p.phase == Idle && s.buffer == [] && s.dispatcher != Closed
  }

  lemma OthersMove(s: State)
    requires Inv(s) && !Stuck(s) && s.inputClosed && s.cancelled && s.main != Returned && !s.crashed
    requires forall w :: 0 <= w < |s.workers| && Live(s.workers[w]) ==> Waits(s, s.workers[w])
    ensures exists step :: Enabled(s, step) && GoesOn(step)
  {
    if s.dispatcher.Hand? && s.concurrency > 0 {
      HandFits(s);
    }
    var step := OtherStep(s);
    assert Enabled(s, step) && GoesOn(step);
  }

  /** The next step of the monitor, of `Start` or of the dispatcher. */
  function OtherStep(s: State): Step {
    if s.monitor.Has? then Respawn
    else if s.main == Spawning then if s.spawned < s.concurrency then Spawn else Watch
    else if s.main == Running then CloseRestart
    else if s.monitor == Waiting then EndMonitor
    else if s.dispatcher == Receiving then CloseMessages
    else if s.dispatcher == Closed then Return
    else Enqueue
  }

  /** A live worker can move, unless it waits for a message still to come or for the monitor,
      which can then move itself. */
  lemma WorkerMoves(s: State, w: nat)
    requires !s.crashed && s.main != Returned && w < |s.workers| && Live(s.workers[w])
    requires !Waits(s, s.workers[w])
    requires s.monitor == Ended ==> !RestartOpen(s)
    ensures exists step :: Enabled(s, step) && GoesOn(step)
  {
    match s.workers[w].phase
    case Idle => assert Enabled(s, if s.buffer != [] then Take(w) else End(w));
    case Holding(_) => assert Enabled(s, Begin(w));
    case Busy(_) => assert Enabled(s, Complete(w));
    case Retrying(_) => assert Enabled(s, Retry(w));
    case Sending =>
      assert Enabled(s, if !RestartOpen(s) then SendClosed(w) else if s.monitor == Waiting then Handoff(w)
                     else Respawn);
  }

  /** No worker has panicked and is still to be restarted. */
  predicate Calm(s: State) {
    forall w :: 0 <= w < |s.workers| ==> !s.workers[w].phase.Retrying? && !s.workers[w].phase.Sending?
  }

  lemma CalmStep(s: State, step: Step)
    requires Enabled(s, step) && Calm(s) && !step.Panic?
    ensures Calm(Do(s, step)) && !Do(s, step).crashed
  {
  }

  /** The process crashes only on a late restart: if none is pending at some moment while
      `restart` is open, and no worker panics from then on, it never crashes. */
  lemma {:induction false} CrashNeedsLateRestart(n: nat, steps: seq<Step>, run: seq<State>, k: nat, i: nat)
    requires IsRun(n, steps, run) && k <= i < |run|
    requires RestartOpen(run[k]) && Calm(run[k]) && forall j :: k <= j < |steps| ==> !steps[j].Panic?
    ensures Calm(run[i]) && !run[i].crashed
    decreases i
  {
    if i > k {
      CrashNeedsLateRestart(n, steps, run, k, i - 1);
      CalmStep(run[i - 1], steps[i - 1]);
    } else {
      RunInv(n, steps, run, i);
    }
  }

  /** A panic after `restart` was closed, or a restart still pending when it is. */
  predicate IsLate(s: State, step: Step) {
    || (step.Panic? && !RestartOpen(s))
    || (step.CloseRestart? && !Calm(s))
  }

  ghost predicate LateBefore(steps: seq<Step>, run: seq<State>, i: nat)
    requires i <= |steps| < |run|
  {
    exists j :: 0 <= j < i && IsLate(run[j], steps[j])
  }

  /** The process has crashed, or a worker is about to send on the closed `restart`. */
  predicate Doomed(s: State) {
    s.crashed || (!RestartOpen(s) && !Calm(s))
  }

  lemma StaysClosed(s: State, step: Step)
    requires Enabled(s, step) && !RestartOpen(s)
    ensures !RestartOpen(Do(s, step))
  {
  }

  lemma StaysOpen(s: State, step: Step)
    requires Enabled(s, step) && RestartOpen(s) && !step.CloseRestart?
    ensures RestartOpen(Do(s, step)) && !Do(s, step).crashed
  {
  }

  /** With `restart` closed, a worker to be restarted stays one until the process crashes. */
  lemma StaysDoomed(s: State, step: Step)
    requires Enabled(s, step) && !RestartOpen(s) && !Calm(s)
    ensures Do(s, step).crashed || !Calm(Do(s, step))
  {
    var w :| 0 <= w < |s.workers| && (s.workers[w].phase.Retrying? || s.workers[w].phase.Sending?);
    StillPending(s, step, w);
  }

  lemma StillPending(s: State, step: Step, w: nat)
    requires Enabled(s, step) && !RestartOpen(s) && w < |s.workers|
    requires s.workers[w].phase.Retrying? || s.workers[w].phase.Sending?
    ensures
      var t := Do(s, step);
      t.crashed || (w < |t.workers| && (t.workers[w].phase.Retrying? || t.workers[w].phase.Sending?))
  {
    if Mover(step) >= 0 {
      MoverShape(s, step);
    }
  }

  lemma DoomedStep(s: State, step: Step)
    requires Enabled(s, step)
    ensures Doomed(Do(s, step)) <==> Doomed(s) || IsLate(s, step)
  {
    if RestartOpen(s) {
      if !step.CloseRestart? {
        StaysOpen(s, step);
      }
    } else {
      StaysClosed(s, step);
      if !Calm(s) {
        StaysDoomed(s, step);
      } else if step.Panic? {
        assert Do(s, step).workers[step.w].phase.Retrying?;
      } else {
        CalmStep(s, step);
      }
    }
  }

  /** At every moment of every run the process has crashed or is bound to, if and only if there was a
      late restart before. */
  lemma {:induction false} DoomedExactlyWhen(n: nat, steps: seq<Step>, run: seq<State>, i: nat)
    requires IsRun(n, steps, run) && i < |run|
    ensures Doomed(run[i]) <==> LateBefore(steps, run, i)
  {
    if i > 0 {
      DoomedExactlyWhen(n, steps, run, i - 1);
      DoomedStep(run[i - 1], steps[i - 1]);
      if j :| 0 <= j < i - 1 && IsLate(run[j], steps[j]) {
        assert LateBefore(steps, run, i);
      }
    }
  }

  /** The process never crashes without a late restart, and after one the consumer never returns. A
      run that is over, with the input closed and the context cancelled if it did not crash, has
      crashed if and only if there was a late restart. */
  lemma CrashExactlyWhen(n: nat, steps: seq<Step>, run: seq<State>)
    requires IsRun(n, steps, run)
    ensures
      var end, late := run[|steps|], LateBefore(steps, run, |steps|);
      && (end.crashed ==> late) && (end.main == Returned ==> !late)
      && (IsOver(end) ==> (end.crashed <==> late) && (end.main == Returned <==> !late && !Stuck(end)))
  {
    var end := run[|steps|];
    RunInv(n, steps, run, |steps|);
    DoomedExactlyWhen(n, steps, run, |steps|);
    if IsOver(end) && !end.crashed && end.main != Returned {
      NeverStuck(n, steps, run, |steps|);
      NoWorkersCalm(end);
    }
  }

  ghost predicate IsOver(s: State) {
    && (s.crashed || (s.inputClosed && s.cancelled))
    && forall step :: Enabled(s, step) ==> Environment(step)
  }

  lemma NoWorkersCalm(s: State)
    requires DistinctIds(s) && Stuck(s)
    ensures Calm(s)
  {
    if s.workers != [] {
      SomeWorker(s);
    }
  }

  // ----- How long shutdown takes

  function Own(step: Step): nat {
    if Environment(step) then 0 else 1
  }

  /** How many steps of its own the consumer takes from the k-th to before the i-th. */
  function OwnSteps(steps: seq<Step>, k: nat, i: nat): nat
    requires k <= i <= |steps|
  {
    if k == i then 0 else OwnSteps(steps, k, i - 1) + Own(steps[i - 1])
  }

  lemma KeepsClosed(s: State, step: Step)
    requires Enabled(s, step) && s.inputClosed
    ensures Do(s, step).inputClosed
  {
  }

  lemma EnvironmentWeight(s: State, step: Step)
    requires Enabled(s, step) && Environment(step)
    ensures Weight(Do(s, step)) == Weight(s)
  {
  }

  lemma StepWeight(s: State, step: Step)
    requires Enabled(s, step) && s.inputClosed
    ensures Do(s, step).inputClosed && Weight(Do(s, step)) + Own(step) <= Weight(s)
  {
    KeepsClosed(s, step);
    if Environment(step) {
      EnvironmentWeight(s, step);
    } else {
      ShutdownProgress(s, step);
    }
  }

  lemma {:induction false} RunKeepsClosed(n: nat, steps: seq<Step>, run: seq<State>, k: nat, i: nat)
    requires IsRun(n, steps, run) && k <= i < |run| && run[k].inputClosed
    ensures run[i].inputClosed
    decreases i
  {
    if i > k {
      RunKeepsClosed(n, steps, run, k, i - 1);
      KeepsClosed(run[i - 1], steps[i - 1]);
    }
  }

  lemma {:induction false} FallingWeights(weights: seq<nat>, steps: seq<Step>, k: nat, i: nat)
    requires k <= i <= |steps| < |weights|
    requires forall j :: k <= j < i ==> weights[j + 1] + Own(steps[j]) <= weights[j]
    ensures weights[i] + OwnSteps(steps, k, i) <= weights[k]
    decreases i
  {
    if i > k {
      FallingWeights(weights, steps, k, i - 1);
      assert weights[i - 1 + 1] + Own(steps[i - 1]) <= weights[i - 1];
    }
  }

  /** From when the input is closed the consumer takes at most as many steps as its weight then. */
  lemma ShutdownEnds(n: nat, steps: seq<Step>, run: seq<State>, k: nat, i: nat)
    requires IsRun(n, steps, run) && k <= i < |run| && run[k].inputClosed
    ensures Weight(run[i]) + OwnSteps(steps, k, i) <= Weight(run[k])
  {
    var weights := seq(|run|, j requires 0 <= j < |run| => Weight(run[j]));
    forall j | k <= j < i
      ensures weights[j + 1] + Own(steps[j]) <= weights[j]
    {
      RunKeepsClosed(n, steps, run, k, j);
      StepWeight(run[j], steps[j]);
    }
    FallingWeights(weights, steps, k, i);
  }

  // ----- A run that crashes

  function LateSteps(m: Message): seq<Step> {
    [Spawn, Watch, Deliver(m)] + [Enqueue, Take(0)] + [Begin(0), Cancel, CloseRestart] +
      [Panic(0), Retry(0), SendClosed(0)]
  }

  /** A consumer of one worker with one delivery. */
  function OneWorker(main: Main, phase: Phase, busy: int, m: Message, finished: multiset<Message>): State {
    State(1, main, 1, Receiving, Waiting, [Worker(1, phase)], [], busy, main == Joining, false, false, false, {m},
          finished,
          {m})
  }

  ghost predicate IsStep(s: State, step: Step, t: State) {
    Enabled(s, step) && t == Do(s, step)
  }

  lemma SpawnSteps(m: Message, spawned: State, running: State, received: State)
    requires spawned == Init(1).(spawned := 1, workers := [Worker(1, Idle)]) && running == spawned.(main := Running)
    requires received == running.(dispatcher := Hand(m), received := {m}, unanswered := {m})
    ensures IsStep(Init(1), Spawn, spawned) && IsStep(spawned, Watch, running) && IsStep(running, Deliver(m), received)
  {
    assert [] + [Worker(1, Idle)] == [Worker(1, Idle)];
    assert running.received + {m} == {m} == running.unanswered + {m};
  }

  lemma TakeSteps(m: Message, received: State, buffered: State)
    requires received == OneWorker(Running, Idle, 0, m, multiset{}).(dispatcher := Hand(m))
    requires buffered == OneWorker(Running, Idle, 0, m, multiset{}).(buffer := [m])
    ensures IsStep(received, Enqueue, buffered)
    ensures IsStep(buffered, Take(0), OneWorker(Running, Holding(m), 0, m, multiset{}))
  {
    assert [] + [m] == [m] && [m][1..] == [];
  }

  lemma BusySteps(m: Message, busy: State)
    requires busy == OneWorker(Running, Busy(m), 1, m, multiset{})
    ensures IsStep(OneWorker(Running, Holding(m), 0, m, multiset{}), Begin(0), busy)
    ensures IsStep(busy, Cancel, busy.(cancelled := true))
    ensures IsStep(busy.(cancelled := true), CloseRestart, OneWorker(Joining, Busy(m), 1, m, multiset{}))
  {
  }

  lemma PanicSteps(m: Message, sending: State)
    requires sending == OneWorker(Joining, Sending, 0, m, multiset{m})
    ensures IsLate(OneWorker(Joining, Busy(m), 1, m, multiset{}), Panic(0))
    ensures IsStep(OneWorker(Joining, Busy(m), 1, m, multiset{}), Panic(0),
                   OneWorker(Joining, Retrying(m), 0, m, multiset{}))
    ensures IsStep(OneWorker(Joining, Retrying(m), 0, m, multiset{}), Retry(0), sending)
    ensures IsStep(sending, SendClosed(0), sending.(crashed := true))
  {
    assert multiset{} + multiset{m} == multiset{m};
  }

  lemma RunTwo(n: nat, steps: seq<Step>, run: seq<State>, a: Step, s: State, b: Step, t: State)
    returns (run': seq<State>)
    requires IsRun(n, steps, run) && IsStep(run[|steps|], a, s) && IsStep(s, b, t)
    ensures IsRun(n, steps + [a, b], run') && run'[|steps| + 2] == t
  {
    var first := RunNext(n, steps, run, a, s);
    run' := RunNext(n, steps + [a], first, b, t);
    assert steps + [a] + [b] == steps + [a, b];
  }

  lemma RunThree(n: nat, steps: seq<Step>, run: seq<State>, a: Step, s: State, b: Step, t: State, c: Step, u: State)
    returns (run': seq<State>)
    requires IsRun(n, steps, run) && IsStep(run[|steps|], a, s) && IsStep(s, b, t) && IsStep(t, c, u)
    ensures IsRun(n, steps + [a, b, c], run') && run'[|steps| + 3] == u
  {
    var first := RunTwo(n, steps, run, a, s, b, t);
    run' := RunNext(n, steps + [a, b], first, c, u);
    assert steps + [a, b] + [c] == steps + [a, b, c];
  }

  lemma RunToTake(m: Message) returns (run: seq<State>)
    ensures IsRun(1, [Spawn, Watch, Deliver(m)] + [Enqueue, Take(0)], run)
    ensures run[5] == OneWorker(Running, Holding(m), 0, m, multiset{})
  {
    var spawned := Init(1).(spawned := 1, workers := [Worker(1, Idle)]);
    var running := spawned.(main := Running);
    var received := running.(dispatcher := Hand(m), received := {m}, unanswered := {m});
    var buffered := OneWorker(Running, Idle, 0, m, multiset{}).(buffer := [m]);
    SpawnSteps(m, spawned, running, received);
    TakeSteps(m, received, buffered);
    run := RunThree(1, [], [Init(1)], Spawn, spawned, Watch, running, Deliver(m), received);
    assert [] + [Spawn, Watch, Deliver(m)] == [Spawn, Watch, Deliver(m)];
    run := RunTwo(1, [Spawn, Watch, Deliver(m)], run, Enqueue, buffered, Take(0),
                  OneWorker(Running, Holding(m), 0, m, multiset{}));
  }

  /** One worker, one delivery: `process` panics after the context was cancelled and `restart` closed. */
  lemma LatePanicCrashes(m: Message) returns (run: seq<State>)
    ensures IsRun(1, LateSteps(m), run) && run[|LateSteps(m)|].crashed
  {
    var busy, sending := OneWorker(Running, Busy(m), 1, m, multiset{}), OneWorker(Joining, Sending, 0, m, multiset{m});
    BusySteps(m, busy);
    PanicSteps(m, sending);
    run := RunToTake(m);
    run := RunThree(1, [Spawn, Watch, Deliver(m)] + [Enqueue, Take(0)], run, Begin(0), busy, Cancel,
                    busy.(cancelled := true),
                    CloseRestart, OneWorker(Joining, Busy(m), 1, m, multiset{}));
    run := RunThree(1, [Spawn, Watch, Deliver(m)] + [Enqueue, Take(0)] + [Begin(0), Cancel, CloseRestart], run,
                    Panic(0), OneWorker(Joining, Retrying(m), 0, m, multiset{}), Retry(0), sending,
                    SendClosed(0), sending.(crashed := true));
  }

  lemma RunNext(n: nat, steps: seq<Step>, run: seq<State>, step: Step, t: State) returns (run': seq<State>)
    requires IsRun(n, steps, run) && IsStep(run[|steps|], step, t)
    ensures IsRun(n, steps + [step], run') && run'[|steps| + 1] == t
  {
    run' := run + [t];
    var all := steps + [step];
    forall i | 0 <= i < |all|
      ensures Enabled(run'[i], all[i]) && run'[i + 1] == Do(run'[i], all[i])
    {
      if i < |steps| {
        assert run'[i] == run[i] && run'[i + 1] == run[i + 1] && all[i] == steps[i];
      }
    }
  }

  // ----- What a consumer can do

  /** While the input is open, the dispatcher receives and fewer than `n` deliveries have no answer,
      any further one can be delivered. */
  lemma CanDeliver(n: nat, steps: seq<Step>, run: seq<State>, m: Message)
    requires IsRun(n, steps, run)
    requires
      var s := run[|steps|];
      && !s.crashed && s.main != Returned && !s.inputClosed && s.dispatcher == Receiving
      && m !in s.received && (n == 0 || |s.unanswered| < n)
    ensures Enabled(run[|steps|], Deliver(m))
  {
    RunInv(n, steps, run, |steps|);
  }

  function Phases(n: nat, phase: nat -> Phase): seq<Worker> {
    seq(n, i requires 0 <= i < n => Worker(i + 1, phase(i)))
  }

  function Upto(n: nat): (ms: set<Message>)
    ensures |ms| == n && forall m: nat :: m in ms <==> m < n
  {
    if n == 0 then {} else Upto(n - 1) + {n - 1}
  }

  function From(k: nat, n: nat): seq<Message>
    requires k <= n
  {
    seq(n - k, i requires 0 <= i < n - k => k + i)
  }

  /** A running consumer that received `k` messages. */
  function Serving(n: nat, k: nat, buffer: seq<Message>, phase: nat -> Phase, busy: int, finished: multiset<Message>)
    : State {
    State(n, Running, n, Receiving, Waiting, Phases(n, phase), buffer, busy, false, false, false, false, Upto(k),
          finished, Upto(k))
  }

  const ALL_IDLE := (i: nat) => Idle

  function BusyBelow(k: nat): nat -> Phase {
    (i: nat) => if i < k then Busy(i) else Idle
  }

  function BusyFrom(k: nat): nat -> Phase {
    (i: nat) => if i < k then Idle else Busy(i)
  }

  ghost predicate Reachable(n: nat, s: State) {
    exists steps, run :: IsRun(n, steps, run) && run[|steps|] == s
  }

  lemma ReachNext(n: nat, s: State, step: Step, t: State)
    requires Reachable(n, s) && IsStep(s, step, t)
    ensures Reachable(n, t)
  {
    var steps, run :| IsRun(n, steps, run) && run[|steps|] == s;
    var run' := RunNext(n, steps, run, step, t);
    assert IsRun(n, steps + [step], run') && run'[|steps + [step]|] == t;
  }

  /** A worker takes the next message and begins with it. */
  lemma TakeAndBegin(n: nat, s: State, w: nat, busy: State)
    requires Reachable(n, s) && !s.crashed && s.main == Running && At(s, w, Idle) && s.buffer != []
    requires busy == s.(workers := s.workers[w := Worker(s.workers[w].id, Busy(s.buffer[0]))], buffer := s.buffer[1..],
                        busyCounter := s.busyCounter + 1)
    ensures Reachable(n, busy)
  {
    var holding := Move(s, w, Holding(s.buffer[0])).(buffer := s.buffer[1..]);
    assert IsStep(s, Take(w), holding);
    ReachNext(n, s, Take(w), holding);
    BeginStep(holding, w, busy);
    ReachNext(n, holding, Begin(w), busy);
  }

  lemma BeginStep(s: State, w: nat, t: State)
    requires !s.crashed && s.main == Running && w < |s.workers| && s.workers[w].phase.Holding?
    requires t == Move(s, w, Busy(s.workers[w].phase.m)).(busyCounter := s.busyCounter + 1)
    ensures IsStep(s, Begin(w), t)
  {
  }

  lemma CompleteStep(s: State, w: nat, t: State)
    requires !s.crashed && s.main == Running && w < |s.workers| && s.workers[w].phase.Busy?
    requires t == Move(s, w, Idle).(busyCounter := s.busyCounter - 1,
                                    finished := s.finished + multiset{s.workers[w].phase.m})
    ensures IsStep(s, Complete(w), t)
  {
  }

  /** A delivery goes into the buffer. */
  lemma DeliverAndEnqueue(n: nat, s: State, m: Message, t: State)
    requires Reachable(n, s) && !s.crashed && s.main == Running && !s.inputClosed && s.dispatcher == Receiving
    requires m !in s.received && |s.unanswered| < s.concurrency && |s.buffer| < s.concurrency
    requires t == s.(buffer := s.buffer + [m], received := s.received + {m}, unanswered := s.unanswered + {m})
    ensures Reachable(n, t)
  {
    var held := s.(dispatcher := Hand(m), received := s.received + {m}, unanswered := s.unanswered + {m});
    assert IsStep(s, Deliver(m), held);
    ReachNext(n, s, Deliver(m), held);
    assert IsStep(held, Enqueue, t);
    ReachNext(n, held, Enqueue, t);
  }

  lemma {:induction false} AllSpawned(n: nat, k: nat)
    requires k <= n
    ensures Reachable(n, Init(n).(spawned := k, workers := Phases(k, ALL_IDLE)))
  {
    if k == 0 {
      var steps: seq<Step> := [];
      assert IsRun(n, steps, [Init(n)]) && [Init(n)][|steps|] == Init(n);
      assert Phases(0, ALL_IDLE) == [];
    } else {
      AllSpawned(n, k - 1);
      var s := Init(n).(spawned := k - 1, workers := Phases(k - 1, ALL_IDLE));
      assert Phases(k, ALL_IDLE) == Phases(k - 1, ALL_IDLE) + [Worker(k, Idle)];
      ReachNext(n, s, Spawn, Init(n).(spawned := k, workers := Phases(k, ALL_IDLE)));
    }
  }

  /** The buffer takes a message for each worker while none is taken. */
  lemma {:induction false} BufferFills(n: nat, k: nat)
    requires k <= n
    ensures Reachable(n, Serving(n, k, From(0, k), ALL_IDLE, 0, multiset{}))
  {
    if k == 0 {
      AllSpawned(n, n);
      ReachNext(n, Init(n).(spawned := n, workers := Phases(n, ALL_IDLE)), Watch,
                Serving(n, 0, From(0, 0), ALL_IDLE, 0, multiset{}));
    } else {
      BufferFills(n, k - 1);
      var s := Serving(n, k - 1, From(0, k - 1), ALL_IDLE, 0, multiset{});
      assert From(0, k) == From(0, k - 1) + [k - 1];
      DeliverAndEnqueue(n, s, k - 1, Serving(n, k, From(0, k), ALL_IDLE, 0, multiset{}));
    }
  }

  lemma BusyPhases(n: nat, k: nat)
    requires k < n
    ensures Phases(n, BusyBelow(0)) == Phases(n, ALL_IDLE) && Phases(n, BusyFrom(0)) == Phases(n, BusyBelow(n))
    ensures Phases(n, BusyBelow(k))[k := Worker(k + 1, Busy(k))] == Phases(n, BusyBelow(k + 1))
    ensures Phases(n, BusyFrom(k))[k := Worker(k + 1, Idle)] == Phases(n, BusyFrom(k + 1))
    ensures Phases(n, BusyBelow(k))[k] == Worker(k + 1, Idle) && Phases(n, BusyFrom(k))[k] == Worker(k + 1, Busy(k))
    ensures From(k, n)[0] == k && From(k, n)[1..] == From(k + 1, n)
  {
  }

  /** The workers take one message each, and are all busy at once. */
  lemma {:induction false} WorkersFill(n: nat, k: nat)
    requires k <= n && n > 0
    ensures Reachable(n, Serving(n, n, From(k, n), BusyBelow(k), k, multiset{}))
  {
    if k == 0 {
      BufferFills(n, n);
      BusyPhases(n, 0);
    } else {
      var i := k - 1;
      WorkersFill(n, i);
      BusyPhases(n, i);
      var s := Serving(n, n, From(i, n), BusyBelow(i), i, multiset{});
      TakeAndBegin(n, s, i, s.(workers := Phases(n, BusyBelow(k)), buffer := From(k, n), busyCounter := k));
    }
  }

  lemma UptoNext(i: Message)
    ensures multiset(Upto(i + 1)) == multiset(Upto(i)) + multiset{i}
  {
    assert Upto(i + 1) == Upto(i) + {i};
  }

  lemma {:induction false} WorkersFinish(n: nat, k: nat)
    requires k <= n && n > 0
    ensures Reachable(n, Serving(n, n, [], BusyFrom(k), n - k, multiset(Upto(k))))
  {
    if k == 0 {
      WorkersFill(n, n);
      BusyPhases(n, 0);
      assert From(n, n) == [] && multiset(Upto(0)) == multiset{};
    } else {
      var i: Message := k - 1;
      WorkersFinish(n, i);
      BusyPhases(n, i);
      UptoNext(i);
      var s := Serving(n, n, [], BusyFrom(i), n - i, multiset(Upto(i)));
      var t := s.(workers := Phases(n, BusyFrom(k)), busyCounter := n - k, finished := multiset(Upto(k)));
      CompleteStep(s, i, t);
      ReachNext(n, s, Complete(i), t);
    }
  }

  /** The deliveries in process are answered, the first ones first. */
  lemma {:induction false} AllAnswered(n: nat, k: nat)
    requires k <= n && n > 0
    ensures Reachable(n, Serving(n, n, From(n, n), BusyBelow(n), n, multiset{}).(unanswered := Upto(n) - Upto(k)))
  {
    var busy := Serving(n, n, From(n, n), BusyBelow(n), n, multiset{});
    if k == 0 {
      WorkersFill(n, n);
      assert Upto(n) - Upto(0) == Upto(n);
    } else {
      var i: Message := k - 1;
      AllAnswered(n, i);
      assert busy.workers[i] == Worker(i + 1, Busy(i)) && IsProcessing(busy.workers[i], i);
      AnswerStep(busy.(unanswered := Upto(n) - Upto(i)), i, i, busy.(unanswered := Upto(n) - Upto(k)));
      ReachNext(n, busy.(unanswered := Upto(n) - Upto(i)), Answer(i), busy.(unanswered := Upto(n) - Upto(k)));
    }
  }

  lemma AnswerStep(s: State, w: nat, m: Message, t: State)
    requires !s.crashed && s.main == Running && m in s.unanswered && w < |s.workers| && IsProcessing(s.workers[w], m)
    requires t == s.(unanswered := t.unanswered) && t.unanswered == s.unanswered - {m}
    ensures IsStep(s, Answer(m), t)
  {
  }

  /** A consumer of `n` workers can hold `n` messages in its buffer, have `n` different messages in
      process at the same time, with none of them answered yet or with all, and finish them all. */
  lemma FullUse(n: nat) returns (full: State, busy: State, answered: State, done: State)
    requires n > 0
    ensures Reachable(n, full) && |full.buffer| == n && full.busyCounter == 0
    ensures Reachable(n, busy) && busy.busyCounter == n == |busy.unanswered| == |busy.workers|
    ensures forall w :: 0 <= w < n ==> busy.workers[w].phase == Busy(w)
    ensures Reachable(n, answered) && answered == busy.(unanswered := {})
    ensures Reachable(n, done) && done.busyCounter == 0 && |done.finished| == n
  {
    BufferFills(n, n);
    WorkersFill(n, n);
    AllAnswered(n, n);
    WorkersFinish(n, n);
    full := Serving(n, n, From(0, n), ALL_IDLE, 0, multiset{});
    busy := Serving(n, n, From(n, n), BusyBelow(n), n, multiset{});
    answered := busy.(unanswered := {});
    assert Upto(n) - Upto(n) == {};
    done := Serving(n, n, [], BusyFrom(n), 0, multiset(Upto(n)));
  }

  // ----- What a cancellation of the workers can leave

  function GoneBelow(k: nat): nat -> Phase {
    (i: nat) => if i < k then Gone else Idle
  }

  /** Cancelled and closed, with `k` workers ended. */
  function Leaving(n: nat, k: nat): State {
    Serving(n, n, From(0, n), GoneBelow(k), 0, multiset{}).(
      main := Joining, dispatcher := Closed, cancelled := true, inputClosed := true, workerCancelled := true)
  }

  /** The environment cancels everything and closes the input; the dispatcher and `Start` follow. */
  lemma CloseAll(n: nat, s: State, t: State)
    requires Reachable(n, s) && !s.crashed && s.main == Running && s.dispatcher == Receiving
    requires t == s.(main := Joining, dispatcher := Closed, cancelled := true, inputClosed := true,
                     workerCancelled := true)
    ensures Reachable(n, t)
  {
    var a := s.(cancelled := true);
    var b := a.(workerCancelled := true);
    var c := b.(inputClosed := true);
    var d := c.(dispatcher := Closed);
    assert IsStep(s, Cancel, a);
    ReachNext(n, s, Cancel, a);
    assert IsStep(a, CancelWorkers, b);
    ReachNext(n, a, CancelWorkers, b);
    CloseSteps(b, c, d, t);
    ReachNext(n, b, CloseInput, c);
    ReachNext(n, c, CloseMessages, d);
    ReachNext(n, d, CloseRestart, t);
  }

  lemma CloseSteps(b: State, c: State, d: State, t: State)
    requires !b.crashed && b.main == Running && b.dispatcher == Receiving && b.cancelled
    requires c == b.(inputClosed := true) && d == c.(dispatcher := Closed) && t == d.(main := Joining)
    ensures IsStep(b, CloseInput, c) && IsStep(c, CloseMessages, d) && IsStep(d, CloseRestart, t)
  {
  }

  lemma QuitStep(s: State, w: nat, t: State)
    requires !s.crashed && s.main == Joining && At(s, w, Idle) && s.workerCancelled && t == Move(s, w, Gone)
    ensures IsStep(s, Quit(w), t)
  {
  }

  lemma GonePhases(n: nat, k: nat)
    ensures Phases(n, GoneBelow(0)) == Phases(n, ALL_IDLE)
    ensures k < n ==> Phases(n, GoneBelow(k))[k := Worker(k + 1, Gone)] == Phases(n, GoneBelow(k + 1))
    ensures k < n ==> Phases(n, GoneBelow(k))[k] == Worker(k + 1, Idle)
  {
  }

  lemma {:induction false} AllQuit(n: nat, k: nat)
    requires k <= n
    ensures Reachable(n, Leaving(n, k))
  {
    if k == 0 {
      BufferFills(n, n);
      GonePhases(n, 0);
      CloseAll(n, Serving(n, n, From(0, n), ALL_IDLE, 0, multiset{}), Leaving(n, 0));
    } else {
      AllQuit(n, k - 1);
      GonePhases(n, k - 1);
      QuitStep(Leaving(n, k - 1), k - 1, Leaving(n, k));
      ReachNext(n, Leaving(n, k - 1), Quit(k - 1), Leaving(n, k));
    }
  }

  /** With its workers cancelled a consumer may return with a full buffer, all of it unanswered. */
  lemma LeavesFullBuffer(n: nat) returns (s: State)
    ensures Reachable(n, s) && s.main == Returned && |s.buffer| == n == |s.unanswered| && s.finished == multiset{}
  {
    AllQuit(n, n);
    var ended := Leaving(n, n).(monitor := Ended);
    ReachNext(n, Leaving(n, n), EndMonitor, ended);
    s := ended.(main := Returned);
    ReachNext(n, ended, Return, s);
  }

  // ----- Restarts

  /** A worker that panicked is up again, under its id, after at most three steps of the monitor, from
      any state in which `restart` is open. */
  lemma Restarts(n: nat, s: State, w: nat) returns (t: State)
    requires Reachable(n, s) && !s.crashed && RestartOpen(s) && At(s, w, Sending)
    ensures Reachable(n, t) && IsRestarted(s, w, t)
  {
    ReachableInv(n, s);
    var ready := s;
    if s.monitor.Has? {
      ready := s.(monitor := Waiting, workers := s.workers + [Worker(s.monitor.id, Idle)]);
      assert IsStep(s, Respawn, ready);
      ReachNext(n, s, Respawn, ready);
    }
    t := Restarted(n, ready, w);
  }

  lemma Restarted(n: nat, s: State, w: nat) returns (t: State)
    requires Reachable(n, s) && !s.crashed && RestartOpen(s) && At(s, w, Sending) && s.monitor == Waiting
    ensures Reachable(n, t) && IsRestarted(s, w, t)
  {
    var handed := Move(s, w, Gone).(monitor := Has(s.workers[w].id));
    assert IsStep(s, Handoff(w), handed);
    ReachNext(n, s, Handoff(w), handed);
    t := handed.(monitor := Waiting, workers := handed.workers + [Worker(s.workers[w].id, Idle)]);
    assert IsStep(handed, Respawn, t);
    ReachNext(n, handed, Respawn, t);
  }

  /** The worker is gone, and another with its id is idle; all others are as they were. */
  ghost predicate IsRestarted(s: State, w: nat, t: State) {
    && w < |s.workers| < |t.workers| && t.monitor == Waiting
    && t.workers[|t.workers| - 1] == Worker(s.workers[w].id, Idle) && t.workers[w].phase == Gone
    && (forall v :: 0 <= v < |s.workers| && v != w ==> t.workers[v] == s.workers[v])
    && t.buffer == s.buffer && t.finished == s.finished && t.main == s.main
  }

  lemma ReachableInv(n: nat, s: State)
    requires Reachable(n, s)
    ensures Inv(s) && s.concurrency == n
  {
    var steps, run :| IsRun(n, steps, run) && run[|steps|] == s;
    RunInv(n, steps, run, |steps|);
  }

  /** A worker of any consumer may panic in time and still be waiting when `restart` is closed: the
      process crashes. */
  lemma PendingPanicCrashes(n: nat) returns (s: State)
    requires n > 0
    ensures Reachable(n, s) && s.crashed
  {
    WorkersFill(n, n);
    var busy := Serving(n, n, From(n, n), BusyBelow(n), n, multiset{});
    var retrying := Move(busy, 0, Retrying(0)).(busyCounter := n - 1);
    var sending := Move(retrying, 0, Sending).(finished := multiset{} + multiset{0});
    assert IsStep(busy, Panic(0), retrying);
    ReachNext(n, busy, Panic(0), retrying);
    assert IsStep(retrying, Retry(0), sending);
    ReachNext(n, retrying, Retry(0), sending);
    s := CloseAndSend(n, sending, 0);
  }

  lemma CloseAndSend(n: nat, s: State, w: nat) returns (t: State)
    requires Reachable(n, s) && !s.crashed && s.main == Running && At(s, w, Sending)
    ensures Reachable(n, t) && t.crashed
  {
    var cancelled := s.(cancelled := true);
    var closed := cancelled.(main := Joining);
    assert IsStep(s, Cancel, cancelled);
    ReachNext(n, s, Cancel, cancelled);
    assert IsStep(cancelled, CloseRestart, closed);
    ReachNext(n, cancelled, CloseRestart, closed);
    t := closed.(crashed := true);
    assert IsStep(closed, SendClosed(w), t);
    ReachNext(n, closed, SendClosed(w), t);
  }
}
