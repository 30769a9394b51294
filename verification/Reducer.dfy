/** The single-flight reducer as a state machine over the code between two awaits, and the
    class whose methods are those steps. */
module Reducer {
  import opened Prelude

  type Ident = Str

  /** How a coroutine ends: a value, an exception or a cancellation. */
  datatype Error = Exception(code: nat) | CancelledError | InvalidStateError

  datatype Outcome<+V> = Value(value: V) | Raised(error: Error)

  /** An asyncio.Future: pending with the waiters whose callbacks it holds, or done. */
  datatype Future<V> = Pending(callbacks: seq<nat>) | Done(outcome: Outcome<V>)

  datatype Phase = Scheduled | Started | Finished

  /** A runner is named by its task, the index at which it is stored. */
  datatype Runner = Runner(ident: Ident, coro: nat, future: nat, phase: Phase)

  /** NotStarted: the coroutine exists but has not run. Waiting: suspended on its own pending
      wait_future. Resolved: wait_future is done, the waiter has not woken. */
  datatype Wait<V> =
    | NotStarted
    | Waiting
    | Resolved(outcome: Outcome<V>)
    | Returned(outcome: Outcome<V>)
    | Cancelled

  datatype Waiter<V> = Waiter(future: nat, wait: Wait<V>)

  /** What the event loop's ready queue holds for the reducer. */
  datatype Callback = Deliver(waiter: nat) | Discard(task: nat)

  /** How often a coroutine handed to the reducer was awaited and how often it was closed. */
  datatype Coro = Coro(runs: nat, closes: nat)

  /** `faults` counts what Python would report: a second resolution of a future, a missing key on
      removal, a dangling reference. */
  datatype State<V> = State(
    running: map<Ident, nat>,
    tasks: set<nat>,
    futures: seq<Future<V>>,
    runners: seq<Runner>,
    waiters: seq<Waiter<V>>,
    coros: seq<Coro>,
    ready: seq<Callback>,
    faults: nat)

  datatype Event<V> =
    | Call(ident: Ident)
    | StartRunner(runner: nat)
    | FinishRunner(runner: nat, outcome: Outcome<V>)
    | Attach(waiter: nat)
    | Fire
    | Wake(waiter: nat)
    | Cancel(waiter: nat)

  function Init<V>(): State<V> {
    State(map[], {}, [], [], [], [], [], 0)
  }

  predicate Enabled<V>(s: State<V>, e: Event<V>) {
    match e
    case Call(_) => true
    case StartRunner(r) => r < |s.runners| && s.runners[r].phase.Scheduled?
    case FinishRunner(r, _) => r < |s.runners| && s.runners[r].phase.Started?
    case Attach(w) => w < |s.waiters| && s.waiters[w].wait.NotStarted?
    case Fire => s.ready != []
    case Wake(w) => w < |s.waiters| && s.waiters[w].wait.Resolved?
    case Cancel(w) => w < |s.waiters| && Cancellable(s.waiters[w].wait)
  }

  predicate Cancellable<V>(wait: Wait<V>) {
    wait.NotStarted? || wait.Waiting? || wait.Resolved?
  }

  /** An event that is not enabled does not happen. */
  function Step<V>(s: State<V>, e: Event<V>): State<V> {
    if !Enabled(s, e) then s else
    match e
    case Call(ident) => AfterCall(s, ident)
    case StartRunner(r) => AfterStart(s, r)
    case FinishRunner(r, outcome) => AfterFinish(s, r, outcome)
    case Attach(w) => AfterAttach(s, w)
    case Fire => AfterFire(s)
    case Wake(w) => WithWait(s, w, Returned(s.waiters[w].wait.outcome))
    case Cancel(w) => WithWait(s, w, Cancelled)
  }

  function AfterCall<V>(s: State<V>, ident: Ident): State<V> {
    if ident in s.running then
      s.(coros := s.coros + [Coro(0, 1)],
         waiters := s.waiters + [Waiter(s.running[ident], NotStarted)])
    else
      var future, runner := |s.futures|, |s.runners|;
      s.(running := s.running[ident := future],
         tasks := s.tasks + {runner},
         futures := s.futures + [Pending([])],
         runners := s.runners + [Runner(ident, |s.coros|, future, Scheduled)],
         coros := s.coros + [Coro(0, 0)],
         waiters := s.waiters + [Waiter(future, NotStarted)])
  }

  function AfterStart<V>(s: State<V>, r: nat): State<V>
    requires r < |s.runners|
  {
    var c := s.runners[r].coro;
    s.(runners := s.runners[r := s.runners[r].(phase := Started)],
       coros := if c < |s.coros| then s.coros[c := Coro(s.coros[c].runs + 1, s.coros[c].closes)] else s.coros,
       faults := if c < |s.coros| then s.faults else s.faults + 1)
  }

  function AfterFinish<V>(s: State<V>, r: nat, outcome: Outcome<V>): State<V>
    requires r < |s.runners|
  {
    var resolved := SetFuture(s, s.runners[r].future, outcome);
    var cleared := DeleteRunning(resolved, s.runners[r].ident);
    cleared.(runners := s.runners[r := s.runners[r].(phase := Finished)],
             ready := cleared.ready + [Discard(r)])
  }

  /** Future.set_result / set_exception: the callbacks move to the ready queue, in order. */
  function SetFuture<V>(s: State<V>, f: nat, outcome: Outcome<V>): State<V> {
    if f < |s.futures| && s.futures[f].Pending? then
      s.(futures := s.futures[f := Done(outcome)],
         ready := s.ready + Deliveries(s.futures[f].callbacks))
    else
      s.(faults := s.faults + 1)
  }

  function Deliveries(ws: seq<nat>): (ds: seq<Callback>)
    ensures |ds| == |ws| && forall i :: 0 <= i < |ws| ==> ds[i] == Deliver(ws[i])
  {
    seq(|ws|, i requires 0 <= i < |ws| => Deliver(ws[i]))
  }

  function DeleteRunning<V>(s: State<V>, ident: Ident): State<V> {
    if ident in s.running then s.(running := s.running - {ident}) else s.(faults := s.faults + 1)
  }

  /** Future.add_done_callback: a done future schedules the callback at once. */
  function AfterAttach<V>(s: State<V>, w: nat): State<V>
    requires w < |s.waiters|
  {
    var f := s.waiters[w].future;
    var waiting := WithWait(s, w, Waiting);
    if f >= |s.futures| then
      waiting.(faults := s.faults + 1)
    else if s.futures[f].Pending? then
      waiting.(futures := s.futures[f := Pending(s.futures[f].callbacks + [w])])
    else
      waiting.(ready := s.ready + [Deliver(w)])
  }

  function AfterFire<V>(s: State<V>): State<V>
    requires s.ready != []
  {
    var rest := s.(ready := s.ready[1..]);
    match s.ready[0]
    case Discard(t) => rest.(tasks := s.tasks - {t})
    case Deliver(w) => SetWaitFuture(rest, w)
  }

  /** The done-callback of the shared future, run for waiter `w`. */
  function SetWaitFuture<V>(s: State<V>, w: nat): State<V> {
    if w >= |s.waiters| || s.waiters[w].future >= |s.futures| then
      s.(faults := s.faults + 1)
    else
      match s.waiters[w].wait
      case Cancelled => s
      case Waiting => WithWait(s, w, Resolved(ResultOf(s.futures[s.waiters[w].future])))
      case _ => s.(faults := s.faults + 1)
  }

  /** What asking a future for its result gives or raises. */
  function ResultOf<V>(future: Future<V>): Outcome<V> {
    match future
    case Done(outcome) => outcome
    case Pending(_) => Raised(InvalidStateError)
  }

  function WithWait<V>(s: State<V>, w: nat, wait: Wait<V>): State<V>
    requires w < |s.waiters|
  {
    s.(waiters := s.waiters[w := s.waiters[w].(wait := wait)])
  }

  /** The state after a sequence of events. */
  ghost function Run<V>(s: State<V>, es: seq<Event<V>>): State<V> {
    if es == [] then s else Step(Run(s, es[..|es| - 1]), es[|es| - 1])
  }

  /** Every event of `es` is enabled when it happens. */
  ghost predicate IsRun<V>(s: State<V>, es: seq<Event<V>>) {
    es == [] || (IsRun(s, es[..|es| - 1]) && Enabled(Run(s, es[..|es| - 1]), es[|es| - 1]))
  }
}
