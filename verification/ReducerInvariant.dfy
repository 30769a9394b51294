/** What every step of the reducer keeps. Each part of the invariant names only the fields it
    speaks of, so a step that leaves those fields alone keeps that part for free. */
module ReducerInvariant {
  import opened Prelude
  import opened Reducer

  ghost predicate Inv<V>(s: State<V>) {
    && s.faults == 0
    && |s.futures| == |s.runners|
    && |s.coros| == |s.waiters|
    && RunnersOwn(s.runners, |s.coros|)
    && WaitersCapture(s.waiters, |s.futures|)
    && SingleFlight(s.running, s.runners, s.futures)
    && TasksHeld(s.tasks, s.runners, s.ready)
    && QueueSound(s.ready, s.waiters, s.futures)
    && CallbacksSound(s.futures, s.waiters)
    && WaitersServed(s.waiters, s.futures, s.ready)
    && CorosUsed(s.runners, s.coros)
  }

  ghost predicate RunnersOwn(runners: seq<Runner>, coros: nat) {
    forall r {:trigger runners[r]} :: 0 <= r < |runners| ==> runners[r].future == r && runners[r].coro < coros
  }

  ghost predicate WaitersCapture<V>(waiters: seq<Waiter<V>>, futures: nat) {
    forall w {:trigger waiters[w]} :: 0 <= w < |waiters| ==> waiters[w].future < futures
  }

  predicate Unfinished(runners: seq<Runner>, r: nat) {
    r < |runners| && !runners[r].phase.Finished?
  }

  /** An ident is in `_running` exactly while one unfinished runner exists for it, and a shared
      future is pending exactly while its runner is unfinished. */
  ghost predicate SingleFlight<V>(running: map<Ident, nat>, runners: seq<Runner>, futures: seq<Future<V>>) {
    && (forall id :: id in running ==> Unfinished(runners, running[id]) && runners[running[id]].ident == id)
    && (forall r :: 0 <= r < |runners| && Unfinished(runners, r) ==>
          runners[r].ident in running && running[runners[r].ident] == r)
    && |futures| == |runners|
    && (forall r :: 0 <= r < |runners| ==> (futures[r].Pending? <==> Unfinished(runners, r)))
  }

  /** `_tasks` holds every unfinished runner, and a finished one only until its done-callback. */
  ghost predicate TasksHeld(tasks: set<nat>, runners: seq<Runner>, ready: seq<Callback>) {
    && (forall r :: 0 <= r < |runners| && Unfinished(runners, r) ==> r in tasks)
    && (forall t :: t in tasks ==> t < |runners| && (Unfinished(runners, t) || Discard(t) in ready))
    && (forall t: nat :: Discard(t) in ready ==> t < |runners| && !Unfinished(runners, t))
  }

  predicate Listening<V>(wait: Wait<V>) {
    wait.Waiting? || wait.Cancelled?
  }

  /** The ready queue holds no callback twice, and delivers only results that exist. */
  ghost predicate QueueSound<V>(ready: seq<Callback>, waiters: seq<Waiter<V>>, futures: seq<Future<V>>) {
    && NoDuplicates(ready)
    && (forall w: nat :: Deliver(w) in ready ==>
          && w < |waiters| && Listening(waiters[w].wait)
          && waiters[w].future < |futures| && futures[waiters[w].future].Done?)
  }

  /** A pending future holds, once each, callbacks of waiters that captured it. */
  ghost predicate CallbacksSound<V>(futures: seq<Future<V>>, waiters: seq<Waiter<V>>) {
    forall f {:trigger futures[f]} :: 0 <= f < |futures| && futures[f].Pending? ==>
      HeldBy(f, futures[f].callbacks, waiters)
  }

  ghost predicate HeldBy<V>(f: nat, callbacks: seq<nat>, waiters: seq<Waiter<V>>) {
    && NoDuplicates(callbacks)
    && (forall w :: w in callbacks ==>
          w < |waiters| && waiters[w].future == f && Listening(waiters[w].wait))
  }

  /** A suspended waiter has its callback registered; a resolved one holds its future's outcome. */
  ghost predicate WaitersServed<V>(waiters: seq<Waiter<V>>, futures: seq<Future<V>>, ready: seq<Callback>) {
    forall w {:trigger waiters[w]} :: 0 <= w < |waiters| && waiters[w].future < |futures| ==>
      Served(waiters[w].wait, w, futures[waiters[w].future], ready)
  }

  ghost predicate Served<V>(wait: Wait<V>, w: nat, future: Future<V>, ready: seq<Callback>) {
    match wait
    case Waiting => (match future case Pending(callbacks) => w in callbacks case Done(_) => Deliver(w) in ready)
    case Resolved(o) => future == Done(o)
    case Returned(o) => future == Done(o)
    case _ => true
  }

  ghost predicate Owned(runners: seq<Runner>, c: nat) {
    exists r :: 0 <= r < |runners| && runners[r].coro == c
  }

  /** A coroutine is awaited once by the one runner that owns it, or was closed once. */
  ghost predicate CorosUsed(runners: seq<Runner>, coros: seq<Coro>) {
    && (forall q, r :: 0 <= q < r < |runners| ==> runners[q].coro != runners[r].coro)
    && (forall r {:trigger runners[r]} :: 0 <= r < |runners| && runners[r].coro < |coros| ==>
          coros[runners[r].coro] == Coro(if runners[r].phase.Scheduled? then 0 else 1, 0))
    && (forall c :: 0 <= c < |coros| && !Owned(runners, c) ==> coros[c] == Coro(0, 1))
  }

  lemma InitHolds<V>()
    ensures Inv(Init<V>())
  {
  }

  // ---- a call ----

  lemma AppendedCoros(runners: seq<Runner>, coros: seq<Coro>, ident: Ident, future: nat)
    requires RunnersOwn(runners, |coros|) && CorosUsed(runners, coros)
    ensures CorosUsed(runners, coros + [Coro(0, 1)])
    ensures CorosUsed(runners + [Runner(ident, |coros|, future, Scheduled)], coros + [Coro(0, 0)])
  {
    var more := runners + [Runner(ident, |coros|, future, Scheduled)];
    assert more[|runners|].coro == |coros|;
    forall c | Owned(runners, c) ensures Owned(more, c) {
      var r :| 0 <= r < |runners| && runners[r].coro == c;
      assert more[r].coro == c;
    }
  }

  lemma AppendedWaiter<V>(futures: seq<Future<V>>, waiters: seq<Waiter<V>>, ready: seq<Callback>, w: Waiter<V>)
    requires w.wait.NotStarted?
    requires QueueSound(ready, waiters, futures) && CallbacksSound(futures, waiters)
    requires WaitersServed(waiters, futures, ready) && WaitersCapture(waiters, |futures|)
    ensures QueueSound(ready, waiters + [w], futures) && CallbacksSound(futures, waiters + [w])
    ensures WaitersServed(waiters + [w], futures, ready)
  {
  }

  lemma AppendedFuture<V>(futures: seq<Future<V>>, waiters: seq<Waiter<V>>, ready: seq<Callback>)
    requires QueueSound(ready, waiters, futures) && CallbacksSound(futures, waiters)
    requires WaitersServed(waiters, futures, ready) && WaitersCapture(waiters, |futures|)
    ensures QueueSound(ready, waiters, futures + [Pending([])])
    ensures CallbacksSound(futures + [Pending([])], waiters)
    ensures WaitersServed(waiters, futures + [Pending([])], ready)
  {
  }

  lemma AppendedRunner<V>(running: map<Ident, nat>, tasks: set<nat>, runners: seq<Runner>, futures: seq<Future<V>>,
                          ready: seq<Callback>, ident: Ident, coros: nat)
    requires SingleFlight(running, runners, futures) && TasksHeld(tasks, runners, ready) && ident !in running
    requires RunnersOwn(runners, coros)
    ensures
      var more := runners + [Runner(ident, coros, |futures|, Scheduled)];
      && SingleFlight(running[ident := |futures|], more, futures + [Pending([])])
      && TasksHeld(tasks + {|runners|}, more, ready)
      && RunnersOwn(more, coros + 1)
  {
  }

  lemma CallKeeps<V>(s: State<V>, ident: Ident)
    requires Inv(s)
    ensures Inv(AfterCall(s, ident))
  {
    if ident in s.running {
      JoinKeeps(s, ident);
    } else {
      CreateKeeps(s, ident);
    }
  }

  lemma JoinKeeps<V>(s: State<V>, ident: Ident)
    requires Inv(s) && ident in s.running
    ensures Inv(AfterCall(s, ident))
  {
    AppendedCoros(s.runners, s.coros, ident, |s.futures|);
    AppendedWaiter(s.futures, s.waiters, s.ready, Waiter(s.running[ident], NotStarted));
  }

  lemma CreateKeeps<V>(s: State<V>, ident: Ident)
    requires Inv(s) && ident !in s.running
    ensures Inv(AfterCall(s, ident))
  {
    AppendedCoros(s.runners, s.coros, ident, |s.futures|);
    AppendedRunner(s.running, s.tasks, s.runners, s.futures, s.ready, ident, |s.coros|);
    AppendedFuture(s.futures, s.waiters, s.ready);
    AppendedWaiter(s.futures + [Pending([])], s.waiters, s.ready, Waiter(|s.futures|, NotStarted));
  }

  // ---- a runner starts, a runner finishes ----

  lemma PhaseKeepsCoros(runners: seq<Runner>, coros: seq<Coro>, r: nat, phase: Phase)
    requires r < |runners| && RunnersOwn(runners, |coros|) && CorosUsed(runners, coros)
    ensures
      var c := runners[r].coro;
      var phased := runners[r := runners[r].(phase := phase)];
      (runners[r].phase.Started? && phase.Finished? ==> CorosUsed(phased, coros)) &&
      (runners[r].phase.Scheduled? && phase.Started? ==>
        CorosUsed(phased, coros[c := Coro(coros[c].runs + 1, coros[c].closes)]))
  {
    var phased := runners[r := runners[r].(phase := phase)];
    forall c ensures Owned(runners, c) <==> Owned(phased, c) {
      if Owned(runners, c) {
        var q :| 0 <= q < |runners| && runners[q].coro == c;
        assert phased[q].coro == c;
      }
    }
    assert Owned(runners, runners[r].coro);
  }

  lemma StartKeepsFlight<V>(running: map<Ident, nat>, tasks: set<nat>, runners: seq<Runner>,
                            futures: seq<Future<V>>, ready: seq<Callback>, r: nat)
    requires SingleFlight(running, runners, futures) && TasksHeld(tasks, runners, ready)
    requires r < |runners| && runners[r].phase.Scheduled?
    ensures
      var phased := runners[r := runners[r].(phase := Started)];
      SingleFlight(running, phased, futures) && TasksHeld(tasks, phased, ready)
  {
    var phased := runners[r := runners[r].(phase := Started)];
    assert forall q: nat :: Unfinished(runners, q) <==> Unfinished(phased, q);
  }

  lemma FinishKeepsFlight<V>(running: map<Ident, nat>, runners: seq<Runner>, futures: seq<Future<V>>,
                             r: nat, outcome: Outcome<V>)
    requires SingleFlight(running, runners, futures) && Unfinished(runners, r)
    ensures SingleFlight(running - {runners[r].ident}, runners[r := runners[r].(phase := Finished)],
                         futures[r := Done(outcome)])
  {
    var phased := runners[r := runners[r].(phase := Finished)];
    assert forall q: nat :: Unfinished(phased, q) <==> Unfinished(runners, q) && q != r;
  }

  lemma FinishKeepsTasks(tasks: set<nat>, runners: seq<Runner>, ready: seq<Callback>, more: seq<Callback>, r: nat)
    requires TasksHeld(tasks, runners, ready) && r < |runners|
    requires forall t: nat :: Discard(t) in more <==> Discard(t) in ready || t == r
    ensures TasksHeld(tasks, runners[r := runners[r].(phase := Finished)], more)
  {
    var phased := runners[r := runners[r].(phase := Finished)];
    assert forall q: nat :: Unfinished(phased, q) <==> Unfinished(runners, q) && q != r;
  }

  lemma StartKeepsCoros(runners: seq<Runner>, coros: seq<Coro>, r: nat)
    requires r < |runners| && RunnersOwn(runners, |coros|) && CorosUsed(runners, coros) && runners[r].phase.Scheduled?
    ensures
      var c := runners[r].coro;
      var phased := runners[r := runners[r].(phase := Started)];
      var used := coros[c := Coro(coros[c].runs + 1, coros[c].closes)];
      RunnersOwn(phased, |used|) && CorosUsed(phased, used)
  {
    PhaseKeepsCoros(runners, coros, r, Started);
  }

  lemma StartKeeps<V>(s: State<V>, r: nat)
    requires Inv(s) && Enabled(s, StartRunner(r))
    ensures Inv(AfterStart(s, r))
  {
    StartKeepsCoros(s.runners, s.coros, r);
    StartKeepsFlight(s.running, s.tasks, s.runners, s.futures, s.ready, r);
  }

  /** The queue after future `r` is resolved: the old queue, then its waiters, then the task. */
  lemma ResolvedQueue<V>(s: State<V>, r: nat, outcome: Outcome<V>)
    requires Inv(s) && Unfinished(s.runners, r)
    ensures
      var ready := s.ready + Deliveries(s.futures[r].callbacks) + [Discard(r)];
      && (forall w: nat :: Deliver(w) in ready <==> Deliver(w) in s.ready || w in s.futures[r].callbacks)
      && (forall t: nat :: Discard(t) in ready <==> Discard(t) in s.ready || t == r)
      && NoDuplicates(ready)
  {
    var cbs := s.futures[r].callbacks;
    var ready := s.ready + Deliveries(cbs) + [Discard(r)];
    assert HeldBy(r, cbs, s.waiters);
    forall w: nat ensures Deliver(w) in Deliveries(cbs) <==> w in cbs {
      if w in cbs {
        var i :| 0 <= i < |cbs| && cbs[i] == w;
        assert Deliveries(cbs)[i] == Deliver(w);
      }
    }
    assert !(Discard(r) in s.ready);
    forall i, j | 0 <= i < j < |ready| ensures ready[i] != ready[j] {
      if i < |s.ready| {
        assert ready[i] in s.ready;
        if |s.ready| <= j < |ready| - 1 {
          assert cbs[j - |s.ready|] in cbs;
        }
      }
    }
  }

  lemma FinishKeepsWaiters<V>(s: State<V>, r: nat, outcome: Outcome<V>)
    requires Inv(s) && Unfinished(s.runners, r)
    ensures
      var futures := s.futures[r := Done(outcome)];
      var ready := s.ready + Deliveries(s.futures[r].callbacks) + [Discard(r)];
      QueueSound(ready, s.waiters, futures) && WaitersServed(s.waiters, futures, ready)
  {
    ResolvedQueue(s, r, outcome);
    assert HeldBy(r, s.futures[r].callbacks, s.waiters);
  }

  lemma FinishKeeps<V>(s: State<V>, r: nat, outcome: Outcome<V>)
    requires Inv(s) && Enabled(s, FinishRunner(r, outcome))
    ensures Inv(AfterFinish(s, r, outcome))
  {
    FinishKeepsWaiters(s, r, outcome);
    PhaseKeepsCoros(s.runners, s.coros, r, Finished);
    ResolvedQueue(s, r, outcome);
    FinishKeepsFlight(s.running, s.runners, s.futures, r, outcome);
    FinishKeepsTasks(s.tasks, s.runners, s.ready, AfterFinish(s, r, outcome).ready, r);
  }

  // ---- waiters ----

  lemma AttachPendingKeeps<V>(waiters: seq<Waiter<V>>, futures: seq<Future<V>>, ready: seq<Callback>, w: nat)
    requires WaitersCapture(waiters, |futures|) && w < |waiters| && waiters[w].wait.NotStarted?
    requires futures[waiters[w].future].Pending?
    requires QueueSound(ready, waiters, futures) && CallbacksSound(futures, waiters)
    requires WaitersServed(waiters, futures, ready)
    ensures
      var waiting := waiters[w := waiters[w].(wait := Waiting)];
      var f := waiters[w].future;
      var added := futures[f := Pending(futures[f].callbacks + [w])];
      && QueueSound(ready, waiting, added) && CallbacksSound(added, waiting) && WaitersServed(waiting, added, ready)
  {
    var f := waiters[w].future;
    var waiting := waiters[w := waiters[w].(wait := Waiting)];
    var added := futures[f := Pending(futures[f].callbacks + [w])];
    forall g | 0 <= g < |added| && added[g].Pending? ensures HeldBy(g, added[g].callbacks, waiting) {
      StartedWaiter(g, futures[g].callbacks, waiters, w);
      if g == f {
        AddedCallback(f, futures[f].callbacks, waiting, w);
      }
    }
  }

  /** A waiter that has not started is in no list, so starting it disturbs none. */
  lemma StartedWaiter<V>(f: nat, callbacks: seq<nat>, waiters: seq<Waiter<V>>, w: nat)
    requires HeldBy(f, callbacks, waiters) && w < |waiters| && waiters[w].wait.NotStarted?
    ensures w !in callbacks && HeldBy(f, callbacks, waiters[w := waiters[w].(wait := Waiting)])
  {
  }

  lemma AddedCallback<V>(f: nat, callbacks: seq<nat>, waiters: seq<Waiter<V>>, w: nat)
    requires HeldBy(f, callbacks, waiters) && w !in callbacks
    requires w < |waiters| && waiters[w].future == f && waiters[w].wait.Waiting?
    ensures HeldBy(f, callbacks + [w], waiters)
  {
  }

  lemma AttachDoneKeeps<V>(waiters: seq<Waiter<V>>, futures: seq<Future<V>>, ready: seq<Callback>, w: nat)
    requires WaitersCapture(waiters, |futures|) && w < |waiters| && waiters[w].wait.NotStarted?
    requires futures[waiters[w].future].Done?
    requires QueueSound(ready, waiters, futures) && CallbacksSound(futures, waiters)
    requires WaitersServed(waiters, futures, ready)
    ensures
      var waiting := waiters[w := waiters[w].(wait := Waiting)];
      var queued := ready + [Callback.Deliver(w)];
      && QueueSound(queued, waiting, futures) && CallbacksSound(futures, waiting)
      && WaitersServed(waiting, futures, queued)
  {
    var waiting := waiters[w := waiters[w].(wait := Waiting)];
    forall g | 0 <= g < |futures| && futures[g].Pending? ensures HeldBy(g, futures[g].callbacks, waiting) {
      StartedWaiter(g, futures[g].callbacks, waiters, w);
    }
    assert Deliver(w) !in ready;
  }

  lemma AttachKeeps<V>(s: State<V>, w: nat)
    requires Inv(s) && Enabled(s, Attach(w))
    ensures Inv(AfterAttach(s, w))
  {
    if s.futures[s.waiters[w].future].Pending? {
      AttachPendingKeeps(s.waiters, s.futures, s.ready, w);
    } else {
      AttachDoneKeeps(s.waiters, s.futures, s.ready, w);
    }
  }

  lemma Tail(ready: seq<Callback>)
    requires NoDuplicates(ready) && ready != []
    ensures NoDuplicates(ready[1..])
    ensures forall cb :: cb in ready[1..] <==> cb in ready && cb != ready[0]
  {
    forall cb | cb in ready && cb != ready[0] ensures cb in ready[1..] {
      var i :| 0 <= i < |ready| && ready[i] == cb;
      assert ready[1..][i - 1] == cb;
    }
  }

  /** Moving one waiter to a state that needs no registration, or has just been served. */
  lemma WaitKeeps<V>(s: State<V>, w: nat, wait: Wait<V>, ready: seq<Callback>)
    requires w < |s.waiters|
    requires QueueSound(s.ready, s.waiters, s.futures) && CallbacksSound(s.futures, s.waiters)
    requires WaitersServed(s.waiters, s.futures, s.ready) && WaitersCapture(s.waiters, |s.futures|)
    requires NoDuplicates(ready)
    requires forall v: nat :: Deliver(v) in ready ==> Deliver(v) in s.ready && (v == w ==> wait.Cancelled?)
    requires forall v: nat :: Deliver(v) in s.ready && v != w ==> Deliver(v) in ready
    requires
      || wait.Cancelled?
      || (wait.Returned? && s.waiters[w].wait == Resolved(wait.outcome))
      || (wait.Resolved? && s.futures[s.waiters[w].future] == Done(wait.outcome) && Deliver(w) in s.ready)
    ensures
      var waiters := s.waiters[w := s.waiters[w].(wait := wait)];
      && QueueSound(ready, waiters, s.futures) && CallbacksSound(s.futures, waiters)
      && WaitersServed(waiters, s.futures, ready)
  {
    var waiters := s.waiters[w := s.waiters[w].(wait := wait)];
    forall g | 0 <= g < |s.futures| && s.futures[g].Pending? ensures HeldBy(g, s.futures[g].callbacks, waiters) {
      assert HeldBy(g, s.futures[g].callbacks, s.waiters);
    }
  }

  lemma FireKeeps<V>(s: State<V>)
    requires Inv(s) && s.ready != []
    ensures Inv(AfterFire(s))
  {
    Tail(s.ready);
    var head := s.ready[0];
    assert head in s.ready;
    if head.Deliver? && s.waiters[head.waiter].wait.Waiting? {
      WaitKeeps(s, head.waiter, Resolved(s.futures[s.waiters[head.waiter].future].outcome), s.ready[1..]);
    }
  }

  lemma WakeKeeps<V>(s: State<V>, w: nat)
    requires Inv(s) && Enabled(s, Wake(w))
    ensures Inv(Step(s, Wake(w)))
  {
    WaitKeeps(s, w, Returned(s.waiters[w].wait.outcome), s.ready);
  }

  lemma CancelKeeps<V>(s: State<V>, w: nat)
    requires Inv(s) && Enabled(s, Cancel(w))
    ensures Inv(Step(s, Cancel(w)))
  {
    WaitKeeps(s, w, Cancelled, s.ready);
  }

  lemma StepKeeps<V>(s: State<V>, e: Event<V>)
    requires Inv(s)
    ensures Inv(Step(s, e))
  {
    if Enabled(s, e) {
      match e
      case Call(ident) => CallKeeps(s, ident);
      case StartRunner(r) => StartKeeps(s, r);
      case FinishRunner(r, outcome) => FinishKeeps(s, r, outcome);
      case Attach(w) => AttachKeeps(s, w);
      case Fire => FireKeeps(s);
      case Wake(w) => WakeKeeps(s, w);
      case Cancel(w) => CancelKeeps(s, w);
    }
  }

  lemma {:induction false} RunKeeps<V>(s: State<V>, es: seq<Event<V>>)
    requires Inv(s)
    ensures Inv(Run(s, es))
  {
    if es != [] {
      RunKeeps(s, es[..|es| - 1]);
      StepKeeps(Run(s, es[..|es| - 1]), es[|es| - 1]);
    }
  }
}
