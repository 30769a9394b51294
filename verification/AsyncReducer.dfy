/** The reducer as the object it is: each method is the code between two awaits, updates the fields
    in place and is proved to be one step of the state machine. */
module AsyncReducerObject {
  import opened Reducer
  import opened ReducerInvariant

  class AsyncReducer<V> {
    var running: map<Ident, nat>
    var tasks: set<nat>
    // What the event loop keeps for this reducer: futures, runner tasks, waiters, coroutines and
    // its ready queue.
    var futures: seq<Future<V>>
    var runners: seq<Runner>
    var waiters: seq<Waiter<V>>
    var coros: seq<Coro>
    var ready: seq<Callback>
    var faults: nat

    ghost function Snapshot(): State<V>
      reads this
    {
      State(running, tasks, futures, runners, waiters, coros, ready, faults)
    }

    ghost predicate Valid()
      reads this
    {
      Inv(Snapshot())
    }

    constructor ()
      ensures Valid() && Snapshot() == Init()
    {
      running, tasks := map[], {};
      futures, runners, waiters, coros, ready, faults := [], [], [], [], [], 0;
      new;
      InitHolds<V>();
    }

    /** A call joins the ident's execution, or starts one if there is none. */
    method Call(ident: Ident) returns (waiter: nat)
      requires Valid()
      modifies this
      ensures Valid() && Snapshot() == Step(old(Snapshot()), Reducer.Call(ident))
      ensures waiter == |old(waiters)| && |waiters| == waiter + 1
      ensures waiters[waiter].wait.NotStarted? && ident in running && waiters[waiter].future == running[ident]
    {
      var coro := |coros|;
      coros := coros + [Coro(0, 0)];
      var future, created := GetOrCreateFuture(ident);
      if created {
        running := running[ident := future];
        var task := |runners|;
        runners := runners + [Runner(ident, coro, future, Scheduled)];
        tasks := tasks + {task};
      } else {
        Close(coro);
      }
      waiter := |waiters|;
      waiters := waiters + [Waiter(future, NotStarted)];
      assert Snapshot() == AfterCall(old(Snapshot()), ident);
      CallKeeps(old(Snapshot()), ident);
    }

    /** The spare coroutine of a call that joins is closed without having run. */
    method Close(coro: nat)
      requires coro < |coros|
      modifies this`coros
      ensures coros == old(coros)[coro := Coro(old(coros)[coro].runs, old(coros)[coro].closes + 1)]
      ensures coro == |old(coros)| - 1 ==>
                coros == old(coros)[..coro] + [Coro(old(coros)[coro].runs, old(coros)[coro].closes + 1)]
    {
      coros := coros[coro := Coro(coros[coro].runs, coros[coro].closes + 1)];
    }

    method GetOrCreateFuture(ident: Ident) returns (future: nat, created: bool)
      modifies this`running, this`futures
      ensures created <==> ident !in old(running)
      ensures !created ==> ident in running && future == running[ident]
      ensures !created ==> running == old(running) && futures == old(futures)
      ensures created ==> future == |old(futures)| && futures == old(futures) + [Pending([])]
                          && running == old(running)[ident := future]
    {
      if ident in running {
        return running[ident], false;
      } else {
        future := |futures|;
        futures := futures + [Pending([])];
        running := running[ident := future];
        return future, true;
      }
    }

    /** The first step of `_runner`: it enters the `try` and starts awaiting the coroutine. */
    method StartRunner(r: nat)
      requires Valid() && Enabled(Snapshot(), Reducer.StartRunner(r))
      modifies this
      ensures Valid() && Snapshot() == Step(old(Snapshot()), Reducer.StartRunner(r))
    {
      var c := runners[r].coro;
      coros := coros[c := Coro(coros[c].runs + 1, coros[c].closes)];
      runners := runners[r := runners[r].(phase := Started)];
      assert Snapshot() == AfterStart(old(Snapshot()), r);
      StartKeeps(old(Snapshot()), r);
    }

    /** The last step of `_runner`: the coroutine has ended with `outcome`. */
    method FinishRunner(r: nat, outcome: Outcome<V>)
      requires Valid() && Enabled(Snapshot(), Reducer.FinishRunner(r, outcome))
      modifies this
      ensures Valid() && Snapshot() == Step(old(Snapshot()), Reducer.FinishRunner(r, outcome))
      ensures runners[r].ident !in running && r < |futures| && futures[r] == Done(outcome)
    {
      SetFutureResult(runners[r].future, outcome);
      DeleteRunningEntry(runners[r].ident);
      runners := runners[r := runners[r].(phase := Finished)];
      ready := ready + [Discard(r)];
      assert Snapshot() == AfterFinish(old(Snapshot()), r, outcome);
      FinishKeeps(old(Snapshot()), r, outcome);
    }

    /** The ident's entry is removed; removing a missing one would raise. */
    method DeleteRunningEntry(ident: Ident)
      modifies this`running, this`faults
      ensures Snapshot() == DeleteRunning(old(Snapshot()), ident)
    {
      if ident in running {
        running := running - {ident};
      } else {
        faults := faults + 1;
      }
    }

    /** asyncio's set_result / set_exception, which schedules the callbacks one by one. */
    method SetFutureResult(f: nat, outcome: Outcome<V>)
      modifies this`futures, this`ready, this`faults
      ensures Snapshot() == SetFuture(old(Snapshot()), f, outcome)
    {
      if f < |futures| && futures[f].Pending? {
        var callbacks := futures[f].callbacks;
        futures := futures[f := Done(outcome)];
        for i := 0 to |callbacks|
          invariant ready == old(ready) + Deliveries(callbacks[..i])
          invariant futures == old(futures)[f := Done(outcome)] && faults == old(faults)
        {
          ready := ready + [Deliver(callbacks[i])];
          assert Deliveries(callbacks[..i + 1]) == Deliveries(callbacks[..i]) + [Deliver(callbacks[i])];
        }
        assert callbacks[..|callbacks|] == callbacks;
      } else {
        faults := faults + 1;
      }
    }

    /** The first step of `_waiter`: a private future, a callback on the shared one. */
    method Attach(w: nat)
      requires Valid() && Enabled(Snapshot(), Reducer.Attach(w))
      modifies this
      ensures Valid() && Snapshot() == Step(old(Snapshot()), Reducer.Attach(w))
    {
      AttachKeeps(Snapshot(), w);
      var f := waiters[w].future;
      match futures[f] {
        case Pending(callbacks) => futures := futures[f := Pending(callbacks + [w])];
        case Done(_) => ready := ready + [Deliver(w)];
      }
      waiters := waiters[w := waiters[w].(wait := Waiting)];
    }

    /** The event loop runs the next ready callback of this reducer. */
    method FireNext()
      requires Valid() && ready != []
      modifies this
      ensures Valid() && Snapshot() == Step(old(Snapshot()), Fire)
    {
      FireKeeps(Snapshot());
      var callback := ready[0];
      ready := ready[1..];
      match callback {
        case Discard(t) => tasks := tasks - {t};
        case Deliver(w) => SetWaitFutureResult(w);
      }
    }

    /** Serving a waiter: its private future takes over the shared one's result, unless it was cancelled. */
    method SetWaitFutureResult(w: nat)
      modifies this`waiters, this`faults
      ensures Snapshot() == SetWaitFuture(old(Snapshot()), w)
    {
      if w >= |waiters| || waiters[w].future >= |futures| {
        faults := faults + 1;
        return;
      }
      if waiters[w].wait.Cancelled? {
        return;
      }
      var result := ResultOf(futures[waiters[w].future]);
      if waiters[w].wait.Waiting? {
        waiters := waiters[w := waiters[w].(wait := Resolved(result))];
      } else {
        faults := faults + 1;
      }
    }

    /** The waiter resumes from its private future: it returns the value or raises the exception. */
    method Wake(w: nat) returns (outcome: Outcome<V>)
      requires Valid() && Enabled(Snapshot(), Reducer.Wake(w))
      modifies this`waiters
      ensures Valid() && Snapshot() == Step(old(Snapshot()), Reducer.Wake(w))
      ensures waiters[w].future < |futures| && futures[waiters[w].future] == Done(outcome)
    {
      WakeKeeps(Snapshot(), w);
      outcome := waiters[w].wait.outcome;
      waiters := waiters[w := waiters[w].(wait := Returned(outcome))];
    }

    /** The caller's task is cancelled while it is in `_waiter`. */
    method Cancel(w: nat)
      requires Valid() && Enabled(Snapshot(), Reducer.Cancel(w))
      modifies this`waiters
      ensures Valid() && Snapshot() == Step(old(Snapshot()), Reducer.Cancel(w))
    {
      CancelKeeps(Snapshot(), w);
      waiters := waiters[w := waiters[w].(wait := Cancelled)];
    }
  }
}
