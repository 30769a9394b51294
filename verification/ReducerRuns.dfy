/** Whole runs of the reducer: single flight, conservation of coroutines, delivery, progress and
    isolation of cancelled waiters. */
module ReducerRuns {
  import opened Prelude
  import opened Reducer
  import opened ReducerInvariant

  ghost predicate Reachable<V(!new)>(s: State<V>) {
    exists es :: IsRun(Init<V>(), es) && s == Run(Init(), es)
  }

  lemma ReachableInv<V(!new)>(s: State<V>)
    requires Reachable(s)
    ensures Inv(s)
  {
    var es :| IsRun(Init<V>(), es) && s == Run(Init(), es);
    InitHolds<V>();
    RunKeeps(Init(), es);
  }

  // ---- single flight ----

  /** `_running` names exactly the unfinished executions, one per ident; the futures it stores are
      pending and distinct; every unfinished runner's task is referenced. */
  lemma OneExecutionPerIdent<V(!new)>(s: State<V>)
    requires Reachable(s)
    ensures forall id :: id in s.running <==> exists r: nat :: RunsFor(s.runners, r, id)
    ensures forall id, q: nat, r: nat :: RunsFor(s.runners, q, id) && RunsFor(s.runners, r, id) ==> q == r
    ensures forall id :: id in s.running ==>
              s.running[id] < |s.futures| && s.futures[s.running[id]].Pending?
    ensures forall a, b :: a in s.running && b in s.running && a != b ==> s.running[a] != s.running[b]
    ensures forall r: nat :: Unfinished(s.runners, r) ==> r in s.tasks
    ensures s.faults == 0
  {
    ReachableInv(s);
    FlightUnique(s.running, s.runners, s.futures);
  }

  ghost predicate RunsFor(runners: seq<Runner>, r: nat, id: Ident) {
    Unfinished(runners, r) && runners[r].ident == id
  }

  lemma FlightUnique<V>(running: map<Ident, nat>, runners: seq<Runner>, futures: seq<Future<V>>)
    requires SingleFlight(running, runners, futures)
    ensures forall id :: id in running <==> exists r: nat :: RunsFor(runners, r, id)
    ensures forall id, q: nat, r: nat :: RunsFor(runners, q, id) && RunsFor(runners, r, id) ==> q == r
  {
    forall id | id in running ensures RunsFor(runners, running[id], id) {}
  }

  // ---- conservation of coroutines ----

  function RunsOf(c: Coro): nat { c.runs }

  function ClosesOf(c: Coro): nat { c.closes }

  function IsScheduled(r: Runner): nat { if r.phase.Scheduled? then 1 else 0 }

  ghost predicate Conserved<V>(s: State<V>) {
    Sum(RunsOf, s.coros) + Sum(ClosesOf, s.coros) + Sum(IsScheduled, s.runners) == |s.coros|
  }

  lemma CallConserves<V>(s: State<V>, ident: Ident)
    requires Conserved(s)
    ensures Conserved(AfterCall(s, ident))
  {
    var added := if ident in s.running then Coro(0, 1) else Coro(0, 0);
    SumSnoc(RunsOf, s.coros, added);
    SumSnoc(ClosesOf, s.coros, added);
    SumSnoc(IsScheduled, s.runners, Runner(ident, |s.coros|, |s.futures|, Scheduled));
  }

  lemma StartConserves<V>(s: State<V>, r: nat)
    requires r < |s.runners| && s.runners[r].coro < |s.coros| && s.runners[r].phase.Scheduled? && Conserved(s)
    ensures Conserved(AfterStart(s, r))
  {
    var c := s.runners[r].coro;
    SumUpdate(RunsOf, s.coros, c, Coro(s.coros[c].runs + 1, s.coros[c].closes));
    SumUpdate(ClosesOf, s.coros, c, Coro(s.coros[c].runs + 1, s.coros[c].closes));
    SumUpdate(IsScheduled, s.runners, r, s.runners[r].(phase := Started));
  }

  lemma FinishConserves<V>(s: State<V>, r: nat, outcome: Outcome<V>)
    requires r < |s.runners| && s.runners[r].phase.Started? && Conserved(s)
    ensures Conserved(AfterFinish(s, r, outcome))
  {
    SumUpdate(IsScheduled, s.runners, r, s.runners[r].(phase := Finished));
  }

  lemma StepConserves<V>(s: State<V>, e: Event<V>)
    requires Inv(s) && Conserved(s)
    ensures Conserved(Step(s, e))
  {
    if Enabled(s, e) {
      match e
      case Call(ident) => CallConserves(s, ident);
      case StartRunner(r) => StartConserves(s, r);
      case FinishRunner(r, outcome) => FinishConserves(s, r, outcome);
      case _ => WaiterStepKeepsCoros(s, e);
    }
  }

  lemma WaiterStepKeepsCoros<V>(s: State<V>, e: Event<V>)
    requires e.Attach? || e.Fire? || e.Wake? || e.Cancel?
    ensures Step(s, e).coros == s.coros && Step(s, e).runners == s.runners
  {
  }

  lemma {:induction false} RunConserves<V>(s: State<V>, es: seq<Event<V>>)
    requires Inv(s) && Conserved(s)
    ensures Conserved(Run(s, es))
  {
    if es != [] {
      RunConserves(s, es[..|es| - 1]);
      RunKeeps(s, es[..|es| - 1]);
      StepConserves(Run(s, es[..|es| - 1]), es[|es| - 1]);
    }
  }

  /** Every coroutine handed over is awaited once or closed once, never both, never twice; only
      those of runners that have not taken their first step are still waiting for it. */
  lemma CoroutinesConserved<V(!new)>(s: State<V>)
    requires Reachable(s)
    ensures forall c :: 0 <= c < |s.coros| ==> s.coros[c].runs + s.coros[c].closes <= 1
    ensures forall c :: 0 <= c < |s.coros| && s.coros[c].runs + s.coros[c].closes == 0 ==>
              exists r :: 0 <= r < |s.runners| && s.runners[r].coro == c && s.runners[r].phase.Scheduled?
    ensures Sum(RunsOf, s.coros) + Sum(ClosesOf, s.coros) + Sum(IsScheduled, s.runners) == |s.coros|
  {
    var es :| IsRun(Init<V>(), es) && s == Run(Init(), es);
    ReachableInv(s);
    InitHolds<V>();
    RunConserves(Init(), es);
    forall c | 0 <= c < |s.coros|
      ensures s.coros[c].runs + s.coros[c].closes <= 1
      ensures s.coros[c].runs + s.coros[c].closes == 0 ==>
                exists r :: 0 <= r < |s.runners| && s.runners[r].coro == c && s.runners[r].phase.Scheduled?
    {
      if Owned(s.runners, c) {
        var r :| 0 <= r < |s.runners| && s.runners[r].coro == c;
      }
    }
  }

  // ---- delivery and freshness ----

  ghost predicate RunnersExtend(rs: seq<Runner>, ts: seq<Runner>) {
    && |rs| <= |ts|
    && forall r {:trigger ts[r]} :: 0 <= r < |rs| ==> ts[r].ident == rs[r].ident && ts[r].coro == rs[r].coro
  }

  ghost predicate FuturesExtend<V>(fs: seq<Future<V>>, gs: seq<Future<V>>) {
    |fs| <= |gs| && forall f {:trigger gs[f]} :: 0 <= f < |fs| && fs[f].Done? ==> gs[f] == fs[f]
  }

  ghost predicate WaitersExtend<V>(ws: seq<Waiter<V>>, vs: seq<Waiter<V>>) {
    |ws| <= |vs| && forall w {:trigger vs[w]} :: 0 <= w < |ws| ==> vs[w].future == ws[w].future
  }

  /** What a later state keeps of an earlier one. */
  ghost predicate Extends<V>(s: State<V>, t: State<V>) {
    RunnersExtend(s.runners, t.runners) && FuturesExtend(s.futures, t.futures) && WaitersExtend(s.waiters, t.waiters)
  }

  lemma FinishExtends<V>(s: State<V>, r: nat, outcome: Outcome<V>)
    requires Inv(s) && Unfinished(s.runners, r)
    ensures Extends(s, AfterFinish(s, r, outcome))
  {
    assert AfterFinish(s, r, outcome).futures == s.futures[r := Done(outcome)];
  }

  lemma CallExtends<V>(s: State<V>, ident: Ident)
    requires Inv(s)
    ensures Extends(s, AfterCall(s, ident))
  {
  }

  lemma AttachExtends<V>(s: State<V>, w: nat)
    requires w < |s.waiters|
    ensures Extends(s, AfterAttach(s, w))
  {
  }

  lemma FireExtends<V>(s: State<V>)
    requires s.ready != []
    ensures Extends(s, AfterFire(s))
  {
  }

  lemma WaitExtends<V>(s: State<V>, w: nat, wait: Wait<V>)
    requires w < |s.waiters|
    ensures Extends(s, WithWait(s, w, wait))
  {
  }

  lemma StepExtends<V>(s: State<V>, e: Event<V>)
    requires Inv(s)
    ensures Extends(s, Step(s, e))
  {
    if Enabled(s, e) {
      match e
      case Call(ident) => CallExtends(s, ident);
      case FinishRunner(r, outcome) => FinishExtends(s, r, outcome);
      case StartRunner(r) =>
      case Attach(w) => AttachExtends(s, w);
      case Fire => FireExtends(s);
      case Wake(w) => WaitExtends(s, w, Returned(s.waiters[w].wait.outcome));
      case Cancel(w) => WaitExtends(s, w, Cancelled);
    }
  }

  lemma StepResolves<V>(s: State<V>, e: Event<V>, f: nat)
    requires Inv(s) && f < |s.futures| && s.futures[f].Pending?
    ensures f < |Step(s, e).futures|
    ensures Step(s, e).futures[f].Done? ==> Enabled(s, e) && e == FinishRunner(f, Step(s, e).futures[f].outcome)
    ensures Step(s, e).futures[f].Pending? && Enabled(s, e) && e.FinishRunner? ==> e.runner != f
  {
    if Enabled(s, e) && e.FinishRunner? {
      assert AfterFinish(s, e.runner, e.outcome).futures == s.futures[e.runner := Done(e.outcome)];
    } else if !e.FinishRunner? {
      OthersKeepPending(s, e, f);
    }
  }

  lemma OthersKeepPending<V>(s: State<V>, e: Event<V>, f: nat)
    requires f < |s.futures| && s.futures[f].Pending? && !e.FinishRunner?
    ensures f < |Step(s, e).futures| && Step(s, e).futures[f].Pending?
  {
  }

  lemma {:induction false} RunExtends<V>(s: State<V>, es: seq<Event<V>>)
    requires Inv(s)
    ensures Extends(s, Run(s, es))
  {
    if es != [] {
      RunExtends(s, es[..|es| - 1]);
      RunKeeps(s, es[..|es| - 1]);
      StepExtends(Run(s, es[..|es| - 1]), es[|es| - 1]);
    }
  }

  ghost predicate FinishesAt<V>(es: seq<Event<V>>, j: int, f: nat) {
    0 <= j < |es| && es[j].FinishRunner? && es[j].runner == f
  }

  /** `es` resolves future `f` at its event `j`, with `o`, and at no other event. */
  ghost predicate ResolvedOnce<V>(es: seq<Event<V>>, j: int, f: nat, o: Outcome<V>) {
    && FinishesAt(es, j, f) && es[j] == FinishRunner(f, o)
    && forall k :: FinishesAt(es, k, f) ==> k == j
  }

  lemma FinishesLast<V>(es: seq<Event<V>>, f: nat, o: Outcome<V>)
    requires es != []
    ensures
      var init, last := es[..|es| - 1], es[|es| - 1];
      && (forall j :: !(last.FinishRunner? && last.runner == f) && ResolvedOnce(init, j, f, o) ==>
            ResolvedOnce(es, j, f, o))
      && (last == FinishRunner(f, o) && (forall k :: !FinishesAt(init, k, f)) ==> ResolvedOnce(es, |init|, f, o))
      && (!(last.FinishRunner? && last.runner == f) && (forall k :: !FinishesAt(init, k, f)) ==>
            forall k :: !FinishesAt(es, k, f))
  {
    var init, last := es[..|es| - 1], es[|es| - 1];
    forall k ensures FinishesAt(es, k, f) <==>
                     FinishesAt(init, k, f) || (k == |init| && last.FinishRunner? && last.runner == f) {}
  }

  /** In any run a shared future is resolved by exactly one event, with the outcome of that event. */
  lemma {:induction false} FinishedOnce<V>(s: State<V>, es: seq<Event<V>>, f: nat)
    requires Inv(s) && IsRun(s, es) && Unfinished(s.runners, f)
    ensures f < |Run(s, es).futures|
    ensures Run(s, es).futures[f].Pending? ==> forall k :: !FinishesAt(es, k, f)
    ensures Run(s, es).futures[f].Done? ==> exists j :: ResolvedOnce(es, j, f, Run(s, es).futures[f].outcome)
  {
    if es != [] {
      var init, last := es[..|es| - 1], es[|es| - 1];
      var mid := Run(s, init);
      FinishedOnce(s, init, f);
      RunKeeps(s, init);
      FinishedOnceLast(mid, last, f);
      FinishesLast(es, f, ResultOf(Run(s, es).futures[f]));
    }
  }

  lemma FinishedOnceLast<V>(s: State<V>, e: Event<V>, f: nat)
    requires Inv(s) && Enabled(s, e) && f < |s.futures|
    ensures f < |Step(s, e).futures|
    ensures s.futures[f].Done? ==> Step(s, e).futures[f] == s.futures[f] && !(e.FinishRunner? && e.runner == f)
    ensures s.futures[f].Pending? && Step(s, e).futures[f].Pending? ==> !(e.FinishRunner? && e.runner == f)
    ensures s.futures[f].Pending? && Step(s, e).futures[f].Done? ==>
              e == FinishRunner(f, Step(s, e).futures[f].outcome)
  {
    StepExtends(s, e);
    if s.futures[f].Pending? {
      StepResolves(s, e, f);
    }
  }

  /** A call made in state `s` captures one execution of its own ident that is still in flight: the
      one running already, or a new one of the coroutine it brought. Whatever happens afterwards,
      the waiter never ends with anything but the outcome of that execution, which finishes after
      the call and only once. */
  lemma Delivery<V(!new)>(s: State<V>, ident: Ident, es: seq<Event<V>>)
    requires Reachable(s)
    requires IsRun(Step(s, Call(ident)), es)
    ensures
      var called := Step(s, Call(ident));
      var end := Run(called, es);
      var w := |s.waiters|;
      && w < |called.waiters| && w < |end.waiters| && w < |called.coros|
      && var f := called.waiters[w].future;
      && Unfinished(called.runners, f) && called.runners[f].ident == ident
      && (ident in s.running ==> f == s.running[ident] && called.coros[w] == Coro(0, 1))
      && (ident !in s.running ==> f == |s.runners| && called.runners[f].coro == w)
      && end.waiters[w].future == f
      && (end.waiters[w].wait.Resolved? || end.waiters[w].wait.Returned? ==>
            exists j :: ResolvedOnce(es, j, f, end.waiters[w].wait.outcome))
  {
    ReachableInv(s);
    var called := Step(s, Call(ident));
    StepKeeps(s, Call(ident));
    RunKeeps(called, es);
    RunExtends(called, es);
    FinishedOnce(called, es, called.waiters[|s.waiters|].future);
    assert Run(called, es).waiters[|s.waiters|].future < |Run(called, es).futures|;
  }

  // ---- progress ----

  function RunnerWeight(r: Runner): nat {
    match r.phase case Scheduled => 3 case Started => 2 case Finished => 0
  }

  function WaiterWeight<V>(w: Waiter<V>): nat {
    match w.wait case NotStarted => 3 case Waiting => 1 case Resolved(_) => 1 case _ => 0
  }

  function FutureWeight<V>(f: Future<V>): nat {
    match f case Pending(callbacks) => |callbacks| case Done(_) => 0
  }

  /** An upper bound on the events that can still happen without a new call. */
  ghost function Weight<V>(s: State<V>): nat {
    Sum(RunnerWeight, s.runners) + Sum(WaiterWeight<V>, s.waiters) + Sum(FutureWeight<V>, s.futures) + |s.ready|
  }

  lemma WaitWeight<V>(s: State<V>, w: nat, wait: Wait<V>)
    requires w < |s.waiters|
    ensures Sum(WaiterWeight<V>, WithWait(s, w, wait).waiters) + WaiterWeight(s.waiters[w])
         == Sum(WaiterWeight<V>, s.waiters) + WaiterWeight(s.waiters[w].(wait := wait))
  {
    SumUpdate(WaiterWeight<V>, s.waiters, w, s.waiters[w].(wait := wait));
  }

  lemma StartDecreases<V>(s: State<V>, r: nat)
    requires Enabled(s, StartRunner(r))
    ensures Weight(AfterStart(s, r)) < Weight(s)
  {
    SumUpdate(RunnerWeight, s.runners, r, s.runners[r].(phase := Started));
  }

  lemma WaitDecreases<V>(s: State<V>, w: nat, wait: Wait<V>)
    requires w < |s.waiters| && (wait.Returned? || wait.Cancelled?) && Cancellable(s.waiters[w].wait)
    ensures Weight(WithWait(s, w, wait)) < Weight(s)
  {
    WaitWeight(s, w, wait);
  }

  lemma FinishDecreases<V>(s: State<V>, r: nat, outcome: Outcome<V>)
    requires Inv(s) && Enabled(s, FinishRunner(r, outcome))
    ensures Weight(AfterFinish(s, r, outcome)) < Weight(s)
  {
    var t := AfterFinish(s, r, outcome);
    SumUpdate(RunnerWeight, s.runners, r, s.runners[r].(phase := Finished));
    SumUpdate(FutureWeight<V>, s.futures, r, Done(outcome));
    assert |t.ready| == |s.ready| + |s.futures[r].callbacks| + 1;
  }

  lemma AttachDecreases<V>(s: State<V>, w: nat)
    requires w < |s.waiters| && s.waiters[w].wait.NotStarted? && s.waiters[w].future < |s.futures|
    ensures Weight(AfterAttach(s, w)) < Weight(s)
  {
    var f := s.waiters[w].future;
    WaitWeight(s, w, Waiting);
    if s.futures[f].Pending? {
      SumUpdate(FutureWeight<V>, s.futures, f, Pending(s.futures[f].callbacks + [w]));
    }
  }

  lemma FireDecreases<V>(s: State<V>)
    requires Inv(s) && s.ready != []
    ensures Weight(AfterFire(s)) < Weight(s)
  {
    var rest := s.(ready := s.ready[1..]);
    assert s.ready[0] in s.ready;
    if s.ready[0].Deliver? {
      SetWaitWeight(rest, s.ready[0].waiter);
    }
  }

  lemma SetWaitWeight<V>(s: State<V>, w: nat)
    ensures Weight(SetWaitFuture(s, w)) <= Weight(s)
  {
    if w < |s.waiters| && s.waiters[w].future < |s.futures| {
      WaitWeight(s, w, Resolved(ResultOf(s.futures[s.waiters[w].future])));
    }
  }

  lemma StepDecreases<V>(s: State<V>, e: Event<V>)
    requires Inv(s) && Enabled(s, e) && !e.Call?
    ensures Weight(Step(s, e)) < Weight(s)
  {
    match e
    case StartRunner(r) => StartDecreases(s, r);
    case FinishRunner(r, outcome) => FinishDecreases(s, r, outcome);
    case Attach(w) => AttachDecreases(s, w);
    case Fire => FireDecreases(s);
    case Wake(w) => WaitDecreases(s, w, Returned(s.waiters[w].wait.outcome));
    case Cancel(w) => WaitDecreases(s, w, Cancelled);
  }

  /** Once calls stop, a run is no longer than the weight of the state it starts in. */
  lemma {:induction false} RunsAreBounded<V>(s: State<V>, es: seq<Event<V>>)
    requires Inv(s) && IsRun(s, es)
    requires forall i :: 0 <= i < |es| ==> !es[i].Call?
    ensures |es| + Weight(Run(s, es)) <= Weight(s)
  {
    if es != [] {
      var init := es[..|es| - 1];
      RunsAreBounded(s, init);
      RunKeeps(s, init);
      StepDecreases(Run(s, init), es[|es| - 1]);
    }
  }

  /** Only a new call or a cancellation could still happen. */
  ghost predicate Quiescent<V>(s: State<V>) {
    && (forall r: nat :: !Enabled(s, StartRunner(r)))
    && (forall r: nat :: !Enabled(s, FinishRunner(r, Raised(CancelledError))))
    && (forall w: nat :: !Enabled(s, Attach(w)))
    && (forall w: nat :: !Enabled(s, Wake(w)))
    && !Enabled(s, Fire)
  }

  /** When nothing is left to do, nothing is left over: no entry, no task, no unserved waiter. */
  lemma QuiescentIsClean<V(!new)>(s: State<V>)
    requires Reachable(s) && Quiescent(s)
    ensures s.running == map[] && s.tasks == {}
    ensures forall w :: 0 <= w < |s.waiters| ==>
              && s.waiters[w].future < |s.futures|
              && s.futures[s.waiters[w].future].Done?
              && (s.waiters[w].wait.Cancelled? ||
                  s.waiters[w].wait == Returned(s.futures[s.waiters[w].future].outcome))
  {
    ReachableInv(s);
    forall r: nat ensures !Unfinished(s.runners, r) {
      assert !Enabled(s, StartRunner(r)) && !Enabled(s, FinishRunner(r, Raised(CancelledError)));
    }
    forall w | 0 <= w < |s.waiters| ensures s.waiters[w].wait.Cancelled? || s.waiters[w].wait.Returned? {
      assert !Enabled(s, Attach(w)) && !Enabled(s, Wake(w));
      assert Served(s.waiters[w].wait, w, s.futures[s.waiters[w].future], s.ready);
    }
    assert forall w :: 0 <= w < |s.waiters| ==> Served(s.waiters[w].wait, w, s.futures[s.waiters[w].future], s.ready);
  }

  lemma {:induction false} RunCons<V>(s: State<V>, e: Event<V>, es: seq<Event<V>>)
    requires Enabled(s, e) && IsRun(Step(s, e), es)
    ensures IsRun(s, [e] + es) && Run(s, [e] + es) == Run(Step(s, e), es)
  {
    if es == [] {
      assert [e] + es == [e] && [e][..0] == [];
      assert IsRun(s, [e][..0]) && Run(s, [e][..0]) == s;
    } else {
      RunCons(s, e, es[..|es| - 1]);
      ConsInit(e, es);
    }
  }

  lemma ConsInit<T>(x: T, xs: seq<T>)
    requires xs != []
    ensures
      var all := [x] + xs;
      all != [] && all[..|all| - 1] == [x] + xs[..|xs| - 1] && all[|all| - 1] == xs[|xs| - 1]
  {
  }

  /** Neither a call nor a cancellation; a coroutine ends as `ends` says. */
  ghost predicate Internal<V>(e: Event<V>, ends: nat -> Outcome<V>) {
    !e.Call? && !e.Cancel? && (e.FinishRunner? ==> e.outcome == ends(e.runner))
  }

  /** The next internal event, if any; a running coroutine ends as `ends` says. */
  lemma NextEvent<V>(s: State<V>, ends: nat -> Outcome<V>) returns (e: Event<V>)
    requires Inv(s) && !Quiescent(s)
    ensures Enabled(s, e) && Internal(e, ends)
  {
    if r: nat :| Enabled(s, StartRunner(r)) {
      e := StartRunner(r);
    } else if r: nat :| Enabled(s, FinishRunner(r, Raised(CancelledError))) {
      e := FinishRunner(r, ends(r));
    } else if w: nat :| Enabled(s, Attach(w)) {
      e := Attach(w);
    } else if w: nat :| Enabled(s, Wake(w)) {
      e := Wake(w);
    } else {
      e := Fire;
    }
  }

  /** From every reachable state, however the running coroutines end, the loop can run on to
      quiescence without cancelling anyone; and by RunsAreBounded every schedule gets there. */
  lemma {:induction false} Drains<V>(s: State<V>, ends: nat -> Outcome<V>) returns (es: seq<Event<V>>)
    requires Inv(s)
    ensures IsRun(s, es) && Quiescent(Run(s, es))
    ensures forall e :: e in es ==> Internal(e, ends)
    decreases Weight(s)
  {
    if Quiescent(s) {
      es := [];
    } else {
      var e := NextEvent(s, ends);
      StepDecreases(s, e);
      StepKeeps(s, e);
      var rest := Drains(Step(s, e), ends);
      RunCons(s, e, rest);
      es := [e] + rest;
    }
  }

  // ---- cancelling a waiter ----

  lemma StepStaysCancelled<V>(s: State<V>, e: Event<V>, w: nat)
    requires w < |s.waiters| && s.waiters[w].wait.Cancelled?
    ensures w < |Step(s, e).waiters| && Step(s, e).waiters[w].wait.Cancelled?
  {
  }

  lemma {:induction false} StaysCancelled<V>(s: State<V>, es: seq<Event<V>>, w: nat)
    requires w < |s.waiters| && s.waiters[w].wait.Cancelled?
    ensures w < |Run(s, es).waiters| && Run(s, es).waiters[w].wait.Cancelled?
  {
    if es != [] {
      StaysCancelled(s, es[..|es| - 1], w);
      StepStaysCancelled(Run(s, es[..|es| - 1]), es[|es| - 1], w);
    }
  }

  /** A waiter that has not ended, suspended or not, can be cancelled; its cancellation changes it alone,
      and whatever follows it stays cancelled: the result that comes later leaves it be. */
  lemma CancelTakesEffect<V>(s: State<V>, w: nat, es: seq<Event<V>>)
    requires w < |s.waiters| && !s.waiters[w].wait.Returned? && !s.waiters[w].wait.Cancelled?
    ensures Enabled(s, Cancel(w))
    ensures Step(s, Cancel(w)) == s.(waiters := s.waiters[w := Waiter(s.waiters[w].future, Cancelled)])
    ensures
      var end := Run(Step(s, Cancel(w)), es);
      w < |end.waiters| && end.waiters[w].wait.Cancelled?
  {
    StaysCancelled(Step(s, Cancel(w)), es, w);
  }

  // ---- waiters are served in the order in which they attached ----

  ghost predicate Before<T>(xs: seq<T>, a: T, b: T) {
    exists i, j :: 0 <= i < j < |xs| && xs[i] == a && xs[j] == b
  }

  /** While a is suspended its callback comes before b's, on the future or in the ready queue. */
  ghost predicate Ahead<V>(s: State<V>, a: nat, b: nat) {
    && a < |s.waiters| && b < |s.waiters| && s.waiters[a].future < |s.futures|
    && !s.waiters[a].wait.NotStarted? && !s.waiters[b].wait.NotStarted?
    && (s.waiters[a].wait.Waiting? ==> Queued(s.futures[s.waiters[a].future], s.ready, a, b))
  }

  ghost predicate Queued<V>(future: Future<V>, ready: seq<Callback>, a: nat, b: nat) {
    (future.Pending? && Before(future.callbacks, a, b)) || Before(ready, Deliver(a), Deliver(b))
  }

  lemma BeforeAppend<T>(xs: seq<T>, ys: seq<T>, a: T, b: T)
    requires Before(xs, a, b)
    ensures Before(xs + ys, a, b) && Before(ys + xs, a, b)
  {
    var i, j :| 0 <= i < j < |xs| && xs[i] == a && xs[j] == b;
    assert (xs + ys)[i] == a && (xs + ys)[j] == b;
    assert (ys + xs)[|ys| + i] == a && (ys + xs)[|ys| + j] == b;
  }

  lemma BeforeTail<T>(xs: seq<T>, a: T, b: T)
    requires Before(xs, a, b) && xs[0] != a
    ensures Before(xs[1..], a, b)
  {
    var i, j :| 0 <= i < j < |xs| && xs[i] == a && xs[j] == b;
    assert xs[1..][i - 1] == a && xs[1..][j - 1] == b;
  }

  lemma BeforeDeliveries(ws: seq<nat>, a: nat, b: nat)
    requires Before(ws, a, b)
    ensures Before(Deliveries(ws), Deliver(a), Deliver(b))
  {
    var i, j :| 0 <= i < j < |ws| && ws[i] == a && ws[j] == b;
    assert Deliveries(ws)[i] == Deliver(a) && Deliveries(ws)[j] == Deliver(b);
  }

  lemma BeforeLast<T>(xs: seq<T>, a: T, b: T)
    requires a in xs
    ensures Before(xs + [b], a, b)
  {
    var i :| 0 <= i < |xs| && xs[i] == a;
    assert (xs + [b])[i] == a && (xs + [b])[|xs|] == b;
  }

  lemma FinishKeepsAhead<V>(s: State<V>, r: nat, o: Outcome<V>, a: nat, b: nat)
    requires Inv(s) && Ahead(s, a, b) && Enabled(s, FinishRunner(r, o))
    ensures Ahead(AfterFinish(s, r, o), a, b)
  {
    var f, t := s.waiters[a].future, AfterFinish(s, r, o);
    var callbacks := s.futures[r].callbacks;
    assert t.futures == s.futures[r := Done(o)];
    assert t.ready == s.ready + Deliveries(callbacks) + [Discard(r)];
    if s.waiters[a].wait.Waiting? {
      if Before(s.ready, Deliver(a), Deliver(b)) {
        BeforeAppend(s.ready, Deliveries(callbacks), Deliver(a), Deliver(b));
        BeforeAppend(s.ready + Deliveries(callbacks), [Discard(r)], Deliver(a), Deliver(b));
      } else if f == r {
        BeforeDeliveries(callbacks, a, b);
        BeforeAppend(Deliveries(callbacks), s.ready, Deliver(a), Deliver(b));
        BeforeAppend(s.ready + Deliveries(callbacks), [Discard(r)], Deliver(a), Deliver(b));
      }
    }
  }

  lemma AttachKeepsAhead<V>(s: State<V>, w: nat, a: nat, b: nat)
    requires Inv(s) && Ahead(s, a, b) && Enabled(s, Attach(w))
    ensures Ahead(AfterAttach(s, w), a, b)
  {
    var f, g := s.waiters[a].future, s.waiters[w].future;
    if s.waiters[a].wait.Waiting? {
      if Before(s.ready, Deliver(a), Deliver(b)) {
        BeforeAppend(s.ready, [Deliver(w)], Deliver(a), Deliver(b));
      } else if f == g {
        BeforeAppend(s.futures[f].callbacks, [w], a, b);
      }
    }
  }

  lemma FireKeepsAhead<V>(s: State<V>, a: nat, b: nat)
    requires Inv(s) && Ahead(s, a, b) && s.ready != []
    ensures Ahead(AfterFire(s), a, b)
  {
    assert s.ready[0] in s.ready;
    if s.ready[0] != Deliver(a) && Before(s.ready, Deliver(a), Deliver(b)) {
      BeforeTail(s.ready, Deliver(a), Deliver(b));
    }
  }

  lemma CallKeepsAhead<V>(s: State<V>, ident: Ident, a: nat, b: nat)
    requires Ahead(s, a, b)
    ensures Ahead(AfterCall(s, ident), a, b)
  {
  }

  lemma WaitKeepsAhead<V>(s: State<V>, w: nat, wait: Wait<V>, a: nat, b: nat)
    requires Ahead(s, a, b) && w < |s.waiters| && (wait.Returned? || wait.Cancelled?)
    ensures Ahead(WithWait(s, w, wait), a, b)
  {
  }

  lemma StepKeepsAhead<V>(s: State<V>, e: Event<V>, a: nat, b: nat)
    requires Inv(s) && Ahead(s, a, b)
    ensures Ahead(Step(s, e), a, b)
  {
    if Enabled(s, e) {
      match e
      case Call(ident) => CallKeepsAhead(s, ident, a, b);
      case StartRunner(r) =>
      case FinishRunner(r, o) => FinishKeepsAhead(s, r, o, a, b);
      case Attach(w) => AttachKeepsAhead(s, w, a, b);
      case Fire => FireKeepsAhead(s, a, b);
      case Wake(w) => WaitKeepsAhead(s, w, Returned(s.waiters[w].wait.outcome), a, b);
      case Cancel(w) => WaitKeepsAhead(s, w, Cancelled, a, b);
    }
  }

  lemma {:induction false} RunKeepsAhead<V>(s: State<V>, es: seq<Event<V>>, a: nat, b: nat)
    requires Inv(s) && Ahead(s, a, b)
    ensures Ahead(Run(s, es), a, b)
  {
    if es != [] {
      RunKeepsAhead(s, es[..|es| - 1], a, b);
      RunKeeps(s, es[..|es| - 1]);
      StepKeepsAhead(Run(s, es[..|es| - 1]), es[|es| - 1], a, b);
    }
  }

  lemma AttachedBehind<V>(s: State<V>, a: nat, b: nat)
    requires Inv(s) && a < |s.waiters| && s.waiters[a].wait.Waiting? && Enabled(s, Attach(b))
    requires s.waiters[b].future == s.waiters[a].future
    ensures Ahead(AfterAttach(s, b), a, b)
  {
    var f := s.waiters[a].future;
    assert Served(s.waiters[a].wait, a, s.futures[f], s.ready);
    if s.futures[f].Pending? {
      BeforeLast(s.futures[f].callbacks, a, b);
    } else {
      BeforeLast(s.ready, Deliver(a), Deliver(b));
    }
  }

  lemma AheadIsServed<V>(s: State<V>, a: nat, b: nat)
    requires Inv(s) && Ahead(s, a, b) && (s.waiters[b].wait.Resolved? || s.waiters[b].wait.Returned?)
    ensures !s.waiters[a].wait.Waiting?
  {
    assert Before(s.ready, Deliver(a), Deliver(b)) ==> Deliver(b) in s.ready;
    if s.futures[s.waiters[a].future].Pending? {
      var callbacks := s.futures[s.waiters[a].future].callbacks;
      assert Before(callbacks, a, b) ==> b in callbacks;
    }
  }

  /** Of two waiters of one execution the one that attached first is served first: in any run, once the
      second has its result the first is no longer suspended. */
  lemma ServedInOrder<V>(s: State<V>, a: nat, b: nat, es: seq<Event<V>>)
    requires Inv(s) && a < |s.waiters| && s.waiters[a].wait.Waiting? && Enabled(s, Attach(b))
    requires s.waiters[b].future == s.waiters[a].future
    ensures
      var end := Run(Step(s, Attach(b)), es);
      && a < |end.waiters| && b < |end.waiters|
      && (end.waiters[b].wait.Resolved? || end.waiters[b].wait.Returned? ==> !end.waiters[a].wait.Waiting?)
  {
    var t := Step(s, Attach(b));
    StepKeeps(s, Attach(b));
    AttachedBehind(s, a, b);
    RunKeepsAhead(t, es, a, b);
    RunKeeps(t, es);
    if Run(t, es).waiters[b].wait.Resolved? || Run(t, es).waiters[b].wait.Returned? {
      AheadIsServed(Run(t, es), a, b);
    }
  }

  // ---- cancellation isolation ----

  ghost predicate CancelOf<V>(e: Event<V>, gone: set<nat>) {
    e.Cancel? && e.waiter in gone
  }

  /** The same events without the cancellations of the waiters in `gone`. */
  ghost function Spared<V>(es: seq<Event<V>>, gone: set<nat>): seq<Event<V>> {
    if es == [] then []
    else
      var init := Spared(es[..|es| - 1], gone);
      if CancelOf(es[|es| - 1], gone) then init else init + [es[|es| - 1]]
  }

  /** Equal but for waiters in `gone` that were cancelled in `s`. */
  ghost predicate SameButFor<V>(s: State<V>, t: State<V>, gone: set<nat>) {
    && t.running == s.running && t.tasks == s.tasks && t.futures == s.futures && t.runners == s.runners
    && t.coros == s.coros && t.ready == s.ready && t.faults == s.faults
    && |t.waiters| == |s.waiters|
    && forall w :: 0 <= w < |s.waiters| ==> SameWaiter(s.waiters[w], t.waiters[w], w in gone)
  }

  ghost predicate SameWaiter<V>(a: Waiter<V>, b: Waiter<V>, gone: bool) {
    a.future == b.future && (a.wait == b.wait || (gone && a.wait.Cancelled?))
  }

  lemma WaiterStepIsolates<V>(s: State<V>, t: State<V>, e: Event<V>, gone: set<nat>)
    requires Inv(s) && Inv(t) && SameButFor(s, t, gone) && Enabled(s, e)
    requires e.Attach? || e.Wake? || e.Cancel?
    ensures CancelOf(e, gone) ==> SameButFor(Step(s, e), t, gone)
    ensures !CancelOf(e, gone) ==> Enabled(t, e) && SameButFor(Step(s, e), Step(t, e), gone)
  {
    assert SameWaiter(s.waiters[e.waiter], t.waiters[e.waiter], e.waiter in gone);
  }

  lemma SetWaitIsolates<V>(s: State<V>, t: State<V>, w: nat, gone: set<nat>)
    requires SameButFor(s, t, gone) && w < |s.waiters| && s.waiters[w].future < |s.futures|
    requires Listening(s.waiters[w].wait) && Listening(t.waiters[w].wait)
    ensures SameButFor(SetWaitFuture(s, w), SetWaitFuture(t, w), gone)
  {
    assert SameWaiter(s.waiters[w], t.waiters[w], w in gone);
  }

  lemma FireIsolates<V>(s: State<V>, t: State<V>, gone: set<nat>)
    requires Inv(s) && Inv(t) && SameButFor(s, t, gone) && s.ready != []
    ensures SameButFor(AfterFire(s), AfterFire(t), gone)
  {
    assert s.ready[0] in s.ready && t.ready[0] in t.ready;
    if s.ready[0].Deliver? {
      SetWaitIsolates(s.(ready := s.ready[1..]), t.(ready := t.ready[1..]), s.ready[0].waiter, gone);
    }
  }

  lemma RunnerStepIsolates<V>(s: State<V>, t: State<V>, e: Event<V>, gone: set<nat>)
    requires SameButFor(s, t, gone) && Enabled(s, e)
    requires e.Call? || e.StartRunner? || e.FinishRunner?
    ensures Enabled(t, e) && SameButFor(Step(s, e), Step(t, e), gone)
  {
    match e
    case Call(ident) => CallIsolates(s, t, ident, gone);
    case StartRunner(r) =>
    case FinishRunner(r, o) => FinishIsolates(s, t, r, o, gone);
  }

  lemma CallIsolates<V>(s: State<V>, t: State<V>, ident: Ident, gone: set<nat>)
    requires SameButFor(s, t, gone)
    ensures SameButFor(AfterCall(s, ident), AfterCall(t, ident), gone)
  {
  }

  lemma FinishIsolates<V>(s: State<V>, t: State<V>, r: nat, outcome: Outcome<V>, gone: set<nat>)
    requires SameButFor(s, t, gone) && r < |s.runners|
    ensures SameButFor(AfterFinish(s, r, outcome), AfterFinish(t, r, outcome), gone)
  {
  }

  lemma StepIsolates<V>(s: State<V>, t: State<V>, e: Event<V>, gone: set<nat>)
    requires Inv(s) && Inv(t) && SameButFor(s, t, gone) && Enabled(s, e)
    ensures CancelOf(e, gone) ==> SameButFor(Step(s, e), t, gone)
    ensures !CancelOf(e, gone) ==> Enabled(t, e) && SameButFor(Step(s, e), Step(t, e), gone)
  {
    match e
    case Fire => FireIsolates(s, t, gone);
    case Call(_) => RunnerStepIsolates(s, t, e, gone);
    case StartRunner(_) => RunnerStepIsolates(s, t, e, gone);
    case FinishRunner(_, _) => RunnerStepIsolates(s, t, e, gone);
    case _ => WaiterStepIsolates(s, t, e, gone);
  }

  /** Dropping any set of cancellations from a run, wherever they happened, gives a run with the
      same `_running`, `_tasks`, shared futures, ready queue and outcomes of every other waiter. */
  lemma {:induction false} CancellationIsolated<V>(s: State<V>, es: seq<Event<V>>, gone: set<nat>)
    requires Inv(s) && IsRun(s, es)
    ensures IsRun(s, Spared(es, gone))
    ensures SameButFor(Run(s, es), Run(s, Spared(es, gone)), gone)
  {
    if es != [] {
      var init, last := es[..|es| - 1], es[|es| - 1];
      CancellationIsolated(s, init, gone);
      RunKeeps(s, init);
      RunKeeps(s, Spared(init, gone));
      StepIsolates(Run(s, init), Run(s, Spared(init, gone)), last, gone);
      var spared := Spared(init, gone) + [last];
      assert spared[..|spared| - 1] == Spared(init, gone);
    }
  }
}
