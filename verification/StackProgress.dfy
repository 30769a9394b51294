/** The cached stack at work: a hit needs no upstream execution, every caller is served, and every
    schedule ends. */
module StackProgress {
  import opened Prelude
  import opened PyRepr
  import opened Reducer
  import opened ReducerInvariant
  import opened ReducerRuns
  import opened CachedStack

  // ---- hits ----

  lemma {:induction false} EntryStays<V>(printable: CodePoint -> bool, s: Stack<V>, es: seq<StackEvent<V>>, key: Str)
    requires key in s.cache && Expire(key) !in es
    ensures key in Moves(printable, s, es).cache
  {
    if es != [] {
      var init := es[..|es| - 1];
      assert forall e :: e in init ==> e in es;
      EntryStays(printable, s, init, key);
      assert es[|es| - 1] in es;
    }
  }

  /** A caller that has read a hit keeps it, and is answered with it by its own next step, whatever else
      happens, as long as it is not broken off. */
  lemma {:induction false} HitStays<V>(
      printable: CodePoint -> bool, s: Stack<V>, c: nat, v: V, es: seq<StackEvent<V>>)
    requires c < |s.callers| && s.callers[c].place == Read(Some(v)) && Abandon(c) !in es
    ensures
      var t := Moves(printable, s, es);
      c < |t.callers| && (t.callers[c].place == Read(Some(v)) || t.callers[c].place == Answered(v))
  {
    if es != [] {
      var init, e := es[..|es| - 1], es[|es| - 1];
      assert forall x :: x in init ==> x in es;
      HitStays(printable, s, c, v, init);
      assert e in es;
    }
  }

  /** While a request's entry is in the cache, a caller of the request is answered from it: its lookup
      finds the entry, and whatever happens until its next step, that step answers it and leaves the
      reducer, the executions and the cache alone. */
  lemma EntryAnswers<V>(printable: CodePoint -> bool, t: Stack<V>, c: nat, more: seq<StackEvent<V>>)
    requires Possible(t, Lookup(c)) && Abandon(c) !in more
    requires CacheKey(printable, t.callers[c].request) in t.cache
    ensures
      var v := t.cache[CacheKey(printable, t.callers[c].request)];
      var u := Moves(printable, Move(printable, t, Lookup(c)), more);
      && c < |u.callers|
      && (u.callers[c].place == Answered(v) ||
          (Possible(u, Proceed(c)) && Move(printable, u, Proceed(c)) == At(u, c, Answered(v))))
  {
    HitStays(printable, Move(printable, t, Lookup(c)), c, t.cache[CacheKey(printable, t.callers[c].request)], more);
  }

  /** So once a result is written, and until its entry expires. */
  lemma HitNeedsNoExecution<V>(printable: CodePoint -> bool, s: Stack<V>, writer: nat, es: seq<StackEvent<V>>,
                               c: nat, more: seq<StackEvent<V>>)
    requires Possible(s, Write(writer))
    requires Expire(CacheKey(printable, s.callers[writer].request)) !in es && Abandon(c) !in more
    requires
      var t := Moves(printable, Move(printable, s, Write(writer)), es);
      Possible(t, Lookup(c)) && t.callers[c].request == s.callers[writer].request
    ensures
      var key := CacheKey(printable, s.callers[writer].request);
      var t := Moves(printable, Move(printable, s, Write(writer)), es);
      var u := Moves(printable, Move(printable, t, Lookup(c)), more);
      && key in t.cache && c < |u.callers|
      && (u.callers[c].place == Answered(t.cache[key]) ||
          (Possible(u, Proceed(c)) && Move(printable, u, Proceed(c)) == At(u, c, Answered(t.cache[key]))))
  {
    var t := Moves(printable, Move(printable, s, Write(writer)), es);
    EntryStays(printable, Move(printable, s, Write(writer)), es, CacheKey(printable, s.callers[writer].request));
    EntryAnswers(printable, t, c, more);
  }

  /** The event writes or removes the entry of the key. */
  predicate Touches<V>(printable: CodePoint -> bool, s: Stack<V>, e: StackEvent<V>, key: Str) {
    || (e.Write? && Possible(s, e) && CacheKey(printable, s.callers[e.caller].request) == key)
    || (e.WriteElsewhere? && CacheKey(printable, e.entry.request) == key)
    || e == Expire(key)
  }

  ghost predicate NoneTouches<V>(printable: CodePoint -> bool, s: Stack<V>, es: seq<StackEvent<V>>, key: Str) {
    es == [] ||
    (NoneTouches(printable, s, es[..|es| - 1], key) &&
     !Touches(printable, Moves(printable, s, es[..|es| - 1]), es[|es| - 1], key))
  }

  lemma {:induction false} EntryHolds<V>(
      printable: CodePoint -> bool, s: Stack<V>, es: seq<StackEvent<V>>, key: Str)
    requires key in s.cache && NoneTouches(printable, s, es, key)
    ensures key in Moves(printable, s, es).cache && Moves(printable, s, es).cache[key] == s.cache[key]
  {
    if es != [] {
      EntryHolds(printable, s, es[..|es| - 1], key);
    }
  }

  /** What an event writes, if it writes. */
  function Written<V>(s: Stack<V>, e: StackEvent<V>): Option<Entry<V>> {
    match e
    case Write(c) =>
      if Possible(s, e) then Some(Entry(s.callers[c].request, s.callers[c].place.value)) else None
    case WriteElsewhere(entry) => Some(entry)
    case _ => None
  }

  /** What was written last, here or elsewhere, is what the next caller of the request is answered. */
  lemma LastWriteIsAnswered<V>(printable: CodePoint -> bool, s: Stack<V>, e: StackEvent<V>, es: seq<StackEvent<V>>,
                               c: nat, more: seq<StackEvent<V>>)
    requires Written(s, e).Some? && Abandon(c) !in more
    requires NoneTouches(printable, Move(printable, s, e), es, CacheKey(printable, Written(s, e).value.request))
    requires
      var t := Moves(printable, Move(printable, s, e), es);
      Possible(t, Lookup(c)) && t.callers[c].request == Written(s, e).value.request
    ensures
      var t := Moves(printable, Move(printable, s, e), es);
      var u := Moves(printable, Move(printable, t, Lookup(c)), more);
      var answered := Answered(Written(s, e).value.value);
      && c < |u.callers|
      && (u.callers[c].place == answered ||
          (Possible(u, Proceed(c)) && Move(printable, u, Proceed(c)) == At(u, c, answered)))
  {
    EntryHolds(printable, Move(printable, s, e), es, CacheKey(printable, Written(s, e).value.request));
    EntryAnswers(printable, Moves(printable, Move(printable, s, e), es), c, more);
  }

  // ---- callers own their waiters ----

  ghost predicate WaiterLives<V>(s: Stack<V>, c: nat)
    requires c < |s.callers|
  {
    s.callers[c].place.Joined? ==>
      s.callers[c].place.waiter < |s.reducer.waiters| && !s.reducer.waiters[s.callers[c].place.waiter].wait.Cancelled?
  }

  ghost predicate OwnWaiters<V>(s: Stack<V>) {
    && (forall c {:trigger s.callers[c]} :: 0 <= c < |s.callers| ==> WaiterLives(s, c))
    && (forall c, d :: 0 <= c < d < |s.callers| && s.callers[c].place.Joined? && s.callers[d].place.Joined? ==>
          s.callers[c].place.waiter != s.callers[d].place.waiter)
  }

  /** Only a cancellation cancels a waiter. */
  ghost predicate NoneCancelled<V>(ws: seq<Waiter<V>>, vs: seq<Waiter<V>>) {
    |ws| <= |vs| && forall w :: 0 <= w < |ws| && !ws[w].wait.Cancelled? ==> !vs[w].wait.Cancelled?
  }

  lemma StepCancelsNone<V>(s: State<V>, e: Event<V>)
    requires !e.Cancel?
    ensures NoneCancelled(s.waiters, Step(s, e).waiters)
  {
  }

  /** Placing a caller anywhere but in the reducer, and steps that cancel no waiter, keep this. */
  lemma PlaceOwns<V>(s: Stack<V>, t: Stack<V>, c: nat, place: Place<V>)
    requires OwnWaiters(s) && c < |s.callers| && !place.Joined?
    requires t.callers == At(s, c, place).callers
    requires |s.reducer.waiters| <= |t.reducer.waiters|
    requires forall w :: 0 <= w < |s.reducer.waiters| && !s.reducer.waiters[w].wait.Cancelled? ==>
               !t.reducer.waiters[w].wait.Cancelled? || s.callers[c].place == Joined(w)
    ensures OwnWaiters(t)
  {
    assert WaiterLives(s, c);
    forall d | 0 <= d < |t.callers| ensures WaiterLives(t, d) {
      assert WaiterLives(s, d);
    }
  }

  lemma InsideOwns<V>(s: Stack<V>, e: Event<V>)
    requires OwnWaiters(s) && !e.Cancel?
    ensures OwnWaiters(s.(reducer := Step(s.reducer, e)))
  {
    StepCancelsNone(s.reducer, e);
    var t := s.(reducer := Step(s.reducer, e));
    forall d | 0 <= d < |t.callers| ensures WaiterLives(t, d) {
      assert WaiterLives(s, d);
    }
  }

  lemma MissOwns<V>(s: Stack<V>, c: nat, key: Str, jobs: seq<Request>)
    requires OwnWaiters(s) && c < |s.callers| && s.callers[c].place.Read?
    ensures OwnWaiters(At(s, c, Joined(|s.reducer.waiters|)).(reducer := AfterCall(s.reducer, key), jobs := jobs))
  {
    var t := At(s, c, Joined(|s.reducer.waiters|)).(reducer := AfterCall(s.reducer, key), jobs := jobs);
    forall d | 0 <= d < |t.callers| ensures WaiterLives(t, d) {
      assert WaiterLives(s, d);
    }
    forall a, b | 0 <= a < b < |t.callers| && t.callers[a].place.Joined? && t.callers[b].place.Joined?
      ensures t.callers[a].place.waiter != t.callers[b].place.waiter
    {
      assert WaiterLives(s, a) && WaiterLives(s, b);
    }
  }

  lemma ArriveOwns<V>(s: Stack<V>, r: Request)
    requires OwnWaiters(s)
    ensures OwnWaiters(s.(callers := s.callers + [Caller(r, Asking)]))
  {
    var t := s.(callers := s.callers + [Caller(r, Asking)]);
    forall d | 0 <= d < |t.callers| ensures WaiterLives(t, d) {
      if d < |s.callers| { assert WaiterLives(s, d); }
    }
  }

  lemma AbandonOwns<V>(s: Stack<V>, c: nat)
    requires OwnWaiters(s) && c < |s.callers|
    ensures OwnWaiters(AfterAbandon(s, c))
  {
    PlaceOwns(s, AfterAbandon(s, c), c, Gone);
  }

  lemma CacheOwns<V>(s: Stack<V>, cache: map<Str, V>, foreign: seq<Entry<V>>)
    requires OwnWaiters(s)
    ensures OwnWaiters(s.(cache := cache, foreign := foreign))
  {
    var t := s.(cache := cache, foreign := foreign);
    forall d | 0 <= d < |t.callers| ensures WaiterLives(t, d) {
      assert WaiterLives(s, d);
    }
  }

  lemma MoveOwns<V>(printable: CodePoint -> bool, s: Stack<V>, e: StackEvent<V>)
    requires OwnWaiters(s)
    ensures OwnWaiters(Move(printable, s, e))
  {
    if Possible(s, e) {
      match e
      case Arrive(r) => ArriveOwns(s, r);
      case Inside(event) => InsideOwns(s, event);
      case Expire(key) => CacheOwns(s, s.cache - {key}, s.foreign);
      case WriteElsewhere(entry) =>
        CacheOwns(s, AfterForeign(printable, s, entry).cache, s.foreign + [entry]);
      case Abandon(c) => AbandonOwns(s, c);
      case Proceed(c) =>
        var hit, r := s.callers[c].place.hit, s.callers[c].request;
        if hit.Some? {
          PlaceOwns(s, At(s, c, Answered(hit.value)), c, Answered(hit.value));
        } else {
          MissOwns(s, c, FlightKey(printable, r), s.jobs + [r]);
        }
      case _ => PlaceOwns(s, Move(printable, s, e), e.caller, Move(printable, s, e).callers[e.caller].place);
    }
  }

  lemma {:induction false} MovesOwn<V>(printable: CodePoint -> bool, es: seq<StackEvent<V>>)
    ensures OwnWaiters(Moves(printable, Empty<V>(), es))
  {
    if es != [] {
      MovesOwn(printable, es[..|es| - 1]);
      MoveOwns(printable, Moves(printable, Empty(), es[..|es| - 1]), es[|es| - 1]);
    }
  }

  // ---- every caller is served ----

  /** Only an arrival, an expiry, an outside write, a cache failure or a cancellation could still happen. */
  ghost predicate Settled<V>(s: Stack<V>) {
    && Quiescent(s.reducer)
    && (forall c: nat :: !Possible(s, Lookup(c)))
    && (forall c: nat :: !Possible(s, Proceed(c)))
    && (forall c: nat :: !Possible(s, Collect(c)))
    && (forall c: nat :: !Possible(s, Write(c)))
    && (forall c: nat :: !Possible(s, Answer(c)))
  }

  /** When nothing is left to do every caller has its answer or its error, or was broken off. */
  lemma SettledServesEveryone<V>(printable: CodePoint -> bool, es: seq<StackEvent<V>>, c: nat)
    requires Settled(Moves(printable, Empty<V>(), es)) && c < |Moves(printable, Empty<V>(), es).callers|
    ensures Over(Moves(printable, Empty<V>(), es).callers[c].place)
  {
    MovesKeep(printable, es);
    MovesOwn(printable, es);
    SettledCaller(Moves(printable, Empty<V>(), es), c);
  }

  lemma SettledCaller<V>(s: Stack<V>, c: nat)
    requires Inv(s.reducer) && OwnWaiters(s) && Settled(s) && c < |s.callers|
    ensures Over(s.callers[c].place)
  {
    assert !Possible(s, Lookup(c)) && !Possible(s, Proceed(c)) && !Possible(s, Collect(c));
    assert !Possible(s, Write(c)) && !Possible(s, Answer(c));
    if s.callers[c].place.Joined? {
      assert WaiterLives(s, c);
      QuiescentWaiter(s.reducer, s.callers[c].place.waiter);
    }
  }

  lemma QuiescentWaiter<V>(s: State<V>, w: nat)
    requires Inv(s) && Quiescent(s) && w < |s.waiters|
    ensures s.waiters[w].wait.Cancelled? || s.waiters[w].wait.Returned?
  {
    var f := s.waiters[w].future;
    assert !Enabled(s, Attach(w)) && !Enabled(s, Wake(w));
    assert !Enabled(s, StartRunner(f)) && !Enabled(s, FinishRunner(f, Raised(CancelledError)));
    assert Served(s.waiters[w].wait, w, s.futures[f], s.ready);
  }

  /** The requests in the order in which their callers arrived. */
  ghost function Arrivals<V>(es: seq<StackEvent<V>>): seq<Request> {
    if es == [] then []
    else Arrivals(es[..|es| - 1]) + (if es[|es| - 1].Arrive? then [es[|es| - 1].request] else [])
  }

  lemma MoveKeepsRequests<V>(printable: CodePoint -> bool, s: Stack<V>, e: StackEvent<V>)
    ensures
      var t := Move(printable, s, e);
      && |t.callers| == |s.callers| + (if e.Arrive? then 1 else 0)
      && (forall c :: 0 <= c < |s.callers| ==> t.callers[c].request == s.callers[c].request)
      && (e.Arrive? ==> t.callers[|s.callers|] == Caller(e.request, Asking))
  {
  }

  /** Every caller is there with its own request, from its arrival on. */
  lemma {:induction false} CallersAreArrivals<V>(printable: CodePoint -> bool, es: seq<StackEvent<V>>)
    ensures
      var callers := Moves(printable, Empty<V>(), es).callers;
      |callers| == |Arrivals(es)| && forall c :: 0 <= c < |callers| ==> callers[c].request == Arrivals(es)[c]
  {
    if es != [] {
      CallersAreArrivals(printable, es[..|es| - 1]);
      MoveKeepsRequests(printable, Moves(printable, Empty<V>(), es[..|es| - 1]), es[|es| - 1]);
    }
  }

  predicate BrokenOff<V>(place: Place<V>) {
    place.CacheBroken? || place.Gone?
  }

  lemma BreaksOnlyWhen<V>(printable: CodePoint -> bool, s: Stack<V>, e: StackEvent<V>, c: nat)
    requires c < |Move(printable, s, e).callers| && BrokenOff(Move(printable, s, e).callers[c].place)
    ensures e == BreakCache(c) || e == Abandon(c) || (c < |s.callers| && BrokenOff(s.callers[c].place))
  {
  }

  /** Only a failure of the cache or a cancellation breaks a caller off. */
  lemma {:induction false} BrokenOffOnlyWhen<V>(printable: CodePoint -> bool, es: seq<StackEvent<V>>, c: nat)
    requires c < |Moves(printable, Empty<V>(), es).callers|
    requires BrokenOff(Moves(printable, Empty<V>(), es).callers[c].place)
    ensures BreakCache(c) in es || Abandon(c) in es
  {
    if es != [] {
      var init, e := es[..|es| - 1], es[|es| - 1];
      assert e in es && forall x :: x in init ==> x in es;
      BreaksOnlyWhen(printable, Moves(printable, Empty<V>(), init), e, c);
      if e != BreakCache(c) && e != Abandon(c) {
        BrokenOffOnlyWhen(printable, init, c);
      }
    }
  }

  /** In a settled stack every caller that was not broken off, by a failing cache or a cancellation, has
      its answer or its error. */
  lemma SettledAnswers<V>(printable: CodePoint -> bool, es: seq<StackEvent<V>>, c: nat)
    requires Settled(Moves(printable, Empty<V>(), es)) && c < |Arrivals(es)|
    requires BreakCache(c) !in es && Abandon(c) !in es
    ensures
      var callers := Moves(printable, Empty<V>(), es).callers;
      && c < |callers| && callers[c].request == Arrivals(es)[c]
      && (callers[c].place.Answered? || callers[c].place.Failed?)
  {
    CallersAreArrivals(printable, es);
    SettledServesEveryone(printable, es, c);
    if BrokenOff(Moves(printable, Empty<V>(), es).callers[c].place) {
      BrokenOffOnlyWhen(printable, es, c);
    }
  }

  /** When upstream is a function, it is exactly the answer or the error upstream has for the request
      the caller came with. */
  lemma SettledRefinesUpstream<V>(
      printable: CodePoint -> bool, upstream: Request -> Outcome<V>, es: seq<StackEvent<V>>, c: nat)
    requires AllObey(printable, upstream, es)
    requires Settled(Moves(printable, Empty<V>(), es)) && c < |Arrivals(es)|
    requires BreakCache(c) !in es && Abandon(c) !in es
    ensures c < |Moves(printable, Empty<V>(), es).callers|
    ensures
      var place := Moves(printable, Empty<V>(), es).callers[c].place;
      match upstream(Arrivals(es)[c])
      case Value(v) => place == Answered(v)
      case Raised(error) => place == Failed(error)
  {
    SettledAnswers(printable, es, c);
    StackRefinesUpstream(printable, upstream, es);
  }

  lemma CancelChanges<V>(s: State<V>, w: nat)
    requires w < |s.waiters|
    ensures
      var t := Step(s, Cancel(w));
      && t == s.(waiters := t.waiters) && w < |t.waiters|
      && (t.waiters[w].wait.Cancelled? || s.waiters[w].wait.Returned?)
  {
    if !s.waiters[w].wait.Returned? && !s.waiters[w].wait.Cancelled? {
      CancelTakesEffect(s, w, []);
    }
  }

  /** Any caller still under way can be cancelled. It is gone for good, and if it was in the reducer its
      waiter is cancelled for good, unless that had returned already. */
  lemma AbandonTakesEffect<V>(printable: CodePoint -> bool, s: Stack<V>, c: nat)
    requires StackInv(printable, s) && c < |s.callers| && !Over(s.callers[c].place)
    ensures Possible(s, Abandon(c))
    ensures
      var t := Move(printable, s, Abandon(c));
      && t.cache == s.cache && t.jobs == s.jobs
      && t.callers == s.callers[c := Caller(s.callers[c].request, Gone)]
      && (s.callers[c].place.Joined? ==>
            var w := s.callers[c].place.waiter;
            && w < |t.reducer.waiters|
            && (t.reducer.waiters[w].wait.Cancelled? || s.reducer.waiters[w].wait.Returned?)
            && t.reducer == s.reducer.(waiters := t.reducer.waiters))
  {
    assert Placed(printable, s, s.callers[c]);
    if s.callers[c].place.Joined? {
      CancelChanges(s.reducer, s.callers[c].place.waiter);
    }
  }

  /** A failing cache ends the caller whose read or write it is in, and changes nothing else. */
  lemma BreakTakesEffect<V>(printable: CodePoint -> bool, s: Stack<V>, c: nat)
    requires c < |s.callers| && (s.callers[c].place.Asking? || s.callers[c].place.Storing?)
    ensures Possible(s, BreakCache(c))
    ensures Move(printable, s, BreakCache(c)) ==
      s.(callers := s.callers[c := Caller(s.callers[c].request, CacheBroken)])
  {
  }

  /** A caller that is done stays as it is. */
  lemma {:induction false} OverIsFinal<V>(printable: CodePoint -> bool, s: Stack<V>, c: nat, es: seq<StackEvent<V>>)
    requires c < |s.callers| && Over(s.callers[c].place)
    ensures c < |Moves(printable, s, es).callers| && Moves(printable, s, es).callers[c] == s.callers[c]
  {
    if es != [] {
      OverIsFinal(printable, s, c, es[..|es| - 1]);
    }
  }

  // ---- every schedule ends ----

  function CallerWeight<V>(c: Caller<V>): nat {
    match c.place
    case Asking => 12
    case Read(_) => 11
    case Joined(_) => 4
    case Storing(_, _, written) => if written then 1 else 3
    case _ => 0
  }

  ghost function StackWeight<V>(s: Stack<V>): nat {
    Weight(s.reducer) + Sum(CallerWeight<V>, s.callers) + |s.cache|
  }

  lemma PlaceWeight<V>(s: Stack<V>, c: nat, place: Place<V>)
    requires c < |s.callers|
    ensures Sum(CallerWeight<V>, At(s, c, place).callers) + CallerWeight(s.callers[c])
         == Sum(CallerWeight<V>, s.callers) + CallerWeight(s.callers[c].(place := place))
  {
    SumUpdate(CallerWeight<V>, s.callers, c, s.callers[c].(place := place));
  }

  lemma CallWeight<V>(s: State<V>, ident: Ident)
    ensures Weight(AfterCall(s, ident)) <= Weight(s) + 6
  {
    var future := if ident in s.running then s.running[ident] else |s.futures|;
    SumSnoc(WaiterWeight<V>, s.waiters, Waiter(future, NotStarted));
    SumSnoc(RunnerWeight, s.runners, Runner(ident, |s.coros|, |s.futures|, Scheduled));
    SumSnoc(FutureWeight<V>, s.futures, Pending([]));
  }

  lemma WriteWeight<V>(cache: map<Str, V>, key: Str, v: V)
    ensures |cache[key := v]| <= |cache| + 1
  {
    assert cache[key := v].Keys == cache.Keys + {key};
    assert |cache[key := v].Keys| <= |cache.Keys| + 1;
  }

  lemma ExpireWeight<V>(cache: map<Str, V>, key: Str)
    requires key in cache
    ensures |cache - {key}| < |cache|
  {
    assert cache.Keys == (cache - {key}).Keys + {key};
    assert |(cache - {key}).Keys| < |cache.Keys|;
  }

  lemma CallerMoveDecreases<V>(printable: CodePoint -> bool, s: Stack<V>, e: StackEvent<V>)
    requires Possible(s, e) && (e.Lookup? || e.Collect? || e.Answer? || e.BreakCache?)
    ensures StackWeight(Move(printable, s, e)) < StackWeight(s)
  {
    PlaceWeight(s, e.caller, Move(printable, s, e).callers[e.caller].place);
  }

  lemma ProceedDecreases<V>(printable: CodePoint -> bool, s: Stack<V>, c: nat)
    requires Possible(s, Proceed(c))
    ensures StackWeight(Move(printable, s, Proceed(c))) < StackWeight(s)
  {
    match s.callers[c].place.hit
    case Some(v) => PlaceWeight(s, c, Answered(v));
    case None => MissDecreases(s, c, FlightKey(printable, s.callers[c].request));
  }

  lemma MissDecreases<V>(s: Stack<V>, c: nat, key: Str)
    requires Possible(s, Proceed(c))
    ensures
      var joined := At(s, c, Joined(|s.reducer.waiters|));
      var next := joined.(reducer := AfterCall(s.reducer, key), jobs := s.jobs + [s.callers[c].request]);
      StackWeight(next) < StackWeight(s)
  {
    PlaceWeight(s, c, Joined(|s.reducer.waiters|));
    CallWeight(s.reducer, key);
  }

  lemma AbandonDecreases<V>(printable: CodePoint -> bool, s: Stack<V>, c: nat)
    requires Inv(s.reducer) && Possible(s, Abandon(c))
    ensures StackWeight(Move(printable, s, Abandon(c))) < StackWeight(s)
  {
    PlaceWeight(s, c, Gone);
    var place := s.callers[c].place;
    if place.Joined? && Enabled(s.reducer, Cancel(place.waiter)) {
      StepDecreases(s.reducer, Cancel(place.waiter));
    }
  }

  lemma MoveDecreases<V>(printable: CodePoint -> bool, s: Stack<V>, e: StackEvent<V>)
    requires Inv(s.reducer) && Possible(s, e) && !e.Arrive? && !e.WriteElsewhere?
    ensures StackWeight(Move(printable, s, e)) < StackWeight(s)
  {
    match e
    case Proceed(c) => ProceedDecreases(printable, s, c);
    case Inside(event) => StepDecreases(s.reducer, event);
    case Write(c) =>
      PlaceWeight(s, c, s.callers[c].place.(written := true));
      WriteWeight(s.cache, CacheKey(printable, s.callers[c].request), s.callers[c].place.value);
    case Expire(key) => ExpireWeight(s.cache, key);
    case Abandon(c) => AbandonDecreases(printable, s, c);
    case _ => CallerMoveDecreases(printable, s, e);
  }

  ghost predicate AllPossible<V>(printable: CodePoint -> bool, s: Stack<V>, es: seq<StackEvent<V>>) {
    es == [] ||
    (AllPossible(printable, s, es[..|es| - 1]) && Possible(Moves(printable, s, es[..|es| - 1]), es[|es| - 1]))
  }

  lemma {:induction false} MovesKeepFrom<V>(printable: CodePoint -> bool, s: Stack<V>, es: seq<StackEvent<V>>)
    requires StackInv(printable, s)
    ensures StackInv(printable, Moves(printable, s, es))
  {
    if es != [] {
      MovesKeepFrom(printable, s, es[..|es| - 1]);
      MoveKeeps(printable, Moves(printable, s, es[..|es| - 1]), es[|es| - 1]);
    }
  }

  /** Once no one arrives any more, every schedule is no longer than the weight of the state it starts
      in, and two steps more for each outside write: its own and the expiry of its entry. By
      SettledServesEveryone it cannot end with an unserved caller. */
  lemma {:induction false} SchedulesEnd<V>(printable: CodePoint -> bool, s: Stack<V>, es: seq<StackEvent<V>>)
    requires StackInv(printable, s) && AllPossible(printable, s, es)
    requires forall i :: 0 <= i < |es| ==> !es[i].Arrive?
    ensures
      var t := Moves(printable, s, es);
      |es| + StackWeight(t) + 2 * |s.foreign| <= StackWeight(s) + 2 * |t.foreign|
  {
    if es != [] {
      var init, e := es[..|es| - 1], es[|es| - 1];
      var t := Moves(printable, s, init);
      SchedulesEnd(printable, s, init);
      MovesKeepFrom(printable, s, init);
      if e.WriteElsewhere? {
        WriteWeight(t.cache, CacheKey(printable, e.entry.request), e.entry.value);
      } else {
        MoveDecreases(printable, t, e);
        NoneForeign(printable, t, e);
      }
    }
  }

  lemma NoneForeign<V>(printable: CodePoint -> bool, s: Stack<V>, e: StackEvent<V>)
    requires !e.WriteElsewhere?
    ensures Move(printable, s, e).foreign == s.foreign
  {
  }
}
