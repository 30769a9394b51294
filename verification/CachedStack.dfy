/** The client stack: a cache in front of the single-flight reducer in front of the upstream
    search, shared by any number of concurrent callers. */
module CachedStack {
  import opened Prelude
  import opened PyRepr
  import opened Reducer
  import opened ReducerInvariant
  import opened ReducerRuns

  /** Where a caller of the cached search is: before its cache read, with the answer of that read, in
      the reducer, in its cache write with the value of execution `from`, or done. */
  datatype Place<V> =
    | Asking
    | Read(hit: Option<V>)
    | Joined(waiter: nat)
    | Storing(value: V, from: nat, written: bool)
    | Answered(value: V)
    | Failed(error: Error)
    | CacheBroken
    | Gone

  datatype Caller<V> = Caller(request: Request, place: Place<V>)

  /** A result another process, or an earlier life of this one, put under a request's key. */
  datatype Entry<V> = Entry(request: Request, value: V)

  /** `jobs` are the requests whose coroutines were handed to the reducer, in that order; `foreign` are
      the results written from outside, since the cache is shared and outlives the process. */
  datatype Stack<V> = Stack(
    cache: map<Str, V>,
    reducer: State<V>,
    callers: seq<Caller<V>>,
    jobs: seq<Request>,
    foreign: seq<Entry<V>>)

  datatype StackEvent<V> =
    | Arrive(request: Request)
    | Lookup(caller: nat)
    | Proceed(caller: nat)
    | Inside(event: Event<V>)
    | Collect(caller: nat)
    | Write(caller: nat)
    | Answer(caller: nat)
    | Expire(key: Str)
    | WriteElsewhere(entry: Entry<V>)
    | BreakCache(caller: nat)
    | Abandon(caller: nat)

  function CacheKey(printable: CodePoint -> bool, r: Request): Str {
    Key(printable, Ascii("CachedOpenLibraryClient"), r)
  }

  function FlightKey(printable: CodePoint -> bool, r: Request): Str {
    Key(printable, Ascii("ReducedOpenLibraryClient"), r)
  }

  function Empty<V>(): Stack<V> {
    Stack(map[], Init(), [], [], [])
  }

  predicate Possible<V>(s: Stack<V>, e: StackEvent<V>) {
    match e
    case Arrive(_) => true
    case Lookup(c) => c < |s.callers| && s.callers[c].place.Asking?
    case Proceed(c) => c < |s.callers| && s.callers[c].place.Read?
    case Inside(event) => !event.Call? && !event.Cancel? && Enabled(s.reducer, event)
    case Collect(c) =>
      && c < |s.callers| && s.callers[c].place.Joined? && s.callers[c].place.waiter < |s.reducer.waiters|
      && s.reducer.waiters[s.callers[c].place.waiter].wait.Returned?
    case Write(c) => c < |s.callers| && s.callers[c].place.Storing? && !s.callers[c].place.written
    case Answer(c) => c < |s.callers| && s.callers[c].place.Storing? && s.callers[c].place.written
    case Expire(key) => key in s.cache
    case WriteElsewhere(_) => true
    case BreakCache(c) => c < |s.callers| && (s.callers[c].place.Asking? || s.callers[c].place.Storing?)
    case Abandon(c) => c < |s.callers| && !Over(s.callers[c].place)
  }

  predicate Over<V>(place: Place<V>) {
    place.Answered? || place.Failed? || place.CacheBroken? || place.Gone?
  }

  function At<V>(s: Stack<V>, c: nat, place: Place<V>): Stack<V>
    requires c < |s.callers|
  {
    s.(callers := s.callers[c := s.callers[c].(place := place)])
  }

  function Move<V>(printable: CodePoint -> bool, s: Stack<V>, e: StackEvent<V>): Stack<V> {
    if !Possible(s, e) then s else
    match e
    case Arrive(r) => s.(callers := s.callers + [Caller(r, Asking)])
    case Lookup(c) => At(s, c, Read(Cached(printable, s.cache, s.callers[c].request)))
    case Proceed(c) => AfterProceed(printable, s, c)
    case Inside(event) => s.(reducer := Step(s.reducer, event))
    case Collect(c) =>
      At(s, c, match s.reducer.waiters[s.callers[c].place.waiter].wait.outcome
               case Value(v) => Storing(v, s.reducer.waiters[s.callers[c].place.waiter].future, false)
               case Raised(error) => Failed(error))
    case Write(c) =>
      At(s, c, s.callers[c].place.(written := true)).(
        cache := s.cache[CacheKey(printable, s.callers[c].request) := s.callers[c].place.value])
    case Answer(c) => At(s, c, Answered(s.callers[c].place.value))
    case Expire(key) => s.(cache := s.cache - {key})
    case WriteElsewhere(entry) => AfterForeign(printable, s, entry)
    case BreakCache(c) => At(s, c, CacheBroken)
    case Abandon(c) => AfterAbandon(s, c)
  }

  function Cached<V>(printable: CodePoint -> bool, cache: map<Str, V>, r: Request): Option<V> {
    var key := CacheKey(printable, r);
    if key in cache then Some(cache[key]) else None
  }

  /** A hit is returned; a miss hands a new coroutine to the reducer under the flight key. */
  function AfterProceed<V>(printable: CodePoint -> bool, s: Stack<V>, c: nat): Stack<V>
    requires c < |s.callers| && s.callers[c].place.Read?
  {
    match s.callers[c].place.hit
    case Some(v) => At(s, c, Answered(v))
    case None =>
      var r := s.callers[c].request;
      At(s, c, Joined(|s.reducer.waiters|)).(
        reducer := AfterCall(s.reducer, FlightKey(printable, r)),
        jobs := s.jobs + [r])
  }

  function AfterForeign<V>(printable: CodePoint -> bool, s: Stack<V>, entry: Entry<V>): Stack<V> {
    s.(cache := s.cache[CacheKey(printable, entry.request) := entry.value], foreign := s.foreign + [entry])
  }

  /** Cancelling a caller inside the reducer cancels its waiter. */
  function AfterAbandon<V>(s: Stack<V>, c: nat): Stack<V>
    requires c < |s.callers|
  {
    var gone := At(s, c, Gone);
    var place := s.callers[c].place;
    if place.Joined? then gone.(reducer := Step(s.reducer, Cancel(place.waiter))) else gone
  }

  ghost function Moves<V>(printable: CodePoint -> bool, s: Stack<V>, es: seq<StackEvent<V>>): Stack<V> {
    if es == [] then s else Move(printable, Moves(printable, s, es[..|es| - 1]), es[|es| - 1])
  }

  // ---- invariant ----

  /** Execution `r` was of exactly this request and ended with this outcome. */
  ghost predicate Executed<V>(s: Stack<V>, r: nat, request: Request, outcome: Outcome<V>) {
    && r < |s.reducer.runners| && r < |s.reducer.futures| && s.reducer.futures[r] == Done(outcome)
    && s.reducer.runners[r].coro < |s.jobs| && s.jobs[s.reducer.runners[r].coro] == request
  }

  ghost predicate ByExecution<V>(s: Stack<V>, request: Request, outcome: Outcome<V>) {
    exists r: nat :: Executed(s, r, request, outcome)
  }

  /** An execution of exactly this request here, or a result of it written from outside. */
  ghost predicate Produced<V>(s: Stack<V>, request: Request, outcome: Outcome<V>) {
    ByExecution(s, request, outcome) || (outcome.Value? && Entry(request, outcome.value) in s.foreign)
  }

  ghost predicate StackInv<V>(printable: CodePoint -> bool, s: Stack<V>) {
    && Inv(s.reducer)
    && |s.jobs| == |s.reducer.coros|
    && FlightsKeyed(printable, s.reducer.runners, s.jobs)
    && (forall key :: key in s.cache ==> Backed(printable, s, key, s.cache[key]))
    && (forall c {:trigger s.callers[c]} :: 0 <= c < |s.callers| ==> Placed(printable, s, s.callers[c]))
  }

  ghost predicate FlightsKeyed(printable: CodePoint -> bool, runners: seq<Runner>, jobs: seq<Request>) {
    forall r {:trigger runners[r]} :: 0 <= r < |runners| && runners[r].coro < |jobs| ==>
      runners[r].ident == FlightKey(printable, jobs[runners[r].coro])
  }

  ghost predicate Backed<V>(printable: CodePoint -> bool, s: Stack<V>, key: Str, v: V) {
    exists request :: CacheKey(printable, request) == key && Produced(s, request, Value(v))
  }

  ghost predicate Placed<V>(printable: CodePoint -> bool, s: Stack<V>, caller: Caller<V>) {
    match caller.place
    case Read(hit) => hit.Some? ==> Produced(s, caller.request, Value(hit.value))
    case Joined(w) =>
      && w < |s.reducer.waiters| && s.reducer.waiters[w].future < |s.reducer.runners|
      && s.reducer.runners[s.reducer.waiters[w].future].ident == FlightKey(printable, caller.request)
    case Storing(v, from, _) => Executed(s, from, caller.request, Value(v))
    case Answered(v) => Produced(s, caller.request, Value(v))
    case Failed(error) => Produced(s, caller.request, Raised(error))
    case _ => true
  }

  lemma CacheKeyInjective(printable: CodePoint -> bool, a: Request, b: Request)
    requires CacheKey(printable, a) == CacheKey(printable, b)
    ensures a == b
  {
    KeyInjective(printable, Ascii("CachedOpenLibraryClient"), a, b);
  }

  lemma FlightKeyInjective(printable: CodePoint -> bool, a: Request, b: Request)
    requires FlightKey(printable, a) == FlightKey(printable, b)
    ensures a == b
  {
    KeyInjective(printable, Ascii("ReducedOpenLibraryClient"), a, b);
  }

  /** The two keys of one plain request, in full: the cache and the reducer are asked under different
      names. */
  lemma KeysInFull(printable: CodePoint -> bool)
    ensures
      var arguments := ":search:():{'query': " +
        ("'dune'" + (", 'limit': " + ("100" + (", 'offset': " + ("0" + "}")))));
      && CacheKey(printable, Request(Ascii("dune"), 100, 0)) == Ascii("CachedOpenLibraryClient" + arguments)
      && FlightKey(printable, Request(Ascii("dune"), 100, 0)) == Ascii("ReducedOpenLibraryClient" + arguments)
  {
    KeyExample(printable, "CachedOpenLibraryClient");
    KeyExample(printable, "ReducedOpenLibraryClient");
  }

  ghost predicate Grows<V>(s: Stack<V>, t: Stack<V>) {
    Extends(s.reducer, t.reducer) && s.jobs <= t.jobs && s.foreign <= t.foreign
  }

  lemma ExecutedStays<V>(s: Stack<V>, t: Stack<V>, r: nat, request: Request, outcome: Outcome<V>)
    requires Grows(s, t) && Executed(s, r, request, outcome)
    ensures Executed(t, r, request, outcome)
  {
  }

  lemma ProducedStays<V>(s: Stack<V>, t: Stack<V>, request: Request, outcome: Outcome<V>)
    requires Grows(s, t) && Produced(s, request, outcome)
    ensures Produced(t, request, outcome)
  {
    if ByExecution(s, request, outcome) {
      var r: nat :| Executed(s, r, request, outcome);
      ExecutedStays(s, t, r, request, outcome);
    }
  }

  lemma PlacedStays<V>(printable: CodePoint -> bool, s: Stack<V>, t: Stack<V>, caller: Caller<V>)
    requires Grows(s, t) && Placed(printable, s, caller)
    ensures Placed(printable, t, caller)
  {
    match caller.place
    case Read(hit) => if hit.Some? { ProducedStays(s, t, caller.request, Value(hit.value)); }
    case Storing(v, from, _) => ExecutedStays(s, t, from, caller.request, Value(v));
    case Answered(v) => ProducedStays(s, t, caller.request, Value(v));
    case Failed(error) => ProducedStays(s, t, caller.request, Raised(error));
    case _ =>
  }

  lemma BackedStays<V>(printable: CodePoint -> bool, s: Stack<V>, t: Stack<V>, key: Str, v: V)
    requires Grows(s, t) && Backed(printable, s, key, v)
    ensures Backed(printable, t, key, v)
  {
    var request :| CacheKey(printable, request) == key && Produced(s, request, Value(v));
    ProducedStays(s, t, request, Value(v));
  }

  /** Growing the executions and dropping cache entries keeps the invariant. */
  lemma GrowthKeeps<V>(printable: CodePoint -> bool, s: Stack<V>, t: Stack<V>)
    requires StackInv(printable, s) && Grows(s, t)
    requires t.callers == s.callers && (forall key :: key in t.cache ==> key in s.cache && t.cache[key] == s.cache[key])
    requires Inv(t.reducer) && |t.jobs| == |t.reducer.coros| && FlightsKeyed(printable, t.reducer.runners, t.jobs)
    ensures StackInv(printable, t)
  {
    forall key | key in t.cache ensures Backed(printable, t, key, t.cache[key]) {
      BackedStays(printable, s, t, key, t.cache[key]);
    }
    CallersPlaced(printable, s, t);
  }

  lemma PlaceKeeps<V>(printable: CodePoint -> bool, s: Stack<V>, c: nat, place: Place<V>)
    requires StackInv(printable, s) && c < |s.callers|
    requires Placed(printable, s, s.callers[c].(place := place))
    ensures StackInv(printable, At(s, c, place))
  {
    var t := At(s, c, place);
    GrowthKeeps(printable, s, t.(callers := s.callers));
    forall d | 0 <= d < |t.callers| ensures Placed(printable, t, t.callers[d]) {
      PlacedStays(printable, s, t, t.callers[d]);
    }
    forall key | key in t.cache ensures Backed(printable, t, key, t.cache[key]) {
      BackedStays(printable, s, t, key, t.cache[key]);
    }
  }

  lemma HitBacked<V>(printable: CodePoint -> bool, s: Stack<V>, r: Request)
    requires StackInv(printable, s) && CacheKey(printable, r) in s.cache
    ensures Produced(s, r, Value(s.cache[CacheKey(printable, r)]))
  {
    var key := CacheKey(printable, r);
    assert Backed(printable, s, key, s.cache[key]);
    var request :| CacheKey(printable, request) == key && Produced(s, request, Value(s.cache[key]));
    CacheKeyInjective(printable, request, r);
  }

  lemma LookupKeeps<V>(printable: CodePoint -> bool, s: Stack<V>, c: nat)
    requires StackInv(printable, s) && Possible(s, Lookup(c))
    ensures StackInv(printable, Move(printable, s, Lookup(c)))
  {
    var r := s.callers[c].request;
    if CacheKey(printable, r) in s.cache {
      HitBacked(printable, s, r);
    }
    PlaceKeeps(printable, s, c, Read(Cached(printable, s.cache, r)));
  }

  lemma ReducerGrows<V>(printable: CodePoint -> bool, s: Stack<V>, e: Event<V>)
    requires StackInv(printable, s) && !e.Call?
    ensures StackInv(printable, s.(reducer := Step(s.reducer, e)))
  {
    var t := s.(reducer := Step(s.reducer, e));
    StepKeeps(s.reducer, e);
    StepExtends(s.reducer, e);
    SameSizes(s.reducer, e);
    StillKeyed(printable, s.reducer.runners, t.reducer.runners, s.jobs);
    GrowthKeeps(printable, s, t);
  }

  /** Only a call makes futures, runners and coroutines. */
  lemma SameSizes<V>(s: State<V>, e: Event<V>)
    requires !e.Call?
    ensures |Step(s, e).futures| == |s.futures| && |Step(s, e).runners| == |s.runners|
    ensures |Step(s, e).coros| == |s.coros|
  {
  }

  lemma StillKeyed(printable: CodePoint -> bool, rs: seq<Runner>, ts: seq<Runner>, jobs: seq<Request>)
    requires FlightsKeyed(printable, rs, jobs) && RunnersExtend(rs, ts) && |ts| == |rs|
    ensures FlightsKeyed(printable, ts, jobs)
  {
    forall r | 0 <= r < |ts| && ts[r].coro < |jobs| ensures ts[r].ident == FlightKey(printable, jobs[ts[r].coro]) {
      assert rs[r].ident == FlightKey(printable, jobs[rs[r].coro]);
    }
  }

  lemma MissKeeps<V>(printable: CodePoint -> bool, s: Stack<V>, c: nat)
    requires StackInv(printable, s) && Possible(s, Proceed(c)) && s.callers[c].place.hit.None?
    ensures StackInv(printable, Move(printable, s, Proceed(c)))
  {
    var r := s.callers[c].request;
    var key := FlightKey(printable, r);
    var t := s.(reducer := AfterCall(s.reducer, key), jobs := s.jobs + [r]);
    CallKeeps(s.reducer, key);
    CallExtends(s.reducer, key);
    CallKeyed(printable, s.reducer, s.jobs, r);
    GrowthKeeps(printable, s, t);
    PlaceKeeps(printable, t, c, Joined(|s.reducer.waiters|));
    assert Move(printable, s, Proceed(c)) == At(t, c, Joined(|s.reducer.waiters|));
  }

  lemma CallKeyed<V>(printable: CodePoint -> bool, s: State<V>, jobs: seq<Request>, r: Request)
    requires Inv(s) && |jobs| == |s.coros| && FlightsKeyed(printable, s.runners, jobs)
    ensures
      var t := AfterCall(s, FlightKey(printable, r));
      && FlightsKeyed(printable, t.runners, jobs + [r])
      && |t.coros| == |jobs + [r]|
      && |s.waiters| < |t.waiters| && t.waiters[|s.waiters|].future < |t.runners|
      && t.runners[t.waiters[|s.waiters|].future].ident == FlightKey(printable, r)
  {
    var key := FlightKey(printable, r);
    var t := AfterCall(s, key);
    CallCaptures(s, key);
    forall q | 0 <= q < |t.runners| && t.runners[q].coro < |jobs + [r]|
      ensures t.runners[q].ident == FlightKey(printable, (jobs + [r])[t.runners[q].coro])
    {
      if q < |s.runners| {
        assert t.runners[q] == s.runners[q];
        assert (jobs + [r])[s.runners[q].coro] == jobs[s.runners[q].coro];
      }
    }
  }

  lemma CallCaptures<V>(s: State<V>, key: Str)
    requires Inv(s)
    ensures
      var t := AfterCall(s, key);
      && |t.coros| == |s.coros| + 1 && |t.waiters| == |s.waiters| + 1
      && t.waiters[|s.waiters|].future < |t.runners|
      && t.runners[t.waiters[|s.waiters|].future].ident == key
      && |s.runners| <= |t.runners| <= |s.runners| + 1
      && (forall q :: 0 <= q < |s.runners| ==> t.runners[q] == s.runners[q])
      && (forall q :: |s.runners| <= q < |t.runners| ==> t.runners[q].ident == key && t.runners[q].coro == |s.coros|)
  {
  }

  /** The outcome a joined caller receives is that of an execution of its own request. */
  lemma CollectedProduced<V>(printable: CodePoint -> bool, s: Stack<V>, c: nat)
    requires StackInv(printable, s) && Possible(s, Collect(c))
    ensures
      var w := s.callers[c].place.waiter;
      Executed(s, s.reducer.waiters[w].future, s.callers[c].request, s.reducer.waiters[w].wait.outcome)
  {
    var w := s.callers[c].place.waiter;
    var f := s.reducer.waiters[w].future;
    assert Placed(printable, s, s.callers[c]);
    assert Served(s.reducer.waiters[w].wait, w, s.reducer.futures[f], s.reducer.ready);
    var job := s.jobs[s.reducer.runners[f].coro];
    FlightKeyInjective(printable, job, s.callers[c].request);
  }

  lemma CollectKeeps<V>(printable: CodePoint -> bool, s: Stack<V>, c: nat)
    requires StackInv(printable, s) && Possible(s, Collect(c))
    ensures StackInv(printable, Move(printable, s, Collect(c)))
  {
    CollectedProduced(printable, s, c);
    var w := s.callers[c].place.waiter;
    match s.reducer.waiters[w].wait.outcome
    case Value(v) => PlaceKeeps(printable, s, c, Storing(v, s.reducer.waiters[w].future, false));
    case Raised(error) =>
      assert ByExecution(s, s.callers[c].request, Raised(error));
      PlaceKeeps(printable, s, c, Failed(error));
  }

  lemma WriteKeeps<V>(printable: CodePoint -> bool, s: Stack<V>, c: nat)
    requires StackInv(printable, s) && Possible(s, Write(c))
    ensures StackInv(printable, Move(printable, s, Write(c)))
  {
    var v, from := s.callers[c].place.value, s.callers[c].place.from;
    var r := s.callers[c].request;
    assert Placed(printable, s, s.callers[c]);
    assert ByExecution(s, r, Value(v));
    PlaceKeeps(printable, s, c, Storing(v, from, true));
    var t := At(s, c, Storing(v, from, true));
    ProducedStays(s, t, r, Value(v));
    assert Backed(printable, t, CacheKey(printable, r), v);
    EntryKeeps(printable, t, CacheKey(printable, r), v);
  }

  lemma EntryKeeps<V>(printable: CodePoint -> bool, s: Stack<V>, key: Str, v: V)
    requires StackInv(printable, s) && Backed(printable, s, key, v)
    ensures StackInv(printable, s.(cache := s.cache[key := v]))
  {
    var t := s.(cache := s.cache[key := v]);
    assert Grows(s, t);
    EntriesBacked(printable, s, t, key, v);
    CallersPlaced(printable, s, t);
  }

  lemma EntriesBacked<V>(printable: CodePoint -> bool, s: Stack<V>, t: Stack<V>, key: Str, v: V)
    requires forall k :: k in s.cache ==> Backed(printable, s, k, s.cache[k])
    requires Backed(printable, s, key, v) && Grows(s, t) && t.cache == s.cache[key := v]
    ensures forall k :: k in t.cache ==> Backed(printable, t, k, t.cache[k])
  {
    forall k | k in t.cache ensures Backed(printable, t, k, t.cache[k]) {
      BackedStays(printable, s, t, k, if k == key then v else s.cache[k]);
    }
  }

  lemma CallersPlaced<V>(printable: CodePoint -> bool, s: Stack<V>, t: Stack<V>)
    requires forall c {:trigger s.callers[c]} :: 0 <= c < |s.callers| ==> Placed(printable, s, s.callers[c])
    requires Grows(s, t) && t.callers == s.callers
    ensures forall c {:trigger t.callers[c]} :: 0 <= c < |t.callers| ==> Placed(printable, t, t.callers[c])
  {
    forall c | 0 <= c < |t.callers| ensures Placed(printable, t, t.callers[c]) {
      PlacedStays(printable, s, t, s.callers[c]);
    }
  }

  lemma AbandonKeeps<V>(printable: CodePoint -> bool, s: Stack<V>, c: nat)
    requires StackInv(printable, s) && Possible(s, Abandon(c))
    ensures StackInv(printable, Move(printable, s, Abandon(c)))
  {
    PlaceKeeps(printable, s, c, Gone);
    if s.callers[c].place.Joined? {
      ReducerGrows(printable, At(s, c, Gone), Cancel(s.callers[c].place.waiter));
    }
  }

  lemma ArriveKeeps<V>(printable: CodePoint -> bool, s: Stack<V>, r: Request)
    requires StackInv(printable, s)
    ensures StackInv(printable, Move(printable, s, Arrive(r)))
  {
    var t := Move(printable, s, Arrive(r));
    forall key | key in t.cache ensures Backed(printable, t, key, t.cache[key]) {
      BackedStays(printable, s, t, key, t.cache[key]);
    }
    forall c | 0 <= c < |t.callers| ensures Placed(printable, t, t.callers[c]) {
      if c < |s.callers| { PlacedStays(printable, s, t, s.callers[c]); }
    }
  }

  lemma ProceedKeeps<V>(printable: CodePoint -> bool, s: Stack<V>, c: nat)
    requires StackInv(printable, s) && Possible(s, Proceed(c))
    ensures StackInv(printable, Move(printable, s, Proceed(c)))
  {
    assert Placed(printable, s, s.callers[c]);
    if s.callers[c].place.hit.None? {
      MissKeeps(printable, s, c);
    } else {
      PlaceKeeps(printable, s, c, Answered(s.callers[c].place.hit.value));
    }
  }

  lemma AnswerKeeps<V>(printable: CodePoint -> bool, s: Stack<V>, c: nat)
    requires StackInv(printable, s) && Possible(s, Answer(c))
    ensures StackInv(printable, Move(printable, s, Answer(c)))
  {
    assert Placed(printable, s, s.callers[c]);
    assert ByExecution(s, s.callers[c].request, Value(s.callers[c].place.value));
    PlaceKeeps(printable, s, c, Answered(s.callers[c].place.value));
  }

  lemma ForeignKeeps<V>(printable: CodePoint -> bool, s: Stack<V>, entry: Entry<V>)
    requires StackInv(printable, s)
    ensures StackInv(printable, AfterForeign(printable, s, entry))
  {
    var t := s.(foreign := s.foreign + [entry]);
    GrowthKeeps(printable, s, t);
    assert entry in t.foreign && Produced(t, entry.request, Value(entry.value));
    EntryKeeps(printable, t, CacheKey(printable, entry.request), entry.value);
  }

  lemma MoveKeeps<V>(printable: CodePoint -> bool, s: Stack<V>, e: StackEvent<V>)
    requires StackInv(printable, s)
    ensures StackInv(printable, Move(printable, s, e))
  {
    if Possible(s, e) {
      match e
      case Arrive(r) => ArriveKeeps(printable, s, r);
      case Lookup(c) => LookupKeeps(printable, s, c);
      case Proceed(c) => ProceedKeeps(printable, s, c);
      case Inside(event) => ReducerGrows(printable, s, event);
      case Collect(c) => CollectKeeps(printable, s, c);
      case Write(c) => WriteKeeps(printable, s, c);
      case Answer(c) => AnswerKeeps(printable, s, c);
      case Expire(key) => GrowthKeeps(printable, s, s.(cache := s.cache - {key}));
      case WriteElsewhere(entry) => ForeignKeeps(printable, s, entry);
      case BreakCache(c) => PlaceKeeps(printable, s, c, CacheBroken);
      case Abandon(c) => AbandonKeeps(printable, s, c);
    }
  }

  lemma {:induction false} MovesKeep<V>(printable: CodePoint -> bool, es: seq<StackEvent<V>>)
    ensures StackInv(printable, Moves(printable, Empty<V>(), es))
  {
    if es == [] {
      InitHolds<V>();
    } else {
      MovesKeep(printable, es[..|es| - 1]);
      MoveKeeps(printable, Moves(printable, Empty(), es[..|es| - 1]), es[|es| - 1]);
    }
  }

  // ---- the results ----

  /** Under every interleaving of callers, completions, lagging writes, expiries, outside writes and
      cancellations, a cached value is the value of a finished execution of exactly the request the
      key stands for, or was written from outside for exactly that request; so is an answer for
      exactly the caller's request, and a raised error is that of an execution of it. */
  lemma AnswersComeFromExecutions<V>(printable: CodePoint -> bool, es: seq<StackEvent<V>>)
    ensures
      var s := Moves(printable, Empty<V>(), es);
      && (forall request :: CacheKey(printable, request) in s.cache ==>
            Produced(s, request, Value(s.cache[CacheKey(printable, request)])))
      && (forall c :: 0 <= c < |s.callers| && s.callers[c].place.Answered? ==>
            Produced(s, s.callers[c].request, Value(s.callers[c].place.value)))
      && (forall c :: 0 <= c < |s.callers| && s.callers[c].place.Failed? ==>
            ByExecution(s, s.callers[c].request, Raised(s.callers[c].place.error)))
  {
    var s := Moves(printable, Empty<V>(), es);
    MovesKeep(printable, es);
    forall request | CacheKey(printable, request) in s.cache
      ensures Produced(s, request, Value(s.cache[CacheKey(printable, request)]))
    {
      HitBacked(printable, s, request);
    }
    forall c | 0 <= c < |s.callers| ensures Placed(printable, s, s.callers[c]) {}
  }

  ghost predicate Ended<V>(s: Stack<V>, r: nat, outcome: Outcome<V>) {
    r < |s.reducer.futures| && s.reducer.futures[r] == Done(outcome)
  }

  /** Every finished execution was finished, with its outcome, by an earlier event of the history. */
  lemma {:induction false} ExecutionHappened<V>(
      printable: CodePoint -> bool, es: seq<StackEvent<V>>, r: nat, outcome: Outcome<V>)
    requires Ended(Moves(printable, Empty<V>(), es), r, outcome)
    ensures Inside(FinishRunner(r, outcome)) in es
  {
    if es != [] {
      var init, e := es[..|es| - 1], es[|es| - 1];
      MovesKeep(printable, init);
      MoveEnds(printable, Moves(printable, Empty<V>(), init), e, r, outcome);
      if Ended(Moves(printable, Empty<V>(), init), r, outcome) {
        ExecutionHappened(printable, init, r, outcome);
        InitMember(es, Inside(FinishRunner(r, outcome)));
      } else {
        assert e in es;
      }
    }
  }

  /** And every result from outside was written by an earlier event. */
  lemma {:induction false} ForeignHappened<V>(printable: CodePoint -> bool, es: seq<StackEvent<V>>, entry: Entry<V>)
    requires entry in Moves(printable, Empty<V>(), es).foreign
    ensures WriteElsewhere(entry) in es
  {
    if es != [] {
      var init, e := es[..|es| - 1], es[|es| - 1];
      if entry in Moves(printable, Empty<V>(), init).foreign {
        ForeignHappened(printable, init, entry);
        InitMember(es, WriteElsewhere(entry));
      } else {
        assert e in es;
      }
    }
  }

  /** Only finishing an execution resolves its future. */
  lemma MoveEnds<V>(printable: CodePoint -> bool, s: Stack<V>, e: StackEvent<V>, r: nat, outcome: Outcome<V>)
    requires StackInv(printable, s) && Ended(Move(printable, s, e), r, outcome)
    ensures Ended(s, r, outcome) || e == Inside(FinishRunner(r, outcome))
  {
    if Possible(s, e) && e.Inside? {
      EventResolves(s.reducer, e.event, r);
    } else {
      OutsideKeepsExecutions(printable, s, e);
    }
  }

  lemma EventResolves<V>(s: State<V>, e: Event<V>, r: nat)
    requires Inv(s) && !e.Call? && r < |Step(s, e).futures| && Step(s, e).futures[r].Done?
    ensures r < |s.futures|
    ensures s.futures[r] == Step(s, e).futures[r] || e == FinishRunner(r, Step(s, e).futures[r].outcome)
  {
    SameSizes(s, e);
    if s.futures[r].Pending? {
      StepResolves(s, e, r);
    } else {
      StepExtends(s, e);
    }
  }

  /** No two unfinished upstream executions are of the same request. */
  lemma OneFlightPerRequest<V>(printable: CodePoint -> bool, es: seq<StackEvent<V>>, q: nat, r: nat)
    requires
      var s := Moves(printable, Empty<V>(), es);
      && Unfinished(s.reducer.runners, q) && Unfinished(s.reducer.runners, r) && q != r
    ensures
      var s := Moves(printable, Empty<V>(), es);
      && s.reducer.runners[q].coro < |s.jobs| && s.reducer.runners[r].coro < |s.jobs|
      && s.jobs[s.reducer.runners[q].coro] != s.jobs[s.reducer.runners[r].coro]
  {
    MovesKeep(printable, es);
  }

  /** The execution that `e` finishes, if any, ends as `upstream` says for its request, and so does a
      result written from outside. */
  ghost predicate Obeys<V>(upstream: Request -> Outcome<V>, s: Stack<V>, e: StackEvent<V>) {
    (e.WriteElsewhere? ==> upstream(e.entry.request) == Value(e.entry.value)) &&
    (FinishesJob(s, e) ==> e.event.outcome == upstream(s.jobs[s.reducer.runners[e.event.runner].coro]))
  }

  ghost predicate FinishesJob<V>(s: Stack<V>, e: StackEvent<V>) {
    e.Inside? && e.event.FinishRunner? && e.event.runner < |s.reducer.runners|
      && s.reducer.runners[e.event.runner].coro < |s.jobs|
  }

  ghost predicate AllObey<V>(printable: CodePoint -> bool, upstream: Request -> Outcome<V>, es: seq<StackEvent<V>>) {
    es == [] ||
    (AllObey(printable, upstream, es[..|es| - 1]) &&
     Obeys(upstream, Moves(printable, Empty(), es[..|es| - 1]), es[|es| - 1]))
  }

  ghost predicate ExecutionObeys<V>(upstream: Request -> Outcome<V>, s: Stack<V>, r: nat)
    requires r < |s.reducer.runners|
  {
    r < |s.reducer.futures| && s.reducer.futures[r].Done? && s.reducer.runners[r].coro < |s.jobs|
    ==> s.reducer.futures[r].outcome == upstream(s.jobs[s.reducer.runners[r].coro])
  }

  ghost predicate ExecutionsObey<V>(upstream: Request -> Outcome<V>, s: Stack<V>) {
    forall r {:trigger s.reducer.runners[r]} :: 0 <= r < |s.reducer.runners| ==> ExecutionObeys(upstream, s, r)
  }

  ghost predicate ForeignObey<V>(upstream: Request -> Outcome<V>, s: Stack<V>) {
    forall entry :: entry in s.foreign ==> upstream(entry.request) == Value(entry.value)
  }

  lemma MoveObeys<V>(printable: CodePoint -> bool, upstream: Request -> Outcome<V>, s: Stack<V>, e: StackEvent<V>)
    requires StackInv(printable, s) && ExecutionsObey(upstream, s) && Obeys(upstream, s, e)
    requires ForeignObey(upstream, s)
    ensures ExecutionsObey(upstream, Move(printable, s, e)) && ForeignObey(upstream, Move(printable, s, e))
  {
    var t := Move(printable, s, e);
    forall r | 0 <= r < |t.reducer.runners| ensures ExecutionObeys(upstream, t, r) {
      if Possible(s, e) && e.Inside? {
        InsideObeys(upstream, s, e.event, r);
      } else {
        OutsideObeys(printable, upstream, s, e, r);
      }
    }
  }

  lemma InsideObeys<V>(upstream: Request -> Outcome<V>, s: Stack<V>, e: Event<V>, r: nat)
    requires Inv(s.reducer) && |s.jobs| == |s.reducer.coros| && ExecutionsObey(upstream, s)
    requires Enabled(s.reducer, e) && !e.Call? && Obeys(upstream, s, Inside(e))
    requires r < |Step(s.reducer, e).runners|
    ensures ExecutionObeys(upstream, s.(reducer := Step(s.reducer, e)), r)
  {
    var after := Step(s.reducer, e);
    SameSizes(s.reducer, e);
    assert ExecutionObeys(upstream, s, r);
    ExecutionStep(s.reducer, e, r);
  }

  /** What one step can do to an execution: nothing, or finish it. */
  lemma ExecutionStep<V>(s: State<V>, e: Event<V>, r: nat)
    requires Inv(s) && !e.Call? && r < |s.runners|
    ensures r < |Step(s, e).runners| && Step(s, e).runners[r].coro == s.runners[r].coro
    ensures r < |Step(s, e).futures|
    ensures Step(s, e).futures[r].Done? ==>
      s.futures[r] == Step(s, e).futures[r] || e == FinishRunner(r, Step(s, e).futures[r].outcome)
  {
    StepExtends(s, e);
    if Step(s, e).futures[r].Done? {
      EventResolves(s, e, r);
    }
  }

  lemma OutsideObeys<V>(printable: CodePoint -> bool, upstream: Request -> Outcome<V>, s: Stack<V>,
                        e: StackEvent<V>, r: nat)
    requires StackInv(printable, s) && ExecutionsObey(upstream, s) && !(Possible(s, e) && e.Inside?)
    requires r < |Move(printable, s, e).reducer.runners|
    ensures ExecutionObeys(upstream, Move(printable, s, e), r)
  {
    var t := Move(printable, s, e);
    OutsideKeepsExecutions(printable, s, e);
    if r < |s.reducer.runners| {
      assert ExecutionObeys(upstream, s, r);
      assert t.reducer.runners[r] == s.reducer.runners[r];
    }
  }

  /** A move outside the reducer's own steps resolves no future and renames no execution. */
  lemma OutsideKeepsExecutions<V>(printable: CodePoint -> bool, s: Stack<V>, e: StackEvent<V>)
    requires Inv(s.reducer) && |s.jobs| == |s.reducer.coros| && !(Possible(s, e) && e.Inside?)
    ensures
      var t := Move(printable, s, e);
      && s.jobs <= t.jobs
      && s.reducer.runners <= t.reducer.runners && s.reducer.futures <= t.reducer.futures
      && (forall f :: |s.reducer.futures| <= f < |t.reducer.futures| ==> t.reducer.futures[f].Pending?)
  {
    if Possible(s, e) && e.Proceed? && s.callers[e.caller].place.hit.None? {
      CallKeepsExecutions(s.reducer, FlightKey(printable, s.callers[e.caller].request));
    }
  }

  lemma CallKeepsExecutions<V>(s: State<V>, key: Str)
    ensures
      var t := AfterCall(s, key);
      && s.runners <= t.runners && s.futures <= t.futures
      && (forall f :: |s.futures| <= f < |t.futures| ==> t.futures[f].Pending?)
  {
  }

  lemma {:induction false} MovesObey<V>(
      printable: CodePoint -> bool, upstream: Request -> Outcome<V>, es: seq<StackEvent<V>>)
    requires AllObey(printable, upstream, es)
    ensures ExecutionsObey(upstream, Moves(printable, Empty<V>(), es))
    ensures ForeignObey(upstream, Moves(printable, Empty<V>(), es))
  {
    if es != [] {
      MovesObey(printable, upstream, es[..|es| - 1]);
      MovesKeep(printable, es[..|es| - 1]);
      MoveObeys(printable, upstream, Moves(printable, Empty(), es[..|es| - 1]), es[|es| - 1]);
    }
  }

  /** When upstream is a function of the request, the stack refines calling it directly: the same
      value or the same error, and a cache that holds only its values. */
  lemma StackRefinesUpstream<V>(printable: CodePoint -> bool, upstream: Request -> Outcome<V>, es: seq<StackEvent<V>>)
    requires AllObey(printable, upstream, es)
    ensures
      var s := Moves(printable, Empty<V>(), es);
      && (forall request :: CacheKey(printable, request) in s.cache ==>
            upstream(request) == Value(s.cache[CacheKey(printable, request)]))
      && (forall c :: 0 <= c < |s.callers| && s.callers[c].place.Answered? ==>
            upstream(s.callers[c].request) == Value(s.callers[c].place.value))
      && (forall c :: 0 <= c < |s.callers| && s.callers[c].place.Failed? ==>
            upstream(s.callers[c].request) == Raised(s.callers[c].place.error))
  {
    var s := Moves(printable, Empty<V>(), es);
    AnswersComeFromExecutions(printable, es);
    MovesObey(printable, upstream, es);
    forall request, outcome | Produced(s, request, outcome) ensures outcome == upstream(request) {
      if ByExecution(s, request, outcome) {
        var r: nat :| Executed(s, r, request, outcome);
        assert ExecutionObeys(upstream, s, r);
      }
    }
    forall request, outcome | ByExecution(s, request, outcome) ensures outcome == upstream(request) {
      assert Produced(s, request, outcome);
    }
  }
}
