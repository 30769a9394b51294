/** The order of cache writes: which execution an entry comes from, and when a write puts the value of an
    earlier execution over that of a later one. */
module CacheOrder {
  import opened Prelude
  import opened PyRepr
  import opened Reducer
  import opened ReducerInvariant
  import opened ReducerRuns
  import opened CachedStack
  import opened StackProgress

  /** The stack, and for each entry written by one of its callers the execution it comes from. */
  datatype Traced<V> = Traced(stack: Stack<V>, source: map<Str, nat>)

  function SourceAfter<V>(printable: CodePoint -> bool, t: Traced<V>, e: StackEvent<V>): map<Str, nat> {
    if !Possible(t.stack, e) then t.source else
    match e
    case Write(c) => t.source[CacheKey(printable, t.stack.callers[c].request) := t.stack.callers[c].place.from]
    case Expire(key) => t.source - {key}
    case WriteElsewhere(entry) => t.source - {CacheKey(printable, entry.request)}
    case _ => t.source
  }

  function Next<V>(printable: CodePoint -> bool, t: Traced<V>, e: StackEvent<V>): Traced<V> {
    Traced(Move(printable, t.stack, e), SourceAfter(printable, t, e))
  }

  ghost function Follow<V>(printable: CodePoint -> bool, t: Traced<V>, es: seq<StackEvent<V>>): Traced<V> {
    if es == [] then t else Next(printable, Follow(printable, t, es[..|es| - 1]), es[|es| - 1])
  }

  function Start<V>(): Traced<V> {
    Traced(Empty(), map[])
  }

  lemma {:induction false} FollowsMoves<V>(printable: CodePoint -> bool, t: Traced<V>, es: seq<StackEvent<V>>)
    ensures Follow(printable, t, es).stack == Moves(printable, t.stack, es)
  {
    if es != [] {
      FollowsMoves(printable, t, es[..|es| - 1]);
    }
  }

  lemma {:induction false} FollowConcat<V>(
      printable: CodePoint -> bool, t: Traced<V>, a: seq<StackEvent<V>>, b: seq<StackEvent<V>>)
    ensures Follow(printable, t, a + b) == Follow(printable, Follow(printable, t, a), b)
  {
    if b == [] {
      assert a + b == a;
    } else {
      FollowConcat(printable, t, a, b[..|b| - 1]);
      assert (a + b)[..|a + b| - 1] == a + b[..|b| - 1];
    }
  }

  lemma FollowOne<V>(printable: CodePoint -> bool, t: Traced<V>, e: StackEvent<V>)
    ensures Follow(printable, t, [e]) == Next(printable, t, e)
  {
    assert [e][..0] == [];
  }

  // ---- what the trace means ----

  /** Executions of one ident never overlap: a later one was started when the earlier had finished. */
  ghost predicate OneAfterAnother(runners: seq<Runner>) {
    forall q, r :: 0 <= q < r < |runners| && runners[q].ident == runners[r].ident ==> runners[q].phase.Finished?
  }

  ghost predicate FromExecution<V>(printable: CodePoint -> bool, s: Stack<V>, key: Str, r: nat) {
    key in s.cache &&
    exists request :: CacheKey(printable, request) == key && Executed(s, r, request, Value(s.cache[key]))
  }

  ghost predicate TraceInv<V>(printable: CodePoint -> bool, t: Traced<V>) {
    && StackInv(printable, t.stack)
    && OneAfterAnother(t.stack.reducer.runners)
    && (forall key :: key in t.source ==> FromExecution(printable, t.stack, key, t.source[key]))
  }

  lemma StepOrders<V>(s: State<V>, e: Event<V>)
    requires Inv(s) && OneAfterAnother(s.runners)
    ensures OneAfterAnother(Step(s, e).runners)
  {
    if e.Call? {
      CallOrders(s, e.ident);
    }
  }

  lemma CallOrders<V>(s: State<V>, ident: Ident)
    requires Inv(s) && OneAfterAnother(s.runners)
    ensures OneAfterAnother(AfterCall(s, ident).runners)
  {
    if ident !in s.running {
      forall q | 0 <= q < |s.runners| && s.runners[q].ident == ident ensures s.runners[q].phase.Finished? {
        assert !Unfinished(s.runners, q);
      }
    }
  }

  lemma MoveOrders<V>(printable: CodePoint -> bool, s: Stack<V>, e: StackEvent<V>)
    requires Inv(s.reducer) && OneAfterAnother(s.reducer.runners)
    ensures OneAfterAnother(Move(printable, s, e).reducer.runners)
  {
    if Possible(s, e) {
      match e
      case Inside(event) => StepOrders(s.reducer, event);
      case Proceed(c) => CallOrders(s.reducer, FlightKey(printable, s.callers[c].request));
      case Abandon(c) =>
        if s.callers[c].place.Joined? { StepOrders(s.reducer, Cancel(s.callers[c].place.waiter)); }
      case _ =>
    }
  }

  lemma ReducerStepGrows<V>(s: Stack<V>, t: Stack<V>, e: Event<V>)
    requires Inv(s.reducer) && t.reducer == Step(s.reducer, e) && t.jobs == s.jobs && t.foreign == s.foreign
    ensures Grows(s, t)
  {
    StepExtends(s.reducer, e);
  }

  lemma ProceedGrows<V>(printable: CodePoint -> bool, s: Stack<V>, c: nat)
    requires Inv(s.reducer) && Possible(s, Proceed(c))
    ensures Grows(s, Move(printable, s, Proceed(c)))
  {
    CallExtends(s.reducer, FlightKey(printable, s.callers[c].request));
  }

  lemma MoveGrows<V>(printable: CodePoint -> bool, s: Stack<V>, e: StackEvent<V>)
    requires StackInv(printable, s)
    ensures Grows(s, Move(printable, s, e))
  {
    if Possible(s, e) {
      match e
      case Inside(event) => ReducerStepGrows(s, Move(printable, s, e), event);
      case Proceed(c) => ProceedGrows(printable, s, c);
      case Abandon(c) =>
        if s.callers[c].place.Joined? {
          ReducerStepGrows(s, Move(printable, s, e), Cancel(s.callers[c].place.waiter));
        }
      case _ =>
    }
  }

  lemma FromExecutionStays<V>(printable: CodePoint -> bool, s: Stack<V>, t: Stack<V>, key: Str, r: nat)
    requires FromExecution(printable, s, key, r) && Grows(s, t) && key in t.cache && t.cache[key] == s.cache[key]
    ensures FromExecution(printable, t, key, r)
  {
    var request :| CacheKey(printable, request) == key && Executed(s, r, request, Value(s.cache[key]));
    ExecutedStays(s, t, r, request, Value(s.cache[key]));
  }

  /** What an event leaves of another key's entry. */
  lemma EntryUntouched<V>(printable: CodePoint -> bool, t: Traced<V>, e: StackEvent<V>, key: Str)
    requires key in t.source && key in t.stack.cache && key in SourceAfter(printable, t, e)
    requires !(Possible(t.stack, e) && e.Write? && CacheKey(printable, t.stack.callers[e.caller].request) == key)
    ensures SourceAfter(printable, t, e)[key] == t.source[key]
    ensures key in Move(printable, t.stack, e).cache && Move(printable, t.stack, e).cache[key] == t.stack.cache[key]
  {
  }

  lemma WriteIsFromExecution<V>(printable: CodePoint -> bool, t: Traced<V>, c: nat)
    requires StackInv(printable, t.stack) && Possible(t.stack, Write(c))
    requires Grows(t.stack, Move(printable, t.stack, Write(c)))
    ensures
      var u, key := Next(printable, t, Write(c)), CacheKey(printable, t.stack.callers[c].request);
      key in u.source && FromExecution(printable, u.stack, key, u.source[key])
  {
    var caller := t.stack.callers[c];
    assert Placed(printable, t.stack, caller);
    ExecutedStays(t.stack, Move(printable, t.stack, Write(c)), caller.place.from, caller.request,
                  Value(caller.place.value));
  }

  lemma NextKeeps<V>(printable: CodePoint -> bool, t: Traced<V>, e: StackEvent<V>)
    requires TraceInv(printable, t)
    ensures TraceInv(printable, Next(printable, t, e))
  {
    var s, u := t.stack, Next(printable, t, e);
    MoveKeeps(printable, s, e);
    MoveOrders(printable, s, e);
    MoveGrows(printable, s, e);
    forall key | key in u.source ensures FromExecution(printable, u.stack, key, u.source[key]) {
      if Possible(s, e) && e.Write? && CacheKey(printable, s.callers[e.caller].request) == key {
        WriteIsFromExecution(printable, t, e.caller);
      } else {
        EntryUntouched(printable, t, e, key);
        FromExecutionStays(printable, s, u.stack, key, t.source[key]);
      }
    }
  }

  lemma {:induction false} FollowKeeps<V>(printable: CodePoint -> bool, t: Traced<V>, es: seq<StackEvent<V>>)
    requires TraceInv(printable, t)
    ensures TraceInv(printable, Follow(printable, t, es))
  {
    if es != [] {
      FollowKeeps(printable, t, es[..|es| - 1]);
      NextKeeps(printable, Follow(printable, t, es[..|es| - 1]), es[|es| - 1]);
    }
  }

  lemma StartHolds<V>(printable: CodePoint -> bool)
    ensures TraceInv(printable, Start<V>())
  {
    InitHolds<V>();
  }

  // ---- writes that go back ----

  /** The write about to happen would put the value of an earlier execution of the request over that
      of a later one. */
  predicate GoesBack<V>(printable: CodePoint -> bool, t: Traced<V>, c: nat) {
    && Possible(t.stack, Write(c))
    && var key := CacheKey(printable, t.stack.callers[c].request);
    && key in t.source && t.source[key] > t.stack.callers[c].place.from
  }

  /** A write of the value of the request's latest execution never goes back. */
  lemma LatestWriteIsSafe<V>(printable: CodePoint -> bool, t: Traced<V>, c: nat)
    requires TraceInv(printable, t) && Possible(t.stack, Write(c))
    requires forall q :: t.stack.callers[c].place.from < q < |t.stack.reducer.runners| ==>
               t.stack.reducer.runners[q].ident != FlightKey(printable, t.stack.callers[c].request)
    ensures !GoesBack(printable, t, c)
  {
    var s, request := t.stack, t.stack.callers[c].request;
    var key := CacheKey(printable, request);
    if key in t.source {
      var other :| CacheKey(printable, other) == key && Executed(s, t.source[key], other, Value(s.cache[key]));
      CacheKeyInjective(printable, other, request);
      assert s.reducer.runners[t.source[key]].ident == FlightKey(printable, request);
    }
  }

  // ---- when a run never goes back ----

  /** Event i of the run writes the value of execution q under the key. */
  ghost predicate WritesAt<V>(printable: CodePoint -> bool, es: seq<StackEvent<V>>, i: nat, key: Str, q: nat) {
    && i < |es| && es[i].Write?
    && var s := Follow(printable, Start(), es[..i]).stack;
    && Possible(s, es[i])
    && CacheKey(printable, s.callers[es[i].caller].request) == key && s.callers[es[i].caller].place.from == q
  }

  predicate Clears<V>(printable: CodePoint -> bool, e: StackEvent<V>, key: Str) {
    (e.Expire? && e.key == key) || (e.WriteElsewhere? && CacheKey(printable, e.entry.request) == key)
  }

  /** No event from i on, before j, expires the entry or replaces it from outside. */
  predicate Uncleared<V>(printable: CodePoint -> bool, es: seq<StackEvent<V>>, i: nat, j: nat, key: Str) {
    forall m :: i <= m < j && m < |es| ==> !Clears(printable, es[m], key)
  }

  /** Between two clearings of a key the executions are written in the order in which they ran. */
  ghost predicate InOrder<V>(printable: CodePoint -> bool, es: seq<StackEvent<V>>) {
    forall i: nat, j: nat, key, q: nat, r: nat ::
      (&& i < j && WritesAt(printable, es, i, key, q) && WritesAt(printable, es, j, key, r)
       && Uncleared(printable, es, i, j, key)) ==> q <= r
  }

  ghost predicate NeverGoesBack<V>(printable: CodePoint -> bool, es: seq<StackEvent<V>>) {
    forall j {:trigger es[j]} :: 0 <= j < |es| && es[j].Write? ==>
      !GoesBack(printable, Follow(printable, Start(), es[..j]), es[j].caller)
  }

  lemma PrefixWrites<V>(printable: CodePoint -> bool, es: seq<StackEvent<V>>, n: nat, i: nat, key: Str, q: nat)
    requires i < n <= |es|
    ensures WritesAt(printable, es[..n], i, key, q) <==> WritesAt(printable, es, i, key, q)
  {
    assert es[..n][..i] == es[..i];
  }

  predicate WritesKey<V>(printable: CodePoint -> bool, s: Stack<V>, e: StackEvent<V>, key: Str) {
    e.Write? && Possible(s, e) && CacheKey(printable, s.callers[e.caller].request) == key
  }

  /** What one event does to the source of a key. */
  lemma SourceStep<V>(printable: CodePoint -> bool, t: Traced<V>, e: StackEvent<V>, key: Str)
    requires key in t.source ==> key in t.stack.cache
    ensures
      var after := SourceAfter(printable, t, e);
      if WritesKey(printable, t.stack, e, key) then key in after && after[key] == t.stack.callers[e.caller].place.from
      else if Clears(printable, e, key) then key !in after
      else (key in after <==> key in t.source) && (key in after ==> after[key] == t.source[key])
  {
  }

  lemma SourceIsCached<V>(printable: CodePoint -> bool, es: seq<StackEvent<V>>, key: Str)
    ensures
      var t := Follow(printable, Start<V>(), es);
      key in t.source ==> key in t.stack.cache
  {
    StartHolds<V>(printable);
    FollowKeeps(printable, Start<V>(), es);
  }

  /** An entry's source is its last write, since which nothing cleared it. */
  lemma {:induction false} SourceIsWrite<V>(printable: CodePoint -> bool, es: seq<StackEvent<V>>, key: Str)
    returns (i: nat)
    requires key in Follow(printable, Start<V>(), es).source
    ensures WritesAt(printable, es, i, key, Follow(printable, Start<V>(), es).source[key])
    ensures Uncleared(printable, es, i, |es|, key)
  {
    assert es != [];
    var n := |es| - 1;
    var t, e := Follow(printable, Start<V>(), es[..n]), es[n];
    SourceIsCached(printable, es[..n], key);
    SourceStep(printable, t, e, key);
    if WritesKey(printable, t.stack, e, key) {
      i := n;
    } else {
      i := SourceIsWrite(printable, es[..n], key);
      PrefixWrites(printable, es, n, i, key, t.source[key]);
      StillUncleared(printable, es, i, key);
    }
  }

  lemma StillUncleared<V>(printable: CodePoint -> bool, es: seq<StackEvent<V>>, i: nat, key: Str)
    requires es != [] && Uncleared(printable, es[..|es| - 1], i, |es| - 1, key)
    requires !Clears(printable, es[|es| - 1], key)
    ensures Uncleared(printable, es, i, |es|, key)
  {
    forall m | i <= m < |es| ensures !Clears(printable, es[m], key) {
      if m < |es| - 1 { assert es[..|es| - 1][m] == es[m]; }
    }
  }

  lemma NeverBackInit<V>(printable: CodePoint -> bool, es: seq<StackEvent<V>>, n: nat)
    requires NeverGoesBack(printable, es) && n <= |es|
    ensures NeverGoesBack(printable, es[..n])
  {
    forall j | 0 <= j < n && es[..n][j].Write?
      ensures !GoesBack(printable, Follow(printable, Start(), es[..n][..j]), es[..n][j].caller)
    {
      assert es[..n][..j] == es[..j] && es[..n][j] == es[j];
    }
  }

  lemma SourceSnoc<V>(printable: CodePoint -> bool, es: seq<StackEvent<V>>)
    requires es != []
    ensures Follow(printable, Start<V>(), es).source
         == SourceAfter(printable, Follow(printable, Start<V>(), es[..|es| - 1]), es[|es| - 1])
  {
  }

  /** An event that neither clears the key nor goes back leaves it a source no earlier. */
  lemma SourceGrows<V>(printable: CodePoint -> bool, t: Traced<V>, e: StackEvent<V>, key: Str)
    requires key in t.source && key in t.stack.cache && !Clears(printable, e, key)
    requires e.Write? ==> !GoesBack(printable, t, e.caller)
    ensures
      var after := SourceAfter(printable, t, e);
      key in after && after[key] >= t.source[key]
  {
    SourceStep(printable, t, e, key);
  }

  /** The key's entry comes from execution q or a later one. */
  ghost predicate SourceFrom<V>(printable: CodePoint -> bool, es: seq<StackEvent<V>>, key: Str, q: nat) {
    var source := Follow(printable, Start<V>(), es).source;
    key in source && source[key] >= q
  }

  lemma LastWrite<V>(printable: CodePoint -> bool, es: seq<StackEvent<V>>, key: Str, q: nat)
    requires es != [] && WritesAt(printable, es, |es| - 1, key, q)
    ensures SourceFrom(printable, es, key, q)
  {
    var n := |es| - 1;
    SourceSnoc(printable, es);
    SourceIsCached(printable, es[..n], key);
    SourceStep(printable, Follow(printable, Start<V>(), es[..n]), es[n], key);
  }

  lemma StaysOnce<V>(printable: CodePoint -> bool, es: seq<StackEvent<V>>, key: Str, q: nat)
    requires es != [] && NeverGoesBack(printable, es) && !Clears(printable, es[|es| - 1], key)
    requires SourceFrom(printable, es[..|es| - 1], key, q)
    ensures SourceFrom(printable, es, key, q)
  {
    var n := |es| - 1;
    var t := Follow(printable, Start<V>(), es[..n]);
    SourceSnoc(printable, es);
    SourceIsCached(printable, es[..n], key);
    assert es[n].Write? ==> !GoesBack(printable, t, es[n].caller);
    SourceGrows(printable, t, es[n], key);
  }

  lemma StaysNext<V>(printable: CodePoint -> bool, es: seq<StackEvent<V>>, n: nat, key: Str, q: nat)
    requires n < |es| && NeverGoesBack(printable, es) && !Clears(printable, es[n], key)
    requires SourceFrom(printable, es[..n], key, q)
    ensures SourceFrom(printable, es[..n + 1], key, q)
  {
    NeverBackInit(printable, es, n + 1);
    assert es[..n + 1][..n] == es[..n];
    StaysOnce(printable, es[..n + 1], key, q);
  }

  lemma WrittenNext<V>(printable: CodePoint -> bool, es: seq<StackEvent<V>>, i: nat, key: Str, q: nat)
    requires WritesAt(printable, es, i, key, q)
    ensures i < |es| && SourceFrom(printable, es[..i + 1], key, q)
  {
    PrefixWrites(printable, es, i + 1, i, key, q);
    LastWrite(printable, es[..i + 1], key, q);
  }

  /** As long as no write goes back, a written execution stays the source until a later one. */
  lemma {:induction false} SourceStays<V>(
      printable: CodePoint -> bool, es: seq<StackEvent<V>>, i: nat, n: nat, key: Str, q: nat)
    requires NeverGoesBack(printable, es) && i <= n <= |es| && SourceFrom(printable, es[..i], key, q)
    requires Uncleared(printable, es, i, n, key)
    ensures SourceFrom(printable, es[..n], key, q)
    decreases n
  {
    if i < n {
      SourceStays(printable, es, i, n - 1, key, q);
      StaysNext(printable, es, n - 1, key, q);
    }
  }

  /** A run never goes back exactly when, between two clearings of a key, it writes the executions in the
      order in which they ran. */
  lemma NeverBackExactly<V>(printable: CodePoint -> bool, es: seq<StackEvent<V>>)
    ensures NeverGoesBack(printable, es) <==> InOrder(printable, es)
  {
    if NeverGoesBack(printable, es) {
      forall i: nat, j: nat, key, q: nat, r: nat |
        i < j && WritesAt(printable, es, i, key, q) && WritesAt(printable, es, j, key, r)
        && Uncleared(printable, es, i, j, key)
        ensures q <= r
      {
        OrderedPair(printable, es, i, j, key, q, r);
      }
    }
    if InOrder(printable, es) {
      forall j | 0 <= j < |es| && es[j].Write?
        ensures !GoesBack(printable, Follow(printable, Start(), es[..j]), es[j].caller)
      {
        WriteInOrder(printable, es, j);
      }
    }
  }

  lemma OrderedPair<V>(
      printable: CodePoint -> bool, es: seq<StackEvent<V>>, i: nat, j: nat, key: Str, q: nat, r: nat)
    requires NeverGoesBack(printable, es) && i < j
    requires WritesAt(printable, es, i, key, q) && WritesAt(printable, es, j, key, r)
    requires Uncleared(printable, es, i, j, key)
    ensures q <= r
  {
    WrittenNext(printable, es, i, key, q);
    SourceStays(printable, es, i + 1, j, key, q);
    assert !GoesBack(printable, Follow(printable, Start(), es[..j]), es[j].caller);
  }

  lemma WriteInOrder<V>(printable: CodePoint -> bool, es: seq<StackEvent<V>>, j: nat)
    requires InOrder(printable, es) && j < |es| && es[j].Write?
    ensures !GoesBack(printable, Follow(printable, Start(), es[..j]), es[j].caller)
  {
    var t, c := Follow(printable, Start<V>(), es[..j]), es[j].caller;
    if GoesBack(printable, t, c) {
      var key := CacheKey(printable, t.stack.callers[c].request);
      var i := SourceIsWrite(printable, es[..j], key);
      PrefixWrites(printable, es, j, i, key, t.source[key]);
      forall m | i <= m < j ensures !Clears(printable, es[m], key) {
        assert es[..j][m] == es[m];
      }
      assert WritesAt(printable, es, j, key, t.stack.callers[c].place.from);
      assert false;
    }
  }

  // ---- a pending write can always be overtaken ----

  lemma InFlight<V>(s: State<V>, ident: Ident)
    requires Inv(s)
    ensures
      var t := AfterCall(s, ident);
      && |t.waiters| == |s.waiters| + 1 && t.waiters[|s.waiters|].wait.NotStarted?
      && Unfinished(t.runners, t.waiters[|s.waiters|].future)
      && t.runners[t.waiters[|s.waiters|].future].ident == ident
  {
  }

  lemma {:induction false} RunCancelsNone<V>(s: State<V>, es: seq<Event<V>>)
    requires forall e :: e in es ==> !e.Cancel?
    ensures NoneCancelled(s.waiters, Run(s, es).waiters)
  {
    if es != [] {
      var init := es[..|es| - 1];
      assert forall e :: e in init ==> e in es;
      RunCancelsNone(s, init);
      assert es[|es| - 1] in es;
      StepCancelsNone(Run(s, init), es[|es| - 1]);
    }
  }

  /** The reducer can always be run until a waiter has the value v of the execution it waits for. */
  lemma WaiterServed<V>(s: State<V>, w: nat, v: V) returns (es: seq<Event<V>>)
    requires Inv(s) && w < |s.waiters| && s.waiters[w].wait.NotStarted? && Unfinished(s.runners, s.waiters[w].future)
    ensures IsRun(s, es) && (forall e :: e in es ==> !e.Call? && !e.Cancel?)
    ensures
      var t := Run(s, es);
      && Inv(t) && Extends(s, t) && w < |t.waiters| && t.waiters[w] == Waiter(s.waiters[w].future, Returned(Value(v)))
  {
    var f := s.waiters[w].future;
    es := Drains(s, n => Value(v));
    var t := Run(s, es);
    assert forall e :: e in es ==> Internal(e, n => Value(v));
    RunKeeps(s, es);
    RunExtends(s, es);
    RunCancelsNone(s, es);
    QuiescentWaiter(t, w);
    FinishedOnce(s, es, f);
    assert Served(t.waiters[w].wait, w, t.futures[f], t.ready);
    var j :| ResolvedOnce(es, j, f, t.futures[f].outcome);
    assert es[j] in es;
  }

  function Insides<V>(es: seq<Event<V>>): (r: seq<StackEvent<V>>)
    ensures |r| == |es| && forall i :: 0 <= i < |es| ==> r[i] == Inside(es[i])
  {
    seq(|es|, i requires 0 <= i < |es| => Inside(es[i]))
  }

  lemma {:induction false} FollowInside<V>(printable: CodePoint -> bool, t: Traced<V>, es: seq<Event<V>>)
    requires IsRun(t.stack.reducer, es) && forall e :: e in es ==> !e.Call? && !e.Cancel?
    ensures Follow(printable, t, Insides(es))
         == Traced(t.stack.(reducer := Run(t.stack.reducer, es)), t.source)
  {
    if es != [] {
      var init := es[..|es| - 1];
      assert forall e :: e in init ==> e in es;
      FollowInside(printable, t, init);
      assert Insides(es)[..|es| - 1] == Insides(init);
      assert es[|es| - 1] in es;
    }
  }

  /** The stack once the key's entry has expired and a new caller of the request has missed. */
  function Missed<V>(printable: CodePoint -> bool, t: Traced<V>, request: Request): Traced<V> {
    var s, key := t.stack, CacheKey(printable, request);
    Traced(Stack(s.cache - {key}, AfterCall(s.reducer, FlightKey(printable, request)),
                 s.callers + [Caller(request, Joined(|s.reducer.waiters|))], s.jobs + [request], s.foreign),
           t.source - {key})
  }

  lemma Expired<V>(printable: CodePoint -> bool, t: Traced<V>, key: Str)
    requires key in t.source ==> key in t.stack.cache
    ensures Next(printable, t, Expire(key)) == Traced(t.stack.(cache := t.stack.cache - {key}), t.source - {key})
  {
    if key !in t.stack.cache {
      assert t.stack.cache - {key} == t.stack.cache && t.source - {key} == t.source;
    }
  }

  function WithCaller<V>(t: Traced<V>, caller: Caller<V>): Traced<V> {
    t.(stack := t.stack.(callers := t.stack.callers + [caller]))
  }

  lemma LookedUp<V>(printable: CodePoint -> bool, t: Traced<V>, request: Request)
    requires CacheKey(printable, request) !in t.stack.cache
    ensures Next(printable, t, Arrive(request)) == WithCaller(t, Caller(request, Asking))
    ensures Next(printable, WithCaller(t, Caller(request, Asking)), Lookup(|t.stack.callers|))
         == WithCaller(t, Caller(request, Read(None)))
  {
    var cs := t.stack.callers;
    assert (cs + [Caller(request, Asking)])[|cs| := Caller(request, Read(None))] == cs + [Caller(request, Read(None))];
  }

  lemma MissProceeds<V>(printable: CodePoint -> bool, t: Traced<V>, request: Request)
    ensures
      var asked := WithCaller(t, Caller(request, Read(None)));
      var joined := WithCaller(t, Caller(request, Joined(|t.stack.reducer.waiters|)));
      Next(printable, asked, Proceed(|t.stack.callers|)) ==
        joined.(stack := joined.stack.(
          reducer := AfterCall(t.stack.reducer, FlightKey(printable, request)), jobs := t.stack.jobs + [request]))
  {
    var cs, place := t.stack.callers, Joined(|t.stack.reducer.waiters|);
    assert (cs + [Caller(request, Read(None))])[|cs| := Caller(request, place)] == cs + [Caller(request, place)];
  }

  lemma FollowSnoc<V>(printable: CodePoint -> bool, t: Traced<V>, es: seq<StackEvent<V>>, e: StackEvent<V>)
    ensures Follow(printable, t, es + [e]) == Next(printable, Follow(printable, t, es), e)
  {
    assert (es + [e])[..|es|] == es;
  }

  lemma NewMiss<V>(printable: CodePoint -> bool, t: Traced<V>, request: Request) returns (es: seq<StackEvent<V>>)
    requires CacheKey(printable, request) in t.source ==> CacheKey(printable, request) in t.stack.cache
    ensures Follow(printable, t, es) == Missed(printable, t, request)
  {
    var key, c := CacheKey(printable, request), |t.stack.callers|;
    var cleared := Traced(t.stack.(cache := t.stack.cache - {key}), t.source - {key});
    FollowOne(printable, t, Expire(key));
    Expired(printable, t, key);
    LookedUp(printable, cleared, request);
    MissProceeds(printable, cleared, request);
    FollowSnoc(printable, t, [Expire(key)], Arrive(request));
    FollowSnoc(printable, t, [Expire(key)] + [Arrive(request)], Lookup(c));
    FollowSnoc(printable, t, [Expire(key)] + [Arrive(request)] + [Lookup(c)], Proceed(c));
    es := [Expire(key)] + [Arrive(request)] + [Lookup(c)] + [Proceed(c)];
  }

  /** A new caller of the request misses and its execution ends with v; nothing else changes. */
  lemma NewMissServed<V>(printable: CodePoint -> bool, t: Traced<V>, request: Request, v: V)
    returns (es: seq<StackEvent<V>>, served: State<V>)
    requires TraceInv(printable, t)
    ensures
      var missed := Missed(printable, t, request);
      && Follow(printable, t, es) == missed.(stack := missed.stack.(reducer := served))
      && |t.stack.reducer.waiters| < |missed.stack.reducer.waiters| && |t.stack.reducer.waiters| < |served.waiters|
      && served.waiters[|t.stack.reducer.waiters|]
         == Waiter(missed.stack.reducer.waiters[|t.stack.reducer.waiters|].future, Returned(Value(v)))
  {
    var s, missed := t.stack, Missed(printable, t, request);
    var miss := NewMiss(printable, t, request);
    CallKeeps(s.reducer, FlightKey(printable, request));
    InFlight(s.reducer, FlightKey(printable, request));
    var run := WaiterServed(missed.stack.reducer, |s.reducer.waiters|, v);
    FollowInside(printable, missed, run);
    FollowConcat(printable, t, miss, Insides(run));
    es := miss + Insides(run);
    served := Run(missed.stack.reducer, run);
  }

  /** A caller whose waiter has returned stores the value of its execution. */
  lemma NewWrite<V>(printable: CodePoint -> bool, t: Traced<V>, c: nat, v: V)
    requires Possible(t.stack, Collect(c))
    requires t.stack.reducer.waiters[t.stack.callers[c].place.waiter].wait == Returned(Value(v))
    ensures
      var key, f := CacheKey(printable, t.stack.callers[c].request),
                    t.stack.reducer.waiters[t.stack.callers[c].place.waiter].future;
      var collected := Next(printable, t, Collect(c));
      var u := Next(printable, collected, Write(c));
      && collected.stack.callers == At(t.stack, c, Storing(v, f, false)).callers
      && u.source == t.source[key := f] && u.stack.cache == t.stack.cache[key := v]
      && u.stack.callers == At(t.stack, c, Storing(v, f, true)).callers
  {
  }

  lemma WriterFinished<V>(printable: CodePoint -> bool, s: Stack<V>, a: nat)
    requires StackInv(printable, s) && Possible(s, Write(a))
    ensures
      var from := s.callers[a].place.from;
      && from < |s.reducer.runners| && s.reducer.runners[from].phase.Finished?
      && s.reducer.runners[from].ident == FlightKey(printable, s.callers[a].request)
  {
    assert Placed(printable, s, s.callers[a]);
    assert !Unfinished(s.reducer.runners, s.callers[a].place.from);
  }

  /** The execution a new call joins or starts is later than every finished one of its ident. */
  lemma JoinsLater<V>(s: State<V>, ident: Ident, r: nat)
    requires Inv(s) && OneAfterAnother(s.runners)
    requires r < |s.runners| && s.runners[r].phase.Finished? && s.runners[r].ident == ident
    ensures
      var called := AfterCall(s, ident);
      |s.waiters| < |called.waiters| && called.waiters[|s.waiters|].future > r
  {
    InFlight(s, ident);
    CallOrders(s, ident);
    FinishedStays(s, ident, r);
  }

  lemma FinishedStays<V>(s: State<V>, ident: Ident, r: nat)
    requires r < |s.runners|
    ensures r < |AfterCall(s, ident).runners| && AfterCall(s, ident).runners[r] == s.runners[r]
  {
  }

  lemma UpdateAgain<K, V>(m: map<K, V>, key: K, v: V)
    ensures (m - {key})[key := v] == m[key := v]
  {
  }

  lemma PlacedLast<V>(cs: seq<Caller<V>>, a: Caller<V>, b: Caller<V>)
    ensures (cs + [a])[|cs| := b] == cs + [b]
  {
  }

  /** The execution a call of the request would wait for. */
  function JoinedBy<V>(printable: CodePoint -> bool, s: Stack<V>, request: Request): nat {
    var waiters := AfterCall(s.reducer, FlightKey(printable, request)).waiters;
    if |s.reducer.waiters| < |waiters| then waiters[|s.reducer.waiters|].future else 0
  }

  /** A new caller of the request misses, its execution ends with x, it collects and writes. */
  lemma NewMissWritten<V>(printable: CodePoint -> bool, t: Traced<V>, request: Request, x: V)
    returns (es: seq<StackEvent<V>>)
    requires TraceInv(printable, t)
    ensures
      var u, f := Follow(printable, t, es), JoinedBy(printable, t.stack, request);
      && u.stack.callers == t.stack.callers + [Caller(request, Storing(x, f, true))]
      && u.source == t.source[CacheKey(printable, request) := f]
      && u.stack.cache == t.stack.cache[CacheKey(printable, request) := x]
  {
    var b, f := |t.stack.callers|, JoinedBy(printable, t.stack, request);
    var before, served := NewMissServed(printable, t, request, x);
    NewWrite(printable, Follow(printable, t, before), b, x);
    FollowSnoc(printable, t, before, Collect(b));
    FollowSnoc(printable, t, before + [Collect(b)], Write(b));
    var joined := Caller(request, Joined(|t.stack.reducer.waiters|));
    PlacedLast(t.stack.callers, joined, Caller(request, Storing(x, f, true)));
    UpdateAgain(t.stack.cache, CacheKey(printable, request), x);
    UpdateAgain(t.source, CacheKey(printable, request), f);
    es := before + [Collect(b)] + [Write(b)];
  }

  /** However a caller's write came to be pending, the others can go on so that it puts the value of its
      execution over the value x of a later one: the entry expires, another caller of the request
      misses, its execution ends with x, it collects and writes. */
  lemma PendingWriteCanGoBack<V>(printable: CodePoint -> bool, t: Traced<V>, a: nat, x: V)
    returns (es: seq<StackEvent<V>>)
    requires TraceInv(printable, t) && Possible(t.stack, Write(a))
    ensures
      var u := Follow(printable, t, es);
      && GoesBack(printable, u, a) && u.stack.callers[a] == t.stack.callers[a]
      && u.stack.cache == t.stack.cache[CacheKey(printable, t.stack.callers[a].request) := x]
  {
    var request := t.stack.callers[a].request;
    WriterFinished(printable, t.stack, a);
    JoinsLater(t.stack.reducer, FlightKey(printable, request), t.stack.callers[a].place.from);
    es := NewMissWritten(printable, t, request, x);
  }

  /** So it happens: a run from the empty stack after which the cache holds the value of the later of two
      executions, and the pending write of the first caller puts the older value back. */
  lemma OlderValueWins<V>(printable: CodePoint -> bool, request: Request, older: V, newer: V)
    returns (es: seq<StackEvent<V>>)
    ensures
      var t, key := Follow(printable, Start<V>(), es), CacheKey(printable, request);
      && GoesBack(printable, t, 0)
      && key in t.stack.cache && t.stack.cache[key] == newer
      && Next(printable, t, Write(0)).stack.cache[key] == older
  {
    StartHolds<V>(printable);
    var first, served := NewMissServed(printable, Start<V>(), request, older);
    var t := Follow(printable, Start<V>(), first);
    NewWrite(printable, t, 0, older);
    FollowSnoc(printable, Start<V>(), first, Collect(0));
    FollowKeeps(printable, Start<V>(), first + [Collect(0)]);
    var second := PendingWriteCanGoBack(printable, Next(printable, t, Collect(0)), 0, newer);
    FollowConcat(printable, Start<V>(), first + [Collect(0)], second);
    es := first + [Collect(0)] + second;
  }

  /** Once a caller's write is done it never writes again. */
  lemma {:induction false} DoneStaysDone<V>(
      printable: CodePoint -> bool, t: Traced<V>, a: nat, es: seq<StackEvent<V>>)
    requires a < |t.stack.callers| && Done(t.stack.callers[a].place)
    ensures a < |Follow(printable, t, es).stack.callers| && Done(Follow(printable, t, es).stack.callers[a].place)
  {
    if es != [] {
      DoneStaysDone(printable, t, a, es[..|es| - 1]);
    }
  }

  predicate Done<V>(place: Place<V>) {
    (place.Storing? && place.written) || Over(place)
  }

  ghost predicate CanGoBack<V(!new)>(printable: CodePoint -> bool, t: Traced<V>, a: nat) {
    exists es :: GoesBack(printable, Follow(printable, t, es), a)
  }

  lemma WrittenIsSafe<V(!new)>(printable: CodePoint -> bool, t: Traced<V>, a: nat)
    requires a < |t.stack.callers| && Done(t.stack.callers[a].place)
    ensures !CanGoBack(printable, t, a)
  {
    if CanGoBack(printable, t, a) {
      var es :| GoesBack(printable, Follow(printable, t, es), a);
      DoneStaysDone(printable, t, a, es);
      assert false;
    }
  }

  /** So a caller that has collected a value is safe from going back exactly when its write is done: no
      schedule short of writing at once rules it out. */
  lemma SafeOnlyWhenWritten<V(!new)>(printable: CodePoint -> bool, t: Traced<V>, a: nat)
    requires TraceInv(printable, t) && a < |t.stack.callers| && t.stack.callers[a].place.Storing?
    ensures CanGoBack(printable, t, a) <==> !t.stack.callers[a].place.written
  {
    if t.stack.callers[a].place.written {
      WrittenIsSafe(printable, t, a);
    } else {
      var es := PendingWriteCanGoBack(printable, t, a, t.stack.callers[a].place.value);
    }
  }
}
