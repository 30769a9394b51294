/** The cached client as the object it is: the code between two awaits of `cached`'s wrapper, over
    the shared cache and the reducer object. */
module CachedClientObject {
  import opened Prelude
  import opened PyRepr
  import opened Reducer
  import opened AsyncReducerObject
  import opened CachedStack

  class CachedOpenLibraryClient<V> {
    const printable: CodePoint -> bool
    const reducer: AsyncReducer<V>
    var cache: map<Str, V>
    var callers: seq<Caller<V>>
    var jobs: seq<Request>
    ghost var foreign: seq<Entry<V>>

    ghost function Snapshot(): Stack<V>
      reads this, reducer
    {
      Stack(cache, reducer.Snapshot(), callers, jobs, foreign)
    }

    ghost predicate Valid()
      reads this, reducer
    {
      StackInv(printable, Snapshot())
    }

    constructor (printable: CodePoint -> bool)
      ensures Valid() && Snapshot() == Empty() && this.printable == printable && fresh(reducer)
    {
      this.printable := printable;
      reducer := new AsyncReducer<V>();
      cache, callers, jobs, foreign := map[], [], [], [];
    }

    /** A caller starts a search. */
    method Arrive(request: Request) returns (caller: nat)
      requires Valid()
      modifies this
      ensures Valid() && Snapshot() == Move(printable, old(Snapshot()), CachedStack.Arrive(request))
      ensures caller == |old(callers)|
    {
      ArriveKeeps(printable, Snapshot(), request);
      caller := |callers|;
      callers := callers + [Caller(request, Asking)];
    }

    /** The cache answers the caller's read under its key. */
    method Lookup(c: nat)
      requires Valid() && Possible(Snapshot(), CachedStack.Lookup(c))
      modifies this
      ensures Valid() && Snapshot() == Move(printable, old(Snapshot()), CachedStack.Lookup(c))
    {
      LookupKeeps(printable, Snapshot(), c);
      var key := CacheKey(printable, callers[c].request);
      var cachedResult := if key in cache then Some(cache[key]) else None;
      SetPlace(c, Read(cachedResult));
    }

    /** Return a hit, or call the reduced client. */
    method Proceed(c: nat)
      requires Valid() && Possible(Snapshot(), CachedStack.Proceed(c))
      modifies this, reducer
      ensures Valid() && Snapshot() == Move(printable, old(Snapshot()), CachedStack.Proceed(c))
    {
      match callers[c].place.hit {
        case Some(v) => SetPlace(c, Answered(v));
        case None =>
          var request := callers[c].request;
          jobs := jobs + [request];
          var waiter := reducer.Call(FlightKey(printable, request));
          SetPlace(c, Joined(waiter));
      }
      assert Snapshot() == Move(printable, old(Snapshot()), CachedStack.Proceed(c));
      ProceedKeeps(printable, old(Snapshot()), c);
    }

    /** The reduced call resumes with a value to store, or raises. */
    method Collect(c: nat)
      requires Valid() && Possible(Snapshot(), CachedStack.Collect(c))
      modifies this
      ensures Valid() && Snapshot() == Move(printable, old(Snapshot()), CachedStack.Collect(c))
    {
      CollectKeeps(printable, Snapshot(), c);
      match reducer.waiters[callers[c].place.waiter].wait.outcome {
        case Value(v) => SetPlace(c, Storing(v, reducer.waiters[callers[c].place.waiter].future, false));
        case Raised(error) => SetPlace(c, Failed(error));
      }
    }

    /** The write of the value under the caller's key takes effect. */
    method Write(c: nat)
      requires Valid() && Possible(Snapshot(), CachedStack.Write(c))
      modifies this
      ensures Valid() && Snapshot() == Move(printable, old(Snapshot()), CachedStack.Write(c))
    {
      var value := callers[c].place.value;
      cache := cache[CacheKey(printable, callers[c].request) := value];
      SetPlace(c, Storing(value, callers[c].place.from, true));
      assert Snapshot() == Move(printable, old(Snapshot()), CachedStack.Write(c));
      WriteKeeps(printable, old(Snapshot()), c);
    }

    /** The write is done and the caller gets its value. */
    method Answer(c: nat) returns (value: V)
      requires Valid() && Possible(Snapshot(), CachedStack.Answer(c))
      modifies this
      ensures Valid() && Snapshot() == Move(printable, old(Snapshot()), CachedStack.Answer(c))
      ensures c < |callers| && Produced(Snapshot(), callers[c].request, Value(value))
    {
      AnswerKeeps(printable, Snapshot(), c);
      value := callers[c].place.value;
      SetPlace(c, Answered(value));
      assert Placed(printable, Snapshot(), callers[c]);
    }

    /** Another process sharing the cache writes a result under a request's key. */
    method WriteElsewhere(entry: Entry<V>)
      requires Valid()
      modifies this
      ensures Valid() && Snapshot() == Move(printable, old(Snapshot()), CachedStack.WriteElsewhere(entry))
    {
      ForeignKeeps(printable, Snapshot(), entry);
      cache := cache[CacheKey(printable, entry.request) := entry.value];
      foreign := foreign + [entry];
    }

    /** The caller's task is cancelled at whichever await it is in. */
    method Abandon(c: nat)
      requires Valid() && Possible(Snapshot(), CachedStack.Abandon(c))
      modifies this, reducer
      ensures Valid() && Snapshot() == Move(printable, old(Snapshot()), CachedStack.Abandon(c))
    {
      var place := callers[c].place;
      SetPlace(c, Gone);
      if place.Joined? {
        CancelWaiter(place.waiter);
      }
      assert Snapshot() == Move(printable, old(Snapshot()), CachedStack.Abandon(c));
      AbandonKeeps(printable, old(Snapshot()), c);
    }

    /** Cancelling a waiter that has already ended does nothing. */
    method CancelWaiter(w: nat)
      requires reducer.Valid()
      modifies reducer
      ensures reducer.Snapshot() == Step(old(reducer.Snapshot()), Cancel(w))
    {
      if w < |reducer.waiters| && Cancellable(reducer.waiters[w].wait) {
        reducer.Cancel(w);
      }
    }

    method SetPlace(c: nat, place: Place<V>)
      requires c < |callers|
      modifies this`callers
      ensures callers == old(callers)[c := old(callers)[c].(place := place)]
    {
      callers := callers[c := callers[c].(place := place)];
    }
  }
}
