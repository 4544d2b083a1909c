/**
 A publisher with one event, `onChange`, whose handlers are called in
 registration order by `Raise`. A handler that throws does not stop the
 dispatch: its exception is collected, and after every handler has run the
 collected exceptions are thrown together as one aggregate.
 */
module PublisherSubscriberDesigns {

  /** An exception object. `DynamicInvoke` does not let the exception thrown by
      the called handler escape as it is: it wraps it as the inner exception of
      a `TargetInvocationException`, and that wrapper is what `Raise` catches. */
  datatype Exception =
    | Exception(message: string)
    | TargetInvocationException(inner: Exception)

  /** How one call of a handler ends: it returns, or it throws. */
  datatype Outcome = Returned | Threw(exception: Exception)

  /** The event argument: a carrier for one value of the generic type. */
  datatype MyEventArgs<T> = MyEventArgs(Value: T)

  /** A subscriber callback. Its side effects are not modelled; what the model
      keeps is whether the call with the given argument returns or throws. */
  type EventHandler<!T> = MyEventArgs<T> -> Outcome

  /** How `Raise` ends: it returns normally, or it throws one aggregate that
      holds the collected exceptions in the order they were caught. */
  datatype RaiseResult = Normal | AggregateException(innerExceptions: seq<Exception>)

  /** One handler call made by `Raise`: the position of the handler in the
      invocation list, the sender and argument it was given, and how it ended. */
  datatype Invocation<T> = Invocation(position: nat, sender: Publisher<T>, args: MyEventArgs<T>, outcome: Outcome)

  /** The delegate the event is initialised with: it does nothing. */
  function NoOp<T>(args: MyEventArgs<T>): (r: Outcome)
  {
    Returned
  }

  /** What the catch block adds to the exception list after one handler call. */
  function Caught(o: Outcome): (r: seq<Exception>)
  {
    match o
    case Returned => []
    case Threw(e) => [TargetInvocationException(e)]
  }

  /** The exception list after the dispatch loop has gone through `hs`. */
  function Failures<T>(hs: seq<EventHandler<T>>, args: MyEventArgs<T>): (r: seq<Exception>)
    ensures |r| <= |hs|
  {
    if hs == [] then []
    else Failures(hs[..|hs| - 1], args) + Caught(hs[|hs| - 1](args))
  }

  /** How `Raise` ends for the invocation list `hs` and the argument `args`:
      the aggregate is thrown when the exception list is not empty. */
  function Dispatch<T>(hs: seq<EventHandler<T>>, args: MyEventArgs<T>): (r: RaiseResult)
  {
    var errs := Failures(hs, args);
    if |errs| > 0 then AggregateException(errs) else Normal
  }

  /** The positions of the handlers in `hs` that throw, in list order. */
  ghost function FailedPositions<T>(hs: seq<EventHandler<T>>, args: MyEventArgs<T>): (ps: seq<nat>)
    ensures forall k :: 0 <= k < |ps| ==> ps[k] < |hs|
  {
    if hs == [] then []
    else FailedPositions(hs[..|hs| - 1], args) + (if hs[|hs| - 1](args).Threw? then [|hs| - 1] else [])
  }

  /** The set of positions of the handlers in `hs` that throw. */
  ghost function FailedSet<T>(hs: seq<EventHandler<T>>, args: MyEventArgs<T>): (s: set<nat>)
  {
    set i: nat | i < |hs| && hs[i](args).Threw?
  }

  /** Running two lists one after the other collects the exceptions of the
      first list followed by those of the second. */
  lemma {:induction false} FailuresAppend<T>(a: seq<EventHandler<T>>, b: seq<EventHandler<T>>, args: MyEventArgs<T>)
    ensures Failures(a + b, args) == Failures(a, args) + Failures(b, args)
  {
    if b == [] {
      assert a + b == a;
    } else {
      var b' := b[..|b| - 1];
      assert (a + b)[..|a + b| - 1] == a + b';
      FailuresAppend(a, b', args);
    }
  }

  /** The k-th collected exception is the wrapped exception of the k-th
      handler that threw. */
  lemma {:induction false} FailuresAtPositions<T>(hs: seq<EventHandler<T>>, args: MyEventArgs<T>)
    ensures |Failures(hs, args)| == |FailedPositions(hs, args)|
    ensures forall k :: 0 <= k < |Failures(hs, args)| ==>
      var p := FailedPositions(hs, args)[k];
      hs[p](args).Threw? && Failures(hs, args)[k] == TargetInvocationException(hs[p](args).exception)
  {
    if hs != [] {
      var init := hs[..|hs| - 1];
      FailuresAtPositions(init, args);
      var ps := FailedPositions(hs, args);
      forall k | 0 <= k < |Failures(init, args)|
        ensures ps[k] < |init| && hs[ps[k]] == init[ps[k]]
      {
      }
    }
  }

  /** The failed positions are increasing and are exactly the positions of the
      handlers that throw: none is left out, none is listed twice. */
  lemma {:induction false} FailedPositionsExact<T>(hs: seq<EventHandler<T>>, args: MyEventArgs<T>)
    ensures forall j, k :: 0 <= j < k < |FailedPositions(hs, args)| ==>
      FailedPositions(hs, args)[j] < FailedPositions(hs, args)[k]
    ensures forall i :: 0 <= i < |hs| ==> (hs[i](args).Threw? <==> i in FailedPositions(hs, args))
  {
    if hs != [] {
      var init := hs[..|hs| - 1];
      FailedPositionsExact(init, args);
      forall i | 0 <= i < |init|
        ensures hs[i] == init[i]
      {
      }
    }
  }

  /** As many exceptions are collected as there are handlers that throw. */
  lemma {:induction false} FailureCount<T>(hs: seq<EventHandler<T>>, args: MyEventArgs<T>)
    ensures |Failures(hs, args)| == |FailedSet(hs, args)|
  {
    if hs != [] {
      var n := |hs| - 1;
      var init := hs[..n];
      FailureCount(init, args);
      var s := FailedSet(init, args);
      var last: set<nat> := if hs[n](args).Threw? then {n} else {};
      assert FailedSet(hs, args) == s + last by {
        forall i: nat | i < n
          ensures hs[i] == init[i]
        {
        }
      }
      assert n !in s;
    }
  }

  /** `Raise` throws the aggregate if and only if at least one handler throws,
      and it returns normally if and only if every handler returns. */
  lemma {:induction false} AggregateIffSomeHandlerThrew<T>(hs: seq<EventHandler<T>>, args: MyEventArgs<T>)
    ensures Dispatch(hs, args).AggregateException? <==> exists i :: 0 <= i < |hs| && hs[i](args).Threw?
    ensures Dispatch(hs, args) == Normal <==> forall i :: 0 <= i < |hs| ==> hs[i](args).Returned?
  {
    FailuresAtPositions(hs, args);
    FailedPositionsExact(hs, args);
    if Dispatch(hs, args).AggregateException? {
      var p := FailedPositions(hs, args)[0];
      assert hs[p](args).Threw?;
    } else {
      assert FailedPositions(hs, args) == [];
    }
  }

  /** A handler registered twice is called twice: its outcome is recorded
      once for each registration, after the exceptions of the earlier
      handlers. */
  lemma {:induction false} DuplicateSubscription<T>(hs: seq<EventHandler<T>>, h: EventHandler<T>, args: MyEventArgs<T>)
    ensures Failures(hs + [h, h], args) == Failures(hs, args) + Caught(h(args)) + Caught(h(args))
  {
    FailuresAppend(hs, [h, h], args);
    assert [h, h][..1] == [h];
    assert [h][..0] == [];
  }

  /** The initial no-op delegate never throws, so for a publisher that started
      with it, `Raise` ends as if only the subscribed handlers were listed. */
  lemma {:induction false} InitialNoOpIsInvisible<T>(hs: seq<EventHandler<T>>, args: MyEventArgs<T>)
    ensures Dispatch([NoOp] + hs, args) == Dispatch(hs, args)
  {
    FailuresAppend([NoOp], hs, args);
    assert [NoOp<T>][..0] == [];
  }

  class Publisher<T> {
    /** The invocation list of the `onChange` event, in registration order. */
    var onChange: seq<EventHandler<T>>

    /** A new publisher: the event holds the one initial no-op delegate. */
    constructor ()
      ensures onChange == [NoOp]
      ensures forall args :: onChange[0](args) == Returned
    {
      onChange := [NoOp];
    }

    /** `onChange += handler`: the handler is added at the end of the list. */
    method Subscribe(handler: EventHandler<T>)
      modifies this
      ensures onChange == old(onChange) + [handler]
    {
      onChange := onChange + [handler];
    }

    /** Raises the event with the argument built from `value`. Every handler of
        the invocation list is called once, in order, with this publisher as
        sender and the one argument; `calls` records those calls. The result
        is the aggregate of the caught exceptions when there are any. `Raise`
        changes nothing: no `modifies` clause. */
    method Raise(value: T) returns (result: RaiseResult, ghost calls: seq<Invocation<T>>)
      ensures result == Dispatch(onChange, MyEventArgs(value))
      ensures |calls| == |onChange|
      ensures forall k :: 0 <= k < |calls| ==>
        calls[k] == Invocation(k, this, MyEventArgs(value), onChange[k](MyEventArgs(value)))
    {
      var eventArgs := MyEventArgs(value);
      var exceptions: seq<Exception> := [];
      var handlers := onChange;
      calls := [];
      var i := 0;
      while i < |handlers|
        invariant 0 <= i <= |handlers|
        invariant exceptions == Failures(handlers[..i], eventArgs)
        invariant |calls| == i
        invariant forall k :: 0 <= k < i ==> calls[k] == Invocation(k, this, eventArgs, handlers[k](eventArgs))
      {
        var outcome := handlers[i](eventArgs);
        calls := calls + [Invocation(i, this, eventArgs, outcome)];
        match outcome {
          case Returned =>
          case Threw(e) =>
            exceptions := exceptions + [TargetInvocationException(e)];
        }
        assert handlers[..i + 1][..i] == handlers[..i];
        i := i + 1;
      }
      assert handlers[..i] == handlers;
      if |exceptions| > 0 {
        result := AggregateException(exceptions);
      } else {
        result := Normal;
      }
    }
  }
}
