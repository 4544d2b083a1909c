/**
 The handler-registration pattern of `Program.Main`, and what the publisher's
 contracts let a caller conclude about a fresh publisher and about raising the
 event twice. The console output of the handlers is not modelled.
 */
module Driver {
  import opened PublisherSubscriberDesigns

  /** The message of an exception built with `new Exception()`. */
  const DefaultMessage := "Exception of type 'System.Exception' was thrown."

  /** The first subscriber of `Main`: it writes a line and returns. */
  function PrintValue<T>(e: MyEventArgs<T>): (r: Outcome)
  {
    Returned
  }

  /** The second subscriber of `Main`: it always throws `new Exception()`. */
  function AlwaysThrow<T>(e: MyEventArgs<T>): (r: Outcome)
  {
    Threw(Exception(DefaultMessage))
  }

  /** `Main`: a new publisher, the two subscribers, one raise. All three
      handlers (the initial no-op included) are called, in order, and the
      aggregate holds exactly one exception, the wrapped one of the third. */
  method MainScenario<T>(value: T) returns (result: RaiseResult, ghost calls: seq<Invocation<T>>)
    ensures |calls| == 3
    ensures forall k :: 0 <= k < 3 ==> calls[k].position == k && calls[k].args == MyEventArgs(value)
    ensures calls[0].outcome == Returned && calls[1].outcome == Returned
    ensures calls[2].outcome == Threw(Exception(DefaultMessage))
    ensures result == AggregateException([TargetInvocationException(Exception(DefaultMessage))])
  {
    var p := new Publisher<T>();
    p.Subscribe(PrintValue);
    p.Subscribe(AlwaysThrow);
    result, calls := p.Raise(value);
    ghost var hs, args := p.onChange, MyEventArgs(value);
    assert hs[..1][..0] == [];
    assert hs[..2][..1] == hs[..1];
    assert Failures(hs[..2], args) == [];
  }

  /** A publisher nobody subscribed to calls only its no-op and returns
      normally. */
  method RaiseFresh<T>(value: T) returns (result: RaiseResult, ghost calls: seq<Invocation<T>>)
    ensures |calls| == 1 && calls[0].outcome == Returned
    ensures result == Normal
  {
    var p := new Publisher<T>();
    result, calls := p.Raise(value);
    assert p.onChange[..0] == [];
  }

  /** Registering the same handler twice on a new publisher: it is called
      twice, at the second and third positions, with the same argument and
      the same outcome, and the raise ends as for the list of the two
      registrations alone. */
  method SubscribeTwice<T>(h: EventHandler<T>, value: T) returns (result: RaiseResult, ghost calls: seq<Invocation<T>>)
    ensures |calls| == 3 && calls[0].outcome == Returned
    ensures calls[1].position == 1 && calls[2].position == 2
    ensures calls[1].args == calls[2].args == MyEventArgs(value)
    ensures calls[1].outcome == calls[2].outcome == h(MyEventArgs(value))
    ensures result == Dispatch([h, h], MyEventArgs(value))
  {
    var p := new Publisher<T>();
    p.Subscribe(h);
    p.Subscribe(h);
    result, calls := p.Raise(value);
    assert p.onChange == [NoOp] + [h, h];
    InitialNoOpIsInvisible([h, h], MyEventArgs(value));
  }

  /** Raising twice on an unchanged list makes the same calls in the same
      order with the same outcomes, and ends the same way both times. */
  method RaiseTwice<T>(p: Publisher<T>, value: T)
    returns (first: RaiseResult, second: RaiseResult, ghost firstCalls: seq<Invocation<T>>, ghost secondCalls: seq<Invocation<T>>)
    ensures first == second && firstCalls == secondCalls
    ensures first == Dispatch(p.onChange, MyEventArgs(value))
  {
    first, firstCalls := p.Raise(value);
    second, secondCalls := p.Raise(value);
  }
}
