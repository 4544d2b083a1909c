# Publisher/subscriber fan-out dispatch, modelled in Dafny

The system is a small typed publish/subscribe primitive. A `Publisher<T>` has one
event, `onChange`. Its invocation list starts with a single no-op delegate, and
`+=` adds handlers at the end. `Raise` builds one `MyEventArgs<T>`. It then calls
every handler of a snapshot of the invocation list, in order, passing the
publisher as sender and that one argument. When a handler throws, `Raise` catches
the exception, adds it to a local list and goes on with the next handler. After
the loop, if the list is non-empty, it throws one `AggregateException` holding the
list. Otherwise it returns normally.

The model is in two files:

- `publisher.dfy`, module `PublisherSubscriberDesigns`. It holds the datatypes
  `MyEventArgs<T>` (a one-field value), `Exception`, `Outcome` (how one handler
  call ends), `RaiseResult` (`Normal`, or `AggregateException(innerExceptions)`)
  and `Invocation` (one recorded handler call).
  - A handler, `EventHandler<T>`, is a function from the event argument to an `Outcome`.
  - The specification functions are `Caught` (what the catch block adds for one call),
    `Failures` (the exception list after the loop) and `Dispatch` (how `Raise` ends).
  - The class `Publisher<T>` has the field `onChange: seq<EventHandler<T>>`. Its
    methods are the constructor, `Subscribe` (the `+=`) and `Raise`. `Raise` is a
    `while` loop over a snapshot of `onChange`, proved against `Dispatch`.
  - Lemmas state what the dispatch promises.
- `driver.dfy`, module `Driver`. It holds the registration pattern of `Main` as a
  scenario, a raise on a fresh publisher, a handler subscribed twice, and two
  raises in a row.

`DynamicInvoke` does not let the handler's own exception escape unchanged. It
wraps that exception as the inner exception of a `TargetInvocationException`,
so the catch block collects the wrapper. The model keeps this: each entry of the
aggregate is `TargetInvocationException(e)`, where `e` is what the handler threw.

`Raise` takes the event value as a parameter. The source code builds it instead,
by casting a fresh `object` to `T` (see "Left out").

## Model

| member | source | states |
|---|---|---|
| `PublisherSubscriberDesigns.Publisher.constructor` | PublisherSubscriberDesigns/PublisherSubscriberDesigns/Program.cs:24 | A new publisher's invocation list is exactly the one no-op delegate `NoOp`, which returns normally for every argument. |
| `PublisherSubscriberDesigns.Publisher.Subscribe` | PublisherSubscriberDesigns/PublisherSubscriberDesigns/Program.cs:57-58 | `+=` appends the handler at the end of the invocation list. The earlier handlers stay, in their order. |
| `PublisherSubscriberDesigns.Publisher.Raise` | PublisherSubscriberDesigns/PublisherSubscriberDesigns/Program.cs:26-46 | Every handler of the list is called exactly once, in list order. Each call gets this publisher as sender and the one argument built from the value. The result is `Dispatch` of the list and that argument. There is no `modifies` clause, so the list is left unchanged. |
| `PublisherSubscriberDesigns.Failures` | PublisherSubscriberDesigns/PublisherSubscriberDesigns/Program.cs:30-41 | The exception list the loop builds holds at most one exception per handler. |
| `PublisherSubscriberDesigns.FailuresAppend` | PublisherSubscriberDesigns/PublisherSubscriberDesigns/Program.cs:34-41 | The loop goes on after a throw. Running list `a` and then list `b` collects the exceptions of `a` followed by those of `b`. |
| `PublisherSubscriberDesigns.FailuresAtPositions` | PublisherSubscriberDesigns/PublisherSubscriberDesigns/Program.cs:34-41 | The k-th collected exception is the wrapped exception of the k-th handler that threw. The number of collected exceptions equals the number of handlers that threw. |
| `PublisherSubscriberDesigns.FailedPositionsExact` | PublisherSubscriberDesigns/PublisherSubscriberDesigns/Program.cs:38-39 | The positions of the failing handlers are strictly increasing. A handler throws if and only if its position is listed. |
| `PublisherSubscriberDesigns.FailureCount` | PublisherSubscriberDesigns/PublisherSubscriberDesigns/Program.cs:30-39 | The length of the exception list equals the size of the set of positions whose handler throws. |
| `PublisherSubscriberDesigns.AggregateIffSomeHandlerThrew` | PublisherSubscriberDesigns/PublisherSubscriberDesigns/Program.cs:43-45 | `Raise` throws the aggregate if and only if some handler threw. It returns normally if and only if every handler returned. |
| `PublisherSubscriberDesigns.DuplicateSubscription` | PublisherSubscriberDesigns/PublisherSubscriberDesigns/Program.cs:34 | A handler registered twice at the end is called twice. Its outcome is collected once per registration, after the exceptions of the earlier handlers. |
| `PublisherSubscriberDesigns.InitialNoOpIsInvisible` | PublisherSubscriberDesigns/PublisherSubscriberDesigns/Program.cs:24 | The initial no-op never throws. Putting it in front of any list does not change how `Raise` ends. |
| `Driver.MainScenario` | PublisherSubscriberDesigns/PublisherSubscriberDesigns/Program.cs:55-60 | `Main`'s list is [no-op, printer, thrower]. All three handlers are called, in order, with the same argument. Only the third throws. The result is an aggregate holding exactly one exception: the wrapper of the `new Exception()` thrown by the third handler. |
| `Driver.RaiseFresh` | PublisherSubscriberDesigns/PublisherSubscriberDesigns/Program.cs:24-46 | With no subscribers, `Raise` calls only the no-op, and that call returns. `Raise` then returns normally. |
| `Driver.SubscribeTwice` | PublisherSubscriberDesigns/PublisherSubscriberDesigns/Program.cs:24-60 | A handler subscribed twice to a new publisher is called twice, at positions 1 and 2, with the same argument and the same outcome. The raise ends as for the list of the two registrations alone, because the initial no-op is invisible. |
| `Driver.RaiseTwice` | PublisherSubscriberDesigns/PublisherSubscriberDesigns/Program.cs:34 | Two raises in a row on the same publisher with the same value make the same calls, in the same order, with the same outcomes. Both end the same way, as `Dispatch` of the list. |

## Left out

- Handler side effects are not modelled. This covers `Console.WriteLine` in `Main`'s first subscriber and `Console.ReadLine` at the end of `Main`. A handler is modelled as a pure function from the argument to "returns" or "throws e". So in this model, raising twice with the same value always gives the same outcomes.
- Handlers that never return are not modelled: a handler is a total function, so every call ends. In C#, a handler that hangs blocks `Raise` forever, and the handlers after it are never called.
- The sender is not passed to the handler functions. Dafny does not allow a function stored in an object's field to take an object as its argument. `Raise` records the sender of each call in its `calls` trace instead. So a handler whose outcome depends on which publisher raised the event is not modelled.
- The payload cast is not modelled. The source builds the value as `(T)new Object { }`, which throws an `InvalidCastException` before any handler runs unless `T` is `object`. This is a run-time type check that Dafny cannot express. `Raise` takes the value as a parameter instead.
- `MyEventArgs.Value` has a public setter, so a handler could change the shared argument for the handlers after it. Handlers here cannot change anything, so the argument is an immutable value.
- Reflection is not modelled: `DynamicInvoke`'s parameter checks and .NET exception identity. Exceptions are values, and the aggregate is the ordered sequence of those values.
- Unsubscribing (`-=`) and handlers that change the list during a raise are not modelled, because the source has neither. The snapshot that `Raise` iterates over is kept as a local copy of the list.
- Concurrency is not modelled: the source is single-threaded.
