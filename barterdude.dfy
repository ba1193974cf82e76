/** The per-message composition that `consume_amqp` wraps around a user
    handler: dispatch `before_consume` to the monitor, run the handler, then
    dispatch `on_fail` (and re-raise) or `on_success`. The monitor's dispatch
    calls and the handler are opaque: each either completes or raises, and
    which one it does is an input. */
module BarterDude {
  import opened Messages

  /** How an awaited call ends. */
  datatype Outcome = Completed | Raised(error: Error)

  /** One call made while processing a message. */
  datatype Call =
    | BeforeConsume(message: RabbitMQMessage)              // monitor.dispatch_before_consume
    | Handle(message: RabbitMQMessage)                     // the user handler f
    | OnFail(message: RabbitMQMessage, error: Error)       // monitor.dispatch_on_fail
    | OnSuccess(message: RabbitMQMessage)                  // monitor.dispatch_on_success

  /** How each of the four calls would end if it were made. */
  datatype Phases = Phases(beforeConsume: Outcome, handler: Outcome, onFail: Outcome, onSuccess: Outcome)

  /** The calls made, in order, and how `process_message` itself ends. */
  datatype Run = Run(trace: seq<Call>, result: Outcome)

  /** Whether `except Exception` catches an outcome of the handler. */
  predicate Caught(outcome: Outcome)
  {
    outcome.Raised? && outcome.error.Exception?
  }

  /** `process_message(message)`. It always begins with the before-consume
      dispatch, and it completes exactly when the before-consume dispatch, the
      handler and the on-success dispatch all complete. */
  function ProcessMessage(message: RabbitMQMessage, phases: Phases): (r: Run)
    ensures |r.trace| >= 1 && r.trace[0] == BeforeConsume(message)
    ensures r.result.Completed? <==>
              phases.beforeConsume.Completed? && phases.handler.Completed? && phases.onSuccess.Completed?
  {
    if phases.beforeConsume.Raised? then
      Run([BeforeConsume(message)], phases.beforeConsume)
    else if Caught(phases.handler) then
      var error := phases.handler.error;
      Run([BeforeConsume(message), Handle(message), OnFail(message, error)],
          if phases.onFail.Raised? then phases.onFail else Raised(error))
    else if phases.handler.Raised? then
      Run([BeforeConsume(message), Handle(message)], phases.handler)
    else
      Run([BeforeConsume(message), Handle(message), OnSuccess(message)], phases.onSuccess)
  }

  /** Whether a call is one of the two completion dispatches. */
  predicate IsCompletion(call: Call)
  {
    call.OnFail? || call.OnSuccess?
  }

  /** The number of completion dispatches in a trace. */
  function Completions(trace: seq<Call>): (n: nat)
  {
    if trace == [] then 0
    else (if IsCompletion(trace[0]) then 1 else 0) + Completions(trace[1..])
  }

  /** The handler is called only after the before-consume dispatch has
      completed, and then right after it. */
  lemma HandlerAfterBeforeConsume(message: RabbitMQMessage, phases: Phases)
    ensures var r := ProcessMessage(message, phases);
            forall i :: 0 <= i < |r.trace| && r.trace[i].Handle? ==>
              i == 1 && r.trace[0] == BeforeConsume(message) && phases.beforeConsume.Completed?
  {
  }

  /** If the before-consume dispatch raises, nothing else is called and its
      error is what `process_message` raises. */
  lemma BeforeConsumeRaises(message: RabbitMQMessage, phases: Phases)
    requires phases.beforeConsume.Raised?
    ensures var r := ProcessMessage(message, phases);
            && r.trace == [BeforeConsume(message)]
            && r.result == phases.beforeConsume
  {
  }

  /** If the handler raises an `Exception` `e`, the on-fail dispatch gets the
      same message and the same `e`, the on-success dispatch is not called,
      and `process_message` raises `e` again unless the on-fail dispatch
      raised an error of its own. */
  lemma HandlerRaises(message: RabbitMQMessage, phases: Phases, e: Error)
    requires phases.beforeConsume.Completed? && phases.handler == Raised(e) && e.Exception?
    ensures var r := ProcessMessage(message, phases);
            && r.trace == [BeforeConsume(message), Handle(message), OnFail(message, e)]
            && (forall i :: 0 <= i < |r.trace| ==> !r.trace[i].OnSuccess?)
            && r.result == (if phases.onFail.Completed? then Raised(e) else phases.onFail)
  {
  }

  /** If the handler returns, the on-success dispatch gets the message, the
      on-fail dispatch is not called (not even when on-success raises), and
      `process_message` ends as the on-success dispatch does. */
  lemma HandlerCompletes(message: RabbitMQMessage, phases: Phases)
    requires phases.beforeConsume.Completed? && phases.handler.Completed?
    ensures var r := ProcessMessage(message, phases);
            && r.trace == [BeforeConsume(message), Handle(message), OnSuccess(message)]
            && (forall i :: 0 <= i < |r.trace| ==> !r.trace[i].OnFail?)
            && r.result == phases.onSuccess
  {
  }

  /** An error outside `Exception` raised by the handler is not caught: it
      propagates with neither completion dispatch called. */
  lemma HandlerRaisesUncaught(message: RabbitMQMessage, phases: Phases, e: Error)
    requires phases.beforeConsume.Completed? && phases.handler == Raised(e) && e.BaseException?
    ensures var r := ProcessMessage(message, phases);
            && r.trace == [BeforeConsume(message), Handle(message)]
            && r.result == Raised(e)
  {
  }

  /** Once the handler has run and ended in a way `except Exception` handles
      (it returned or raised an `Exception`), exactly one completion dispatch
      is made; otherwise none is. */
  lemma ExactlyOneCompletion(message: RabbitMQMessage, phases: Phases)
    ensures var r := ProcessMessage(message, phases);
            Completions(r.trace) ==
              if Handle(message) in r.trace && (phases.handler.Completed? || Caught(phases.handler))
              then 1 else 0
  {
    var r := ProcessMessage(message, phases);
    var t := r.trace;
    if |t| == 1 {
      assert Completions(t[1..]) == 0;
    } else if |t| == 2 {
      assert Completions(t[1..]) == Completions(t[2..]);
    } else {
      assert Completions(t[1..]) == Completions(t[2..]) + 0;
      assert Completions(t[2..]) == 1 + Completions(t[3..]);
    }
  }
}
