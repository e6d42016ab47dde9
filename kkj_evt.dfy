/** `kkj.evt.Deferred` as used when jQuery is absent: a deferred that is
    pending until its first `resolve`, keeps the callbacks `then` registers
    while pending, and calls them (and any registered later) with the
    arguments of that first `resolve`. Callbacks are function values; what
    calling one does is not modelled, only that it was called, recorded in
    order in a log of invocations. */
module KkjEvt {
  import opened Js

  /** One call of a callback: which function, with which arguments. */
  datatype Invocation = Invocation(callback: nat, args: seq<JsValue>)

  /** What `then` and `resolve` return: the object they were called on, or
      `undefined`. */
  datatype Returned = ReturnsReceiver | ReturnsUndefined

  /** The closure state of a deferred (`_doneCallbacks`, `_resolved`,
      `_resolvedArgs`) and the callback invocations made so far. */
  datatype DeferredState = DeferredState(
    callbacks: seq<nat>,
    resolved: bool,
    resolvedArgs: seq<JsValue>,
    log: seq<Invocation>)

  const Initial := DeferredState([], false, [], [])

  function StateName(s: DeferredState): string
  {
    if s.resolved then "resolved" else "pending"
  }

  /** The error `then(args...)` throws, if any: the callback must be given,
      must be a function, and must be the only argument. */
  function ThenError(args: seq<JsValue>): Option<JsError>
  {
    var doneCallback := if |args| > 0 then args[0] else Undefined;
    if TypeOf(doneCallback) == "undefined" then Some(Error("doneCallback needs to be specified."))
    else if TypeOf(doneCallback) != "function" then Some(Error("doneCallback needs to of type function."))
    else if |args| > 1 then Some(Error("You may only specify the doneCallback."))
    else None
  }

  /** `then` accepts exactly one argument, a function. */
  lemma ThenAccepts(args: seq<JsValue>)
    ensures ThenError(args).None? <==> |args| == 1 && args[0].Function?
  {
  }

  /** The callbacks invoked, in order, with the same arguments. */
  function Invocations(callbacks: seq<nat>, args: seq<JsValue>): (r: seq<Invocation>)
    ensures |r| == |callbacks|
    ensures forall i :: 0 <= i < |r| ==> r[i] == Invocation(callbacks[i], args)
  {
    seq(|callbacks|, i requires 0 <= i < |callbacks| => Invocation(callbacks[i], args))
  }

  /** The state after `then(args...)`: unchanged when it throws; the callback
      called at once after resolution, queued before it. */
  function ThenStep(s: DeferredState, args: seq<JsValue>): DeferredState
  {
    if ThenError(args).Some? then s
    else if s.resolved then s.(log := s.log + [Invocation(args[0].id, s.resolvedArgs)])
    else s.(callbacks := s.callbacks + [args[0].id])
  }

  /** What `then(args...)` returns or throws. */
  function ThenResult(s: DeferredState, args: seq<JsValue>): Outcome<Returned>
  {
    match ThenError(args)
    case Some(e) => Throws(e)
    case None => if s.resolved then Ok(ReturnsUndefined) else Ok(ReturnsReceiver)
  }

  /** The state after `resolve(args...)`: the first call stores the
      arguments and calls every queued callback; later calls do nothing. */
  function ResolveStep(s: DeferredState, args: seq<JsValue>): DeferredState
  {
    if s.resolved then s
    else s.(resolved := true, resolvedArgs := args, log := s.log + Invocations(s.callbacks, args))
  }

  function ResolveResult(s: DeferredState): Returned
  {
    if s.resolved then ReturnsUndefined else ReturnsReceiver
  }

  /** The members of the promise view. */
  const PromiseMembers: set<string> :=
    {"then", "state", "always", "done", "fail", "isRejected", "isResolved", "pipe", "progress"}

  /** The methods that only throw. */
  datatype Stub = Always | Done | Fail | IsRejected | IsResolved | Notify | NotifyWith
                | Pipe | Progress | Reject | RejectWith

  /** A promise view: some members of the deferred it was made from. */
  datatype PromiseView = PromiseView(deferred: Deferred, members: set<string>)

  class Deferred {
    var callbacks: seq<nat>
    var resolved: bool
    var resolvedArgs: seq<JsValue>
    var log: seq<Invocation>

    function Model(): DeferredState
      reads this
    {
      DeferredState(callbacks, resolved, resolvedArgs, log)
    }

    constructor ()
      ensures Model() == Initial
    {
      callbacks := [];
      resolved := false;
      resolvedArgs := [];
      log := [];
    }

    /** `state()`. */
    function State(): (r: string)
      reads this
      ensures r == "resolved" <==> resolved
      ensures r == "pending" <==> !resolved
    {
      if resolved then "resolved" else "pending"
    }

    /** `then(args...)`. */
    method Then(args: seq<JsValue>) returns (r: Outcome<Returned>)
      modifies this
      ensures Model() == ThenStep(old(Model()), args)
      ensures r == ThenResult(old(Model()), args)
    {
      var doneCallback := if |args| > 0 then args[0] else Undefined;
      if TypeOf(doneCallback) == "undefined" {
        return Throws(Error("doneCallback needs to be specified."));
      }
      if TypeOf(doneCallback) != "function" {
        return Throws(Error("doneCallback needs to of type function."));
      }
      if |args| > 1 {
        return Throws(Error("You may only specify the doneCallback."));
      }
      if resolved {
        log := log + [Invocation(doneCallback.id, resolvedArgs)];
        return Ok(ReturnsUndefined);
      }
      callbacks := callbacks + [doneCallback.id];
      return Ok(ReturnsReceiver);
    }

    /** `resolve(args...)`. */
    method Resolve(args: seq<JsValue>) returns (r: Returned)
      modifies this
      ensures Model() == ResolveStep(old(Model()), args)
      ensures r == ResolveResult(old(Model()))
    {
      if resolved {
        return ReturnsUndefined;
      }
      resolvedArgs := args;
      resolved := true;
      var numberOfCallbacks := |callbacks|;
      var i := 0;
      while i < numberOfCallbacks
        invariant 0 <= i <= numberOfCallbacks == |callbacks|
        invariant callbacks == old(callbacks) && resolved && resolvedArgs == args
        invariant log == old(log) + Invocations(callbacks[..i], args)
      {
        log := log + [Invocation(callbacks[i], args)];
        i := i + 1;
        assert Invocations(callbacks[..i], args) == Invocations(callbacks[..i - 1], args) + [Invocation(callbacks[i - 1], args)];
      }
      assert callbacks[..i] == callbacks;
      return ReturnsReceiver;
    }

    /** `promise(args...)`: a view without `resolve`; no arguments allowed. */
    method Promise(args: seq<JsValue>) returns (r: Outcome<PromiseView>)
      ensures |args| != 0 ==> r == Throws(Error("You may not specify arguments."))
      ensures |args| == 0 ==> r.Ok? && r.value.deferred == this && r.value.members == PromiseMembers
      ensures r.Ok? ==> "resolve" !in r.value.members && "then" in r.value.members && "state" in r.value.members
    {
      if |args| != 0 {
        return Throws(Error("You may not specify arguments."));
      }
      r := Ok(PromiseView(this, PromiseMembers));
    }

    /** A method that is not implemented: it throws whatever it is given
        and changes nothing. */
    method CallStub(stub: Stub, args: seq<JsValue>) returns (r: Outcome<JsValue>)
      ensures r == Throws(Error("Not implemented."))
    {
      return Throws(Error("Not implemented."));
    }
  }

  // ------------------------------------------------------------------
  // Runs of calls

  /** A call of `then` or `resolve` with its arguments. */
  datatype Call = ThenCall(args: seq<JsValue>) | ResolveCall(args: seq<JsValue>)

  function Step(s: DeferredState, c: Call): DeferredState
  {
    match c
    case ThenCall(args) => ThenStep(s, args)
    case ResolveCall(args) => ResolveStep(s, args)
  }

  /** The state after a fresh deferred receives the calls, in order. */
  function Run(calls: seq<Call>): DeferredState
  {
    if calls == [] then Initial else Step(Run(calls[..|calls| - 1]), calls[|calls| - 1])
  }

  /** The callbacks `then` accepted, in the order of the calls. */
  function Registered(calls: seq<Call>): seq<nat>
  {
    if calls == [] then []
    else
      var c := calls[|calls| - 1];
      Registered(calls[..|calls| - 1])
        + (if c.ThenCall? && ThenError(c.args).None? then [c.args[0].id] else [])
  }

  /** The arguments of the first `resolve`, if there was one. */
  function FirstResolve(calls: seq<Call>): Option<seq<JsValue>>
  {
    if calls == [] then None
    else
      match FirstResolve(calls[..|calls| - 1])
      case Some(a) => Some(a)
      case None => if calls[|calls| - 1].ResolveCall? then Some(calls[|calls| - 1].args) else None
  }

  /** Whatever the order of the calls: the deferred is resolved exactly
      when `resolve` has been called; until then no callback runs and the
      accepted callbacks wait in the queue; afterwards every accepted
      callback, whether registered before or after the first `resolve`,
      has been called exactly once, in registration order, with that
      `resolve`'s arguments. */
  lemma {:induction false} RunInvokesEachOnce(calls: seq<Call>)
    ensures Run(calls).resolved <==> FirstResolve(calls).Some?
    ensures FirstResolve(calls).None? ==> Run(calls).log == [] && Run(calls).callbacks == Registered(calls)
    ensures FirstResolve(calls).Some? ==>
      Run(calls).resolvedArgs == FirstResolve(calls).value
      && Run(calls).log == Invocations(Registered(calls), FirstResolve(calls).value)
  {
    if calls != [] {
      var prefix := calls[..|calls| - 1];
      var c := calls[|calls| - 1];
      RunInvokesEachOnce(prefix);
      var s := Run(prefix);
      match c
      case ThenCall(args) =>
        if ThenError(args).None? && s.resolved {
          var a := FirstResolve(prefix).value;
          assert Invocations(Registered(prefix) + [args[0].id], a)
              == Invocations(Registered(prefix), a) + [Invocation(args[0].id, a)];
        }
      case ResolveCall(args) =>
        if !s.resolved {
          assert Run(calls).log == [] + Invocations(Registered(prefix), args);
        }
    }
  }

  /** `state()` reads `pending` until the first `resolve` and `resolved`
      from then on. */
  lemma StateAfterRun(calls: seq<Call>)
    ensures StateName(Run(calls)) == if FirstResolve(calls).Some? then "resolved" else "pending"
  {
    RunInvokesEachOnce(calls);
  }

  /** A second `resolve` changes nothing and calls nothing. */
  lemma ResolveOnce(s: DeferredState, a: seq<JsValue>, b: seq<JsValue>)
    ensures ResolveStep(ResolveStep(s, a), b) == ResolveStep(s, a)
    ensures ResolveResult(ResolveStep(s, a)) == ReturnsUndefined
  {
  }

  /** A rejected `then` leaves the queue and the log as they were. */
  lemma ThenErrorKeepsState(s: DeferredState, args: seq<JsValue>)
    requires ThenError(args).Some?
    ensures ThenStep(s, args) == s && ThenResult(s, args).Throws?
  {
  }
}
