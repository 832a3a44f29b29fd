/** Package `shutdown`: the graceful-shutdown coordinator. Managers, callbacks
    and the error handler are modelled by scripted results, and what the
    coordinator makes them do is recorded as a trace of events. */
module Shutdown {
  import opened Errors

  /** A `ShutdownCallback`, given by the error its `OnShutdown` returns for each
      manager name; this is exactly the `ShutdownFunc` adapter. */
  datatype ShutdownCallback = ShutdownFunc(f: string -> Option<Error>)
  {
    function OnShutdown(name: string): Option<Error> { f(name) }
  }

  /** A `ShutdownManager`: its name and the scripted results of its three hooks. */
  datatype ShutdownManager = ShutdownManager(
    name: string,
    startResult: Option<Error>,
    shutdownStartResult: Option<Error>,
    shutdownFinishResult: Option<Error>)
  {
    function GetName(): string { name }
  }

  /** An `ErrorHandler` (an `ErrorFunc`), known by an identity of its own. */
  datatype ErrorHandler = ErrorFunc(id: nat)

  /** What the coordinator makes the outside world observe. */
  datatype Event =
    | ManagerStarted(managerIndex: nat)
    | ShutdownStartCalled(manager: string)
    | CallbackInvoked(callbackIndex: nat, manager: string)
    | ShutdownFinishCalled(manager: string)
    | ErrorHandled(handler: ErrorHandler, err: Error)

  /** The events `ReportError(err)` produces: one call of the handler when there
      is both an error and a handler, nothing otherwise. */
  function Reported(handler: Option<ErrorHandler>, err: Option<Error>): (events: seq<Event>)
    ensures |events| <= 1
    ensures |events| == 1 <==> handler.Some? && err.Some?
    ensures |events| == 1 ==> events[0] == ErrorHandled(handler.value, err.value)
  {
    if err.Some? && handler.Some? then [ErrorHandled(handler.value, err.value)] else []
  }

  /** `order` lists each of the indices 0 .. n-1 exactly once. */
  predicate IsPermutation(order: seq<nat>, n: nat)
  {
    && (forall k :: 0 <= k < |order| ==> order[k] < n)
    && (forall i :: 0 <= i < n ==> i in order)
    && (forall k, l :: 0 <= k < l < |order| ==> order[k] != order[l])
  }

  /** The events of one callback task: the call of the callback, then the report of its error. */
  function Dispatch(handler: Option<ErrorHandler>, callbacks: seq<ShutdownCallback>, name: string, i: nat)
    : seq<Event>
    requires i < |callbacks|
  {
    [CallbackInvoked(i, name)] + Reported(handler, callbacks[i].OnShutdown(name))
  }

  /** The events of the callback phase when the tasks happen to run in `order`. */
  function CallbackPhase(handler: Option<ErrorHandler>, callbacks: seq<ShutdownCallback>, name: string, order: seq<nat>)
    : seq<Event>
    requires forall k :: 0 <= k < |order| ==> order[k] < |callbacks|
  {
    if order == [] then []
    else CallbackPhase(handler, callbacks, name, order[..|order| - 1])
         + Dispatch(handler, callbacks, name, order[|order| - 1])
  }

  /** The events of calling one of the manager's hooks and reporting its error. */
  function Hook(handler: Option<ErrorHandler>, call: Event, err: Option<Error>): seq<Event>
  {
    [call] + Reported(handler, err)
  }

  /** The events of `StartShutdown(sm)` when the callback tasks run in `order`. */
  function ShutdownTrace(handler: Option<ErrorHandler>, callbacks: seq<ShutdownCallback>, sm: ShutdownManager,
                         order: seq<nat>): seq<Event>
    requires forall k :: 0 <= k < |order| ==> order[k] < |callbacks|
  {
    Hook(handler, ShutdownStartCalled(sm.name), sm.shutdownStartResult)
    + CallbackPhase(handler, callbacks, sm.name, order)
    + Hook(handler, ShutdownFinishCalled(sm.name), sm.shutdownFinishResult)
  }

  /** The callback indices invoked in a trace, in trace order. */
  function Invoked(events: seq<Event>): seq<nat>
  {
    if events == [] then []
    else Invoked(events[..|events| - 1])
         + (if events[|events| - 1].CallbackInvoked? then [events[|events| - 1].callbackIndex] else [])
  }

  /** The errors handed to an error handler in a trace, in trace order. */
  function Handled(events: seq<Event>): seq<Error>
  {
    if events == [] then []
    else Handled(events[..|events| - 1])
         + (if events[|events| - 1].ErrorHandled? then [events[|events| - 1].err] else [])
  }

  /** The errors the callbacks return when they run in `order`. */
  function Failures(callbacks: seq<ShutdownCallback>, name: string, order: seq<nat>): seq<Error>
    requires forall k :: 0 <= k < |order| ==> order[k] < |callbacks|
  {
    if order == [] then []
    else Failures(callbacks, name, order[..|order| - 1])
         + (var e := callbacks[order[|order| - 1]].OnShutdown(name); if e.Some? then [e.value] else [])
  }

  function Errs(e: Option<Error>): seq<Error>
  {
    if e.Some? then [e.value] else []
  }

  function Count(s: seq<nat>, x: nat): nat
  {
    if s == [] then 0 else Count(s[..|s| - 1], x) + (if s[|s| - 1] == x then 1 else 0)
  }

  lemma {:induction false} InvokedAppend(a: seq<Event>, b: seq<Event>)
    ensures Invoked(a + b) == Invoked(a) + Invoked(b)
  {
    if b == [] {
      assert a + b == a;
    } else {
      var n := |b| - 1;
      var ab := a + b;
      assert ab[..|ab| - 1] == a + b[..n];
      assert ab[|ab| - 1] == b[n];
      InvokedAppend(a, b[..n]);
    }
  }

  lemma {:induction false} HandledAppend(a: seq<Event>, b: seq<Event>)
    ensures Handled(a + b) == Handled(a) + Handled(b)
  {
    if b == [] {
      assert a + b == a;
    } else {
      var n := |b| - 1;
      var ab := a + b;
      assert ab[..|ab| - 1] == a + b[..n];
      assert ab[|ab| - 1] == b[n];
      HandledAppend(a, b[..n]);
    }
  }

  lemma {:induction false} CountOfDistinct(s: seq<nat>, x: nat)
    requires forall k, l :: 0 <= k < l < |s| ==> s[k] != s[l]
    ensures Count(s, x) == if x in s then 1 else 0
  {
    if s != [] {
      var n := |s| - 1;
      CountOfDistinct(s[..n], x);
      assert x in s <==> x in s[..n] || s[n] == x;
      assert s[n] == x ==> x !in s[..n];
    }
  }

  /** Every event is a call of a callback with manager name `name` or a report of an error. */
  predicate CallbackEventsOnly(events: seq<Event>, name: string)
  {
    forall j :: 0 <= j < |events| ==> (events[j].CallbackInvoked? && events[j].manager == name) || events[j].ErrorHandled?
  }

  /** One callback task invokes that callback once and reports at most its error. */
  lemma DispatchShape(handler: Option<ErrorHandler>, callbacks: seq<ShutdownCallback>, name: string, i: nat)
    requires i < |callbacks|
    ensures Invoked(Dispatch(handler, callbacks, name, i)) == [i]
    ensures Handled(Dispatch(handler, callbacks, name, i))
            == if handler.Some? then Errs(callbacks[i].OnShutdown(name)) else []
    ensures CallbackEventsOnly(Dispatch(handler, callbacks, name, i), name)
  {
    var call := [CallbackInvoked(i, name)];
    var rep := Reported(handler, callbacks[i].OnShutdown(name));
    assert call[..0] == [];
    if |rep| == 1 {
      assert rep[..0] == [];
    }
    InvokedAppend(call, rep);
    HandledAppend(call, rep);
  }

  /** The callback phase invokes the callbacks in exactly the order the tasks ran. */
  lemma {:induction false} CallbackPhaseInvokes(handler: Option<ErrorHandler>, callbacks: seq<ShutdownCallback>,
                                                name: string, order: seq<nat>)
    requires forall k :: 0 <= k < |order| ==> order[k] < |callbacks|
    ensures Invoked(CallbackPhase(handler, callbacks, name, order)) == order
  {
    if order != [] {
      var n := |order| - 1;
      CallbackPhaseInvokes(handler, callbacks, name, order[..n]);
      InvokedAppend(CallbackPhase(handler, callbacks, name, order[..n]), Dispatch(handler, callbacks, name, order[n]));
      DispatchShape(handler, callbacks, name, order[n]);
      assert order == order[..n] + [order[n]];
    }
  }

  /** The callback phase hands the callbacks' errors to the handler, if there is one. */
  lemma {:induction false} CallbackPhaseReports(handler: Option<ErrorHandler>, callbacks: seq<ShutdownCallback>,
                                                name: string, order: seq<nat>)
    requires forall k :: 0 <= k < |order| ==> order[k] < |callbacks|
    ensures Handled(CallbackPhase(handler, callbacks, name, order))
            == if handler.Some? then Failures(callbacks, name, order) else []
  {
    if order != [] {
      var n := |order| - 1;
      CallbackPhaseReports(handler, callbacks, name, order[..n]);
      HandledAppend(CallbackPhase(handler, callbacks, name, order[..n]), Dispatch(handler, callbacks, name, order[n]));
      DispatchShape(handler, callbacks, name, order[n]);
    }
  }

  /** The callback phase holds only callback calls with the manager's name and error reports. */
  lemma {:induction false} CallbackPhaseKinds(handler: Option<ErrorHandler>, callbacks: seq<ShutdownCallback>,
                                              name: string, order: seq<nat>)
    requires forall k :: 0 <= k < |order| ==> order[k] < |callbacks|
    ensures CallbackEventsOnly(CallbackPhase(handler, callbacks, name, order), name)
  {
    if order != [] {
      var n := |order| - 1;
      CallbackPhaseKinds(handler, callbacks, name, order[..n]);
      DispatchShape(handler, callbacks, name, order[n]);
      var front := CallbackPhase(handler, callbacks, name, order[..n]);
      var last := Dispatch(handler, callbacks, name, order[n]);
      var whole: seq<Event> := front + last;
      assert CallbackPhase(handler, callbacks, name, order) == whole;
      forall j | 0 <= j < |whole|
        ensures (whole[j].CallbackInvoked? && whole[j].manager == name) || whole[j].ErrorHandled?
      {
        if j < |front| {
          assert whole[j] == front[j];
        } else {
          assert whole[j] == last[j - |front|];
        }
      }
    }
  }

  /** Phase order: `ShutdownStart` comes first, every callback is invoked after it
      and before `ShutdownFinish`, and each hook is called exactly once. */
  lemma ShutdownPhaseOrder(handler: Option<ErrorHandler>, callbacks: seq<ShutdownCallback>, sm: ShutdownManager,
                           order: seq<nat>)
    requires forall k :: 0 <= k < |order| ==> order[k] < |callbacks|
    ensures var t := ShutdownTrace(handler, callbacks, sm, order);
      var f := 1 + |Reported(handler, sm.shutdownStartResult)| + |CallbackPhase(handler, callbacks, sm.name, order)|;
      && f < |t|
      && t[0] == ShutdownStartCalled(sm.name)
      && t[f] == ShutdownFinishCalled(sm.name)
      && (forall j :: 0 < j < |t| ==> !t[j].ShutdownStartCalled?)
      && (forall j :: 0 <= j < |t| && j != f ==> !t[j].ShutdownFinishCalled?)
      && (forall j :: 0 <= j < |t| && t[j].CallbackInvoked? ==> 0 < j < f && t[j].manager == sm.name)
  {
    var rs := Reported(handler, sm.shutdownStartResult);
    var p := CallbackPhase(handler, callbacks, sm.name, order);
    var rf := Reported(handler, sm.shutdownFinishResult);
    var a := Hook(handler, ShutdownStartCalled(sm.name), sm.shutdownStartResult);
    var z := Hook(handler, ShutdownFinishCalled(sm.name), sm.shutdownFinishResult);
    var t := ShutdownTrace(handler, callbacks, sm, order);
    var f := |a| + |p|;
    assert t == (a + p) + z;
    CallbackPhaseKinds(handler, callbacks, sm.name, order);
    forall j | 0 <= j < |t|
      ensures j == 0 <==> t[j].ShutdownStartCalled?
      ensures j == f <==> t[j].ShutdownFinishCalled?
      ensures t[j].CallbackInvoked? ==> 0 < j < f && t[j].manager == sm.name
    {
      if j < |a| {
        assert t[j] == a[j];
        if j > 0 { assert a[j] == rs[j - 1]; }
      } else if j < f {
        assert t[j] == p[j - |a|];
      } else {
        assert t[j] == z[j - f];
        if j > f { assert z[j - f] == rf[j - f - 1]; }
      }
    }
  }

  /** Every registered callback is invoked exactly once, whatever the callbacks
      return, and no other index is invoked. */
  lemma CallbacksInvokedExactlyOnce(handler: Option<ErrorHandler>, callbacks: seq<ShutdownCallback>,
                                    sm: ShutdownManager, order: seq<nat>)
    requires IsPermutation(order, |callbacks|)
    ensures forall i :: 0 <= i < |callbacks| ==> Count(Invoked(ShutdownTrace(handler, callbacks, sm, order)), i) == 1
    ensures forall k :: 0 <= k < |Invoked(ShutdownTrace(handler, callbacks, sm, order))| ==>
      Invoked(ShutdownTrace(handler, callbacks, sm, order))[k] < |callbacks|
  {
    var a := Hook(handler, ShutdownStartCalled(sm.name), sm.shutdownStartResult);
    var p := CallbackPhase(handler, callbacks, sm.name, order);
    var z := Hook(handler, ShutdownFinishCalled(sm.name), sm.shutdownFinishResult);
    InvokedAppend(a + p, z);
    InvokedAppend(a, p);
    CallbackPhaseInvokes(handler, callbacks, sm.name, order);
    HookShape(handler, ShutdownStartCalled(sm.name), sm.shutdownStartResult);
    HookShape(handler, ShutdownFinishCalled(sm.name), sm.shutdownFinishResult);
    assert Invoked(ShutdownTrace(handler, callbacks, sm, order)) == order;
    forall i | 0 <= i < |callbacks|
      ensures Count(order, i) == 1
    {
      CountOfDistinct(order, i);
    }
  }

  /** A hook invokes no callback, and hands its error to the handler if there is one. */
  lemma HookShape(handler: Option<ErrorHandler>, call: Event, err: Option<Error>)
    requires !call.CallbackInvoked? && !call.ErrorHandled?
    ensures Invoked(Hook(handler, call, err)) == []
    ensures Handled(Hook(handler, call, err)) == if handler.Some? then Errs(err) else []
  {
    var rep := Reported(handler, err);
    assert [call][..0] == [];
    if |rep| == 1 {
      assert rep[..0] == [];
    }
    InvokedAppend([call], rep);
    HandledAppend([call], rep);
  }

  /** With a handler, it receives the errors of `ShutdownStart`, of the callbacks
      (in the order they ran) and of `ShutdownFinish`, and nothing else; without
      one, nothing is handled. */
  lemma ShutdownErrorsReported(handler: Option<ErrorHandler>, callbacks: seq<ShutdownCallback>,
                               sm: ShutdownManager, order: seq<nat>)
    requires forall k :: 0 <= k < |order| ==> order[k] < |callbacks|
    ensures Handled(ShutdownTrace(handler, callbacks, sm, order))
            == if handler.Some? then
                 Errs(sm.shutdownStartResult) + Failures(callbacks, sm.name, order) + Errs(sm.shutdownFinishResult)
               else []
  {
    var a := Hook(handler, ShutdownStartCalled(sm.name), sm.shutdownStartResult);
    var p := CallbackPhase(handler, callbacks, sm.name, order);
    var z := Hook(handler, ShutdownFinishCalled(sm.name), sm.shutdownFinishResult);
    HandledAppend(a + p, z);
    HandledAppend(a, p);
    CallbackPhaseReports(handler, callbacks, sm.name, order);
    HookShape(handler, ShutdownStartCalled(sm.name), sm.shutdownStartResult);
    HookShape(handler, ShutdownFinishCalled(sm.name), sm.shutdownFinishResult);
  }

  /** The set {0, ..., n-1}. */
  function Indices(n: nat): (r: set<nat>)
    ensures forall i :: i in r <==> 0 <= i < n
  {
    if n == 0 then {} else Indices(n - 1) + {n - 1}
  }

  /** The coordinator `GracefulShutdown`. */
  class GracefulShutdown {
    var callbacks: seq<ShutdownCallback>
    var managers: seq<ShutdownManager>
    var errorHandler: Option<ErrorHandler>

    /** `New`: no callbacks, no managers, no error handler. */
    constructor New()
      ensures callbacks == [] && managers == [] && errorHandler == None
    {
      callbacks := [];
      managers := [];
      errorHandler := None;
    }

    /** `Start`: starts the managers in registration order and stops at the first
        one that fails, returning its error. */
    method Start() returns (err: Option<Error>, events: seq<Event>)
      ensures |events| <= |managers|
      ensures forall k :: 0 <= k < |events| ==> events[k] == ManagerStarted(k)
      ensures err.None? ==> |events| == |managers|
      ensures err.Some? ==> |events| > 0 && err == managers[|events| - 1].startResult
      ensures forall k :: 0 <= k < |events| && (err.Some? ==> k < |events| - 1) ==> managers[k].startResult.None?
    {
      events := [];
      var i := 0;
      while i < |managers|
        invariant 0 <= i <= |managers|
        invariant |events| == i
        invariant forall k :: 0 <= k < i ==> events[k] == ManagerStarted(k)
        invariant forall k :: 0 <= k < i ==> managers[k].startResult.None?
      {
        events := events + [ManagerStarted(i)];
        var result := managers[i].startResult;
        if result.Some? {
          return result, events;
        }
        i := i + 1;
      }
      err := None;
    }

    /** `AddShutdownManager`: appends one manager. */
    method AddShutdownManager(manager: ShutdownManager)
      modifies this
      ensures managers == old(managers) + [manager]
      ensures callbacks == old(callbacks) && errorHandler == old(errorHandler)
    {
      managers := managers + [manager];
    }

    /** `AddShutdownCallback`: appends one callback. */
    method AddShutdownCallback(callback: ShutdownCallback)
      modifies this
      ensures callbacks == old(callbacks) + [callback]
      ensures managers == old(managers) && errorHandler == old(errorHandler)
    {
      callbacks := callbacks + [callback];
    }

    /** `SetErrorHandler`: replaces the handler; passing nil removes it. */
    method SetErrorHandler(handler: Option<ErrorHandler>)
      modifies this
      ensures errorHandler == handler
      ensures callbacks == old(callbacks) && managers == old(managers)
    {
      errorHandler := handler;
    }

    /** `ReportError`: forwards a non-nil error to the handler, if one is set. */
    method ReportError(err: Option<Error>) returns (events: seq<Event>)
      ensures events == Reported(errorHandler, err)
    {
      events := [];
      if err.Some? && errorHandler.Some? {
        events := [ErrorHandled(errorHandler.value, err.value)];
      }
    }

    /** `StartShutdown(sm)`: calls `ShutdownStart`, runs every callback task once
        in an order left to the scheduler (`order`; the Go code runs each callback
        in its own goroutine), waits for them, then calls `ShutdownFinish`; every error goes
        through `ReportError` and none is returned. */
    method StartShutdown(sm: ShutdownManager) returns (order: seq<nat>, events: seq<Event>)
      ensures IsPermutation(order, |callbacks|)
      ensures events == ShutdownTrace(errorHandler, callbacks, sm, order)
    {
      var reported := ReportError(sm.shutdownStartResult);
      events := [ShutdownStartCalled(sm.GetName())] + reported;

      var name := sm.GetName();
      var pending := Indices(|callbacks|);
      var phase: seq<Event> := [];
      order := [];
      while pending != {}
        invariant forall k :: 0 <= k < |order| ==> order[k] < |callbacks| && order[k] !in pending
        invariant forall i :: i in pending ==> i < |callbacks|
        invariant forall i :: 0 <= i < |callbacks| ==> i in order || i in pending
        invariant forall k, l :: 0 <= k < l < |order| ==> order[k] != order[l]
        invariant phase == CallbackPhase(errorHandler, callbacks, name, order)
        decreases pending
      {
        var i :| i in pending;
        reported := ReportError(callbacks[i].OnShutdown(name));
        phase := phase + ([CallbackInvoked(i, name)] + reported);
        order := order + [i];
        pending := pending - {i};
      }

      reported := ReportError(sm.shutdownFinishResult);
      events := events + phase + ([ShutdownFinishCalled(name)] + reported);
    }
  }

  /** With exactly one failing callback, only its error is among the callback failures. */
  lemma {:induction false} SingleFailure(callbacks: seq<ShutdownCallback>, name: string, order: seq<nat>,
                                         f: nat, e: Error)
    requires forall k :: 0 <= k < |order| ==> order[k] < |callbacks|
    requires forall k, l :: 0 <= k < l < |order| ==> order[k] != order[l]
    requires f < |callbacks| && callbacks[f].OnShutdown(name) == Some(e)
    requires forall i :: 0 <= i < |callbacks| && i != f ==> callbacks[i].OnShutdown(name).None?
    ensures Failures(callbacks, name, order) == if f in order then [e] else []
  {
    if order != [] {
      var n := |order| - 1;
      SingleFailure(callbacks, name, order[..n], f, e);
      assert f in order <==> f in order[..n] || order[n] == f;
      assert order[n] == f ==> f !in order[..n];
    }
  }

  /** With a handler, hooks that succeed and exactly one failing callback, the
      handler receives exactly that callback's error. */
  lemma OneFailingCallback(handler: ErrorHandler, callbacks: seq<ShutdownCallback>, sm: ShutdownManager,
                           order: seq<nat>, f: nat, e: Error)
    requires IsPermutation(order, |callbacks|)
    requires sm.shutdownStartResult.None? && sm.shutdownFinishResult.None?
    requires f < |callbacks| && callbacks[f].OnShutdown(sm.name) == Some(e)
    requires forall i :: 0 <= i < |callbacks| && i != f ==> callbacks[i].OnShutdown(sm.name).None?
    ensures Handled(ShutdownTrace(Some(handler), callbacks, sm, order)) == [e]
  {
    ShutdownErrorsReported(Some(handler), callbacks, sm, order);
    SingleFailure(callbacks, sm.name, order, f, e);
  }

  /** A coordinator with callbacks ok, failing, ok and an error handler: after
      `StartShutdown`, each callback has run once and the handler has received
      exactly the one callback error. */
  method FailingCallbackIsSurfaced(name: string, e: Error) returns (invoked: seq<nat>, handled: seq<Error>)
    ensures forall i :: 0 <= i < 3 ==> Count(invoked, i) == 1
    ensures handled == [e]
  {
    var gs := new GracefulShutdown.New();
    var ok := ShutdownFunc((n: string) => None);
    var failing := ShutdownFunc((n: string) => Some(e));
    gs.AddShutdownCallback(ok);
    gs.AddShutdownCallback(failing);
    gs.AddShutdownCallback(ok);
    gs.SetErrorHandler(Some(ErrorFunc(0)));
    var sm := ShutdownManager(name, None, None, None);
    var order, events := gs.StartShutdown(sm);
    var callbacks := gs.callbacks;
    assert callbacks == [ok, failing, ok];
    assert forall i :: 0 <= i < |callbacks| && i != 1 ==> callbacks[i].OnShutdown(name).None?;
    CallbacksInvokedExactlyOnce(Some(ErrorFunc(0)), callbacks, sm, order);
    OneFailingCallback(ErrorFunc(0), callbacks, sm, order, 1, e);
    assert events == ShutdownTrace(Some(ErrorFunc(0)), callbacks, sm, order);
    invoked := Invoked(events);
    handled := Handled(events);
    assert forall i :: 0 <= i < |callbacks| ==> Count(invoked, i) == 1;
  }
}
