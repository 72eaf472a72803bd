/**
  `ListenAndServe` with `handlePanic`: the receive loop of one session, the handlers it
  builds on demand, and the deferred calls that run when it returns or panics.

  The loop is driven by what its select yields, in order: a tick of the idle timer or a
  message; after the last the message channel is closed.  The result is the trace of the
  loop's visible effects.
 */
module SessionLoop {

  type Proto = nat

  /** A control message, by what `HandleControl` needs to know of it. */
  datatype Control =
    | Ping(pongSent: bool)
    | Pong
    | Open(decodes: bool, versionOk: bool, replySent: bool)
    | Accept(decodes: bool, versionOk: bool)
    | Close
    | ErrorMessage(close: bool)
    | OtherControl

  /** The close decision of `HandleControl`. */
  predicate ClosesSession(m: Control) {
    match m
    case Ping(sent) => !sent
    case Pong => false
    case Open(decodes, versionOk, sent) => !(decodes && versionOk && sent)
    case Accept(decodes, versionOk) => !(decodes && versionOk)
    case Close => true
    case ErrorMessage(close) => close
    case OtherControl => false
  }

  datatype Input =
    | Tick(pingSent: bool)                  // the idle timer, and whether a ping could be written
    | ControlMessage(m: Control)
    | AppMessage(proto: Proto, panics: bool)   // for a handler, which may panic on it

  datatype Effect =
    | SentPing
    | HandledControl
    | NoHandler(proto: Proto)
    | Build(proto: Proto)
    | Serve(proto: Proto)
    | CloseHandler(proto: Proto)
    | ErrorSent         // "internal error" after a panic, or "session timeout"
    | CloseDone

  datatype Exit = ChannelClosed | TimedOut | PingFailed | ControlClosed | Panicked

  /** The handlers built in a trace, in order. */
  function Built(trace: seq<Effect>): seq<Proto>
    decreases |trace|
  {
    if trace == [] then []
    else
      var n := |trace| - 1;
      if trace[n].Build? then Built(trace[..n]) + [trace[n].proto] else Built(trace[..n])
  }

  /** The deferred handler closes, last built first closed. */
  function Closes(built: seq<Proto>): seq<Effect>
    decreases |built|
  {
    if built == [] then [] else [CloseHandler(built[|built| - 1])] + Closes(built[..|built| - 1])
  }

  /** While serving: no handler is built twice or served before it is built, and nothing is closed. */
  predicate MayFollow(before: seq<Effect>, e: Effect) {
    match e
    case Build(p) => p !in Built(before)
    case Serve(p) => p in Built(before)
    case CloseHandler(_) => false
    case CloseDone => false
    case _ => true
  }

  predicate ServingOk(trace: seq<Effect>) {
    forall i :: 0 <= i < |trace| ==> MayFollow(trace[..i], trace[i])
  }

  predicate NoDuplicates(s: seq<Proto>) {
    forall i, j :: 0 <= i < j < |s| ==> s[i] != s[j]
  }

  /** A trace of a whole session: serve, close every handler in reverse, report a panic, close `done`. */
  predicate Lifecycle(trace: seq<Effect>, serving: seq<Effect>, panicked: bool) {
    && ServingOk(serving) && NoDuplicates(Built(serving))
    && trace == serving + Closes(Built(serving)) + (if panicked then [ErrorSent] else []) + [CloseDone]
  }

  function Count(trace: seq<Effect>, e: Effect): nat {
    if trace == [] then 0 else (if trace[0] == e then 1 else 0) + Count(trace[1..], e)
  }

  lemma {:induction false} CountAppend(a: seq<Effect>, b: seq<Effect>, e: Effect)
    ensures Count(a + b, e) == Count(a, e) + Count(b, e)
  {
    if a == [] {
      assert a + b == b;
    } else {
      assert (a + b)[1..] == a[1..] + b;
      CountAppend(a[1..], b, e);
    }
  }

  lemma CountOne(x: Effect, e: Effect)
    ensures Count([x], e) == if x == e then 1 else 0
  {
    assert [x][1..] == [];
  }

  lemma {:induction false} CountNone(trace: seq<Effect>, e: Effect)
    requires e !in trace
    ensures Count(trace, e) == 0
  {
    if trace != [] {
      CountNone(trace[1..], e);
    }
  }

  lemma {:induction false} CountCloses(built: seq<Proto>, p: Proto)
    requires NoDuplicates(built)
    ensures Count(Closes(built), CloseHandler(p)) == (if p in built then 1 else 0)
    ensures Count(Closes(built), CloseDone) == 0
    decreases |built|
  {
    if built != [] {
      var n := |built| - 1;
      CountCloses(built[..n], p);
      assert built == built[..n] + [built[n]];
      assert Closes(built)[1..] == Closes(built[..n]);
    }
  }

  lemma {:induction false} CountBuilds(trace: seq<Effect>, p: Proto)
    requires NoDuplicates(Built(trace))
    ensures Count(trace, Build(p)) == (if p in Built(trace) then 1 else 0)
    decreases |trace|
  {
    if trace != [] {
      var n := |trace| - 1;
      assert trace == trace[..n] + [trace[n]];
      if trace[n].Build? {
        var built := Built(trace[..n]);
        assert Built(trace) == built + [trace[n].proto];
        assert forall i :: 0 <= i < |built| ==> Built(trace)[i] == built[i];
        assert Built(trace)[|built|] == trace[n].proto;
        assert trace[n].proto !in built;
      }
      CountBuilds(trace[..n], p);
      CountAppend(trace[..n], [trace[n]], Build(p));
      CountOne(trace[n], Build(p));
    }
  }

  lemma CountEnd(serving: seq<Effect>, closes: seq<Effect>, report: seq<Effect>, e: Effect)
    ensures Count(serving + closes + report + [CloseDone], e)
            == Count(serving, e) + Count(closes, e) + Count(report, e) + Count([CloseDone], e)
  {
    CountAppend(serving + closes + report, [CloseDone], e);
    CountAppend(serving + closes, report, e);
    CountAppend(serving, closes, e);
  }

  /**
    Over a whole session, panicking or not: `done` is closed exactly once and last, and
    every handler is built at most once and closed exactly as often as it was built.
   */
  lemma LifecycleCounts(trace: seq<Effect>, serving: seq<Effect>, panicked: bool, p: Proto)
    requires Lifecycle(trace, serving, panicked)
    ensures Count(trace, CloseDone) == 1 && trace[|trace| - 1] == CloseDone
    ensures Count(serving, Build(p)) <= 1
    ensures Count(trace, CloseHandler(p)) == Count(serving, Build(p))
  {
    var closes, report := Closes(Built(serving)), if panicked then [ErrorSent] else [];
    assert CloseHandler(p) !in serving && CloseDone !in serving;
    CountNone(serving, CloseHandler(p));
    CountNone(serving, CloseDone);
    CountCloses(Built(serving), p);
    CountBuilds(serving, p);
    CountEnd(serving, closes, report, CloseDone);
    CountEnd(serving, closes, report, CloseHandler(p));
    CountNone(report, CloseDone);
    CountNone(report, CloseHandler(p));
    assert Count([CloseDone], CloseDone) == 1 && Count([CloseDone], CloseHandler(p)) == 0;
  }

  // ---------------------------------------------------------------- the loop

  /** The effects that answer inputs: everything but building handlers. */
  function Responses(trace: seq<Effect>): seq<Effect>
    decreases |trace|
  {
    if trace == [] then []
    else
      var n := |trace| - 1;
      if trace[n].Build? then Responses(trace[..n]) else Responses(trace[..n]) + [trace[n]]
  }

  lemma ResponsesAppend(trace: seq<Effect>, e: Effect)
    ensures Responses(trace + [e]) == if e.Build? then Responses(trace) else Responses(trace) + [e]
  {
    assert (trace + [e])[..|trace|] == trace;
  }

  /**
    Whether input `i` ends the session, judged from the inputs alone: a tick right after
    a tick, a ping that could not be sent, a control message that asks for it, or a panic
    of a handler that exists.  `ChannelClosed` stands for going on.
   */
  function Ends(routes: set<Proto>, inputs: seq<Input>, i: nat): Exit
    requires i < |inputs|
  {
    match inputs[i]
    case Tick(sent) =>
      if i > 0 && inputs[i - 1].Tick? then TimedOut else if sent then ChannelClosed else PingFailed
    case ControlMessage(m) => if ClosesSession(m) then ControlClosed else ChannelClosed
    case AppMessage(p, panics) => if p in routes && panics then Panicked else ChannelClosed
  }

  /**
    The answer input `i` gets: an error exactly if it is a tick that ends the session as
    timed out, a ping for any other tick; a message goes to the handler of its protocol
    if there is a route.
   */
  predicate Answers(routes: set<Proto>, inputs: seq<Input>, i: nat, e: Effect)
    requires i < |inputs|
  {
    match inputs[i]
    case Tick(_) => e == if Ends(routes, inputs, i) == TimedOut then ErrorSent else SentPing
    case ControlMessage(_) => e == HandledControl
    case AppMessage(p, _) => e == if p in routes then Serve(p) else NoHandler(p)
  }

  predicate Answered(routes: set<Proto>, inputs: seq<Input>, responses: seq<Effect>) {
    |responses| <= |inputs| && forall i :: 0 <= i < |responses| ==> Answers(routes, inputs, i, responses[i])
  }

  /** What the loop keeps true after answering `k` inputs. */
  predicate Serving(routes: set<Proto>, inputs: seq<Input>, trace: seq<Effect>, k: nat) {
    && ServingOk(trace) && NoDuplicates(Built(trace))
    && (forall p :: p in Built(trace) ==> p in routes)
    && Answered(routes, inputs, Responses(trace)) && |Responses(trace)| == k
  }

  /** No handler is built for nothing. */
  predicate AllServe(trace: seq<Effect>) {
    forall p :: p in Built(trace) ==> Serve(p) in trace
  }

  lemma Emit(routes: set<Proto>, inputs: seq<Input>, trace: seq<Effect>, k: nat, e: Effect)
    requires Serving(routes, inputs, trace, k) && MayFollow(trace, e)
    requires if e.Build? then e.proto in routes else k < |inputs| && Answers(routes, inputs, k, e)
    ensures Serving(routes, inputs, trace + [e], if e.Build? then k else k + 1)
    ensures Built(trace + [e]) == if e.Build? then Built(trace) + [e.proto] else Built(trace)
  {
    ResponsesAppend(trace, e);
    var after := trace + [e];
    assert after[..|trace|] == trace;
    forall i | 0 <= i < |after| ensures MayFollow(after[..i], after[i]) {
      if i < |trace| {
        assert after[..i] == trace[..i];
      }
    }
  }

  /** The deferred calls, in reverse order: every handler's Close, then `handlePanic`. */
  method RunDeferred(trace0: seq<Effect>, handlers: seq<Proto>, panicked: bool) returns (trace: seq<Effect>)
    ensures trace == trace0 + Closes(handlers) + (if panicked then [ErrorSent] else []) + [CloseDone]
  {
    var i := |handlers|;
    trace := trace0;
    assert handlers[..i] == handlers;
    while i > 0
      invariant i <= |handlers| && trace + Closes(handlers[..i]) == trace0 + Closes(handlers)
    {
      i := i - 1;
      assert handlers[..i + 1][..i] == handlers[..i];
      trace := trace + [CloseHandler(handlers[i])];
    }
    if panicked {
      trace := trace + [ErrorSent];
    }
    trace := trace + [CloseDone];
  }

  /** The loop ended after `n` inputs for the reason given, and not before. */
  predicate ExitOk(routes: set<Proto>, inputs: seq<Input>, n: nat, exit: Exit) {
    && n <= |inputs|
    && (forall i :: 0 <= i < n - 1 ==> Ends(routes, inputs, i) == ChannelClosed)
    && exit == if n == 0 then ChannelClosed else Ends(routes, inputs, n - 1)
  }

  /** The inputs that leave a session open, one by one. */
  predicate Harmless(routes: set<Proto>, inputs: seq<Input>, i: nat)
    requires i < |inputs|
  {
    match inputs[i]
    case Tick(pingSent) => pingSent && (i == 0 || !inputs[i - 1].Tick?)
    case ControlMessage(Ping(pongSent)) => pongSent
    case ControlMessage(Pong) => true
    case ControlMessage(Open(decodes, versionOk, replySent)) => decodes && versionOk && replySent
    case ControlMessage(Accept(decodes, versionOk)) => decodes && versionOk
    case ControlMessage(Close) => false
    case ControlMessage(ErrorMessage(close)) => !close
    case ControlMessage(OtherControl) => true
    case AppMessage(p, panics) => p !in routes || !panics
  }

  /**
    A session ends with the first input that is not harmless, so a `Close` message is the
    last one served; it stays open to the end of its channel exactly if all are harmless.
   */
  lemma EndsAtFirstHarm(routes: set<Proto>, inputs: seq<Input>, n: nat, exit: Exit)
    requires ExitOk(routes, inputs, n, exit) && (exit == ChannelClosed ==> n == |inputs|)
    ensures forall i :: 0 <= i < n - 1 ==> Harmless(routes, inputs, i)
    ensures exit == ChannelClosed <==> forall i :: 0 <= i < |inputs| ==> Harmless(routes, inputs, i)
    ensures forall i :: 0 <= i < n && inputs[i] == ControlMessage(Close) ==> i == n - 1 && exit == ControlClosed
  {
    forall i | 0 <= i < |inputs|
      ensures Ends(routes, inputs, i) == ChannelClosed <==> Harmless(routes, inputs, i)
    {
    }
    if n > 0 {
      assert Harmless(routes, inputs, n - 1) <==> exit == ChannelClosed;
    }
    forall i | 0 <= i < n && inputs[i] == ControlMessage(Close) ensures i == n - 1 && exit == ControlClosed {
      assert !Harmless(routes, inputs, i);
    }
    if exit != ChannelClosed {
      assert !Harmless(routes, inputs, n - 1);
    } else {
      forall i | 0 <= i < |inputs| ensures Harmless(routes, inputs, i) {
        assert i < n - 1 || i == n - 1;
      }
    }
  }

  /** One round of the loop; `exit` stays `ChannelClosed` unless this input ends the session. */
  method ServeInput(inputs: seq<Input>, routes: set<Proto>, n: nat, trace0: seq<Effect>, handlers0: seq<Proto>,
                    idle: bool)
    returns (trace: seq<Effect>, handlers: seq<Proto>, sessIdle: bool, exit: Exit)
    requires n < |inputs| && Serving(routes, inputs, trace0, n) && handlers0 == Built(trace0)
    requires (idle <==> n > 0 && inputs[n - 1].Tick?) && AllServe(trace0)
    ensures AllServe(trace)
    ensures Serving(routes, inputs, trace, if exit == PingFailed then n else n + 1) && handlers == Built(trace)
    ensures exit == ChannelClosed ==> (sessIdle <==> inputs[n].Tick?)
    ensures exit == Ends(routes, inputs, n)
  {
    trace, handlers, sessIdle, exit := trace0, handlers0, idle, ChannelClosed;
    match inputs[n]
    case Tick(pingSent) =>
      if sessIdle {
        Emit(routes, inputs, trace, n, ErrorSent);
        trace, exit := trace + [ErrorSent], TimedOut;
      } else if !pingSent {
        exit := PingFailed;
      } else {
        Emit(routes, inputs, trace, n, SentPing);
        trace, sessIdle := trace + [SentPing], true;
      }
    case ControlMessage(m) =>
      sessIdle := false;
      Emit(routes, inputs, trace, n, HandledControl);
      trace := trace + [HandledControl];
      if ClosesSession(m) {
        exit := ControlClosed;
      }
    case AppMessage(p, panics) =>
      sessIdle := false;
      if p !in handlers && p !in routes {
        Emit(routes, inputs, trace, n, NoHandler(p));
        trace := trace + [NoHandler(p)];
        return;
      }
      if p !in handlers {
        Emit(routes, inputs, trace, n, Build(p));
        trace, handlers := trace + [Build(p)], handlers + [p];
      }
      Emit(routes, inputs, trace, n, Serve(p));
      trace := trace + [Serve(p)];
      if panics {
        exit := Panicked;
      }
  }

  /**
    The loop and its deferred calls.  Every input is answered in order, a message by the
    handler of its protocol, up to and including the first input that ends the session.
   */
  method ListenAndServe(inputs: seq<Input>, routes: set<Proto>)
    returns (trace: seq<Effect>, exit: Exit, n: nat, ghost serving: seq<Effect>)
    ensures Lifecycle(trace, serving, exit == Panicked)
    ensures ExitOk(routes, inputs, n, exit) && (exit == ChannelClosed ==> n == |inputs|)
    ensures Answered(routes, inputs, Responses(serving)) && AllServe(serving)
    ensures |Responses(serving)| == if exit == PingFailed then n - 1 else n
  {
    var handlers: seq<Proto> := [];   // the handlers map, in the order of its deferred closes
    var sessIdle := false;
    trace, exit, n, serving := [], ChannelClosed, 0, [];
    while n < |inputs| && exit == ChannelClosed
      invariant ExitOk(routes, inputs, n, exit) && handlers == Built(trace)
      invariant Serving(routes, inputs, trace, if exit == PingFailed then n - 1 else n)
      invariant exit == ChannelClosed ==> (sessIdle <==> n > 0 && inputs[n - 1].Tick?)
      invariant AllServe(trace)
      decreases |inputs| - n
    {
      trace, handlers, sessIdle, exit := ServeInput(inputs, routes, n, trace, handlers, sessIdle);
      n := n + 1;
    }
    serving := trace;
    trace := RunDeferred(trace, handlers, exit == Panicked);
  }
}
