/**
  The transfer slot of one `FileTransferHandler`: the token channel `mutex` of capacity
  one, the unbuffered `msgChan`, the session goroutine that serves messages one at a time
  and closes the channel at the end, and the asynchronous handlers it starts.

  Every channel operation is one atomic action.  How many handlers run is not built into
  the model; that it is never more than one is a theorem.
 */
module TransferSlot {

  /** What an asynchronous handler is doing. */
  datatype HandlerPc =
    | Working      // anything but a channel operation
    | Receiving    // ready to take a message from msgChan
    | Exiting      // in the deferred function, about to take the token back

  /** What the session goroutine is doing in this handler. */
  datatype SessionPc =
    | Ready
    | Offering     // in the select: put a token, or hand the message over
    | Probing      // put a token, about to take it back and answer or log
    | Closed

  datatype State = State(
    session: SessionPc,
    tokens: nat,
    handlers: map<nat, HandlerPc>,   // the running handlers by number
    started: nat,                    // history: handlers started so far
    released: set<nat>,              // history: handlers that gave the token back
    offered: nat,                    // history: ACK, chunk and error messages served so far
    errors: set<int>,                // history: which of them are error messages
    handed: set<int>,                // history: those a running transfer took
    answered: set<int>,              // history: those answered "no file transfer in progress"
    logged: set<int>,                // history: error messages that were only logged
    receives: nat,                   // history: receives begun by handlers
    empties: nat,                    // history: those that found no message, or the channel closed
    aborted: set<nat>)               // history: handlers that saw the channel closed

  datatype Action =
    | Request(valid: bool)     // get or put
    | Offer(isError: bool)     // ACK, chunk or error message
    | ProbeToken
    | AnswerNoTransfer
    | LogError
    | HandOver(h: nat)
    | Receive(h: nat)
    | PollEmpty(h: nat)
    | SeeClosed(h: nat)
    | Finish(h: nat)
    | ReleaseToken(h: nat)
    | CloseSession

  predicate Init(s: State) {
    s == State(Ready, 0, map[], 0, {}, 0, {}, {}, {}, {}, 0, 0, {})
  }

  predicate HandlerAt(s: State, h: nat, pc: HandlerPc) {
    h in s.handlers && s.handlers[h] == pc
  }

  predicate Enabled(s: State, a: Action) {
    match a
    case Request(_) => s.session == Ready
    case Offer(_) => s.session == Ready
    case ProbeToken => s.session == Offering && s.tokens < 1
    case AnswerNoTransfer => s.session == Probing && s.tokens > 0 && s.offered - 1 !in s.errors
    case LogError => s.session == Probing && s.tokens > 0 && s.offered - 1 in s.errors
    case HandOver(h) => s.session == Offering && HandlerAt(s, h, Receiving)
    case Receive(h) => HandlerAt(s, h, Working)
    case PollEmpty(h) => HandlerAt(s, h, Receiving)
    case SeeClosed(h) => s.session == Closed && HandlerAt(s, h, Receiving)
    case Finish(h) => HandlerAt(s, h, Working)
    case ReleaseToken(h) => HandlerAt(s, h, Exiting) && s.tokens > 0
    case CloseSession => s.session == Ready
  }

  function Apply(s: State, a: Action): State
    requires Enabled(s, a)
  {
    match a
    case Request(valid) =>
      var starts := valid && s.tokens < 1;   // otherwise an error is answered
      s.(tokens := if starts then s.tokens + 1 else s.tokens,
         handlers := if starts then s.handlers[s.started := Working] else s.handlers,
         started := if starts then s.started + 1 else s.started)
    case Offer(isError) =>
      s.(session := Offering, offered := s.offered + 1,
         errors := if isError then s.errors + {s.offered} else s.errors)
    case ProbeToken => s.(session := Probing, tokens := s.tokens + 1)
    case AnswerNoTransfer =>
      s.(session := Ready, tokens := s.tokens - 1,
         answered := s.answered + {s.offered - 1})
    case LogError =>
      s.(session := Ready, tokens := s.tokens - 1,
         logged := s.logged + {s.offered - 1})
    case HandOver(h) =>
      s.(session := Ready, handlers := s.handlers[h := Working],
         handed := s.handed + {s.offered - 1})
    case Receive(h) => s.(handlers := s.handlers[h := Receiving], receives := s.receives + 1)
    case PollEmpty(h) => s.(handlers := s.handlers[h := Working], empties := s.empties + 1)
    case SeeClosed(h) =>
      s.(handlers := s.handlers[h := Exiting], empties := s.empties + 1, aborted := s.aborted + {h})
    case Finish(h) => s.(handlers := s.handlers[h := Exiting])
    case ReleaseToken(h) =>
      s.(tokens := s.tokens - 1, handlers := s.handlers - {h}, released := s.released + {h})
    case CloseSession => s.(session := Closed)
  }

  predicate Run(s: State, actions: seq<Action>, t: State)
    decreases |actions|
  {
    if actions == [] then s == t
    else Enabled(s, actions[0]) && Run(Apply(s, actions[0]), actions[1..], t)
  }

  // ---------------------------------------------------------------- the promises

  /** The token count is the number of running handlers, plus the session's own probe, and at most one. */
  predicate TokenCounts(s: State) {
    s.tokens == |s.handlers| + (if s.session == Probing then 1 else 0) <= 1
  }

  /** Every handler ever started either still runs or has released the token, never both. */
  ghost predicate ReleasedOnce(s: State) {
    && (forall h :: h in s.released ==> h !in s.handlers)
    && (forall h: nat :: h in s.released || h in s.handlers <==> h < s.started)
  }

  predicate Undecided(s: State) {
    s.session == Offering || s.session == Probing
  }

  /**
    Every message has exactly one fate, except the one being offered, which has none yet:
    handed over, or answered if it is no error message, or logged if it is one.
   */
  ghost predicate OneFate(s: State) {
    && (Undecided(s) ==> s.offered > 0)
    && (forall m :: m in s.handed ==> m !in s.answered && m !in s.logged)
    && (forall m :: m in s.answered ==> m !in s.logged && m !in s.errors)
    && (forall m :: m in s.logged ==> m in s.errors)
    && (forall m :: m in s.handed || m in s.answered || m in s.logged <==>
          0 <= m < (if Undecided(s) then s.offered - 1 else s.offered))
  }

  predicate SomeReceiving(s: State) {
    exists h :: h in s.handlers && s.handlers[h] == Receiving
  }

  /** Every receive that a handler began took one message, found none, or still waits. */
  predicate OneReceiveEach(s: State) {
    s.receives == |s.handed| + s.empties + (if SomeReceiving(s) then 1 else 0)
  }

  /** A handler that saw the channel closed does nothing but exit. */
  predicate AbortedExit(s: State) {
    forall h :: h in s.handlers && h in s.aborted ==> s.handlers[h] == Exiting
  }

  /** No handler is ever blocked on giving the token back. */
  predicate ReleaseNeverBlocks(s: State) {
    forall h :: h in s.handlers && HandlerAt(s, h, Exiting) ==> s.tokens > 0
  }

  /** The session can put its probe token exactly when no handler runs. */
  predicate ProbeMeansIdle(s: State) {
    s.session == Offering ==> (Enabled(s, ProbeToken) <==> s.handlers == map[])
  }

  /** `TokenCounts` without cardinalities. */
  ghost predicate OneRunner(s: State) {
    && (forall g, h :: g in s.handlers && h in s.handlers ==> g == h)
    && s.tokens == (if s.handlers == map[] then 0 else 1) + (if s.session == Probing then 1 else 0) <= 1
  }

  ghost predicate Inv(s: State) {
    && OneRunner(s) && ReleasedOnce(s) && OneFate(s)
    && OneReceiveEach(s) && AbortedExit(s) && (forall h :: h in s.aborted ==> h < s.started)
  }

  lemma OneRunnerCounts(s: State)
    requires OneRunner(s)
    ensures TokenCounts(s)
  {
    if h :| h in s.handlers {
      assert s.handlers.Keys == {h};
    }
  }

  lemma HandlerStepKeepsInv(s: State, a: Action)
    requires Inv(s) && Enabled(s, a)
    requires a.HandOver? || a.Receive? || a.PollEmpty? || a.SeeClosed? || a.Finish?
    ensures Inv(Apply(s, a))
  {
    assert a.h in Apply(s, a).handlers;
  }

  lemma SessionStepKeepsInv(s: State, a: Action)
    requires Inv(s) && Enabled(s, a)
    requires a.Offer? || a.ProbeToken? || a.AnswerNoTransfer? || a.LogError? || a.CloseSession?
    ensures Inv(Apply(s, a))
  {
  }

  lemma SlotStepKeepsInv(s: State, a: Action)
    requires Inv(s) && Enabled(s, a) && (a.Request? || a.ReleaseToken?)
    ensures Inv(Apply(s, a))
  {
    var t := Apply(s, a);
    if a.ReleaseToken? {
      assert t.handlers == map[];
    } else if a.valid && s.tokens < 1 {
      assert t.handlers.Keys == {s.started} && s.started in t.handlers;
    }
  }

  lemma StepKeepsInv(s: State, a: Action)
    requires Inv(s) && Enabled(s, a)
    ensures Inv(Apply(s, a))
  {
    match a
    case Request(_) => SlotStepKeepsInv(s, a);
    case ReleaseToken(_) => SlotStepKeepsInv(s, a);
    case Offer(_) => SessionStepKeepsInv(s, a);
    case ProbeToken => SessionStepKeepsInv(s, a);
    case AnswerNoTransfer => SessionStepKeepsInv(s, a);
    case LogError => SessionStepKeepsInv(s, a);
    case CloseSession => SessionStepKeepsInv(s, a);
    case _ => HandlerStepKeepsInv(s, a);
  }

  lemma {:induction false} RunKeepsInv(s: State, actions: seq<Action>, t: State)
    requires Inv(s) && Run(s, actions, t)
    ensures Inv(t)
    decreases |actions|
  {
    if actions != [] {
      StepKeepsInv(s, actions[0]);
      RunKeepsInv(Apply(s, actions[0]), actions[1..], t);
    }
  }

  /** In every interleaving: one slot, released once per acquisition, and one fate per message. */
  lemma SlotIsSafe(s: State, actions: seq<Action>, t: State)
    requires Init(s) && Run(s, actions, t)
    ensures TokenCounts(t) && ReleasedOnce(t) && OneFate(t) && OneReceiveEach(t) && AbortedExit(t)
    ensures ReleaseNeverBlocks(t) && ProbeMeansIdle(t)
  {
    RunKeepsInv(s, actions, t);
    OneRunnerCounts(t);
    forall h | h in t.handlers && HandlerAt(t, h, Exiting) ensures t.tokens > 0 {
      assert h in t.handlers.Keys;
    }
  }

  /** A request starts one handler if and only if it is valid and none runs; otherwise nothing changes. */
  lemma RequestStartsExactly(s: State, actions: seq<Action>, t: State, valid: bool)
    requires Init(s) && Run(s, actions, t) && Enabled(t, Request(valid))
    ensures var u := Apply(t, Request(valid));
            if valid && t.handlers == map[]
            then u == t.(tokens := 1, handlers := map[t.started := Working], started := t.started + 1)
            else u == t
  {
    RunKeepsInv(s, actions, t);
  }

  /** The handler's own moves to its exit. */
  function ExitMoves(s: State, h: nat): seq<Action>
    requires h in s.handlers
  {
    match s.handlers[h]
    case Receiving =>
      if s.session == Closed then [SeeClosed(h), ReleaseToken(h)]
      else [PollEmpty(h), Finish(h), ReleaseToken(h)]
    case Working => [Finish(h), ReleaseToken(h)]
    case Exiting => [ReleaseToken(h)]
  }

  /**
    Whatever a handler is doing, its own moves alone can free the slot; once the session is
    closed a receive ends it.
   */
  lemma SlotCanBeFreed(s: State, actions: seq<Action>, t: State, h: nat) returns (u: State)
    requires Init(s) && Run(s, actions, t) && h in t.handlers
    ensures Run(t, ExitMoves(t, h), u) && u.handlers == map[] && h in u.released && u.session == t.session
    ensures t.session == Closed && t.handlers[h] == Receiving ==> h in u.aborted
  {
    RunKeepsInv(s, actions, t);
    var moves := ExitMoves(t, h);
    var t1 := Apply(t, moves[0]);
    u := t1;
    if |moves| > 1 {
      var t2 := Apply(t1, moves[1]);
      u := t2;
      if |moves| > 2 {
        u := Apply(t2, moves[2]);
        assert moves[1..][1..][1..] == [];
      }
      assert Run(t1, moves[1..], u) by { assert moves[1..][0] == moves[1]; }
    }
    assert u.handlers == map[];
  }

  /** The session's close is final: no message is offered after it. */
  lemma {:induction false} ClosedIsFinal(s: State, actions: seq<Action>, t: State)
    requires Run(s, actions, t) && s.session == Closed
    ensures t.session == Closed && t.offered == s.offered && t.started == s.started
    decreases |actions|
  {
    if actions != [] {
      ClosedIsFinal(Apply(s, actions[0]), actions[1..], t);
    }
  }

  lemma CloseEndsOffers(s: State, actions: seq<Action>, t: State)
    requires Enabled(s, CloseSession) && Run(Apply(s, CloseSession), actions, t)
    ensures t.session == Closed && t.offered == s.offered && t.started == s.started
  {
    ClosedIsFinal(Apply(s, CloseSession), actions, t);
  }

  /** The fate of the message on offer at `t` is decided in `u`: handed over, answered, or an error logged. */
  ghost predicate Resolved(t: State, u: State, taken: bool) {
    var m := {t.offered - 1};
    && u.session == Ready && u.offered == t.offered
    && u.handed == (if taken then t.handed + m else t.handed)
    && u.answered == (if taken || t.offered - 1 in t.errors then t.answered else t.answered + m)
    && u.logged == (if taken || t.offered - 1 !in t.errors then t.logged else t.logged + m)
  }

  lemma AnswerWhenIdle(t: State) returns (more: seq<Action>, u: State)
    requires Inv(t) && t.session == Offering && t.handlers == map[]
    ensures Run(t, more, u) && |more| == 2 && Resolved(t, u, false)
  {
    var settle := if t.offered - 1 in t.errors then LogError else AnswerNoTransfer;
    more := [ProbeToken, settle];
    u := Apply(Apply(t, ProbeToken), settle);
    assert more[1..][1..] == [];
  }

  lemma HandOverWhenReceiving(t: State, h: nat) returns (more: seq<Action>, u: State)
    requires Inv(t) && t.session == Offering && HandlerAt(t, h, Receiving)
    ensures Run(t, more, u) && |more| == 1 && Resolved(t, u, true)
  {
    more := [HandOver(h)];
    u := Apply(t, HandOver(h));
  }

  lemma TakenByWorker(t: State, h: nat) returns (more: seq<Action>, u: State)
    requires t.session == Offering && HandlerAt(t, h, Working) && Inv(t)
    ensures Run(t, more, u) && |more| == 2 && Resolved(t, u, true)
  {
    var t1 := Apply(t, Receive(h));
    more, u := [Receive(h), HandOver(h)], Apply(t1, HandOver(h));
    assert more[1..][1..] == [];
  }

  lemma AnsweredAfterExit(t: State, h: nat) returns (more: seq<Action>, u: State)
    requires t.session == Offering && HandlerAt(t, h, Exiting) && Inv(t)
    ensures Run(t, more, u) && |more| == 3 && Resolved(t, u, false)
  {
    StepKeepsInv(t, ReleaseToken(h));
    var t1 := Apply(t, ReleaseToken(h));
    assert t1.handlers == map[];
    var rest;
    rest, u := AnswerWhenIdle(t1);
    more := [ReleaseToken(h)] + rest;
    assert more[1..] == rest;
  }

  /**
    A message on offer is never stuck: it can be answered or logged at once when no handler
    runs, and otherwise at most one move of the one running handler is in the way.
   */
  lemma OfferIsResolved(s: State, actions: seq<Action>, t: State)
    returns (more: seq<Action>, u: State, taken: bool)
    requires Init(s) && Run(s, actions, t) && t.session == Offering
    ensures Run(t, more, u) && |more| <= 3 && Resolved(t, u, taken)
    ensures taken ==> t.handlers != map[]
    ensures !taken ==> forall h :: h in t.handlers ==> t.handlers[h] == Exiting
  {
    RunKeepsInv(s, actions, t);
    if t.handlers == map[] {
      taken := false;
      more, u := AnswerWhenIdle(t);
      return;
    }
    var h :| h in t.handlers;
    taken := t.handlers[h] != Exiting;
    match t.handlers[h]
    case Receiving => more, u := HandOverWhenReceiving(t, h);
    case Working => more, u := TakenByWorker(t, h);
    case Exiting => more, u := AnsweredAfterExit(t, h);
  }
}
