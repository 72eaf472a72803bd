/**
  The reconnect protocol of the daemon: `messageLoop`, `dbusEventLoop` and `eventLoop`,
  the channels between them (`reconnectChan` and `eventChan` unbuffered,
  `connectionEstChan` of capacity one) and the connection slot of the connection manager.

  Every blocking operation and every access to shared state is one atomic action, so a
  run is an arbitrary interleaving of the three loops.  An unbuffered send is a joint
  action of its two sides.  Reads, token signals, the token query, `Reconnect`'s outcome
  and the outcome of cancelling a reconnection are chosen by the environment.
 */
module ReconnectProtocol {

  /** A websocket connection; ids are handed out in order, so a fresh id is a fresh connection. */
  type ConnId = nat

  datatype Outcome = Established | Failed

  /** The contents of connectionEstChan, a channel of capacity one. */
  datatype Reply = NoReply | Holding(out: Outcome)

  /** The entry of the connection manager for the shell protocol. */
  datatype Slot = NoHandler | Registered(conn: ConnId)

  /** Where `messageLoop` is. */
  datatype MessagePc =
    | Top                     // about to test sendConnectReq and waitConnectResp
    | PostingRequest          // blocked sending on reconnectChan
    | AwaitingReply           // blocked receiving from connectionEstChan
    | Fetching                // Read: about to look the handler up
    | Reading(conn: ConnId)   // Read: blocked in ReadMessage of this connection
    | Closing                 // about to close the current connection after a read error

  /** Where `dbusEventLoop` is. */
  datatype DbusPc =
    | Selecting                                    // needsReconnect at the top of an iteration
    | WaitingToken                                 // WaitForJwtTokenStateChange
    | AuthClosing(token: string, server: string)   // unauthorized to authorized: about to close
    | Authorizing(token: string, server: string)   // about to set authorized
    | RevokeClosing                                // no token: about to close
    | Revoking                                     // about to clear authorized and the stored token
    | Comparing(token: string, server: string)     // about to compare with the stored pair
    | Draining(token: string, server: string)      // needsReconnect after a change
    | Storing(token: string, server: string)       // about to store the pair
    | Checking                                     // about to test needsReconnect && authorized
    | Posting(token: string)                       // blocked sending on eventChan, with this token

  /** Where `eventLoop` is. */
  datatype EventPc =
    | Idle                        // blocked receiving from eventChan
    | Got(token: string)          // has the event with its token, about to enter Reconnect
    | Connecting                  // inside Reconnect, holding the handlers mutex
    | ReplyDrain(out: Outcome)    // Reconnect returned, about to drain connectionEstChan
    | ReplySend(out: Outcome)     // about to send the reply

  datatype Ledger = Ledger(
    requested: bool,              // a request was received since the latest post
    changed: bool,                // a complete pair unlike the stored one was signalled since
    granted: bool,                // the latest pair signalled was complete
    known: (string, string),      // the latest complete pair signalled, or pair queried
    closeTried: bool,             // a close was tried since the latest signal
    dialled: (string, string),    // token and URL of the latest reconnect
    requests: nat,                // requests received
    reasons: nat)                 // reasons to request: the start, failed reconnects, lost connections

  datatype State = State(
    message: MessagePc, sendReq: bool, waitResp: bool,
    dbus: DbusPc, need: bool,
    event: EventPc,
    authorized: bool, jwt: string, url: string,
    slot: Slot,                   // the registered connection, if any
    closed: set<ConnId>,          // connections closed on this side
    nextConn: ConnId,
    reply: Reply,                 // connectionEstChan
    finished: seq<Outcome>,       // history: outcomes of all finished reconnects
    wasAuthorized: bool,          // history: authorized when the dbus iteration began
    posts: nat,                   // history: events posted by the current dbus iteration
    ledger: Ledger)               // history: why things happened

  datatype MessageAction =
    | Dispatch
    | Request                      // with dbusEventLoop, over reconnectChan
    | TakeReply
    | FetchHandler
    | ReadMessage
    | ReadClosedError
    | ReadOtherError
    | MessageClose(closes: bool)

  datatype DbusAction =
    | SelectTimeout
    | NoSignal
    | Signal(token: string, server: string)
    | DbusClose(closes: bool)
    | Authorize
    | Revoke
    | Compare
    | DrainTimeout
    | Store
    | Check(token: string, server: string)   // with the pair GetJWTToken returns

  datatype EventAction =
    | Post                         // with dbusEventLoop, over eventChan
    | ReconnectStart
    | ReconnectEnd(out: Outcome)
    | DrainReply
    | SendReply

  datatype Action = OfMessage(m: MessageAction) | OfDbus(d: DbusAction) | OfEvent(e: EventAction)

  predicate Valid(token: string, server: string) {
    token != "" && server != ""
  }

  predicate Differs(s: State, token: string, server: string) {
    token != s.jwt || server != s.url
  }

  /** `NewDaemon` and the start of `Run`: authorized exactly when both parts are present. */
  predicate Init(s: State) {
    && s.message == Top && s.sendReq && s.waitResp
    && s.dbus == Selecting && !s.need
    && s.event == Idle
    && s.authorized == Valid(s.jwt, s.url)
    && s.slot == NoHandler && s.closed == {} && s.nextConn == 0
    && s.reply == NoReply && s.finished == []
    && s.wasAuthorized == s.authorized && s.posts == 0
    && s.ledger == Ledger(false, false, s.authorized, (s.jwt, s.url), false, s.ledger.dialled, 0, 1)
  }

  /** `Close` runs once the handlers mutex is free; it gives up only while a reconnect runs. */
  predicate CanClose(s: State, closes: bool) {
    closes <==> s.event != Connecting
  }

  predicate MessageEnabled(s: State, a: MessageAction) {
    match a
    case Dispatch => s.message == Top
    case Request => s.message == PostingRequest && (s.dbus == Selecting || s.dbus.Draining?)
    case TakeReply => s.message == AwaitingReply && s.reply.Holding?
    case FetchHandler => s.message == Fetching && s.event != Connecting
    case ReadMessage => s.message.Reading?
    case ReadClosedError => s.message.Reading? && s.message.conn in s.closed
    case ReadOtherError => s.message.Reading?
    case MessageClose(c) => s.message == Closing && CanClose(s, c)
  }

  predicate DbusEnabled(s: State, a: DbusAction) {
    match a
    case SelectTimeout => s.dbus == Selecting
    case NoSignal => s.dbus == WaitingToken
    case Signal(_, _) => s.dbus == WaitingToken
    case DbusClose(c) => (s.dbus.AuthClosing? || s.dbus == RevokeClosing) && CanClose(s, c)
    case Authorize => s.dbus.Authorizing?
    case Revoke => s.dbus == Revoking
    case Compare => s.dbus.Comparing?
    case DrainTimeout => s.dbus.Draining?
    case Store => s.dbus.Storing?
    case Check(_, _) => s.dbus == Checking
  }

  predicate EventEnabled(s: State, a: EventAction) {
    match a
    case Post => s.dbus.Posting? && s.event == Idle
    case ReconnectStart => s.event.Got?
    case ReconnectEnd(_) => s.event == Connecting
    case DrainReply => s.event.ReplyDrain?
    case SendReply => s.event.ReplySend? && s.reply == NoReply
  }

  predicate Enabled(s: State, a: Action) {
    match a
    case OfMessage(m) => MessageEnabled(s, m)
    case OfDbus(d) => DbusEnabled(s, d)
    case OfEvent(e) => EventEnabled(s, e)
  }

  /** The connections closed on this side once the registered one is closed. */
  function CloseSlot(s: State): set<ConnId> {
    if s.slot.Registered? then s.closed + {s.slot.conn} else s.closed
  }

  function MessageApply(s: State, a: MessageAction): State
    requires MessageEnabled(s, a)
  {
    match a
    case Dispatch =>
      s.(message := if s.sendReq then PostingRequest else if s.waitResp then AwaitingReply else Fetching)
    case Request =>
      s.(message := if s.waitResp then AwaitingReply else Fetching, sendReq := false,
         need := true,
         ledger := s.ledger.(requested := true, requests := s.ledger.requests + 1),
         wasAuthorized := if s.dbus == Selecting then s.authorized else s.wasAuthorized,
         posts := if s.dbus == Selecting then 0 else s.posts,
         dbus := if s.dbus == Selecting then WaitingToken else Storing(s.dbus.token, s.dbus.server))
    case TakeReply =>
      var ok := s.reply.out == Established;
      s.(reply := NoReply, sendReq := s.sendReq || !ok, waitResp := !ok,
         ledger := s.ledger.(reasons := s.ledger.reasons + (if s.reply.out == Failed then 1 else 0)),
         message := if ok then Fetching else Top)
    case FetchHandler =>
      s.(message := if s.slot.Registered? then Reading(s.slot.conn) else Closing)
    case ReadMessage => s.(message := Top)
    case ReadClosedError => s.(message := Top, waitResp := true)
    case ReadOtherError => s.(message := Closing)
    case MessageClose(c) =>
      s.(message := Top, sendReq := true, waitResp := true,
         ledger := s.ledger.(reasons := s.ledger.reasons + 1),
         closed := if c then CloseSlot(s) else s.closed)
  }

  function DbusApply(s: State, a: DbusAction): State
    requires DbusEnabled(s, a)
  {
    match a
    case SelectTimeout =>
      s.(dbus := WaitingToken, wasAuthorized := s.authorized, posts := 0)
    case NoSignal => s.(dbus := Checking)
    case Signal(t, u) =>
      s.(dbus := if !Valid(t, u) then RevokeClosing
                 else if s.authorized then Comparing(t, u) else AuthClosing(t, u),
         ledger := s.ledger.(granted := Valid(t, u), closeTried := false,
                             known := if Valid(t, u) then (t, u) else s.ledger.known,
                             changed := s.ledger.changed || (Valid(t, u) && Differs(s, t, u))))
    case DbusClose(c) =>
      s.(closed := if c then CloseSlot(s) else s.closed, ledger := s.ledger.(closeTried := true),
         dbus := if s.dbus.AuthClosing? then Authorizing(s.dbus.token, s.dbus.server) else Revoking)
    case Authorize => s.(authorized := true, dbus := Comparing(s.dbus.token, s.dbus.server))
    case Revoke => s.(authorized := false, jwt := "", dbus := Checking)
    case Compare =>
      var changed := Differs(s, s.dbus.token, s.dbus.server);
      s.(need := s.need || changed,
         dbus := if changed then Draining(s.dbus.token, s.dbus.server)
                 else Storing(s.dbus.token, s.dbus.server))
    case DrainTimeout => s.(dbus := Storing(s.dbus.token, s.dbus.server))
    case Store => s.(jwt := s.dbus.token, url := s.dbus.server, dbus := Checking)
    case Check(t, u) =>
      var post := s.need && s.authorized;
      s.(jwt := if post then t else s.jwt, url := if post then u else s.url,
         ledger := if post then s.ledger.(known := (t, u)) else s.ledger,
         dbus := if post then Posting(t) else Selecting)
  }

  function EventApply(s: State, a: EventAction): State
    requires EventEnabled(s, a)
  {
    match a
    case Post =>
      s.(dbus := Selecting, need := false, posts := s.posts + 1, event := Got(s.dbus.token),
         ledger := s.ledger.(requested := false, changed := false))
    case ReconnectStart =>
      s.(event := Connecting, closed := CloseSlot(s), slot := NoHandler,
         ledger := s.ledger.(dialled := (s.event.token, s.url)))
    case ReconnectEnd(out) =>
      s.(event := ReplyDrain(out), finished := s.finished + [out],
         slot := if out == Established then Registered(s.nextConn) else s.slot,
         nextConn := if out == Established then s.nextConn + 1 else s.nextConn)
    case DrainReply => s.(event := ReplySend(s.event.out), reply := NoReply)
    case SendReply => s.(event := Idle, reply := Holding(s.event.out))
  }

  function Apply(s: State, a: Action): State
    requires Enabled(s, a)
  {
    match a
    case OfMessage(m) => MessageApply(s, m)
    case OfDbus(d) => DbusApply(s, d)
    case OfEvent(e) => EventApply(s, e)
  }

  /** The actions, taken in order from `s`, lead to `t`. */
  predicate Run(s: State, actions: seq<Action>, t: State)
    decreases |actions|
  {
    if actions == [] then s == t
    else Enabled(s, actions[0]) && Run(Apply(s, actions[0]), actions[1..], t)
  }

  ghost predicate Reachable(t: State) {
    exists s, actions :: Init(s) && Run(s, actions, t)
  }

  // ---------------------------------------------------------------- the promises

  /** `dbusEventLoop` holds the obligation to post, or is about to take it on. */
  predicate OwedByDbus(s: State) {
    s.need || (s.dbus.Comparing? && Differs(s, s.dbus.token, s.dbus.server))
  }

  /** A reconnect is owed, posted or running. */
  predicate ReconnectPending(s: State) {
    OwedByDbus(s) || s.event != Idle
  }

  /** The daemon has no token, or the dbus loop has closed the connection for that reason. */
  predicate Unauthorized(s: State) {
    !s.authorized || s.dbus == Revoking
  }

  predicate NoLostReconnect(s: State) {
    s.message == AwaitingReply && s.reply == NoReply && !Unauthorized(s) ==> ReconnectPending(s)
  }

  /** Every dbus iteration posts at most once, and exactly once if it ends newly authorized. */
  predicate ReauthorizationPosts(s: State) {
    && (!s.authorized ==> s.jwt == "" || s.url == "")
    && s.posts <= 1
    && (s.dbus == Selecting && !s.wasAuthorized && s.authorized ==> s.posts == 1)
  }

  /** The reply channel never blocks its sender and, once settled, holds the latest outcome. */
  predicate ReplyChannel(s: State) {
    && (s.event.ReplySend? ==> s.reply == NoReply)
    && (s.reply.Holding? && !s.event.ReplyDrain? ==>
          s.finished != [] && s.reply.out == s.finished[|s.finished| - 1])
  }

  // ---------------------------------------------------------------- the inductive invariant

  predicate MessageFlags(s: State) {
    && (s.sendReq ==> s.waitResp && (s.message == Top || s.message == PostingRequest))
    && (s.message == PostingRequest ==> s.sendReq)
    && (s.message == AwaitingReply ==> s.waitResp)
    && (s.message == Fetching || s.message.Reading? || s.message == Closing ==> !s.waitResp)
  }

  predicate DbusData(s: State) {
    && (s.dbus.AuthClosing? || s.dbus.Authorizing? ==> !s.authorized && Valid(s.dbus.token, s.dbus.server))
    && (s.dbus.Comparing? || s.dbus.Draining? || s.dbus.Storing? ==>
          s.authorized && Valid(s.dbus.token, s.dbus.server))
    && (s.dbus.Posting? ==> s.need && s.authorized)
    && (s.dbus.Draining? ==> s.need)
  }

  predicate IterationData(s: State) {
    && (s.dbus != Selecting ==> s.posts == 0)
    && (!s.wasAuthorized && s.dbus.Comparing? ==> Differs(s, s.dbus.token, s.dbus.server))
    && (!s.wasAuthorized && s.authorized && (s.dbus.Storing? || s.dbus == Checking) ==> s.need)
    && (!s.wasAuthorized && (s.dbus == WaitingToken || s.dbus == RevokeClosing || s.dbus == Revoking) ==>
          !s.authorized)
  }

  predicate Connections(s: State) {
    && (s.slot.Registered? ==> s.slot.conn < s.nextConn)
    && (forall c :: c in s.closed ==> c < s.nextConn)
    && (s.message.Reading? ==> s.message.conn < s.nextConn)
    && (s.event == Connecting ==> s.slot == NoHandler)
    && (s.event.ReplyDrain? || s.event.ReplySend? ==>
          s.finished != [] && s.event.out == s.finished[|s.finished| - 1])
  }

  /** A registered connection that was closed here is about to be replaced. */
  predicate ClosedSlotIsOwed(s: State) {
    s.slot.Registered? && s.slot.conn in s.closed ==>
      OwedByDbus(s) || s.event.Got? || Unauthorized(s) || s.sendReq || s.message == Closing
  }

  /** A read on a connection that is no longer registered has a reply coming. */
  predicate ReplacedReadIsAnswered(s: State) {
    s.message.Reading? && s.slot != Registered(s.message.conn) ==>
      s.event == Connecting || s.event.ReplyDrain? || s.event.ReplySend? || s.reply.Holding?
  }

  /** A `messageLoop` that waits without having asked has a reply coming. */
  predicate WaiterIsAnswered(s: State) {
    s.waitResp && !s.sendReq ==> s.reply.Holding? || Unauthorized(s) || ReconnectPending(s)
  }

  predicate Inv(s: State) {
    && MessageFlags(s) && DbusData(s) && IterationData(s) && Connections(s)
    && ReauthorizationPosts(s) && ReplyChannel(s)
    && ClosedSlotIsOwed(s) && ReplacedReadIsAnswered(s) && WaiterIsAnswered(s)
  }

  lemma MessageStepKeepsInv(s: State, a: MessageAction)
    requires Inv(s) && MessageEnabled(s, a)
    ensures Inv(MessageApply(s, a))
  {
  }

  lemma DbusStepKeepsInv(s: State, a: DbusAction)
    requires Inv(s) && DbusEnabled(s, a)
    ensures Inv(DbusApply(s, a))
  {
  }

  lemma EventStepKeepsInv(s: State, a: EventAction)
    requires Inv(s) && EventEnabled(s, a)
    ensures Inv(EventApply(s, a))
  {
  }

  lemma StepKeepsInv(s: State, a: Action)
    requires Inv(s) && Enabled(s, a)
    ensures Inv(Apply(s, a))
  {
    match a
    case OfMessage(m) => MessageStepKeepsInv(s, m);
    case OfDbus(d) => DbusStepKeepsInv(s, d);
    case OfEvent(e) => EventStepKeepsInv(s, e);
  }

  lemma {:induction false} RunKeepsInv(s: State, actions: seq<Action>, t: State)
    requires Inv(s) && Run(s, actions, t)
    ensures Inv(t)
    decreases |actions|
  {
    if actions != [] {
      StepKeepsInv(s, actions[0]);
      RunKeepsInv(Apply(s, actions[0]), actions[1..], t);
    }
  }

  lemma ReachableInv(t: State)
    requires Reachable(t)
    ensures Inv(t)
  {
    var s, actions :| Init(s) && Run(s, actions, t);
    RunKeepsInv(s, actions, t);
  }

  // ---------------------------------------------------------------- main theorems

  /** Safety, in every interleaving: no wake-up is lost and the reply channel never blocks. */
  lemma NoLostWakeUp(t: State)
    requires Reachable(t)
    ensures NoLostReconnect(t) && ReauthorizationPosts(t) && ReplyChannel(t)
  {
    ReachableInv(t);
  }

  datatype Loop = MessageLoop | DbusLoop | EventLoop

  /** `a` cannot move before `b` does. */
  predicate WaitsFor(s: State, a: Loop, b: Loop) {
    match (a, b)
    case (MessageLoop, DbusLoop) =>
      || (s.message == PostingRequest && s.dbus != Selecting && !s.dbus.Draining?)
      || (s.message == AwaitingReply && s.reply == NoReply && s.event == Idle)
    case (MessageLoop, EventLoop) =>
      || (s.message == AwaitingReply && s.reply == NoReply && s.event != Idle)
      || ((s.message == Fetching || s.message == Closing) && s.event == Connecting)
    case (DbusLoop, EventLoop) =>
      || (s.dbus.Posting? && s.event != Idle)
      || ((s.dbus.AuthClosing? || s.dbus == RevokeClosing) && s.event == Connecting)
    case (EventLoop, DbusLoop) => s.event == Idle
    case (EventLoop, MessageLoop) => s.event.ReplySend? && s.reply.Holding?
    case _ => false
  }

  /** One of the wait-for edges out of a loop is always missing from any would-be cycle. */
  lemma NoCircularWait(s: State)
    requires Reachable(s)
    ensures forall a, b :: WaitsFor(s, a, b) ==> !WaitsFor(s, b, a)
    ensures forall a, b, c :: WaitsFor(s, a, b) && WaitsFor(s, b, c) ==> !WaitsFor(s, c, a)
  {
    ReachableInv(s);
  }

  // ---------------------------------------------------------------- the wake-up can always be delivered

  /** Steps left to the next reply when the dbus and event loops take `NextAction`. */
  function Distance(s: State): nat {
    if s.reply.Holding? then 0 else
    match s.event
    case ReplySend(_) => 1
    case ReplyDrain(_) => 2
    case Connecting => 3
    case Got(_) => 4
    case Idle =>
      match s.dbus
      case Posting(_) => 5
      case Checking => if s.need && s.authorized then 6 else 14
      case Storing(_, _) => 7
      case Draining(_, _) => 8
      case Comparing(_, _) => 9
      case Authorizing(_, _) => 10
      case AuthClosing(_, _) => 11
      case WaitingToken => 12
      case Selecting => 13
      case Revoking => 15
      case RevokeClosing => 16
  }

  /** The move that brings the reply closer; a token signal is used only while unauthorized. */
  function NextAction(s: State, token: string, server: string): Action {
    match s.event
    case ReplySend(_) => OfEvent(SendReply)
    case ReplyDrain(_) => OfEvent(DrainReply)
    case Connecting => OfEvent(ReconnectEnd(Failed))
    case Got(_) => OfEvent(ReconnectStart)
    case Idle =>
      match s.dbus
      case Posting(_) => OfEvent(Post)
      case Checking => OfDbus(Check(token, server))
      case Storing(_, _) => OfDbus(Store)
      case Draining(_, _) => OfDbus(DrainTimeout)
      case Comparing(_, _) => OfDbus(Compare)
      case Authorizing(_, _) => OfDbus(Authorize)
      case AuthClosing(_, _) => OfDbus(DbusClose(true))
      case WaitingToken => if s.need && s.authorized then OfDbus(NoSignal) else OfDbus(Signal(token, server))
      case Selecting => OfDbus(SelectTimeout)
      case Revoking => OfDbus(Revoke)
      case RevokeClosing => OfDbus(DbusClose(true))
  }

  /** The daemon holds a token and the dbus loop is not giving it up. */
  predicate Steady(s: State) {
    s.authorized && s.dbus != RevokeClosing && s.dbus != Revoking
  }

  lemma NextActionHelps(s: State, token: string, server: string)
    requires Inv(s) && s.message == AwaitingReply && s.reply == NoReply && Valid(token, server)
    ensures var a := NextAction(s, token, server);
            && Enabled(s, a) && !a.OfMessage?
            && Distance(Apply(s, a)) < Distance(s)
            && Apply(s, a).message == AwaitingReply
            && (a.OfDbus? && a.d.Signal? ==> !s.authorized && a.d == Signal(token, server))
            && (Steady(s) ==> Steady(Apply(s, a)))
  {
    match NextAction(s, token, server)
    case OfDbus(d) => assert Apply(s, OfDbus(d)) == DbusApply(s, d);
    case OfEvent(e) => assert Apply(s, OfEvent(e)) == EventApply(s, e);
  }

  /** No message-loop step; a signal only for the given pair, and none to a steady daemon. */
  predicate WakingActions(steady: bool, actions: seq<Action>, token: string, server: string) {
    forall a :: a in actions ==>
      !a.OfMessage? && (a.OfDbus? && a.d.Signal? ==> !steady && a.d == Signal(token, server))
  }

  lemma {:induction false} DeliverReply(s: State, token: string, server: string)
    returns (actions: seq<Action>, t: State)
    requires Inv(s) && s.message == AwaitingReply && Valid(token, server)
    ensures Run(s, actions, t) && t.reply.Holding? && t.message == AwaitingReply
    ensures |actions| <= Distance(s) && WakingActions(Steady(s), actions, token, server)
    decreases Distance(s)
  {
    if s.reply.Holding? {
      actions, t := [], s;
    } else {
      NextActionHelps(s, token, server);
      var a := NextAction(s, token, server);
      StepKeepsInv(s, a);
      var rest;
      rest, t := DeliverReply(Apply(s, a), token, server);
      actions := [a] + rest;
      assert actions[1..] == rest;
    }
  }

  /**
    From every reachable state in which `messageLoop` waits, the other two loops alone
    can bring it a reply, in at most sixteen steps.  A token signal is needed only when
    the daemon is unauthorized or giving its token up.
   */
  lemma WaiterCanAlwaysBeWoken(s: State, token: string, server: string)
    requires Reachable(s) && s.message == AwaitingReply && Valid(token, server)
    ensures exists actions, t :: Run(s, actions, t) && t.reply.Holding? && |actions| <= 16
                                 && WakingActions(Steady(s), actions, token, server)
  {
    ReachableInv(s);
    var actions, t := DeliverReply(s, token, server);
  }

  // ---------------------------------------------------------------- no scheduler can withhold it

  /** The message loop waits, and the daemon holds its token. */
  predicate SteadyWait(s: State) {
    s.message == AwaitingReply && s.reply == NoReply && Steady(s)
  }

  predicate TakesTokenAway(a: Action) {
    a.OfDbus? && a.d.Signal? && !Valid(a.d.token, a.d.server)
  }

  /** A step that must bring the reply closer: any but a dbus step during a reconnect. */
  predicate IsProgress(s: State, a: Action) {
    a.OfEvent? || s.event == Idle
  }

  lemma EveryStepHelps(s: State, a: Action)
    requires Inv(s) && SteadyWait(s) && Enabled(s, a) && !TakesTokenAway(a)
    ensures Distance(Apply(s, a)) + (if IsProgress(s, a) then 1 else 0) <= Distance(s)
    ensures Apply(s, a).reply == NoReply ==> SteadyWait(Apply(s, a))
  {
    match a
    case OfMessage(m) =>
    case OfDbus(d) => assert Apply(s, a) == DbusApply(s, d);
    case OfEvent(e) => assert Apply(s, a) == EventApply(s, e);
  }

  /** How many of the actions, taken in order from `s`, are progress steps. */
  function ProgressSteps(s: State, actions: seq<Action>, t: State): nat
    requires Run(s, actions, t)
    decreases |actions|
  {
    if actions == [] then 0
    else (if IsProgress(s, actions[0]) then 1 else 0)
         + ProgressSteps(Apply(s, actions[0]), actions[1..], t)
  }

  /** The reply channel stays empty along the run. */
  predicate Unanswered(s: State, actions: seq<Action>, t: State)
    requires Run(s, actions, t)
    decreases |actions|
  {
    s.reply == NoReply && (actions == [] || Unanswered(Apply(s, actions[0]), actions[1..], t))
  }

  lemma {:induction false} ProgressIsBounded(s: State, actions: seq<Action>, t: State)
    requires Inv(s) && SteadyWait(s) && Run(s, actions, t) && Unanswered(s, actions, t)
    requires forall a :: a in actions ==> !TakesTokenAway(a)
    ensures ProgressSteps(s, actions, t) + Distance(t) <= Distance(s)
    decreases |actions|
  {
    if actions != [] {
      EveryStepHelps(s, actions[0]);
      StepKeepsInv(s, actions[0]);
      ProgressIsBounded(Apply(s, actions[0]), actions[1..], t);
    }
  }

  /**
    Whatever the scheduler and the environment do, short of taking the token away, a
    waiting `messageLoop` goes unanswered for fewer than sixteen steps of `eventLoop`,
    or of any loop while `eventLoop` is idle.
   */
  lemma EveryScheduleDelivers(s: State, actions: seq<Action>, t: State)
    requires Reachable(s) && SteadyWait(s) && Run(s, actions, t) && Unanswered(s, actions, t)
    requires forall a :: a in actions ==> !TakesTokenAway(a)
    ensures ProgressSteps(s, actions, t) < 16
  {
    ReachableInv(s);
    ProgressIsBounded(s, actions, t);
  }

  // ---------------------------------------------------------------- connections and reasons

  /** Outside a reconnect there is a connection exactly if the latest reconnect established one. */
  predicate SlotIsLatest(s: State) {
    s.event != Connecting ==>
      (s.slot.Registered? <==> s.finished != [] && s.finished[|s.finished| - 1] == Established)
  }

  /** A read on a connection that was replaced is woken: that connection is closed. */
  predicate ReplacedReadIsClosed(s: State) {
    s.message.Reading? && s.slot != Registered(s.message.conn) ==> s.message.conn in s.closed
  }

  /** A signal that makes the daemon authorized is being handled. */
  predicate Granting(s: State) {
    s.dbus.AuthClosing? || s.dbus.Authorizing?
  }

  /** An iteration owes a post exactly if there was a request or a new pair since the latest post. */
  predicate PostsHaveReasons(s: State) {
    && (s.ledger.requested || s.ledger.changed <==> OwedByDbus(s) || Granting(s))
    && (s.dbus == Selecting && s.authorized ==> !s.ledger.requested && !s.ledger.changed)
  }

  /** The daemon is authorized exactly if the latest pair signalled was complete, once that has been handled. */
  predicate FollowsSignals(s: State) {
    if s.dbus == RevokeClosing || s.dbus == Revoking then !s.ledger.granted
    else s.ledger.granted <==> s.authorized || Granting(s)
  }

  /** Every request has its own reason. */
  predicate RequestsHaveReasons(s: State) {
    s.ledger.reasons == s.ledger.requests + (if s.sendReq then 1 else 0)
  }

  /** The latest reconnect used the stored pair, unless another one is owed or the token was lost. */
  predicate DialledIsCurrent(s: State) {
    && (s.event.Got? ==> s.event.token == s.jwt || OwedByDbus(s) || !s.authorized)
    && (!s.event.Got? && (s.finished != [] || s.event == Connecting) ==>
          s.ledger.dialled == (s.jwt, s.url) || OwedByDbus(s) || !s.authorized)
    && (s.dbus.Storing? ==> s.need || !Differs(s, s.dbus.token, s.dbus.server))
    && (s.dbus.Posting? ==> s.dbus.token == s.jwt)
  }

  /** Between signals an authorized daemon has stored the latest pair, both parts of it. */
  predicate StoredIsKnown(s: State) {
    && (s.authorized && (s.dbus == Selecting || s.dbus == WaitingToken || s.dbus == Checking || s.dbus.Posting?) ==>
          (s.jwt, s.url) == s.ledger.known)
    && (Granting(s) || s.dbus.Comparing? || s.dbus.Draining? || s.dbus.Storing? ==>
          (s.dbus.token, s.dbus.server) == s.ledger.known)
  }

  /** The authorization changes only after a close was tried. */
  predicate ChangesClose(s: State) {
    s.dbus.Authorizing? || s.dbus == Revoking ==> s.ledger.closeTried
  }

  predicate Account(s: State) {
    && SlotIsLatest(s) && ReplacedReadIsClosed(s) && RequestsHaveReasons(s)
    && PostsHaveReasons(s) && FollowsSignals(s) && DialledIsCurrent(s)
    && StoredIsKnown(s) && ChangesClose(s)
  }

  lemma MessageStepKeepsAccount(s: State, a: MessageAction)
    requires Inv(s) && Account(s) && MessageEnabled(s, a)
    ensures Account(MessageApply(s, a))
  {
  }

  lemma DbusStepKeepsAccount(s: State, a: DbusAction)
    requires Inv(s) && Account(s) && DbusEnabled(s, a)
    ensures Account(DbusApply(s, a))
  {
  }

  lemma EventStepKeepsAccount(s: State, a: EventAction)
    requires Inv(s) && Account(s) && EventEnabled(s, a)
    ensures Account(EventApply(s, a))
  {
  }

  lemma {:induction false} RunKeepsAccount(s: State, actions: seq<Action>, t: State)
    requires Inv(s) && Account(s) && Run(s, actions, t)
    ensures Inv(t) && Account(t)
    decreases |actions|
  {
    if actions != [] {
      match actions[0] {
        case OfMessage(m) => MessageStepKeepsAccount(s, m);
        case OfDbus(d) => DbusStepKeepsAccount(s, d);
        case OfEvent(e) => EventStepKeepsAccount(s, e);
      }
      StepKeepsInv(s, actions[0]);
      RunKeepsAccount(Apply(s, actions[0]), actions[1..], t);
    }
  }

  lemma ReachableAccount(t: State)
    requires Reachable(t)
    ensures Inv(t) && Account(t)
  {
    var s, actions :| Init(s) && Run(s, actions, t);
    RunKeepsAccount(s, actions, t);
  }

  /**
    In every reachable state: a connection is registered exactly if the latest reconnect
    established one; a read on a replaced connection is woken; each request has its own
    reason, and each post too; the daemon is authorized as the latest signal says, has
    stored the latest pair, and changes its authorization only after trying to close.
   */
  lemma NothingWithoutReason(t: State)
    requires Reachable(t)
    ensures SlotIsLatest(t) && ReplacedReadIsClosed(t) && RequestsHaveReasons(t)
    ensures PostsHaveReasons(t) && FollowsSignals(t) && StoredIsKnown(t) && ChangesClose(t)
  {
    ReachableAccount(t);
  }

  /** Once nothing is pending, the latest reconnect was made with the pair that is stored now. */
  lemma SettledConnectionIsCurrent(t: State)
    requires Reachable(t) && t.authorized && !ReconnectPending(t) && t.finished != []
    ensures t.ledger.dialled == (t.jwt, t.url)
  {
    ReachableAccount(t);
  }

  /** An established reconnect installs a connection that nothing has closed, registered or read before. */
  lemma ReconnectInstallsFresh(s: State)
    requires Reachable(s) && s.event == Connecting
    ensures var t := Apply(s, OfEvent(ReconnectEnd(Established)));
            && t.slot.Registered? && t.slot.conn !in t.closed && t.message != Reading(t.slot.conn)
            && s.slot == NoHandler && (s.message.Reading? ==> s.message.conn in s.closed)
  {
    ReachableAccount(s);
  }

  /** Any step but the start of the next reconnect. */
  predicate NoReconnectStarts(actions: seq<Action>) {
    OfEvent(ReconnectStart) !in actions
  }

  /** About to fetch this connection, with no reconnect running. */
  predicate AboutToRead(s: State, conn: ConnId) {
    s.message == Fetching && s.slot == Registered(conn) && (s.event == Idle || s.event.Got?)
  }

  lemma StepStaysAboutToRead(s: State, a: Action, conn: ConnId)
    requires AboutToRead(s, conn) && Enabled(s, a) && a != OfEvent(ReconnectStart) && a != OfMessage(FetchHandler)
    ensures AboutToRead(Apply(s, a), conn)
  {
    match a
    case OfMessage(m) =>
    case OfDbus(d) => assert Apply(s, a) == DbusApply(s, d);
    case OfEvent(e) => assert Apply(s, a) == EventApply(s, e);
  }

  lemma {:induction false} SlotStays(s: State, actions: seq<Action>, t: State, conn: ConnId)
    requires AboutToRead(s, conn)
    requires Run(s, actions, t) && NoReconnectStarts(actions) && OfMessage(FetchHandler) !in actions
    ensures AboutToRead(t, conn)
    decreases |actions|
  {
    if actions != [] {
      assert actions[0] in actions && forall a :: a in actions[1..] ==> a in actions;
      StepStaysAboutToRead(s, actions[0], conn);
      SlotStays(Apply(s, actions[0]), actions[1..], t, conn);
    }
  }

  /**
    A reply of success leads to reading the connection that the reconnect installed: unless
    another reconnect has started since, the next thing `messageLoop` does is to read it.
   */
  lemma EstablishedIsRead(s: State, more: seq<Action>, t: State)
    requires Reachable(s) && s.message == AwaitingReply && s.reply == Holding(Established)
    requires s.event == Idle || s.event.Got?
    requires Run(Apply(s, OfMessage(TakeReply)), more, t)
    requires NoReconnectStarts(more) && OfMessage(FetchHandler) !in more
    ensures s.slot.Registered? && Enabled(t, OfMessage(FetchHandler))
    ensures Apply(t, OfMessage(FetchHandler)).message == Reading(s.slot.conn)
  {
    ReachableAccount(s);
    SlotStays(Apply(s, OfMessage(TakeReply)), more, t, s.slot.conn);
  }

  /** A lost or missing connection makes `messageLoop` ask for a new one next. */
  lemma LostConnectionIsRequested(s: State, a: MessageAction, closes: bool)
    requires Inv(s) && MessageEnabled(s, a) && CanClose(s, closes)
    requires a == ReadOtherError || (a == FetchHandler && s.slot == NoHandler)
    ensures var t := MessageApply(s, a);
            && MessageEnabled(t, MessageClose(closes))
            && MessageEnabled(MessageApply(t, MessageClose(closes)), Dispatch)
            && MessageApply(MessageApply(t, MessageClose(closes)), Dispatch).message == PostingRequest
  {
  }

  /** Closing on any side closes the registered connection, so that a read on it is woken. */
  lemma CloseWakesReader(s: State, a: Action)
    requires Reachable(s) && Enabled(s, a)
    requires a in {OfMessage(MessageClose(true)), OfDbus(DbusClose(true)), OfEvent(ReconnectStart)}
    ensures s.slot.Registered? ==> s.slot.conn in Apply(s, a).closed
    ensures Apply(s, a).message.Reading? && (s.slot == Registered(s.message.conn) || a.OfEvent?) ==>
              Enabled(Apply(s, a), OfMessage(ReadClosedError))
  {
    ReachableAccount(s);
  }

  // ---------------------------------------------------------------- a posted request is received

  /** `dbusEventLoop` is in one of its two receives from reconnectChan. */
  predicate CanReceive(s: State) {
    s.dbus == Selecting || s.dbus.Draining?
  }

  /** Steps that `eventLoop` is away from receiving the next event. */
  function EventDistance(s: State): nat {
    match s.event
    case Idle => 0
    case ReplySend(_) => 1
    case ReplyDrain(_) => 2
    case Connecting => 3
    case Got(_) => 4
  }

  /** Steps until `dbusEventLoop` receives from reconnectChan, whichever way it takes. */
  function ReceiveDistance(s: State): nat {
    match s.dbus
    case Selecting => 0
    case Draining(_, _) => 0
    case Posting(_) => 1 + EventDistance(s)
    case Checking => 2 + EventDistance(s)
    case Storing(_, _) => 3 + EventDistance(s)
    case Revoking => 3 + EventDistance(s)
    case Comparing(_, _) => 4 + EventDistance(s)
    case RevokeClosing => 4 + EventDistance(s)
    case Authorizing(_, _) => 5 + EventDistance(s)
    case AuthClosing(_, _) => 6 + EventDistance(s)
    case WaitingToken => 7 + EventDistance(s)
  }

  /** While a request waits, every step that any loop can take brings the receive closer. */
  lemma EveryStepNearsReceive(s: State, a: Action)
    requires Inv(s) && s.message == PostingRequest && !CanReceive(s) && Enabled(s, a)
    ensures Apply(s, a).message == PostingRequest
    ensures ReceiveDistance(Apply(s, a)) < ReceiveDistance(s)
  {
    match a
    case OfMessage(m) =>
    case OfDbus(d) => assert Apply(s, a) == DbusApply(s, d);
    case OfEvent(e) => assert Apply(s, a) == EventApply(s, e);
  }

  /** And some step is always possible: `eventLoop` moves if a post waits for it, else `dbusEventLoop` does. */
  function ReceiveAction(s: State, token: string, server: string): Action {
    match s.dbus
    case Posting(_) =>
      (match s.event
       case Idle => OfEvent(Post)
       case Got(_) => OfEvent(ReconnectStart)
       case Connecting => OfEvent(ReconnectEnd(Failed))
       case ReplyDrain(_) => OfEvent(DrainReply)
       case ReplySend(_) => OfEvent(SendReply))
    case Selecting => OfDbus(SelectTimeout)
    case WaitingToken => OfDbus(NoSignal)
    case AuthClosing(_, _) => OfDbus(DbusClose(s.event != Connecting))
    case Authorizing(_, _) => OfDbus(Authorize)
    case RevokeClosing => OfDbus(DbusClose(s.event != Connecting))
    case Revoking => OfDbus(Revoke)
    case Comparing(_, _) => OfDbus(Compare)
    case Draining(_, _) => OfDbus(DrainTimeout)
    case Storing(_, _) => OfDbus(Store)
    case Checking => OfDbus(Check(token, server))
  }

  lemma ReceiveActionEnabled(s: State, token: string, server: string)
    requires Inv(s)
    ensures Enabled(s, ReceiveAction(s, token, server))
  {
  }

  /** The request is not yet received in any state of the run but the last. */
  predicate Unreceived(s: State, actions: seq<Action>, t: State)
    requires Run(s, actions, t)
    decreases |actions|
  {
    actions == [] || (!CanReceive(s) && Unreceived(Apply(s, actions[0]), actions[1..], t))
  }

  lemma {:induction false} ReceiveIsBounded(s: State, actions: seq<Action>, t: State)
    requires Inv(s) && s.message == PostingRequest && Run(s, actions, t) && Unreceived(s, actions, t)
    ensures t.message == PostingRequest && |actions| + ReceiveDistance(t) <= ReceiveDistance(s)
    decreases |actions|
  {
    if actions != [] {
      EveryStepNearsReceive(s, actions[0]);
      StepKeepsInv(s, actions[0]);
      ReceiveIsBounded(Apply(s, actions[0]), actions[1..], t);
    }
  }

  /**
    A posted request is never stuck: under every schedule, after at most eleven steps of
    any loops `dbusEventLoop` is ready to receive it, and until then some loop can move.
   */
  lemma EveryScheduleReceives(s: State, actions: seq<Action>, t: State)
    requires Reachable(s) && s.message == PostingRequest && Run(s, actions, t) && Unreceived(s, actions, t)
    ensures |actions| <= 11 && t.message == PostingRequest
    ensures if CanReceive(t) then Enabled(t, OfMessage(Request)) else exists a :: Enabled(t, a)
  {
    ReachableInv(s);
    ReceiveIsBounded(s, actions, t);
    RunKeepsInv(s, actions, t);
    ReceiveActionEnabled(t, "", "");
  }
}
