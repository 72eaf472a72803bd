/**
  The session router: callers that route messages, the goroutines that serve sessions,
  and the shared session table.  Table operations, goroutine starts, the hand-over of a
  message, closing `done` and the deferred delete are atomic actions.

  The model allows any number of routing callers.  The daemon has one; the theorems are
  about that case, and `ServedOnceExactly` shows that they need it.
 */
module RouterProtocol {

  datatype CallerPc =
    | Idle
    | Missed(id: string)      // Load found nothing, about to LoadOrStore
    | Handing(id: string, sess: nat)   // in the select between Done and MsgChan

  /** A goroutine running `startSession` for one session. */
  datatype ServerPc =
    | Starting
    | Waiting      // in the select of ListenAndServe
    | Busy         // handling a message
    | Ending       // returned or panicked; handlers being closed
    | DoneClosed   // handlePanic closed done; about to delete the table entry
    | Finished

  datatype Server = Server(sess: nat, pc: ServerPc)

  /** A session and how often its `done` channel was closed; twice would be a crash. */
  datatype Session = Session(id: string, doneCloses: nat)

  /** A message for a session id, handed to a session by number. */
  datatype Delivery = Delivery(id: string, sess: nat)

  datatype State = State(
    callers: seq<CallerPc>, table: map<string, nat>, sessions: seq<Session>, servers: seq<Server>,
    routed: nat, taken: seq<Delivery>, errors: nat)   // history: messages routed, handed over, refused

  datatype Action =
    | Load(k: nat, id: string)
    | LoadOrStore(k: nat)
    | HandOver(k: nat, g: nat)
    | SeeDone(k: nat)
    | Begin(g: nat)
    | Continue(g: nat)
    | End(g: nat)
    | CloseDone(g: nat)
    | DeleteEntry(g: nat)

  predicate Init(s: State, callers: nat) {
    && |s.callers| == callers && (forall k :: 0 <= k < callers ==> s.callers[k] == Idle)
    && s.table == map[] && s.sessions == [] && s.servers == []
    && s.routed == s.errors == 0 && s.taken == []
  }

  predicate ServerAt(s: State, g: nat, pc: ServerPc) {
    g < |s.servers| && s.servers[g].pc == pc && s.servers[g].sess < |s.sessions|
  }

  predicate HandingAt(s: State, k: nat) {
    k < |s.callers| && s.callers[k].Handing? && s.callers[k].sess < |s.sessions|
  }

  predicate Enabled(s: State, a: Action) {
    match a
    case Load(k, _) => k < |s.callers| && s.callers[k] == Idle
    case LoadOrStore(k) => k < |s.callers| && s.callers[k].Missed?
    case HandOver(k, g) => HandingAt(s, k) && ServerAt(s, g, Waiting) && s.servers[g].sess == s.callers[k].sess
    case SeeDone(k) => HandingAt(s, k) && s.sessions[s.callers[k].sess].doneCloses > 0
    case Begin(g) => ServerAt(s, g, Starting)
    case Continue(g) => ServerAt(s, g, Busy)
    case End(g) => ServerAt(s, g, Waiting) || ServerAt(s, g, Busy)
    case CloseDone(g) => ServerAt(s, g, Ending)
    case DeleteEntry(g) => ServerAt(s, g, DoneClosed)
  }

  function SetServer(s: State, g: nat, pc: ServerPc): seq<Server>
    requires g < |s.servers|
  {
    s.servers[g := s.servers[g].(pc := pc)]
  }

  function Apply(s: State, a: Action): State
    requires Enabled(s, a)
  {
    match a
    case Load(k, id) =>
      s.(callers := s.callers[k := if id in s.table then Handing(id, s.table[id]) else Missed(id)],
         routed := s.routed + 1)
    case LoadOrStore(k) =>
      var id := s.callers[k].id;
      var loaded := id in s.table;
      var sess := if loaded then s.table[id] else |s.sessions|;
      s.(callers := s.callers[k := Handing(id, sess)],
         table := s.table[id := sess],
         sessions := if loaded then s.sessions else s.sessions + [Session(id, 0)],
         servers := s.servers + [Server(sess, Starting)])   // started in either case
    case HandOver(k, g) =>
      s.(callers := s.callers[k := Idle], servers := SetServer(s, g, Busy),
         taken := s.taken + [Delivery(s.callers[k].id, s.servers[g].sess)])
    case SeeDone(k) => s.(callers := s.callers[k := Idle], errors := s.errors + 1)
    case Begin(g) =>
      // a session whose done is already closed panics at once
      s.(servers := SetServer(s, g, if s.sessions[s.servers[g].sess].doneCloses > 0 then Ending else Waiting))
    case Continue(g) => s.(servers := SetServer(s, g, Waiting))
    case End(g) => s.(servers := SetServer(s, g, Ending))
    case CloseDone(g) =>
      var sess := s.servers[g].sess;
      s.(servers := SetServer(s, g, DoneClosed),
         sessions := s.sessions[sess := s.sessions[sess].(doneCloses := s.sessions[sess].doneCloses + 1)])
    case DeleteEntry(g) =>
      s.(servers := SetServer(s, g, Finished), table := s.table - {s.sessions[s.servers[g].sess].id})
  }

  predicate Run(s: State, actions: seq<Action>, t: State)
    decreases |actions|
  {
    if actions == [] then s == t
    else Enabled(s, actions[0]) && Run(Apply(s, actions[0]), actions[1..], t)
  }

  // ---------------------------------------------------------------- the promises

  /** Session number i is served by goroutine number i and by no other. */
  predicate ServedOnce(s: State) {
    |s.servers| == |s.sessions| && forall i :: 0 <= i < |s.servers| ==> s.servers[i].sess == i
  }

  /** `done` is closed once, after serving, and never again. */
  predicate DoneClosedOnce(s: State) {
    forall i :: 0 <= i < |s.sessions| && i < |s.servers| ==>
      s.sessions[i].doneCloses == if s.servers[i].pc == DoneClosed || s.servers[i].pc == Finished then 1 else 0
  }

  /** The table holds exactly the sessions that are not finished, each under its own id. */
  predicate TableIsLive(s: State) {
    && (forall id :: id in s.table ==>
          s.table[id] < |s.sessions| && s.table[id] < |s.servers|
          && s.sessions[s.table[id]].id == id && s.servers[s.table[id]].pc != Finished)
    && (forall i :: 0 <= i < |s.sessions| && i < |s.servers| && s.servers[i].pc != Finished ==>
          s.sessions[i].id in s.table && s.table[s.sessions[i].id] == i)
  }

  predicate MessagesAccounted(s: State) {
    |s.callers| == 1 && s.routed == |s.taken| + s.errors + (if s.callers[0] == Idle then 0 else 1)
  }

  predicate CallerOk(s: State) {
    && |s.callers| == 1
    && (s.callers[0].Missed? ==> s.callers[0].id !in s.table)
    && (s.callers[0].Handing? ==>
          s.callers[0].sess < |s.sessions| && s.sessions[s.callers[0].sess].id == s.callers[0].id)
  }

  /** Every message handed over went to a session with its own id. */
  predicate DeliveredToOwn(s: State) {
    forall d :: d in s.taken ==> d.sess < |s.sessions| && s.sessions[d.sess].id == d.id
  }

  predicate Inv(s: State) {
    && ServedOnce(s) && DoneClosedOnce(s) && TableIsLive(s) && MessagesAccounted(s) && CallerOk(s)
    && DeliveredToOwn(s)
  }

  lemma CallerStepKeepsInv(s: State, a: Action)
    requires Inv(s) && Enabled(s, a) && (a.Load? || a.HandOver? || a.SeeDone?)
    ensures Inv(Apply(s, a))
  {
  }

  /** The one caller never loses the race: the id it missed is still missing. */
  lemma StoreKeepsInv(s: State, k: nat)
    requires Inv(s) && Enabled(s, LoadOrStore(k))
    ensures s.callers[k].id !in s.table && Inv(Apply(s, LoadOrStore(k)))
  {
  }

  lemma ServeStepKeepsInv(s: State, a: Action)
    requires Inv(s) && Enabled(s, a) && (a.Begin? || a.Continue? || a.End?)
    ensures Inv(Apply(s, a))
  {
  }

  lemma FinishStepKeepsInv(s: State, a: Action)
    requires Inv(s) && Enabled(s, a) && (a.CloseDone? || a.DeleteEntry?)
    ensures Inv(Apply(s, a))
  {
  }

  lemma StepKeepsInv(s: State, a: Action)
    requires Inv(s) && Enabled(s, a)
    ensures Inv(Apply(s, a))
  {
    if a.LoadOrStore? {
      StoreKeepsInv(s, a.k);
    } else if a.Load? || a.HandOver? || a.SeeDone? {
      CallerStepKeepsInv(s, a);
    } else if a.CloseDone? || a.DeleteEntry? {
      FinishStepKeepsInv(s, a);
    } else {
      ServeStepKeepsInv(s, a);
    }
  }

  lemma {:induction false} RunKeepsInv(s: State, actions: seq<Action>, t: State)
    requires Inv(s) && Run(s, actions, t)
    ensures Inv(t)
    decreases |actions|
  {
    if actions != [] {
      StepKeepsInv(s, actions[0]);
      RunKeepsInv(Apply(s, actions[0]), actions[1..], t);
    }
  }

  /**
    With one routing caller, in every interleaving: every session is served by exactly one
    goroutine, its `done` is closed at most once, every message is handed over to a session
    with its id or refused, and the table holds exactly the unfinished sessions.
   */
  lemma OneCallerIsSafe(s: State, actions: seq<Action>, t: State)
    requires Init(s, 1) && Run(s, actions, t)
    ensures ServedOnce(t) && DoneClosedOnce(t) && TableIsLive(t) && MessagesAccounted(t) && DeliveredToOwn(t)
  {
    RunKeepsInv(s, actions, t);
  }

  /** The deferred delete removes the finishing session's own entry, never a newer one. */
  lemma DeleteRemovesItself(s: State, actions: seq<Action>, t: State, g: nat)
    requires Init(s, 1) && Run(s, actions, t) && Enabled(t, DeleteEntry(g))
    ensures var id := t.sessions[t.servers[g].sess].id;
            id in t.table && t.table[id] == t.servers[g].sess
            && Apply(t, DeleteEntry(g)).table == t.table - {id}
  {
    RunKeepsInv(s, actions, t);
  }

  /** A message on its way is taken or refused after at most two moves of its own session. */
  lemma HandOverIsResolved(s: State, actions: seq<Action>, t: State) returns (more: seq<Action>, u: State)
    requires Init(s, 1) && Run(s, actions, t) && HandingAt(t, 0)
    ensures Run(t, more, u) && u.callers == [Idle] && |more| <= 2
    ensures |u.taken| + u.errors == |t.taken| + t.errors + 1
  {
    RunKeepsInv(s, actions, t);
    var g := t.callers[0].sess;
    var pc := t.servers[g].pc;
    if pc == DoneClosed || pc == Finished {
      more, u := [SeeDone(0)], Apply(t, SeeDone(0));
    } else if pc == Waiting {
      more, u := [HandOver(0, g)], Apply(t, HandOver(0, g));
    } else {
      var a := if pc == Starting then Begin(g) else if pc == Busy then Continue(g) else CloseDone(g);
      var t1 := Apply(t, a);
      var b := if pc == Ending then SeeDone(0) else HandOver(0, g);
      more, u := [a, b], Apply(t1, b);
      assert more[1..][1..] == [];
    }
  }

  /** The moves of a session's own goroutine to its end. */
  function FinishMoves(s: State, g: nat): seq<Action>
    requires g < |s.servers|
  {
    match s.servers[g].pc
    case Starting => [Begin(g), End(g), CloseDone(g), DeleteEntry(g)]
    case Waiting => [End(g), CloseDone(g), DeleteEntry(g)]
    case Busy => [End(g), CloseDone(g), DeleteEntry(g)]
    case Ending => [CloseDone(g), DeleteEntry(g)]
    case DoneClosed => [DeleteEntry(g)]
    case Finished => []
  }

  lemma {:induction false} FinishByOwnMoves(t: State, g: nat) returns (u: State)
    requires Inv(t) && g < |t.servers|
    ensures Run(t, FinishMoves(t, g), u) && Inv(u) && g < |u.servers| && u.servers[g].pc == Finished
    ensures |u.sessions| == |t.sessions| && u.callers == t.callers
    decreases |FinishMoves(t, g)|
  {
    u := t;
    if t.servers[g].pc != Finished {
      var a := FinishMoves(t, g)[0];
      StepKeepsInv(t, a);
      assert FinishMoves(Apply(t, a), g) == FinishMoves(t, g)[1..];
      u := FinishByOwnMoves(Apply(t, a), g);
    }
  }

  /** Every session can end by itself from wherever it is, and is then gone from the table. */
  lemma SessionCanFinish(s: State, actions: seq<Action>, t: State, g: nat) returns (u: State)
    requires Init(s, 1) && Run(s, actions, t) && g < |t.servers|
    ensures Run(t, FinishMoves(t, g), u) && g < |u.servers| && u.servers[g].pc == Finished
    ensures forall id :: id in u.table ==> u.table[id] != g
  {
    RunKeepsInv(s, actions, t);
    u := FinishByOwnMoves(t, g);
  }

  /** Goroutine `g` is not, and without a `Continue` will not be, ready for a message. */
  predicate Engaged(s: State, g: nat) {
    g < |s.servers| && (s.servers[g].pc == Busy || s.servers[g].pc == Ending || s.servers[g].pc == DoneClosed
                        || s.servers[g].pc == Finished)
  }

  lemma {:induction false} StaysEngaged(s: State, actions: seq<Action>, t: State, g: nat)
    requires Engaged(s, g) && Run(s, actions, t) && Continue(g) !in actions
    ensures Engaged(t, g)
    decreases |actions|
  {
    if actions != [] {
      assert actions[0] in actions && forall a :: a in actions[1..] ==> a in actions;
      StaysEngaged(Apply(s, actions[0]), actions[1..], t, g);
    }
  }

  /** A session handles one message at a time, however many callers there are. */
  lemma OneMessageAtATime(s: State, k: nat, g: nat, more: seq<Action>, t: State, j: nat)
    requires Enabled(s, HandOver(k, g)) && Run(Apply(s, HandOver(k, g)), more, t) && Continue(g) !in more
    ensures !Enabled(t, HandOver(j, g))
  {
    StaysEngaged(Apply(s, HandOver(k, g)), more, t, g);
  }

  /** Goroutine `g` has not served and serves a session whose `done` is closed. */
  predicate Late(s: State, g: nat) {
    g < |s.servers| && s.servers[g].sess < |s.sessions| && s.sessions[s.servers[g].sess].doneCloses > 0
    && s.servers[g].pc != Waiting && s.servers[g].pc != Busy
  }

  /** A goroutine that starts on a finished session serves no message, however many callers there are. */
  lemma {:induction false} LateServesNothing(s: State, actions: seq<Action>, t: State, g: nat)
    requires Late(s, g) && Run(s, actions, t)
    ensures Late(t, g) && forall k :: HandOver(k, g) !in actions
    decreases |actions|
  {
    if actions != [] {
      LateServesNothing(Apply(s, actions[0]), actions[1..], t, g);
      assert actions == [actions[0]] + actions[1..];
    }
  }

  /** With two or more callers the loser of the store race starts the session a second time. */
  lemma ManyCallersServeTwice(n: nat) returns (s: State, actions: seq<Action>, t: State)
    requires n >= 2
    ensures Init(s, n) && Run(s, actions, t)
    ensures |t.sessions| == 1 && t.servers == [Server(0, Starting), Server(0, Starting)]
  {
    s := State(seq(n, _ => Idle), map[], [], [], 0, [], 0);
    var a1, a2, a3, a4 := Load(0, "x"), Load(1, "x"), LoadOrStore(0), LoadOrStore(1);
    var s1 := Apply(s, a1);
    var s2 := Apply(s1, a2);
    var s3 := Apply(s2, a3);
    t := Apply(s3, a4);
    actions := [a1, a2, a3, a4];
    assert Run(s3, [a4], t) by { assert [a4][1..] == []; }
    assert Run(s2, [a3, a4], t) by { assert [a3, a4][1..] == [a4]; }
    assert Run(s1, [a2, a3, a4], t) by { assert [a2, a3, a4][1..] == [a3, a4]; }
    assert actions[1..] == [a2, a3, a4];
  }

  /** Every session is served by one goroutine on every run of so many callers. */
  ghost predicate AlwaysServedOnce(n: nat) {
    forall s, actions, t :: Init(s, n) && Run(s, actions, t) ==> ServedOnce(t)
  }

  lemma NoCallerNoRun(s: State, actions: seq<Action>, t: State)
    requires Init(s, 0) && Run(s, actions, t)
    ensures ServedOnce(t)
  {
  }

  /** The source needs its one routing caller: sessions are always served once if and only if there is no second. */
  lemma ServedOnceExactly(n: nat)
    ensures AlwaysServedOnce(n) <==> n <= 1
  {
    if n >= 2 {
      var s, actions, t := ManyCallersServeTwice(n);
      assert !ServedOnce(t);
    } else {
      forall s, actions, t | Init(s, n) && Run(s, actions, t) ensures ServedOnce(t) {
        if n == 0 {
          NoCallerNoRun(s, actions, t);
        } else {
          RunKeepsInv(s, actions, t);
        }
      }
    }
  }
}
