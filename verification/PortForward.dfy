/**
  Port forwarding: the reader goroutine with its reused buffer, the one-message-in-flight
  rule of protocol version 1, and the loop that writes a received body to the connection.
 */
module PortForward {
  import opened Values

  const BUFF_SIZE: nat := 4096

  // ---------------------------------------------------------------- the reader and its buffer

  function Flatten(chunks: seq<Bytes>): Bytes {
    if chunks == [] then [] else Flatten(chunks[..|chunks| - 1]) + chunks[|chunks| - 1]
  }

  lemma FlattenSnoc(chunks: seq<Bytes>, chunk: Bytes)
    ensures Flatten(chunks + [chunk]) == Flatten(chunks) + chunk
  {
    assert (chunks + [chunk])[..|chunks|] == chunks;
  }

  /** How many bytes are read in `rounds` reads, each of at most a buffer. */
  function BytesRead(available: nat, readSize: nat -> nat, rounds: nat): (n: nat)
    ensures n <= available
  {
    if rounds == 0 then 0
    else Min(BytesRead(available, readSize, rounds - 1) + Min(readSize(rounds - 1), BUFF_SIZE), available)
  }

  /**
    The reader goroutine until the connection reports an error after `rounds` reads.  All
    reads go into one buffer, and each is handed over as a copy.  At the end every message
    handed over still holds its own chunk, and the chunks are the bytes read, in order.
   */
  method ReadLoop(stream: Bytes, readSize: nat -> nat, rounds: nat)
    returns (messages: seq<array<byte>>, ghost chunks: seq<Bytes>, position: nat)
    ensures |chunks| == |messages|
    ensures forall i :: 0 <= i < |messages| ==> fresh(messages[i]) && messages[i][..] == chunks[i]
    ensures forall i :: 0 <= i < |messages| ==> 0 < messages[i].Length <= BUFF_SIZE
    ensures position == BytesRead(|stream|, readSize, rounds) && Flatten(chunks) == stream[..position]
  {
    var data := new byte[BUFF_SIZE];
    messages, chunks, position := [], [], 0;
    for i := 0 to rounds
      invariant position == BytesRead(|stream|, readSize, i) && Flatten(chunks) == stream[..position]
      invariant fresh(data) && data.Length == BUFF_SIZE && |chunks| == |messages|
      invariant forall j :: 0 <= j < |messages| ==> fresh(messages[j]) && messages[j] != data
      invariant forall j :: 0 <= j < |messages| ==> messages[j][..] == chunks[j] && 0 < messages[j].Length <= BUFF_SIZE
    {
      var n := Min(Min(readSize(i), BUFF_SIZE), |stream| - position);
      forall k | 0 <= k < n {
        data[k] := stream[position + k];
      }
      if n > 0 {
        var tmp := new byte[n](k requires 0 <= k < data.Length reads data => data[k]);
        assert tmp[..] == stream[position..position + n];
        FlattenSnoc(chunks, tmp[..]);
        messages, chunks, position := messages + [tmp], chunks + [tmp[..]], position + n;
      }
    }
  }

  // ---------------------------------------------------------------- one message in flight

  datatype ForwarderPc =
    | Selecting
    | Locking(body: Bytes)    // has data, about to lock the ack mutex
    | Sending(body: Bytes)    // about to write the message

  datatype Flow = Flow(
    v1: bool, pc: ForwarderPc, locked: bool,
    crashed: bool,        // the mutex was unlocked while it was not locked
    read: seq<Bytes>,     // history: bodies received from the reader
    sent: seq<Bytes>,     // history: messages written to the session
    locks: nat,           // history: times the mutex was locked
    acks: nat,            // history: times it was unlocked
    lost: nat)            // history: messages whose write failed

  datatype Action = Take(body: Bytes) | Lock | Send | SendFails | Ack

  predicate Init(f: Flow) {
    f == Flow(f.v1, Selecting, false, false, [], [], 0, 0, 0)
  }

  /** An ACK may arrive at any time; in v2 it is an unknown message. */
  predicate Enabled(f: Flow, a: Action) {
    && !f.crashed
    && match a
       case Take(_) => f.pc == Selecting
       case Lock => f.pc.Locking? && (f.v1 ==> !f.locked)
       case Send => f.pc.Sending?
       case SendFails => f.pc.Sending?
       case Ack => f.v1
  }

  function Apply(f: Flow, a: Action): Flow
    requires Enabled(f, a)
  {
    match a
    case Take(body) => f.(pc := Locking(body), read := f.read + [body])
    case Lock => f.(pc := Sending(f.pc.body), locked := f.v1, locks := if f.v1 then f.locks + 1 else f.locks)
    case Send => f.(pc := Selecting, sent := f.sent + [f.pc.body])
    case SendFails => f.(pc := Selecting, lost := f.lost + 1)
    case Ack => f.(crashed := !f.locked, locked := false, acks := if f.locked then f.acks + 1 else f.acks)
  }

  predicate Run(f: Flow, actions: seq<Action>, g: Flow)
    decreases |actions|
  {
    if actions == [] then f == g
    else Enabled(f, actions[0]) && Run(Apply(f, actions[0]), actions[1..], g)
  }

  /** The body the forwarder has in hand. */
  function InHand(f: Flow): seq<Bytes> {
    if f.pc == Selecting then [] else [f.pc.body]
  }

  /** What holds whatever the peer does. */
  predicate FlowInv(f: Flow) {
    && f.locks == f.acks + (if f.locked then 1 else 0) && (f.locked ==> f.v1)
    && |f.read| == |f.sent| + f.lost + |InHand(f)|
    && (f.lost == 0 ==> f.read == f.sent + InHand(f))
    && (f.v1 ==> f.locks == |f.sent| + f.lost + (if f.pc.Sending? then 1 else 0))
  }

  lemma StepKeepsFlow(f: Flow, a: Action)
    requires FlowInv(f) && Enabled(f, a)
    ensures FlowInv(Apply(f, a)) && f.sent <= Apply(f, a).sent && f.lost <= Apply(f, a).lost
  {
  }

  lemma {:induction false} RunKeepsFlow(f: Flow, actions: seq<Action>, g: Flow)
    requires FlowInv(f) && Run(f, actions, g)
    ensures FlowInv(g) && g.v1 == f.v1 && f.sent <= g.sent && f.lost <= g.lost
    decreases |actions|
  {
    if actions != [] {
      StepKeepsFlow(f, actions[0]);
      RunKeepsFlow(Apply(f, actions[0]), actions[1..], g);
    }
  }

  /**
    Over every run, whatever the peer does: unlocks pair with locks, every body read is
    sent, lost or in hand, in order as long as none is lost, and the next ACK unlocks a
    mutex that is not locked if and only if every lock has been released before.
   */
  lemma AckCrashesExactly(f: Flow, actions: seq<Action>, g: Flow)
    requires Init(f) && Run(f, actions, g)
    ensures g.locks == g.acks + (if g.locked then 1 else 0)
    ensures |g.read| == |g.sent| + g.lost + |InHand(g)| && (g.lost == 0 ==> g.sent <= g.read)
    ensures Enabled(g, Ack) ==> (Apply(g, Ack).crashed <==> g.acks == g.locks)
  {
    RunKeepsFlow(f, actions, g);
  }

  /** An ACK before any message is such a run. */
  lemma StrayAckCrashes() returns (f: Flow, actions: seq<Action>, g: Flow)
    ensures Init(f) && Run(f, actions, g) && actions == [Ack] && g.crashed
  {
    f := Flow(true, Selecting, false, false, [], [], 0, 0, 0);
    actions, g := [Ack], Apply(f, Ack);
    assert actions[1..] == [];
  }

  /** The peer acknowledges only messages that it has and has not acknowledged. */
  predicate PeerConforms(f: Flow, actions: seq<Action>)
    decreases |actions|
  {
    actions == []
    || (Enabled(f, actions[0]) && (actions[0] == Ack ==> f.acks < |f.sent|)
        && PeerConforms(Apply(f, actions[0]), actions[1..]))
  }

  /** What holds in addition if the peer conforms. */
  predicate ConformingInv(f: Flow) {
    FlowInv(f) && !f.crashed && (f.v1 ==> f.acks <= |f.sent| && f.lost <= 1)
  }

  lemma {:induction false} ConformingRun(f: Flow, actions: seq<Action>, g: Flow)
    requires ConformingInv(f) && Run(f, actions, g) && PeerConforms(f, actions)
    ensures ConformingInv(g) && g.v1 == f.v1
    ensures f.v1 && f.lost > 0 ==> g.sent == f.sent && Ack !in actions
    decreases |actions|
  {
    if actions != [] {
      StepKeepsFlow(f, actions[0]);
      ConformingRun(Apply(f, actions[0]), actions[1..], g);
      assert actions == [actions[0]] + actions[1..];
    }
  }

  /**
    With a conforming peer no ACK ever finds the lock free.  As long as no write failed, in
    v1 at most one message is unacknowledged and, between sends, the lock is held exactly
    then; and in both versions the messages are the bodies read, in order, up to the one
    in hand.
   */
  lemma OneInFlight(f: Flow, actions: seq<Action>, g: Flow)
    requires Init(f) && Run(f, actions, g) && PeerConforms(f, actions)
    ensures !g.crashed
    ensures g.lost == 0 && g.v1 ==> |g.sent| - g.acks in {0, 1}
    ensures g.lost == 0 && g.v1 && !g.pc.Sending? ==> (g.locked <==> |g.sent| - g.acks == 1)
    ensures g.lost == 0 ==> g.sent <= g.read && g.read == g.sent + InHand(g)
  {
    ConformingRun(f, actions, g);
  }

  /** Until a write fails, all that the forwarder ever waits for is data, or an ACK that is outstanding. */
  lemma OnlyAcksAreAwaited(f: Flow, actions: seq<Action>, g: Flow)
    requires Init(f) && Run(f, actions, g) && PeerConforms(f, actions) && g.lost == 0 && g.pc != Selecting
    ensures Enabled(g, Lock) || Enabled(g, Send)
            || (g.v1 && g.acks < |g.sent| && Enabled(g, Ack) && Enabled(Apply(g, Ack), Lock))
  {
    ConformingRun(f, actions, g);
  }

  lemma {:induction false} LockedUntilAck(f: Flow, actions: seq<Action>, g: Flow)
    requires f.v1 && f.locked && !f.crashed && !f.pc.Sending? && Run(f, actions, g) && Ack !in actions
    ensures g.v1 && g.locked && !g.crashed && !g.pc.Sending? && g.sent == f.sent
    decreases |actions|
  {
    if actions != [] {
      assert actions[0] in actions && Ack !in actions[1..];
      LockedUntilAck(Apply(f, actions[0]), actions[1..], g);
    }
  }

  /**
    After a failed write, v1 sends nothing more until the peer acknowledges a message it
    never got; such an ACK releases the lock.
   */
  lemma FailedSendStalls(f: Flow, actions: seq<Action>, g: Flow, more: seq<Action>, h: Flow)
    requires Init(f) && f.v1 && Run(f, actions, g) && Enabled(g, SendFails) && g.locked
    requires Run(Apply(g, SendFails), more, h)
    ensures Ack !in more ==> h.sent == g.sent && h.locked && !Enabled(h, Lock) && !Enabled(h, Send)
    ensures Ack !in more ==>
              Enabled(h, Ack) && !Apply(h, Ack).crashed && (h.pc.Locking? ==> Enabled(Apply(h, Ack), Lock))
  {
    RunKeepsFlow(f, actions, g);
    if Ack !in more {
      LockedUntilAck(Apply(g, SendFails), more, h);
    }
  }

  /** So with a conforming peer nothing is ever sent again. */
  lemma FailedSendIsFinal(f: Flow, actions: seq<Action>, g: Flow, more: seq<Action>, h: Flow)
    requires Init(f) && f.v1 && Run(f, actions, g) && PeerConforms(f, actions) && g.lost > 0
    requires Run(g, more, h) && PeerConforms(g, more)
    ensures h.sent == g.sent && h.locked && !Enabled(h, Lock)
  {
    ConformingRun(f, actions, g);
    ConformingRun(g, more, h);
  }

  // ---------------------------------------------------------------- writing to the connection

  /** How many bytes the first `writes` writes deliver: each takes at least one byte of what is left. */
  function Delivered(total: nat, accepts: nat -> nat, writes: nat): (n: nat)
    ensures n <= total
  {
    if writes == 0 then 0
    else
      var before := Delivered(total, accepts, writes - 1);
      before + Min(if accepts(writes - 1) == 0 then 1 else accepts(writes - 1), total - before)
  }

  /** The first `d` bytes are delivered, the others are left. */
  predicate Sent(body0: Bytes, d: nat, delivered: Bytes, body: Bytes) {
    d <= |body0| && delivered == body0[..d] && body == body0[d..]
  }

  lemma SentMore(body0: Bytes, d: nat, delivered: Bytes, body: Bytes, n: nat)
    requires Sent(body0, d, delivered, body) && n <= |body|
    ensures Sent(body0, d + n, delivered + body[..n], body[n..])
  {
  }

  /**
    `Write`: write what is left until nothing is.  `accepts` is how many bytes the
    connection takes each time, at least one of a nonempty rest; `fails` that it errs.
    It ends with the first write that fails, or with the first after which nothing is left.
   */
  method Write(body0: Bytes, accepts: nat -> nat, fails: nat -> bool)
    returns (delivered: Bytes, ok: bool, writes: nat)
    ensures delivered == body0[..Delivered(|body0|, accepts, writes)]
    ensures ok ==> delivered == body0 && writes >= 1
    ensures !ok ==> fails(writes)
    ensures forall i :: 0 <= i < writes ==> !fails(i)
    ensures forall i :: 1 <= i < writes ==> Delivered(|body0|, accepts, i) < |body0|
  {
    var body := body0;
    delivered, writes := [], 0;
    while true
      invariant Sent(body0, Delivered(|body0|, accepts, writes), delivered, body)
      invariant writes >= 1 ==> body != []
      invariant forall i :: 0 <= i < writes ==> !fails(i)
      invariant forall i :: 1 <= i <= writes ==> Delivered(|body0|, accepts, i) < |body0|
      decreases |body|, writes == 0
    {
      if fails(writes) {
        return delivered, false, writes;
      }
      var n := Min(if accepts(writes) == 0 then 1 else accepts(writes), |body|);
      SentMore(body0, |delivered|, delivered, body, n);
      delivered, body, writes := delivered + body[..n], body[n..], writes + 1;
      if |body| <= 0 {
        break;
      }
    }
    ok := true;
  }

  // ---------------------------------------------------------------- the table of forwarders

  /** A forwarder whose connection was opened, and whether it has been closed. */
  datatype Forwarder = Forwarder(id: string, closed: bool)

  /** The forwarders of one handler in the order they were opened, and the map by connection id. */
  datatype Table = Table(all: seq<Forwarder>, byId: map<string, nat>)

  /** `portForwardHandlerNew` with valid parameters: the id is not looked up first. */
  function OpenForwarder(t: Table, id: string, dialOk: bool): Table {
    if dialOk then Table(t.all + [Forwarder(id, false)], t.byId[id := |t.all|])
    else t.(byId := t.byId[id := |t.all|] - {id})
  }

  /** `Close`: only the first call on a forwarder does anything. */
  function CloseForwarder(t: Table, f: nat): Table
    requires f < |t.all|
  {
    if t.all[f].closed then t
    else Table(t.all[f := t.all[f].(closed := true)], t.byId - {t.all[f].id})
  }

  /** Every entry of the map is an open forwarder under its own id. */
  predicate EntriesOpen(t: Table) {
    forall id :: id in t.byId ==> t.byId[id] < |t.all| && t.all[t.byId[id]] == Forwarder(id, false)
  }

  /** The map holds exactly the open forwarders, each under its own id. */
  predicate MapIsOpen(t: Table) {
    && EntriesOpen(t)
    && (forall f :: 0 <= f < |t.all| && !t.all[f].closed ==> t.all[f].id in t.byId && t.byId[t.all[f].id] == f)
  }

  lemma OpenOrFailFresh(t: Table, id: string, dialOk: bool)
    requires MapIsOpen(t) && id !in t.byId
    ensures MapIsOpen(OpenForwarder(t, id, dialOk))
  {
  }

  lemma OpenTaken(t: Table, id: string, dialOk: bool)
    requires MapIsOpen(t) && id in t.byId
    ensures !MapIsOpen(OpenForwarder(t, id, dialOk))
  {
    var f, u := t.byId[id], OpenForwarder(t, id, dialOk);
    assert u.all[f] == Forwarder(id, false);
  }

  /**
    A new forwarder, connected or not, keeps the map exact if and only if its id was free:
    otherwise the older one stays open where nothing can find it.
   */
  lemma OpenKeepsMap(t: Table, id: string, dialOk: bool)
    requires MapIsOpen(t)
    ensures MapIsOpen(OpenForwarder(t, id, dialOk)) <==> id !in t.byId
  {
    if id in t.byId {
      OpenTaken(t, id, dialOk);
    } else {
      OpenOrFailFresh(t, id, dialOk);
    }
  }

  /** Closing removes the forwarder's own entry and no other, however often it is called. */
  lemma CloseKeepsMap(t: Table, f: nat)
    requires MapIsOpen(t) && f < |t.all|
    ensures MapIsOpen(CloseForwarder(t, f)) && CloseForwarder(t, f).all[f].closed
    ensures CloseForwarder(CloseForwarder(t, f), f) == CloseForwarder(t, f)
    ensures forall id :: id in CloseForwarder(t, f).byId <==> id in t.byId && t.byId[id] != f
  {
  }

  datatype TableEvent = Open(id: string, dialOk: bool) | CloseOf(f: nat)

  /** Opens and closes in any order; a forwarder may be closed again, or after its id was reused. */
  predicate TableRun(t: Table, events: seq<TableEvent>, u: Table)
    decreases |events|
  {
    if events == [] then t == u
    else
      match events[0]
      case Open(id, dialOk) => TableRun(OpenForwarder(t, id, dialOk), events[1..], u)
      case CloseOf(f) => f < |t.all| && TableRun(CloseForwarder(t, f), events[1..], u)
  }

  /** The entries of the map stay open forwarders over every run, ids reused or not. */
  lemma {:induction false} RunKeepsEntries(t: Table, events: seq<TableEvent>, u: Table)
    requires EntriesOpen(t) && TableRun(t, events, u)
    ensures EntriesOpen(u)
    decreases |events|
  {
    if events != [] {
      match events[0]
      case Open(id, dialOk) => RunKeepsEntries(OpenForwarder(t, id, dialOk), events[1..], u);
      case CloseOf(f) => RunKeepsEntries(CloseForwarder(t, f), events[1..], u);
    }
  }

  predicate AllClosed(t: Table) {
    forall f :: 0 <= f < |t.all| ==> t.all[f].closed
  }

  /** What a handler's `Close` does to the table: it closes the forwarders in the map and empties it. */
  predicate ClosesMapped(t: Table, u: Table) {
    && u.byId == map[] && |u.all| == |t.all|
    && forall f :: 0 <= f < |t.all| ==>
         u.all[f].id == t.all[f].id && (u.all[f].closed <==> t.all[f].closed || f in t.byId.Values)
  }

  /** Every connection is closed at the end of a session exactly if the map held every open one. */
  lemma ClosesAllExactly(t: Table, u: Table)
    requires EntriesOpen(t) && ClosesMapped(t, u)
    ensures AllClosed(u) <==> MapIsOpen(t)
  {
    if AllClosed(u) {
      forall f | 0 <= f < |t.all| && !t.all[f].closed
        ensures t.all[f].id in t.byId && t.byId[t.all[f].id] == f
      {
        assert u.all[f].closed;
      }
    }
  }

  class PortForwardHandler {
    var table: Table
    var stopMessages: seq<nat>   // forwarders whose peer was told

    constructor ()
      ensures MapIsOpen(table) && table.all == [] && stopMessages == []
    {
      table, stopMessages := Table([], map[]), [];
    }

    method CloseOne(f: nat, sendStopMessage: bool)
      requires f < |table.all|
      modifies this
      ensures table == CloseForwarder(old(table), f)
      ensures stopMessages == old(stopMessages)
                              + if sendStopMessage && !old(table).all[f].closed then [f] else []
    {
      if table.all[f].closed {
        return;
      }
      if sendStopMessage {
        stopMessages := stopMessages + [f];
      }
      table := Table(table.all[f := table.all[f].(closed := true)], table.byId - {table.all[f].id});
    }

    /** `Close` of the handler, when the session ends: it closes what the map holds, and tells no peer. */
    method Close()
      requires EntriesOpen(table)
      modifies this
      ensures ClosesMapped(old(table), table) && stopMessages == old(stopMessages)
      ensures AllClosed(table) <==> MapIsOpen(old(table))
    {
      ghost var t := table;
      while table.byId != map[]
        invariant EntriesOpen(table) && |table.all| == |t.all| && stopMessages == old(stopMessages)
        invariant forall f :: 0 <= f < |t.all| ==> table.all[f].id == t.all[f].id
        invariant forall id :: id in table.byId ==> id in t.byId && table.byId[id] == t.byId[id]
        invariant forall f :: 0 <= f < |t.all| ==>
                    (table.all[f].closed <==>
                       || t.all[f].closed
                       || (t.all[f].id in t.byId && t.byId[t.all[f].id] == f && t.all[f].id !in table.byId))
        decreases table.byId.Keys
      {
        var id :| id in table.byId;
        CloseOne(table.byId[id], false);
      }
      ClosesAllExactly(t, table);
    }
  }
}
