/** The chunk and ACK format that both halves of a file transfer share. */
module TransferTypes {
  import opened Values

  /** A file chunk message; the empty body marks the end of the file. */
  datatype Chunk = Chunk(offset: nat, body: Bytes)

  const BUF_SIZE: nat := 4096
  const ACK_BATCH: nat := 10             // ACKSlidingWindowSend
  const WINDOW: nat := 20 * BUF_SIZE     // ACKSlidingWindowRecv * FileTransferBufSize

  predicate IsOffset(x: int) {
    0 <= x < TWO_63
  }

  datatype Option<+T> = None | Some(value: T)
}

/**
  The sending half: `DownloadHandler` with `chunkWriter.Write` and `waitAck`.

  `SenderEnabled` and `SenderApply` say which chunk may be sent and which ACK may be
  taken next; the method `DownloadHandler` runs the source's loops and its trace is
  proved to be a run of that automaton, for every behaviour of the peer, the file
  reads, the response writer and the rate limits.
 */
module Download {
  import opened TransferTypes
  import opened Values

  datatype SenderPc =
    | Copying(left: nat)   // v1, inside io.CopyBuffer with this much window left
    | Streaming            // v2, inside io.CopyBuffer
    | AwaitingWindow       // v1, window exhausted, in waitAck
    | AwaitingFinal        // EOF chunk sent

  datatype Sender = Sender(pc: SenderPc, offset: nat, ackOffset: int)

  datatype Event = Send(chunk: Chunk) | TakeAck(offset: int)

  /** The window computation, in int64 arithmetic. */
  function WindowBytes(ackOffset: int, offset: int): int {
    Wrap64(Wrap64(ackOffset - offset) + WINDOW)
  }

  /** A positive window is the true one: an ACK close to the int64 maximum only stalls the sender. */
  lemma WindowBytesIsExact(ackOffset: int, offset: int)
    requires IsOffset(ackOffset) && IsOffset(offset)
    ensures WindowBytes(ackOffset, offset) > 0 <==> 0 < ackOffset - offset + WINDOW < TWO_63
    ensures WindowBytes(ackOffset, offset) > 0 ==> WindowBytes(ackOffset, offset) == ackOffset - offset + WINDOW
  {
  }

  function InitialSender(v2: bool): Sender {
    Sender(if v2 then Streaming else Copying(WINDOW), 0, 0)
  }

  predicate SenderDone(s: Sender) {
    s.pc == AwaitingFinal && s.ackOffset >= s.offset
  }

  predicate SenderEnabled(file: Bytes, s: Sender, e: Event) {
    match e
    case Send(c) =>
      && c.offset == s.offset
      && (if c.body == [] then (s.pc.Copying? || s.pc.Streaming?) && s.offset == |file|
          else
            && s.offset + |c.body| <= |file|
            && c.body == file[s.offset..s.offset + |c.body|]
            && (s.pc.Streaming? || (s.pc.Copying? && |c.body| <= Min(BUF_SIZE, s.pc.left))))
    case TakeAck(off) =>
      && IsOffset(off)
      && (s.pc == AwaitingWindow || (s.pc == AwaitingFinal && s.ackOffset < s.offset))
  }

  function PcAfterSend(pc: SenderPc, n: nat): SenderPc
    requires pc.Copying? && n != 0 ==> n <= pc.left
  {
    if n == 0 then AwaitingFinal
    else if pc.Copying? then (if n == pc.left then AwaitingWindow else Copying(pc.left - n))
    else pc
  }

  function PcAfterAck(s: Sender, off: int): SenderPc {
    if s.pc != AwaitingWindow then s.pc
    else if WindowBytes(off, s.offset) > 0 then Copying(WindowBytes(off, s.offset))
    else AwaitingWindow
  }

  function SenderApply(file: Bytes, s: Sender, e: Event): Sender
    requires SenderEnabled(file, s, e)
  {
    match e
    case Send(c) =>
      Sender(PcAfterSend(s.pc, |c.body|), s.offset + |c.body|,
             if s.pc == Streaming && c.body == [] then s.offset else s.ackOffset)
    case TakeAck(off) => s.(pc := PcAfterAck(s, off), ackOffset := off)
  }

  ghost predicate Run(file: Bytes, v2: bool, trace: seq<Event>, t: Sender)
    decreases |trace|
  {
    if trace == [] then t == InitialSender(v2)
    else
      var n := |trace| - 1;
      exists s :: Run(file, v2, trace[..n], s) && SenderEnabled(file, s, trace[n])
                  && t == SenderApply(file, s, trace[n])
  }

  lemma RunExtend(file: Bytes, v2: bool, trace: seq<Event>, s: Sender, e: Event)
    requires Run(file, v2, trace, s) && SenderEnabled(file, s, e)
    ensures Run(file, v2, trace + [e], SenderApply(file, s, e))
  {
    assert (trace + [e])[..|trace|] == trace;
  }

  // ---------------------------------------------------------------- what a trace shows

  /** The bodies sent so far, in order. */
  function Sent(trace: seq<Event>): Bytes
    decreases |trace|
  {
    if trace == [] then []
    else
      var n := |trace| - 1;
      if trace[n].Send? then Sent(trace[..n]) + trace[n].chunk.body else Sent(trace[..n])
  }

  /** The most recent ACK; the source starts from zero. */
  function LastAck(trace: seq<Event>): int
    decreases |trace|
  {
    if trace == [] then 0
    else
      var n := |trace| - 1;
      if trace[n].TakeAck? then trace[n].offset else LastAck(trace[..n])
  }

  /** The ACKs taken so far, in order. */
  function Acks(trace: seq<Event>): seq<int>
    decreases |trace|
  {
    if trace == [] then []
    else
      var n := |trace| - 1;
      if trace[n].TakeAck? then Acks(trace[..n]) + [trace[n].offset] else Acks(trace[..n])
  }

  lemma AcksExtend(trace: seq<Event>, e: Event)
    ensures Acks(trace + [e]) == if e.TakeAck? then Acks(trace) + [e.offset] else Acks(trace)
  {
    assert (trace + [e])[..|trace|] == trace;
  }

  predicate HasEof(trace: seq<Event>)
    decreases |trace|
  {
    if trace == [] then false
    else
      var n := |trace| - 1;
      HasEof(trace[..n]) || (trace[n].Send? && trace[n].chunk.body == [])
  }

  /**
    What is promised of a chunk sent after `before`: it starts where the bytes sent so far
    end, it is not preceded by the end-of-file chunk, it is itself the end-of-file chunk
    only if the whole file has been sent, and in v1 a data chunk holds at most 4096 bytes
    and leaves the sent offset within the window of the most recent ACK.
   */
  predicate ChunkOk(file: Bytes, v2: bool, before: seq<Event>, c: Chunk) {
    && c.offset == |Sent(before)|
    && !HasEof(before)
    && (c.body == [] ==> Sent(before) == file)
    && (c.body != [] && !v2 ==>
          |c.body| <= BUF_SIZE && |Sent(before)| + |c.body| <= LastAck(before) + WINDOW)
  }

  predicate StreamShape(file: Bytes, v2: bool, trace: seq<Event>) {
    && Sent(trace) <= file
    && (forall i :: 0 <= i < |trace| && trace[i].Send? ==> ChunkOk(file, v2, trace[..i], trace[i].chunk))
  }

  /** How the automaton's state reflects the trace that led to it. */
  predicate Reflects(file: Bytes, v2: bool, trace: seq<Event>, t: Sender) {
    && t.offset == |Sent(trace)|
    && (!v2 ==> t.ackOffset == LastAck(trace) && !t.pc.Streaming?)
    && (v2 ==> t.pc == Streaming || (t.pc == AwaitingFinal && t.ackOffset == t.offset))
    && IsOffset(t.ackOffset)
    && (HasEof(trace) <==> t.pc == AwaitingFinal)
    && (HasEof(trace) ==> Sent(trace) == file)
    && (t.pc.Copying? ==> 0 < t.pc.left == t.ackOffset - t.offset + WINDOW)
  }

  lemma StepShape(file: Bytes, v2: bool, trace: seq<Event>, s: Sender, e: Event)
    requires |file| < TWO_63
    requires StreamShape(file, v2, trace) && Reflects(file, v2, trace, s) && SenderEnabled(file, s, e)
    ensures StreamShape(file, v2, trace + [e])
    ensures Reflects(file, v2, trace + [e], SenderApply(file, s, e))
  {
    var after := trace + [e];
    assert after[..|trace|] == trace && after[|trace|] == e;
    forall i | 0 <= i < |after| && after[i].Send?
      ensures ChunkOk(file, v2, after[..i], after[i].chunk)
    {
      if i < |trace| {
        assert after[..i] == trace[..i];
      }
    }
    match e
    case Send(c) => assert file[..s.offset] + c.body == file[..s.offset + |c.body|];
    case TakeAck(off) => WindowBytesIsExact(off, s.offset);
  }

  /** Every run of the sender, whatever ACKs arrive, streams a prefix of the file within the window. */
  lemma {:induction false} RunShape(file: Bytes, v2: bool, trace: seq<Event>, t: Sender)
    requires |file| < TWO_63 && Run(file, v2, trace, t)
    ensures StreamShape(file, v2, trace) && Reflects(file, v2, trace, t)
    decreases |trace|
  {
    if trace != [] {
      var n := |trace| - 1;
      var s :| Run(file, v2, trace[..n], s) && SenderEnabled(file, s, trace[n])
               && t == SenderApply(file, s, trace[n]);
      RunShape(file, v2, trace[..n], s);
      StepShape(file, v2, trace[..n], s, trace[n]);
      assert trace[..n] + [trace[n]] == trace;
    }
  }

  // ---------------------------------------------------------------- the handler

  /** A message handed to the running transfer; an ACK may lack its offset property. */
  datatype Incoming = Ack(offset: Option<int>) | PeerError | Unexpected

  datatype Failure = ReadFailed | SendFailed | LimitReached | Aborted | UnexpectedMessage | BlankAck

  /** `waitAck`: what the next message on `msgChan` means; no message means the channel was closed. */
  function WaitAck(peer: seq<Incoming>): (r: (Option<Failure>, int))
    ensures r.0 == None ==> peer != [] && peer[0] == Ack(Some(r.1)) && 0 <= r.1
    ensures r.0 == Some(Aborted) <==> peer == [] || peer[0].PeerError?
    ensures r.0 == Some(UnexpectedMessage) <==> peer != [] && peer[0].Unexpected?
    ensures r.0 == Some(BlankAck) <==>
              peer != [] && peer[0].Ack? && (peer[0].offset == None || peer[0].offset.value < 0)
  {
    if peer == [] then (Some(Aborted), -1)
    else match peer[0]
      case PeerError => (Some(Aborted), -1)
      case Unexpected => (Some(UnexpectedMessage), -1)
      case Ack(None) => (Some(BlankAck), -1)
      case Ack(Some(off)) => if off < 0 then (Some(BlankAck), -1) else (None, off)
  }

  /** The environment, indexed by the length of the trace at the time of asking. */
  datatype Environment = Environment(
    readSize: nat -> nat,       // bytes the next file read would like to return
    readFails: nat -> bool,
    sendFails: nat -> bool,
    limitReached: nat -> bool)  // BytesSent reports the rate limit

  /** A read returns at least one byte, at most what is left, and in v1 at most a buffer and the window. */
  function ReadSize(file: Bytes, v2: bool, env: Environment, k: nat, offset: nat, left: int): (n: nat)
    requires offset < |file| && (v2 || left > 0)
    ensures 1 <= n <= |file| - offset && (v2 || n <= Min(BUF_SIZE, left))
  {
    var room := if v2 then |file| - offset else Min(Min(BUF_SIZE, left), |file| - offset);
    if env.readSize(k) == 0 then 1 else Min(env.readSize(k), room)
  }

  /** Where the sender is after copying `n` of at most `limit` bytes. */
  function CopyPc(v2: bool, limit: nat, n: nat): SenderPc
    requires v2 || n <= limit
  {
    if v2 then Streaming else if n == limit then AwaitingWindow else Copying(limit - n)
  }

  /** The ACKs taken are the first messages of the peer, none skipped or reordered. */
  predicate AcksFrom(peer: seq<Incoming>, acks: seq<int>) {
    |acks| <= |peer| && forall i :: 0 <= i < |acks| ==> peer[i] == Ack(Some(acks[i]))
  }

  /** The sender waits for an ACK. */
  predicate Waiting(s: Sender) {
    s.pc == AwaitingWindow || (s.pc == AwaitingFinal && s.ackOffset < s.offset)
  }

  /** The handler fails only for a cause in its environment, or while it waits for a bad ACK. */
  predicate Caused(peer: seq<Incoming>, env: Environment, trace: seq<Event>, s: Sender, f: Failure) {
    match f
    case ReadFailed => env.readFails(|trace|) && s.pc != AwaitingFinal
    case SendFailed => env.sendFails(|trace|) && s.pc != AwaitingFinal
    case LimitReached => env.limitReached(|trace|) && s.pc != AwaitingFinal
    case _ => |Acks(trace)| <= |peer| && WaitAck(peer[|Acks(trace)|..]).0 == Some(f) && Waiting(s)
  }

  /**
    Nothing failed at step `k`: a chunk was read and written without an error; the file's
    end was read without one; and after a window, and in v1 before the end-of-file chunk,
    the rate limit was not reached.
   */
  predicate PassedAt(v2: bool, env: Environment, before: seq<Event>, e: Event) {
    var k := |before|;
    match e
    case Send(c) => !env.sendFails(k) && !env.readFails(k) && (c.body == [] && !v2 ==> !env.limitReached(k))
    case TakeAck(_) => EndsWithData(before) ==> !env.limitReached(k)
  }

  /** The latest event is a data chunk: a window has just been used up. */
  predicate EndsWithData(trace: seq<Event>) {
    trace != [] && trace[|trace| - 1].Send? && trace[|trace| - 1].chunk.body != []
  }

  predicate Passed(v2: bool, env: Environment, trace: seq<Event>) {
    forall k :: 0 <= k < |trace| ==> PassedAt(v2, env, trace[..k], trace[k])
  }

  lemma PassedExtend(v2: bool, env: Environment, trace: seq<Event>, e: Event)
    requires Passed(v2, env, trace) && PassedAt(v2, env, trace, e)
    ensures Passed(v2, env, trace + [e])
  {
    var after := trace + [e];
    forall k | 0 <= k < |after| ensures PassedAt(v2, env, after[..k], after[k]) {
      assert after[..k] == if k < |trace| then trace[..k] else trace;
    }
  }

  /** One more event of the handler. */
  lemma TraceExtend(file: Bytes, v2: bool, env: Environment, trace: seq<Event>, s: Sender, e: Event)
    requires Run(file, v2, trace, s) && SenderEnabled(file, s, e)
    requires Passed(v2, env, trace) && PassedAt(v2, env, trace, e)
    ensures Run(file, v2, trace + [e], SenderApply(file, s, e)) && Passed(v2, env, trace + [e])
    ensures Acks(trace + [e]) == if e.TakeAck? then Acks(trace) + [e.offset] else Acks(trace)
    ensures EndsWithData(trace + [e]) <==> e.Send? && e.chunk.body != []
  {
    RunExtend(file, v2, trace, s, e);
    PassedExtend(v2, env, trace, e);
    AcksExtend(trace, e);
  }

  /** How the handler ended: in the sender's state `s`, for the reason given. */
  predicate Outcome(peer: seq<Incoming>, env: Environment, trace: seq<Event>, s: Sender, failure: Option<Failure>) {
    && AcksFrom(peer, Acks(trace))
    && (failure == None ==> SenderDone(s))
    && (failure.Some? ==> Caused(peer, env, trace, s, failure.value))
  }

  /** What the way it ended says about the stream. */
  lemma OutcomeShape(file: Bytes, v2: bool, peer: seq<Incoming>, env: Environment, trace: seq<Event>, s: Sender,
                     failure: Option<Failure>)
    requires |file| < TWO_63 && Run(file, v2, trace, s) && Outcome(peer, env, trace, s, failure)
    ensures StreamShape(file, v2, trace)
    ensures failure == None ==> HasEof(trace) && Sent(trace) == file && (v2 || LastAck(trace) >= |file|)
    ensures HasEof(trace) && failure != None ==> failure.value !in {ReadFailed, LimitReached, SendFailed}
  {
    RunShape(file, v2, trace, s);
  }

  /** `chunkWriter.Write`: the offset moves on only if the chunk could be written. */
  method Write(file: Bytes, v2: bool, env: Environment, trace0: seq<Event>, offset0: nat, body: Bytes,
               ghost s0: Sender)
    returns (trace: seq<Event>, offset: nat, failure: Option<Failure>, ghost s: Sender)
    requires Run(file, v2, trace0, s0) && Passed(v2, env, trace0)
    requires SenderEnabled(file, s0, Send(Chunk(offset0, body)))
    requires !env.readFails(|trace0|) && (body == [] && !v2 ==> !env.limitReached(|trace0|))
    ensures failure == if env.sendFails(|trace0|) then Some(SendFailed) else None
    ensures failure.Some? ==> trace == trace0 && offset == offset0 && s == s0
    ensures failure == None ==>
              && trace == trace0 + [Send(Chunk(offset0, body))] && offset == offset0 + |body|
              && s == SenderApply(file, s0, Send(Chunk(offset0, body)))
    ensures Run(file, v2, trace, s) && Passed(v2, env, trace) && Acks(trace) == Acks(trace0)
    ensures failure == None ==> (EndsWithData(trace) <==> body != [])
  {
    trace, offset, s := trace0, offset0, s0;
    if env.sendFails(|trace|) {
      failure := Some(SendFailed);
      return;
    }
    var e := Send(Chunk(offset, body));
    TraceExtend(file, v2, env, trace, s, e);
    trace, offset, failure, s := trace + [e], offset + |body|, None, SenderApply(file, s, e);
  }

  /** Where copying is after some of at most `limit` bytes. */
  ghost predicate CopiedTo(file: Bytes, v2: bool, env: Environment, trace0: seq<Event>, s0: Sender, limit: nat,
                           trace: seq<Event>, s: Sender, offset: nat) {
    && Run(file, v2, trace, s) && Passed(v2, env, trace) && Acks(trace) == Acks(trace0)
    && s0.offset <= offset <= |file| && (v2 || offset - s0.offset <= limit)
    && s == Sender(CopyPc(v2, limit, offset - s0.offset), offset, s0.ackOffset)
    && (offset > s0.offset ==> EndsWithData(trace))
  }

  /** Copying `n` bytes is a step of the automaton. */
  lemma CopyStep(file: Bytes, v2: bool, limit: nat, start: nat, s: Sender, n: nat, body: Bytes)
    requires start <= s.offset && 1 <= n <= |file| - s.offset && body == file[s.offset..s.offset + n]
    requires v2 || (s.offset - start < limit && n <= Min(BUF_SIZE, limit - (s.offset - start)))
    requires s.pc == CopyPc(v2, limit, s.offset - start)
    ensures SenderEnabled(file, s, Send(Chunk(s.offset, body)))
    ensures SenderApply(file, s, Send(Chunk(s.offset, body))) ==
            Sender(CopyPc(v2, limit, s.offset + n - start), s.offset + n, s.ackOffset)
  {
  }

  /** Copy one buffer; the file has not been read to its end. */
  method CopyOne(file: Bytes, v2: bool, env: Environment, ghost trace0: seq<Event>, ghost s0: Sender, limit: nat,
                 left: int, trace1: seq<Event>, offset1: nat, ghost s1: Sender)
    returns (trace: seq<Event>, offset: nat, failure: Option<Failure>, ghost s: Sender)
    requires CopiedTo(file, v2, env, trace0, s0, limit, trace1, s1, offset1) && offset1 < |file|
    requires left == limit - (offset1 - s0.offset) && (v2 || left > 0) && !env.readFails(|trace1|)
    ensures CopiedTo(file, v2, env, trace0, s0, limit, trace, s, offset)
    ensures failure == None ==> offset1 < offset
    ensures failure == if env.sendFails(|trace1|) then Some(SendFailed) else None
    ensures failure.Some? ==> trace == trace1
  {
    var n := ReadSize(file, v2, env, |trace1|, offset1, left);
    var body := file[offset1..offset1 + n];
    CopyStep(file, v2, limit, s0.offset, s1, n, body);
    trace, offset, failure, s := Write(file, v2, env, trace1, offset1, body, s1);
  }

  /** `io.CopyBuffer` from the file to the chunk writer, up to `limit` bytes in v1. */
  method CopyBuffer(file: Bytes, v2: bool, env: Environment, trace0: seq<Event>, offset0: nat, limit: nat,
                    ghost s0: Sender)
    returns (trace: seq<Event>, offset: nat, failure: Option<Failure>, ghost s: Sender)
    requires Run(file, v2, trace0, s0) && s0.offset == offset0 <= |file|
    requires (v2 || limit > 0) && s0.pc == CopyPc(v2, limit, 0) && Passed(v2, env, trace0)
    ensures CopiedTo(file, v2, env, trace0, s0, limit, trace, s, offset)
    ensures failure == None ==>
              if v2 || offset - offset0 < limit then offset == |file| && !env.readFails(|trace|)
              else EndsWithData(trace)
    ensures failure.Some? ==>
              || (failure == Some(ReadFailed) && env.readFails(|trace|))
              || (failure == Some(SendFailed) && env.sendFails(|trace|))
  {
    trace, offset, failure, s := trace0, offset0, None, s0;
    while v2 || offset - offset0 < limit
      invariant CopiedTo(file, v2, env, trace0, s0, limit, trace, s, offset) && failure == None
      decreases |file| - offset
    {
      if env.readFails(|trace|) {
        failure := Some(ReadFailed);
        return;
      }
      if offset == |file| {
        break;
      }
      trace, offset, failure, s :=
        CopyOne(file, v2, env, trace0, s0, limit, limit - (offset - offset0), trace, offset, s);
      if failure.Some? {
        return;
      }
    }
  }

  /** Take the next ACK and go on from it, or fail with its defect. */
  method NextAck(file: Bytes, v2: bool, peer: seq<Incoming>, env: Environment, trace0: seq<Event>, i: nat,
                 ghost s0: Sender)
    returns (trace: seq<Event>, failure: Option<Failure>, off: int, ghost s: Sender)
    requires Run(file, v2, trace0, s0) && Waiting(s0)
    requires i == |Acks(trace0)| && AcksFrom(peer, Acks(trace0))
    requires Passed(v2, env, trace0) && (EndsWithData(trace0) ==> !env.limitReached(|trace0|))
    requires forall m :: m in peer && m.Ack? && m.offset.Some? ==> m.offset.value < TWO_63
    ensures failure.Some? ==> trace == trace0 && s == s0 && Caused(peer, env, trace, s, failure.value)
    ensures failure == None ==> IsOffset(off) && trace == trace0 + [TakeAck(off)]
    ensures failure == None ==> s == Sender(PcAfterAck(s0, off), s0.offset, off)
    ensures failure == None ==> |Acks(trace)| == i + 1
    ensures Passed(v2, env, trace)
    ensures Run(file, v2, trace, s) && AcksFrom(peer, Acks(trace))
  {
    trace, s := trace0, s0;
    failure, off := WaitAck(peer[i..]).0, WaitAck(peer[i..]).1;
    if failure.Some? {
      return;
    }
    TraceExtend(file, v2, env, trace, s, TakeAck(off));
    assert peer[i..][0] == peer[i];
    trace, s := trace + [TakeAck(off)], SenderApply(file, s, TakeAck(off));
  }

  /** The last loop: take ACKs until one has reached the total. */
  method AwaitFinalAck(file: Bytes, v2: bool, peer: seq<Incoming>, env: Environment, trace0: seq<Event>,
                       i0: nat, offset: nat, ackOffset0: int, ghost s0: Sender)
    returns (trace: seq<Event>, failure: Option<Failure>, ghost s: Sender)
    requires Run(file, v2, trace0, s0) && s0 == Sender(AwaitingFinal, offset, ackOffset0)
    requires i0 == |Acks(trace0)| && AcksFrom(peer, Acks(trace0))
    requires Passed(v2, env, trace0) && !EndsWithData(trace0)
    requires forall m :: m in peer && m.Ack? && m.offset.Some? ==> m.offset.value < TWO_63
    ensures Run(file, v2, trace, s) && Outcome(peer, env, trace, s, failure) && Passed(v2, env, trace)
  {
    var ackOffset, i := ackOffset0, i0;
    trace, failure, s := trace0, None, s0;
    while ackOffset < offset
      invariant i == |Acks(trace)| <= |peer| && AcksFrom(peer, Acks(trace)) && failure == None
      invariant Run(file, v2, trace, s) && s == Sender(AwaitingFinal, offset, ackOffset)
      invariant Passed(v2, env, trace) && !EndsWithData(trace)
      decreases |peer| - i
    {
      trace, failure, ackOffset, s := NextAck(file, v2, peer, env, trace, i, s);
      if failure.Some? {
        return;
      }
      i := i + 1;
    }
  }

  /** The end-of-file chunk, and the wait for the final ACK. */
  method Finish(file: Bytes, v2: bool, peer: seq<Incoming>, env: Environment, trace0: seq<Event>,
                i: nat, offset: nat, ackOffset: int, ghost s0: Sender)
    returns (trace: seq<Event>, failure: Option<Failure>, ghost s: Sender)
    requires Run(file, v2, trace0, s0) && offset == s0.offset == |file| && (s0.pc.Copying? || s0.pc.Streaming?)
    requires ackOffset == if s0.pc.Streaming? then offset else s0.ackOffset
    requires i == |Acks(trace0)| && AcksFrom(peer, Acks(trace0)) && Passed(v2, env, trace0)
    requires !env.readFails(|trace0|) && (v2 || !env.limitReached(|trace0|))
    requires forall m :: m in peer && m.Ack? && m.offset.Some? ==> m.offset.value < TWO_63
    ensures Run(file, v2, trace, s) && Outcome(peer, env, trace, s, failure) && Passed(v2, env, trace)
  {
    var total;
    trace, total, failure, s := Write(file, v2, env, trace0, offset, [], s0);
    if failure == None {
      trace, failure, s := AwaitFinalAck(file, v2, peer, env, trace, i, total, ackOffset, s);
    }
  }

  /** The v1 loop: fill the window, then wait for an ACK, until the file has been read to its end. */
  method CopyWindows(file: Bytes, peer: seq<Incoming>, env: Environment)
    returns (trace: seq<Event>, failure: Option<Failure>, offset: nat, ackOffset: int, i: nat, ghost s: Sender)
    requires |file| < TWO_63
    requires forall m :: m in peer && m.Ack? && m.offset.Some? ==> m.offset.value < TWO_63
    ensures Run(file, false, trace, s) && AcksFrom(peer, Acks(trace)) && i == |Acks(trace)|
    ensures Passed(false, env, trace)
    ensures failure == None ==> !env.readFails(|trace|) && !env.limitReached(|trace|)
    ensures failure.Some? ==> Caused(peer, env, trace, s, failure.value)
    ensures failure == None ==>
              offset == |file| && s.pc.Copying? && s.offset == offset && s.ackOffset == ackOffset
  {
    s := InitialSender(false);
    trace, failure, offset, ackOffset, i := [], None, 0, 0, 0;
    while true
      invariant i == |Acks(trace)| <= |peer| && AcksFrom(peer, Acks(trace)) && failure == None
      invariant Run(file, false, trace, s) && s.offset == offset <= |file|
      invariant Passed(false, env, trace) && !EndsWithData(trace)
      invariant s.ackOffset == ackOffset && IsOffset(ackOffset)
      invariant s.pc == if WindowBytes(ackOffset, offset) > 0 then Copying(WindowBytes(ackOffset, offset))
                        else AwaitingWindow
      decreases |peer| - i
    {
      var windowBytes := WindowBytes(ackOffset, offset);
      if windowBytes > 0 {
        var before := offset;
        trace, offset, failure, s := CopyBuffer(file, false, env, trace, offset, windowBytes, s);
        if failure.Some? {
          return;
        }
        if env.limitReached(|trace|) {
          failure := Some(LimitReached);
          return;
        }
        if offset - before < windowBytes {
          return;
        }
      }
      trace, failure, ackOffset, s := NextAck(file, false, peer, env, trace, i, s);
      if failure.Some? {
        return;
      }
      i := i + 1;
    }
  }

  /**
    The whole handler.  Its trace is a run of the sender automaton; a normal return
    means the peer was sent exactly the file, end-of-file chunk last, and that the
    last ACK reached the total (in v2 no ACK is waited for); any other return has its
    cause in the environment or in the next message of the peer, and the trace passes
    over no such cause.
   */
  method DownloadHandler(file: Bytes, v2: bool, peer: seq<Incoming>, env: Environment)
    returns (trace: seq<Event>, failure: Option<Failure>)
    requires |file| < TWO_63
    requires forall m :: m in peer && m.Ack? && m.offset.Some? ==> m.offset.value < TWO_63
    ensures exists s :: Run(file, v2, trace, s) && Outcome(peer, env, trace, s, failure)
    ensures Passed(v2, env, trace)
    ensures StreamShape(file, v2, trace)
    ensures failure == None ==> HasEof(trace) && Sent(trace) == file && (v2 || LastAck(trace) >= |file|)
    ensures HasEof(trace) && failure != None ==> failure.value !in {ReadFailed, LimitReached, SendFailed}
  {
    ghost var s := InitialSender(v2);
    var offset: nat, ackOffset, i := 0, 0, 0;
    trace, failure := [], None;
    if v2 {
      trace, offset, failure, s := CopyBuffer(file, v2, env, trace, offset, 0, s);
      ackOffset := offset;
    } else {
      trace, failure, offset, ackOffset, i, s := CopyWindows(file, peer, env);
    }
    if failure == None {
      trace, failure, s := Finish(file, v2, peer, env, trace, i, offset, ackOffset, s);
    }
    OutcomeShape(file, v2, peer, env, trace, s, failure);
  }
}
