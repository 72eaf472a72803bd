/**
  The receiving half: `writeFile` with its chunk decoder and `dstWrite`.

  `ReceiverEnabled` and `ReceiverApply` say which chunk is accepted and when an ACK goes
  out; the method `WriteFile` runs the source's two nested loops and its trace is proved
  to be a run of that automaton, for every message sequence and every outcome of the
  file writes, the limits, the scheduler and the response writer.
 */
module Upload {
  import opened TransferTypes
  import opened Values

  /** `batch` counts the chunks consumed since the last ACK, `last` is the latest chunk's offset. */
  datatype Receiver = Receiver(contents: Bytes, done: bool, batch: nat, last: nat)

  datatype Event = Consume(chunk: Chunk) | SendAck(offset: nat)

  const InitialReceiver: Receiver := Receiver([], false, 0, 0)

  predicate ReceiverDone(r: Receiver) {
    r.done && r.batch == 0
  }

  /**
    The first chunk of a batch is waited for, and only while no end of file was seen; up
    to nine more may follow it even after the end of file.  An ACK closes the batch.
   */
  predicate ReceiverEnabled(v2: bool, r: Receiver, e: Event) {
    match e
    case Consume(c) => c.offset == |r.contents| && (if r.batch == 0 then !r.done else r.batch < ACK_BATCH)
    case SendAck(off) => !v2 && r.batch > 0 && off == r.last
  }

  function ReceiverApply(v2: bool, r: Receiver, e: Event): Receiver
    requires ReceiverEnabled(v2, r, e)
  {
    match e
    case Consume(c) =>
      Receiver(r.contents + c.body, r.done || c.body == [], if v2 then 0 else r.batch + 1, c.offset)
    case SendAck(_) => r.(batch := 0)
  }

  ghost predicate Run(v2: bool, trace: seq<Event>, t: Receiver)
    decreases |trace|
  {
    if trace == [] then t == InitialReceiver
    else
      var n := |trace| - 1;
      exists s :: Run(v2, trace[..n], s) && ReceiverEnabled(v2, s, trace[n])
                  && t == ReceiverApply(v2, s, trace[n])
  }

  lemma RunExtend(v2: bool, trace: seq<Event>, s: Receiver, e: Event)
    requires Run(v2, trace, s) && ReceiverEnabled(v2, s, e)
    ensures Run(v2, trace + [e], ReceiverApply(v2, s, e))
  {
    assert (trace + [e])[..|trace|] == trace;
  }

  // ---------------------------------------------------------------- what a trace shows

  /** The chunks consumed, in order. */
  function Consumed(trace: seq<Event>): seq<Chunk>
    decreases |trace|
  {
    if trace == [] then []
    else
      var n := |trace| - 1;
      if trace[n].Consume? then Consumed(trace[..n]) + [trace[n].chunk] else Consumed(trace[..n])
  }

  /** The bodies of the chunks, in order. */
  function Concat(chunks: seq<Chunk>): Bytes
    decreases |chunks|
  {
    if chunks == [] then [] else Concat(chunks[..|chunks| - 1]) + chunks[|chunks| - 1].body
  }

  /** One of the chunks is the end-of-file chunk. */
  predicate HasEof(chunks: seq<Chunk>)
    decreases |chunks|
  {
    chunks != [] && (HasEof(chunks[..|chunks| - 1]) || chunks[|chunks| - 1].body == [])
  }

  lemma Snoc(chunks: seq<Chunk>, c: Chunk)
    ensures Concat(chunks + [c]) == Concat(chunks) + c.body
    ensures HasEof(chunks + [c]) <==> HasEof(chunks) || c.body == []
  {
    assert (chunks + [c])[..|chunks|] == chunks;
  }

  /** The latest ACK sent, zero before the first. */
  function LastAck(trace: seq<Event>): nat
    decreases |trace|
  {
    if trace == [] then 0
    else
      var n := |trace| - 1;
      if trace[n].SendAck? then trace[n].offset else LastAck(trace[..n])
  }

  /** Chunks consumed since the latest ACK. */
  function Unacked(trace: seq<Event>): nat
    decreases |trace|
  {
    if trace == [] then 0
    else
      var n := |trace| - 1;
      if trace[n].SendAck? then 0 else Unacked(trace[..n]) + 1
  }

  /**
    What is promised of an event after `before`: a consumed chunk starts where the bytes
    received so far end; an ACK exists only in v1, closes a batch of one to ten chunks,
    names the start of the last of them, does not fall behind the previous ACK and never
    exceeds the bytes received.
   */
  predicate EventOk(v2: bool, before: seq<Event>, e: Event) {
    match e
    case Consume(c) => c.offset == |Concat(Consumed(before))|
    case SendAck(off) =>
      && !v2
      && 1 <= Unacked(before) <= ACK_BATCH
      && Consumed(before) != []
      && off == Consumed(before)[|Consumed(before)| - 1].offset
      && LastAck(before) <= off <= |Concat(Consumed(before))|
  }

  predicate ReceiptShape(v2: bool, trace: seq<Event>) {
    forall i :: 0 <= i < |trace| ==> EventOk(v2, trace[..i], trace[i])
  }

  lemma ReceiptExtend(v2: bool, trace: seq<Event>, e: Event)
    requires ReceiptShape(v2, trace) && EventOk(v2, trace, e)
    ensures ReceiptShape(v2, trace + [e])
  {
    var after := trace + [e];
    forall i | 0 <= i < |after| ensures EventOk(v2, after[..i], after[i]) {
      assert after[..i] == if i < |trace| then trace[..i] else trace;
    }
  }

  predicate Reflects(v2: bool, trace: seq<Event>, t: Receiver) {
    var chunks := Consumed(trace);
    && t.contents == Concat(chunks)
    && (t.done <==> HasEof(chunks))
    && t.batch <= ACK_BATCH
    && (!v2 ==> t.batch == Unacked(trace))
    && LastAck(trace) <= t.last <= |t.contents|
    && t.last == (if chunks == [] then 0 else chunks[|chunks| - 1].offset)
    && (t.batch > 0 ==> chunks != [])
  }

  lemma StepReflects(v2: bool, trace: seq<Event>, s: Receiver, e: Event)
    requires Reflects(v2, trace, s) && ReceiverEnabled(v2, s, e)
    ensures EventOk(v2, trace, e) && Reflects(v2, trace + [e], ReceiverApply(v2, s, e))
  {
    assert (trace + [e])[..|trace|] == trace;
    if e.Consume? {
      Snoc(Consumed(trace), e.chunk);
    }
  }

  /** Every run of the receiver stores the gapless concatenation of the chunks it consumed. */
  lemma {:induction false} RunShape(v2: bool, trace: seq<Event>, t: Receiver)
    requires Run(v2, trace, t)
    ensures ReceiptShape(v2, trace) && Reflects(v2, trace, t)
    decreases |trace|
  {
    if trace != [] {
      var n := |trace| - 1;
      var s :| Run(v2, trace[..n], s) && ReceiverEnabled(v2, s, trace[n])
               && t == ReceiverApply(v2, s, trace[n]);
      RunShape(v2, trace[..n], s);
      StepReflects(v2, trace[..n], s, trace[n]);
      ReceiptExtend(v2, trace[..n], trace[n]);
      assert trace[..n] + [trace[n]] == trace;
    }
  }

  // ---------------------------------------------------------------- after the end of file

  /** How many chunks follow the first end-of-file chunk. */
  function AfterEof(chunks: seq<Chunk>): nat
    decreases |chunks|
  {
    if chunks == [] then 0
    else
      var before := chunks[..|chunks| - 1];
      if HasEof(before) then AfterEof(before) + 1 else 0
  }

  lemma AfterEofExtend(trace: seq<Event>, e: Event)
    ensures AfterEof(Consumed(trace + [e])) ==
              if e.Consume? && HasEof(Consumed(trace)) then AfterEof(Consumed(trace)) + 1
              else if e.Consume? then 0 else AfterEof(Consumed(trace))
  {
    assert (trace + [e])[..|trace|] == trace;
    if e.Consume? {
      assert (Consumed(trace) + [e.chunk])[..|Consumed(trace)|] == Consumed(trace);
    }
  }

  lemma {:induction false} AfterEofInBatch(v2: bool, trace: seq<Event>, t: Receiver)
    requires Run(v2, trace, t)
    ensures !t.done ==> AfterEof(Consumed(trace)) == 0
    ensures t.done && t.batch > 0 ==> AfterEof(Consumed(trace)) < t.batch
    ensures v2 ==> t.batch == 0 && AfterEof(Consumed(trace)) == 0
    ensures AfterEof(Consumed(trace)) < ACK_BATCH
    decreases |trace|
  {
    if trace != [] {
      var n := |trace| - 1;
      var s :| Run(v2, trace[..n], s) && ReceiverEnabled(v2, s, trace[n])
               && t == ReceiverApply(v2, s, trace[n]);
      AfterEofInBatch(v2, trace[..n], s);
      RunShape(v2, trace[..n], s);
      AfterEofExtend(trace[..n], trace[n]);
      assert trace[..n] + [trace[n]] == trace;
    }
  }

  /** Over every run at most nine chunks are stored after the end of file in v1, and none in v2. */
  lemma AfterEofIsBounded(v2: bool, trace: seq<Event>, t: Receiver)
    requires Run(v2, trace, t)
    ensures AfterEof(Consumed(trace)) <= if v2 then 0 else ACK_BATCH - 1
  {
    AfterEofInBatch(v2, trace, t);
  }

  /** After the end of file a further chunk is taken exactly while its batch is open and not full. */
  lemma ConsumesAfterEof(v2: bool, r: Receiver)
    requires r.done
    ensures (exists c :: ReceiverEnabled(v2, r, Consume(c))) <==> 0 < r.batch < ACK_BATCH
  {
    if 0 < r.batch < ACK_BATCH {
      assert ReceiverEnabled(v2, r, Consume(Chunk(|r.contents|, [])));
    }
  }

  /** The bound is met: for every count up to nine a v1 run stores that many bytes after the end of file. */
  lemma {:induction false} StoresAfterEof(count: nat) returns (trace: seq<Event>, t: Receiver)
    requires count < ACK_BATCH
    ensures Run(false, trace, t) && t.done && t.batch == count + 1
    ensures Consumed(trace) != [] && Consumed(trace)[0] == Chunk(0, [])
    ensures AfterEof(Consumed(trace)) == count == |t.contents|
  {
    var s, before, e := InitialReceiver, [], Consume(Chunk(0, []));
    if count > 0 {
      before, s := StoresAfterEof(count - 1);
      e := Consume(Chunk(|s.contents|, [0]));
    }
    trace, t := before + [e], ReceiverApply(false, s, e);
    RunExtend(false, before, s, e);
    RunShape(false, before, s);
    AfterEofExtend(before, e);
    assert trace[..|before|] == before;
  }

  // ---------------------------------------------------------------- the method

  datatype Message = ChunkMessage(offset: Option<int>, body: Bytes) | PeerError | Unexpected

  datatype Failure =
    | Aborted | UnexpectedMessage | MissingOffset | WrongOffset | WriteFailed | LimitReached

  datatype Limits = Limits(enabled: bool, maxFileSize: nat)

  /** `BelowMaxAllowedFileSize`. */
  predicate BelowMaxFileSize(limits: Limits, offset: nat) {
    !(limits.enabled && limits.maxFileSize > 0 && offset >= limits.maxFileSize)
  }

  /** The environment, indexed by the number of messages taken (and, for ACKs, by ACKs sent). */
  datatype Environment = Environment(
    shortWrite: nat -> Option<nat>,   // the file write stops after this many bytes
    rateReached: nat -> bool,         // BytesReceived reports the rate limit
    available: nat -> bool,           // a message is ready when the inner loop polls
    ackFails: nat -> bool)

  /** The bytes `dst.Write` stores. */
  function Stored(env: Environment, k: nat, body: Bytes): (n: nat)
    ensures n <= |body|
  {
    match env.shortWrite(k)
    case None => |body|
    case Some(n) => Min(n, |body|)
  }

  /** A chunk that starts where `offset` bytes end. */
  predicate Fits(m: Message, offset: nat) {
    m.ChunkMessage? && m.offset == Some(offset)
  }

  /** The write of this chunk meets the rate limit or the size limit. */
  predicate OverLimit(m: Message, env: Environment, limits: Limits, k: nat, offset: nat) {
    && m.ChunkMessage? && m.body != []
    && (env.rateReached(k) || !BelowMaxFileSize(limits, offset + Stored(env, k, m.body)))
  }

  /** Why a message is refused after `offset` bytes; every failure has its own cause. */
  predicate Refused(m: Message, env: Environment, limits: Limits, k: nat, offset: nat, f: Failure) {
    match f
    case Aborted => m.PeerError?
    case UnexpectedMessage => m.Unexpected?
    case MissingOffset => m.ChunkMessage? && m.offset == None
    case WrongOffset => m.ChunkMessage? && m.offset.Some? && m.offset.value != offset
    case LimitReached => Fits(m, offset) && OverLimit(m, env, limits, k, offset)
    case WriteFailed =>
      Fits(m, offset) && !OverLimit(m, env, limits, k, offset) && Stored(env, k, m.body) < |m.body|
  }

  /** The chunk is stored whole: it fits, it is written in full, and it meets neither limit. */
  predicate Accepted(m: Message, env: Environment, limits: Limits, k: nat, offset: nat) {
    Fits(m, offset) && Stored(env, k, m.body) == |m.body| && !OverLimit(m, env, limits, k, offset)
  }

  /** Every message is either accepted or refused for exactly one reason. */
  lemma OneVerdict(m: Message, env: Environment, limits: Limits, k: nat, offset: nat)
    ensures Accepted(m, env, limits, k, offset) <==> forall f :: !Refused(m, env, limits, k, offset, f)
    ensures forall f, g :: Refused(m, env, limits, k, offset, f) && Refused(m, env, limits, k, offset, g) ==> f == g
  {
    if !Accepted(m, env, limits, k, offset) {
      var f :=
        if m.PeerError? then Aborted else if m.Unexpected? then UnexpectedMessage
        else if m.offset == None then MissingOffset else if m.offset.value != offset then WrongOffset
        else if OverLimit(m, env, limits, k, offset) then LimitReached else WriteFailed;
      assert Refused(m, env, limits, k, offset, f);
    }
  }

  /** `writeChunk`: decode one message, check its offset, and write its body. */
  method WriteChunk(m: Message, env: Environment, limits: Limits, k: nat, contents0: Bytes)
    returns (contents: Bytes, failure: Option<Failure>)
    ensures failure == None ==>
              m.ChunkMessage? && m.offset == Some(|contents0|) && contents == contents0 + m.body
    ensures failure == None <==> Accepted(m, env, limits, k, |contents0|)
    ensures failure == None && m.body != [] ==> BelowMaxFileSize(limits, |contents|)
    ensures failure.Some? ==> Refused(m, env, limits, k, |contents0|, failure.value)
    ensures contents0 <= contents && (contents != contents0 ==> m.ChunkMessage? && contents <= contents0 + m.body)
  {
    contents := contents0;
    if m.PeerError? {
      return contents, Some(Aborted);
    }
    if m.Unexpected? {
      return contents, Some(UnexpectedMessage);
    }
    if m.offset == None {
      return contents, Some(MissingOffset);
    }
    if m.offset.value != |contents| {
      return contents, Some(WrongOffset);
    }
    if |m.body| > 0 {
      var n := Stored(env, k, m.body);
      contents := contents + m.body[..n];
      if env.rateReached(k) || !BelowMaxFileSize(limits, |contents|) {
        return contents, Some(LimitReached);
      }
      if n < |m.body| {
        return contents, Some(WriteFailed);
      }
    }
    return contents, None;
  }

  /**
    The inner loop's polls decide a v1 batch: a batch goes on only with a message that was
    ready, and an ACK goes out only when none was, or after ten chunks, and if it can be sent.
   */
  predicate PollOk(env: Environment, before: seq<Event>, e: Event) {
    match e
    case Consume(_) => Unacked(before) > 0 ==> env.available(|Consumed(before)|)
    case SendAck(_) =>
      !env.ackFails(|before|) && (Unacked(before) == ACK_BATCH || !env.available(|Consumed(before)|))
  }

  predicate FollowsPolls(v2: bool, env: Environment, trace: seq<Event>) {
    !v2 ==> forall i :: 0 <= i < |trace| ==> PollOk(env, trace[..i], trace[i])
  }

  lemma PollsExtend(v2: bool, env: Environment, trace: seq<Event>, e: Event)
    requires FollowsPolls(v2, env, trace) && (!v2 ==> PollOk(env, trace, e))
    ensures FollowsPolls(v2, env, trace + [e])
  {
    var after := trace + [e];
    forall i | !v2 && 0 <= i < |after| ensures PollOk(env, after[..i], after[i]) {
      assert after[..i] == if i < |trace| then trace[..i] else trace;
    }
  }

  /**
    What the loop does next once it has seen the end of file in a batch that is still open:
    it stores one more chunk if and only if the batch is not full and a message is ready.
   */
  lemma NextAfterEof(env: Environment, trace: seq<Event>, r: Receiver, e: Event)
    requires Run(false, trace, r) && r.done && ReceiverEnabled(false, r, e)
    requires FollowsPolls(false, env, trace + [e])
    ensures e.Consume? <==> r.batch < ACK_BATCH && env.available(|Consumed(trace)|)
  {
    RunShape(false, trace, r);
    assert (trace + [e])[..|trace|] == trace && (trace + [e])[|trace|] == e;
  }

  /** The consumed chunks are the first messages of the peer, none skipped or reordered. */
  predicate ConsumedFrom(peer: seq<Message>, chunks: seq<Chunk>) {
    |chunks| <= |peer|
    && forall i :: 0 <= i < |chunks| ==> peer[i] == ChunkMessage(Some(chunks[i].offset), chunks[i].body)
  }

  /** The bytes on disk: the consumed chunks, and at most a part of the message that failed. */
  predicate OnDisk(peer: seq<Message>, chunks: seq<Chunk>, contents: Bytes) {
    || contents == Concat(chunks)
    || (|chunks| < |peer| && peer[|chunks|].ChunkMessage?
        && Concat(chunks) <= contents <= Concat(chunks) + peer[|chunks|].body)
  }

  /** A trace of the receiver that keeps its promises and follows the polls. */
  ghost predicate Traced(v2: bool, env: Environment, trace: seq<Event>, r: Receiver) {
    Run(v2, trace, r) && ReceiptShape(v2, trace) && Reflects(v2, trace, r) && FollowsPolls(v2, env, trace)
  }

  lemma TracedExtend(v2: bool, env: Environment, trace: seq<Event>, r: Receiver, e: Event)
    requires Traced(v2, env, trace, r) && ReceiverEnabled(v2, r, e) && (!v2 ==> PollOk(env, trace, e))
    ensures Traced(v2, env, trace + [e], ReceiverApply(v2, r, e))
  {
    RunExtend(v2, trace, r, e);
    StepReflects(v2, trace, r, e);
    ReceiptExtend(v2, trace, e);
    PollsExtend(v2, env, trace, e);
  }

  lemma ConsumedExtend(trace: seq<Event>, e: Event)
    ensures Consumed(trace + [e]) == if e.Consume? then Consumed(trace) + [e.chunk] else Consumed(trace)
  {
    assert (trace + [e])[..|trace|] == trace;
  }

  /** Every consumed chunk met neither limit when it was written, and was written in full. */
  predicate AllAccepted(peer: seq<Message>, env: Environment, limits: Limits, chunks: seq<Chunk>) {
    |chunks| <= |peer| && forall i :: 0 <= i < |chunks| ==> Accepted(peer[i], env, limits, i, chunks[i].offset)
  }

  /** The first `i` messages of the peer have been consumed, below the maximum size. */
  predicate Taken(peer: seq<Message>, env: Environment, limits: Limits, trace: seq<Event>, r: Receiver, i: nat) {
    && |Consumed(trace)| == i <= |peer| && ConsumedFrom(peer, Consumed(trace))
    && AllAccepted(peer, env, limits, Consumed(trace))
    && BelowMaxFileSize(limits, |r.contents|)
  }

  lemma TakenExtend(peer: seq<Message>, env: Environment, limits: Limits, trace: seq<Event>, r: Receiver, i: nat,
                    c: Chunk, s: Receiver)
    requires Taken(peer, env, limits, trace, r, i) && BelowMaxFileSize(limits, |s.contents|)
    requires i < |peer| && Accepted(peer[i], env, limits, i, c.offset)
    requires i < |peer| && peer[i] == ChunkMessage(Some(c.offset), c.body)
    ensures Taken(peer, env, limits, trace + [Consume(c)], s, i + 1)
  {
    ConsumedExtend(trace, Consume(c));
  }

  /** Everything `WriteFile` keeps true between messages. */
  ghost predicate Receiving(peer: seq<Message>, v2: bool, env: Environment, limits: Limits, trace: seq<Event>,
                            r: Receiver, i: nat) {
    Traced(v2, env, trace, r) && Taken(peer, env, limits, trace, r, i)
  }

  /**
    Why the loop failed after consuming `i` messages: it was refused the next one, the
    channel was closed, or an ACK could not be sent.
   */
  predicate Caused(peer: seq<Message>, v2: bool, env: Environment, limits: Limits, trace: seq<Event>, i: nat,
                   f: Failure) {
    || (f == Aborted && (i == |peer| || (!v2 && env.ackFails(|trace|))))
    || (i < |peer| && Refused(peer[i], env, limits, i, |Concat(Consumed(trace))|, f))
  }

  /** The loop may take the next message: as the first of a batch, or because a poll found it ready. */
  predicate MayTake(v2: bool, env: Environment, r: Receiver, i: nat) {
    if r.batch == 0 then !r.done else r.batch < ACK_BATCH && env.available(i)
  }

  lemma AcceptedIsTaken(peer: seq<Message>, v2: bool, env: Environment, limits: Limits, trace: seq<Event>, r: Receiver,
                        i: nat, c: Chunk, after: seq<Event>, s: Receiver)
    requires Receiving(peer, v2, env, limits, trace, r, i) && MayTake(v2, env, r, i)
    requires i < |peer| && Accepted(peer[i], env, limits, i, |r.contents|) && c == Chunk(|r.contents|, peer[i].body)
    requires after == trace + [Consume(c)] && s == ReceiverApply(v2, r, Consume(c))
    requires BelowMaxFileSize(limits, |s.contents|)
    ensures Receiving(peer, v2, env, limits, after, s, i + 1)
  {
    TracedExtend(v2, env, trace, r, Consume(c));
    TakenExtend(peer, env, limits, trace, r, i, c, s);
  }

  lemma RefusedIsCause(peer: seq<Message>, v2: bool, env: Environment, limits: Limits, trace: seq<Event>, i: nat,
                       contents: Bytes, f: Failure)
    requires i == |Consumed(trace)| < |peer|
    requires Refused(peer[i], env, limits, i, |Concat(Consumed(trace))|, f)
    requires Concat(Consumed(trace)) <= contents
    requires contents != Concat(Consumed(trace)) ==>
               peer[i].ChunkMessage? && contents <= Concat(Consumed(trace)) + peer[i].body
    ensures OnDisk(peer, Consumed(trace), contents) && Caused(peer, v2, env, limits, trace, i, f)
  {
  }

  /** One message off `msgChan`, in either loop: the next of the peer's, unless the channel is closed. */
  method TakeChunk(peer: seq<Message>, v2: bool, env: Environment, limits: Limits, trace0: seq<Event>,
                   contents0: Bytes, i: nat, ghost r0: Receiver)
    returns (trace: seq<Event>, contents: Bytes, failure: Option<Failure>, ghost r: Receiver)
    requires Receiving(peer, v2, env, limits, trace0, r0, i) && MayTake(v2, env, r0, i) && r0.contents == contents0
    ensures failure == None ==> i < |peer| && Fits(peer[i], |contents0|)
    ensures failure == None ==>
              var c := Chunk(|contents0|, peer[i].body);
              && trace == trace0 + [Consume(c)] && r == ReceiverApply(v2, r0, Consume(c)) && r.contents == contents
              && Receiving(peer, v2, env, limits, trace, r, i + 1)
    ensures failure.Some? ==>
              && trace == trace0 && r == r0 && OnDisk(peer, Consumed(trace), contents)
              && Caused(peer, v2, env, limits, trace, i, failure.value)
  {
    trace, contents, r := trace0, contents0, r0;
    if i == |peer| {
      failure := Some(Aborted);
      return;
    }
    contents, failure := WriteChunk(peer[i], env, limits, i, contents);
    if failure.Some? {
      RefusedIsCause(peer, v2, env, limits, trace, i, contents, failure.value);
      return;
    }
    var c := Chunk(|contents0|, peer[i].body);
    trace, r := trace + [Consume(c)], ReceiverApply(v2, r, Consume(c));
    AcceptedIsTaken(peer, v2, env, limits, trace0, r0, i, c, trace, r);
  }

  /** The ACK that ends a v1 batch. */
  method Acknowledge(peer: seq<Message>, env: Environment, limits: Limits, trace0: seq<Event>, last: nat, i: nat,
                     ghost r0: Receiver)
    returns (trace: seq<Event>, failure: Option<Failure>, ghost r: Receiver)
    requires Receiving(peer, false, env, limits, trace0, r0, i) && r0.batch > 0 && r0.last == last
    requires r0.batch == ACK_BATCH || !env.available(i)
    ensures failure == None ==>
              && trace == trace0 + [SendAck(last)] && r == r0.(batch := 0)
              && Receiving(peer, false, env, limits, trace, r, i)
    ensures failure.Some? ==>
              trace == trace0 && r == r0 && Caused(peer, false, env, limits, trace, i, failure.value)
  {
    trace, r := trace0, r0;
    if env.ackFails(|trace|) {
      return trace, Some(Aborted), r;
    }
    TracedExtend(false, env, trace, r, SendAck(last));
    ConsumedExtend(trace, SendAck(last));
    trace, failure, r := trace + [SendAck(last)], None, ReceiverApply(false, r, SendAck(last));
  }

  /**
    What `WriteFile` promises of its outcome.  The trace is a receipt for the first messages
    of the peer, all of them accepted, and follows the polls.  Success means that the bytes
    on disk are those chunks, with an end of file among them, below the maximum size, every
    batch acknowledged; a failure has its cause.
   */
  predicate Receipt(peer: seq<Message>, v2: bool, env: Environment, limits: Limits, contents: Bytes, trace: seq<Event>,
                    failure: Option<Failure>) {
    var chunks := Consumed(trace);
    && ReceiptShape(v2, trace) && FollowsPolls(v2, env, trace)
    && ConsumedFrom(peer, chunks) && AllAccepted(peer, env, limits, chunks) && OnDisk(peer, chunks, contents)
    && (failure == None ==>
          && contents == Concat(chunks) && HasEof(chunks) && BelowMaxFileSize(limits, |contents|)
          && (v2 || Unacked(trace) == 0))
    && (failure.Some? ==> Caused(peer, v2, env, limits, trace, |chunks|, failure.value))
  }

  /**
    The whole receive loop over the messages of `msgChan`, which is closed after the last.
   */
  method WriteFile(peer: seq<Message>, v2: bool, env: Environment, limits: Limits)
    returns (contents: Bytes, trace: seq<Event>, failure: Option<Failure>)
    ensures exists r :: Run(v2, trace, r)
    ensures Receipt(peer, v2, env, limits, contents, trace, failure)
    ensures HasEof(Consumed(trace)) && v2 ==> failure == None
  {
    var done, i := false, 0;
    ghost var r := InitialReceiver;
    contents, trace, failure := [], [], None;
    while !done
      invariant Receiving(peer, v2, env, limits, trace, r, i) && failure == None
      invariant r.contents == contents && r.done == done && r.batch == 0
      decreases |peer| - i
    {
      ghost var before := i;
      trace, contents, failure, r := TakeChunk(peer, v2, env, limits, trace, contents, i, r);
      if failure.Some? {
        return;
      }
      var last := peer[i].offset.value;
      done, i := peer[i].body == [], i + 1;
      if v2 {
        continue;
      }
      var n := 1;
      while n < ACK_BATCH && env.available(i)
        invariant 1 <= n <= ACK_BATCH && before < i
        invariant Receiving(peer, v2, env, limits, trace, r, i) && failure == None
        invariant r.contents == contents && r.done == done && r.batch == n && r.last == last
        decreases ACK_BATCH - n
      {
        trace, contents, failure, r := TakeChunk(peer, v2, env, limits, trace, contents, i, r);
        if failure.Some? {
          return;
        }
        done, last, i, n := done || peer[i].body == [], peer[i].offset.value, i + 1, n + 1;
      }
      trace, failure, r := Acknowledge(peer, env, limits, trace, last, i, r);
      if failure.Some? {
        return;
      }
    }
  }
}
