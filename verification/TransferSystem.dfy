/**
  A v1 `DownloadHandler` and a v1 `writeFile` joined by two FIFO links.

  The two automata are the ones the handlers were proved to follow.  A run interleaves
  their steps arbitrarily, so chunks of any size, messages in flight for any time and
  any batching of ACKs are covered.  No write fails and the limits are off.
 */
module TransferSystem {
  import opened TransferTypes
  import opened Values
  import D = Download
  import U = Upload

  datatype State = State(sender: D.Sender, receiver: U.Receiver, chunks: seq<Chunk>, acks: seq<int>)

  datatype Step = SenderStep(s: D.Event) | ReceiverStep(r: U.Event)

  /** A receiver that is an upload handler has already sent an ACK of offset zero. */
  predicate Init(t: State) {
    t == State(D.InitialSender(false), U.InitialReceiver, [], t.acks) && (t.acks == [] || t.acks == [0])
  }

  predicate Enabled(file: Bytes, t: State, e: Step) {
    match e
    case SenderStep(s) =>
      D.SenderEnabled(file, t.sender, s) && (s.TakeAck? ==> t.acks != [] && s.offset == t.acks[0])
    case ReceiverStep(r) =>
      U.ReceiverEnabled(false, t.receiver, r) && (r.Consume? ==> t.chunks != [] && r.chunk == t.chunks[0])
  }

  function Apply(file: Bytes, t: State, e: Step): State
    requires Enabled(file, t, e)
  {
    match e
    case SenderStep(s) =>
      t.(sender := D.SenderApply(file, t.sender, s),
         chunks := if s.Send? then t.chunks + [s.chunk] else t.chunks,
         acks := if s.TakeAck? then t.acks[1..] else t.acks)
    case ReceiverStep(r) =>
      t.(receiver := U.ReceiverApply(false, t.receiver, r),
         chunks := if r.Consume? then t.chunks[1..] else t.chunks,
         acks := if r.SendAck? then t.acks + [r.offset] else t.acks)
  }

  predicate Run(file: Bytes, s: State, steps: seq<Step>, t: State)
    decreases |steps|
  {
    if steps == [] then s == t
    else Enabled(file, s, steps[0]) && Run(file, Apply(file, s, steps[0]), steps[1..], t)
  }

  /** Both handlers have returned. */
  predicate Final(t: State) {
    D.SenderDone(t.sender) && U.ReceiverDone(t.receiver)
  }

  // ---------------------------------------------------------------- the inductive invariant

  /** A chunk of the file; only the end-of-file chunk is empty. */
  predicate ChunkOfFile(file: Bytes, c: Chunk) {
    && c.offset + |c.body| <= |file|
    && c.body == file[c.offset..c.offset + |c.body|]
    && |c.body| <= BUF_SIZE
    && (c.body == [] ==> c.offset == |file|)
  }

  function End(c: Chunk): nat {
    c.offset + |c.body|
  }

  /** The chunks in flight run without a gap from `from` to `to`. */
  ghost predicate Contiguous(chunks: seq<Chunk>, from: nat, to: nat) {
    if chunks == [] then from == to
    else
      && chunks[0].offset == from
      && End(chunks[|chunks| - 1]) == to
      && (forall i, j :: 0 <= i < j < |chunks| && j == i + 1 ==> chunks[j].offset == End(chunks[i]))
  }

  lemma ContiguousAppend(chunks: seq<Chunk>, from: nat, to: nat, c: Chunk)
    requires Contiguous(chunks, from, to) && c.offset == to
    ensures Contiguous(chunks + [c], from, End(c))
  {
  }

  lemma ContiguousTail(chunks: seq<Chunk>, from: nat, to: nat)
    requires Contiguous(chunks, from, to) && chunks != []
    ensures Contiguous(chunks[1..], End(chunks[0]), to)
  {
    if |chunks| > 1 {
      assert chunks[1].offset == End(chunks[0]);
    }
  }

  ghost predicate ChunksOk(file: Bytes, t: State) {
    && (forall c :: c in t.chunks ==> ChunkOfFile(file, c))
    && Contiguous(t.chunks, |t.receiver.contents|, t.sender.offset)
    && (forall i :: 0 <= i < |t.chunks| && t.chunks[i].body == [] ==>
          i == |t.chunks| - 1 && t.sender.pc == D.AwaitingFinal)
    && (t.sender.pc == D.AwaitingFinal ==>
          if t.chunks == [] then t.receiver.done else t.chunks[|t.chunks| - 1].body == [])
    && (t.receiver.done ==> t.sender.pc == D.AwaitingFinal && t.chunks == [])
  }

  /** The newest ACK that has been sent, whether taken or in flight. */
  function Newest(t: State): int {
    if t.acks == [] then t.sender.ackOffset else t.acks[|t.acks| - 1]
  }

  predicate AcksOk(t: State) {
    && 0 <= t.sender.ackOffset <= t.receiver.last
    && (forall a :: a in t.acks ==> 0 <= a <= t.receiver.last)
    && (t.receiver.batch == 0 ==> Newest(t) == t.receiver.last)
  }

  predicate SenderOk(file: Bytes, t: State) {
    var s := t.sender;
    && s.offset <= |file|
    && !s.pc.Streaming?
    && (s.pc.Copying? ==> 0 < s.pc.left == s.ackOffset - s.offset + WINDOW)
    && (s.pc == D.AwaitingWindow ==> s.ackOffset + WINDOW <= s.offset)
    && (s.pc == D.AwaitingFinal ==> s.offset == |file|)
  }

  predicate ReceiverOk(file: Bytes, t: State) {
    var r := t.receiver;
    && r.contents <= file
    && r.batch <= ACK_BATCH
    && r.last <= |r.contents| <= r.last + BUF_SIZE
    && (r.done ==> r.last == |r.contents| == |file|)
  }

  ghost predicate Inv(file: Bytes, t: State) {
    |file| < TWO_63 && ChunksOk(file, t) && AcksOk(t) && SenderOk(file, t) && ReceiverOk(file, t)
  }

  lemma SendKeepsInv(file: Bytes, t: State, c: Chunk)
    requires Inv(file, t) && Enabled(file, t, SenderStep(D.Send(c)))
    ensures Inv(file, Apply(file, t, SenderStep(D.Send(c))))
  {
    ContiguousAppend(t.chunks, |t.receiver.contents|, t.sender.offset, c);
    assert forall x :: x in t.chunks + [c] ==> x in t.chunks || x == c;
  }

  lemma TakeAckKeepsInv(file: Bytes, t: State, off: int)
    requires Inv(file, t) && Enabled(file, t, SenderStep(D.TakeAck(off)))
    ensures Inv(file, Apply(file, t, SenderStep(D.TakeAck(off))))
  {
    assert off in t.acks && forall a :: a in t.acks[1..] ==> a in t.acks;
    D.WindowBytesIsExact(off, t.sender.offset);
  }

  lemma ConsumeKeepsInv(file: Bytes, t: State, c: Chunk)
    requires Inv(file, t) && Enabled(file, t, ReceiverStep(U.Consume(c)))
    ensures Inv(file, Apply(file, t, ReceiverStep(U.Consume(c))))
  {
    assert ChunkOfFile(file, c) by { assert c in t.chunks; }
    assert file[..c.offset] + c.body == file[..End(c)];
    ContiguousTail(t.chunks, |t.receiver.contents|, t.sender.offset);
  }

  lemma SendAckKeepsInv(file: Bytes, t: State, off: nat)
    requires Inv(file, t) && Enabled(file, t, ReceiverStep(U.SendAck(off)))
    ensures Inv(file, Apply(file, t, ReceiverStep(U.SendAck(off))))
  {
    assert forall a :: a in t.acks + [off] ==> a in t.acks || a == off;
  }

  lemma StepKeepsInv(file: Bytes, t: State, e: Step)
    requires Inv(file, t) && Enabled(file, t, e)
    ensures Inv(file, Apply(file, t, e))
  {
    match e
    case SenderStep(Send(c)) => SendKeepsInv(file, t, c);
    case SenderStep(TakeAck(off)) => TakeAckKeepsInv(file, t, off);
    case ReceiverStep(Consume(c)) => ConsumeKeepsInv(file, t, c);
    case ReceiverStep(SendAck(off)) => SendAckKeepsInv(file, t, off);
  }

  lemma {:induction false} RunKeepsInv(file: Bytes, s: State, steps: seq<Step>, t: State)
    requires Inv(file, s) && Run(file, s, steps, t)
    ensures Inv(file, t)
    decreases |steps|
  {
    if steps != [] {
      StepKeepsInv(file, s, steps[0]);
      RunKeepsInv(file, Apply(file, s, steps[0]), steps[1..], t);
    }
  }

  lemma InitInv(file: Bytes, s: State)
    requires |file| < TWO_63 && Init(s)
    ensures Inv(file, s)
  {
    assert [] <= file && WINDOW > 0;
    assert forall a :: a in s.acks ==> a == 0;
  }

  // ---------------------------------------------------------------- main theorems

  /** Some step of the system. */
  lemma NotStuck(file: Bytes, t: State) returns (e: Step)
    requires Inv(file, t) && !Final(t)
    ensures Enabled(file, t, e)
  {
    if t.receiver.batch > 0 {
      e := ReceiverStep(U.SendAck(t.receiver.last));
    } else if t.chunks != [] {
      e := ReceiverStep(U.Consume(t.chunks[0]));
    } else if t.sender.pc.Copying? {
      var n := Min(Min(BUF_SIZE, t.sender.pc.left), |file| - t.sender.offset);
      e := SenderStep(D.Send(Chunk(t.sender.offset, file[t.sender.offset..t.sender.offset + n])));
    } else {
      assert t.acks[0] in t.acks && t.acks[0] <= |file|;
      e := SenderStep(D.TakeAck(t.acks[0]));
    }
  }

  /**
    Bounds the steps still to come: file bytes left, messages in flight, the open batch
    and the sender's phase.
   */
  function Potential(file: Bytes, t: State): int {
    8 * (|file| - t.sender.offset) + 5 * |t.chunks| + 2 * |t.acks|
    + (if t.receiver.batch > 0 then 3 else 0)
    + (if t.sender.pc == D.AwaitingFinal then 0 else if t.sender.pc.Copying? then 8 else 7)
  }

  lemma StepSpendsPotential(file: Bytes, t: State, e: Step)
    requires Inv(file, t) && Enabled(file, t, e)
    ensures 0 <= Potential(file, Apply(file, t, e)) < Potential(file, t)
  {
    StepKeepsInv(file, t, e);
  }

  lemma {:induction false} RunSpendsPotential(file: Bytes, s: State, steps: seq<Step>, t: State)
    requires Inv(file, s) && Run(file, s, steps, t)
    ensures |steps| + Potential(file, t) <= Potential(file, s) && 0 <= Potential(file, t)
    decreases |steps|
  {
    if steps != [] {
      StepKeepsInv(file, s, steps[0]);
      StepSpendsPotential(file, s, steps[0]);
      RunSpendsPotential(file, Apply(file, s, steps[0]), steps[1..], t);
    }
  }

  /** Every run ends, after at most 8 steps per byte and a constant. */
  lemma EveryRunIsBounded(file: Bytes, s: State, steps: seq<Step>, t: State)
    requires |file| < TWO_63 && Init(s) && Run(file, s, steps, t)
    ensures |steps| <= 8 * |file| + 10
  {
    InitInv(file, s);
    RunSpendsPotential(file, s, steps, t);
  }

  /** No run gets stuck: unless both sides have returned, some step is possible. */
  lemma NeverStuck(file: Bytes, s: State, steps: seq<Step>, t: State)
    requires |file| < TWO_63 && Init(s) && Run(file, s, steps, t)
    ensures Final(t) || exists e :: Enabled(file, t, e)
  {
    InitInv(file, s);
    RunKeepsInv(file, s, steps, t);
    if !Final(t) {
      var e := NotStuck(file, t);
    }
  }

  /** What the receiver has is a prefix of the file, and the file once it has seen its end; nothing follows. */
  lemma TransferIsExact(file: Bytes, s: State, steps: seq<Step>, t: State)
    requires |file| < TWO_63 && Init(s) && Run(file, s, steps, t)
    ensures t.receiver.contents <= file
    ensures t.receiver.done ==> t.receiver.contents == file && t.chunks == []
  {
    InitInv(file, s);
    RunKeepsInv(file, s, steps, t);
  }

  /** Only the ACK of the end-of-file chunk names the file's length, and nothing follows it. */
  ghost predicate FinalAckIsLast(file: Bytes, t: State) {
    && (t.receiver.last == |file| ==> t.receiver.done)
    && (t.sender.ackOffset == |file| ==> t.acks == [] && U.ReceiverDone(t.receiver))
    && (forall i :: 0 <= i < |t.acks| && t.acks[i] == |file| ==>
          i == |t.acks| - 1 && U.ReceiverDone(t.receiver))
  }

  lemma FinalAckStaysLast(file: Bytes, t: State, e: Step)
    requires Inv(file, t) && FinalAckIsLast(file, t) && Enabled(file, t, e)
    ensures FinalAckIsLast(file, Apply(file, t, e))
  {
    if e.ReceiverStep? && e.r.Consume? {
      assert ChunkOfFile(file, e.r.chunk) by { assert e.r.chunk in t.chunks; }
    }
  }

  lemma {:induction false} RunKeepsFinalAckLast(file: Bytes, s: State, steps: seq<Step>, t: State)
    requires Inv(file, s) && FinalAckIsLast(file, s) && Run(file, s, steps, t)
    ensures FinalAckIsLast(file, t)
    decreases |steps|
  {
    if steps != [] {
      StepKeepsInv(file, s, steps[0]);
      FinalAckStaysLast(file, s, steps[0]);
      RunKeepsFinalAckLast(file, Apply(file, s, steps[0]), steps[1..], t);
    }
  }

  /** A finished transfer of a nonempty file leaves no message behind for the next one. */
  lemma LinksAreEmptyAtTheEnd(file: Bytes, s: State, steps: seq<Step>, t: State)
    requires 0 < |file| < TWO_63 && Init(s) && Run(file, s, steps, t) && Final(t)
    ensures t.chunks == [] && t.acks == []
  {
    InitInv(file, s);
    RunKeepsInv(file, s, steps, t);
    RunKeepsFinalAckLast(file, s, steps, t);
  }

  /** For an empty file: no data chunk, no ACK taken, one ACK once the end of file is consumed. */
  predicate OnlyEof(s: State, t: State) {
    && (t.sender.pc == D.Copying(WINDOW) || t.sender.pc == D.AwaitingFinal)
    && t.sender.offset == t.sender.ackOffset == 0 && t.receiver.last == 0
    && (t.receiver.batch > 0 ==> t.receiver.done)
    && t.acks == s.acks + (if U.ReceiverDone(t.receiver) then [0] else [])
  }

  lemma StepKeepsOnlyEof(s: State, t: State, e: Step)
    requires Inv([], t) && OnlyEof(s, t) && Enabled([], t, e)
    ensures OnlyEof(s, Apply([], t, e))
  {
    if e.ReceiverStep? && e.r.Consume? {
      assert ChunkOfFile([], e.r.chunk) by { assert e.r.chunk in t.chunks; }
    }
  }

  lemma {:induction false} EmptyRunKeepsOnlyEof(s: State, r: State, steps: seq<Step>, t: State)
    requires Inv([], r) && OnlyEof(s, r) && Run([], r, steps, t)
    ensures OnlyEof(s, t)
    decreases |steps|
  {
    if steps != [] {
      StepKeepsInv([], r, steps[0]);
      StepKeepsOnlyEof(s, r, steps[0]);
      EmptyRunKeepsOnlyEof(s, Apply([], r, steps[0]), steps[1..], t);
    }
  }

  /** An empty file is the exception: the sender returns without reading any ACK, on every run. */
  lemma EmptyFileLeavesItsAck(s: State, steps: seq<Step>, t: State)
    requires Init(s) && Run([], s, steps, t) && Final(t)
    ensures t.acks == s.acks + [0] && t.chunks == []
  {
    InitInv([], s);
    RunKeepsInv([], s, steps, t);
    EmptyRunKeepsOnlyEof(s, s, steps, t);
  }

  /** Every finished transfer has used up its chunks, and its ACKs exactly if the file is not empty. */
  lemma LinksAtTheEnd(file: Bytes, s: State, steps: seq<Step>, t: State)
    requires |file| < TWO_63 && Init(s) && Run(file, s, steps, t) && Final(t)
    ensures t.chunks == [] && (t.acks == [] <==> file != [])
  {
    if file == [] {
      EmptyFileLeavesItsAck(s, steps, t);
    } else {
      LinksAreEmptyAtTheEnd(file, s, steps, t);
    }
  }

  /** From every point of every run the transfer can only go on to completion. */
  lemma {:induction false} Complete(file: Bytes, s: State) returns (steps: seq<Step>, t: State)
    requires Inv(file, s)
    ensures Run(file, s, steps, t) && Final(t)
    decreases Potential(file, s)
  {
    if Final(s) {
      return [], s;
    }
    var e := NotStuck(file, s);
    StepKeepsInv(file, s, e);
    StepSpendsPotential(file, s, e);
    var rest;
    rest, t := Complete(file, Apply(file, s, e));
    steps := [e] + rest;
    assert steps[1..] == rest;
  }
}
