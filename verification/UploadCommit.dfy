/**
  `FileUploadHandler` and `createWrOnlyTempFile` over an abstract file system: the bytes
  are received into a fresh temporary file next to the target, which is renamed over
  the target once it is complete; the deferred clean-up removes the temporary file on
  every path that did not succeed.
 */
module UploadCommit {
  import opened TransferTypes
  import opened Values
  import U = Upload

  const MAX_TRIES: nat := 100
  const TWO_32: nat := 0x1_0000_0000

  /** The last `width` hexadecimal digits, as `%08x` and `%02x` print the values used here. */
  function Hex(n: nat, width: nat): (s: string)
    ensures |s| == width
  {
    if width == 0 then "" else Hex(n / 16, width - 1) + ["0123456789abcdef"[n % 16]]
  }

  function TempName(path: string, suffix: nat, i: nat): (name: string)
    ensures path < name
  {
    path + "." + Hex(suffix, 8) + Hex(i, 2)
  }

  function Pow16(width: nat): (p: nat)
    ensures p > 0
  {
    if width == 0 then 1 else 16 * Pow16(width - 1)
  }

  lemma {:induction false} HexIsInjective(a: nat, b: nat, width: nat)
    requires a < Pow16(width) && b < Pow16(width) && Hex(a, width) == Hex(b, width)
    ensures a == b
  {
    if width > 0 {
      var s, t := Hex(a, width), Hex(b, width);
      assert s[..width - 1] == Hex(a / 16, width - 1) && t[..width - 1] == Hex(b / 16, width - 1);
      assert s[width - 1] == "0123456789abcdef"[a % 16] && t[width - 1] == "0123456789abcdef"[b % 16];
      HexIsInjective(a / 16, b / 16, width - 1);
    }
  }

  lemma TempNameParts(path: string, suffix: nat, i: nat)
    ensures |TempName(path, suffix, i)| == |path| + 11
    ensures TempName(path, suffix, i)[|path| + 1..|path| + 9] == Hex(suffix, 8)
    ensures TempName(path, suffix, i)[|path| + 9..] == Hex(i, 2)
  {
  }

  /** Two attempts on one target name the same file only if counter and attempt number agree. */
  lemma TempNamesDiffer(path: string, s: nat, i: nat, t: nat, j: nat)
    requires s < TWO_32 && t < TWO_32 && i < MAX_TRIES && j < MAX_TRIES
    ensures TempName(path, s, i) == TempName(path, t, j) <==> s == t && i == j
  {
    if TempName(path, s, i) == TempName(path, t, j) {
      TempNameParts(path, s, i);
      TempNameParts(path, t, j);
      assert Pow16(2) == 256 && Pow16(8) == TWO_32 by {
        assert Pow16(4) == 65536;
      }
      HexIsInjective(i, j, 2);
      HexIsInjective(s, t, 8);
    }
  }

  /** What the operating system answers; every outcome is possible. */
  datatype SystemCalls = SystemCalls(
    createFails: nat -> bool,    // i-th attempt fails other than by "file exists"
    firstAckFails: bool, chmodFails: bool, chownFails: bool,
    renameFails: bool, preserveFails: bool, finalAckFails: bool,
    removeFails: bool)

  datatype Failure =
    | CreateFailed | AckFailed | ReceiveFailed(cause: U.Failure) | AttributesFailed | RenameFailed
    | PreserveFailed | FinalAckFailed

  /** A fresh temporary file leaves no trace once removed, whether or not it was renamed first. */
  lemma DropTemp(files: map<string, Bytes>, tmp: string, path: string, body: Bytes)
    requires tmp !in files && tmp != path
    ensures files[tmp := body] - {tmp} == files
    ensures (files[tmp := body] - {tmp})[path := body] == files[path := body]
    ensures files[path := body] - {tmp} == files[path := body]
  {
  }

  /** `atomic.AddUint32` with one. */
  function AddUint32(suffix: nat): nat {
    (suffix + 1) % TWO_32
  }

  /** The counter after `n` more additions. */
  function SuffixAfter(start: nat, n: nat): nat {
    if n == 0 then start else AddUint32(SuffixAfter(start, n - 1))
  }

  /** The i-th name tried when the counter starts at `start`. */
  function Candidate(path: string, start: nat, i: nat): string {
    TempName(path, SuffixAfter(start, i + 1), i)
  }

  /** The i-th name is the first one that is not taken. */
  predicate FirstFree(files: map<string, Bytes>, path: string, start: nat, i: nat) {
    && i < MAX_TRIES && Candidate(path, start, i) !in files
    && forall k :: 0 <= k < i ==> Candidate(path, start, k) in files
  }

  /** All hundred names are taken, or creating the first one that is not fails. */
  ghost predicate CannotCreate(files: map<string, Bytes>, path: string, start: nat, calls: SystemCalls) {
    || (forall i :: 0 <= i < MAX_TRIES ==> Candidate(path, start, i) in files)
    || (exists i :: FirstFree(files, path, start, i) && calls.createFails(i))
  }

  /** What the handler itself sends, apart from the ACKs of the chunks. */
  datatype Reply = StartAck | FinalAck

  /** A failure of the steps after the last byte has its cause in the operating system or the writer. */
  predicate CommitCaused(v2: bool, calls: SystemCalls, failure: Failure) {
    match failure
    case AttributesFailed => calls.chmodFails || calls.chownFails
    case RenameFailed => calls.renameFails && !calls.chmodFails && !calls.chownFails
    case PreserveFailed => calls.preserveFails
    case FinalAckFailed => v2 && calls.finalAckFails && !calls.preserveFails
    case _ => false
  }

  /** How `WriteFile` ended, when the handler got as far. */
  function ReceiveFailure(failure: Option<Failure>): Option<U.Failure> {
    if failure.Some? && failure.value.ReceiveFailed? then Some(failure.value.cause) else None
  }

  /**
    With working removal every file is as before, except that the target may hold the
    complete received bytes; it does so on success, and otherwise exactly if the failure
    came after the rename.  If removal fails, a temporary file next to the target is the
    only difference.
   */
  ghost predicate AllOrNothing(before: map<string, Bytes>, after: map<string, Bytes>, path: string, received: Bytes,
                               calls: SystemCalls, failure: Option<Failure>) {
    if failure in {None, Some(PreserveFailed), Some(FinalAckFailed)} then after == before[path := received]
    else
      || after == before
      || (calls.removeFails && exists tmp :: path < tmp && tmp !in before && after == before[tmp := received])
  }

  class FileSystem {
    var files: map<string, Bytes>
    var atomicSuffix: nat   // process-wide uint32 counter

    constructor (initial: map<string, Bytes>)
      ensures files == initial && atomicSuffix == 0
    {
      files, atomicSuffix := initial, 0;
    }

    method CreateWrOnlyTempFile(path: string, calls: SystemCalls) returns (name: Option<string>)
      modifies this
      ensures name.Some? ==> path < name.value && name.value !in old(files)
      ensures name.Some? ==> exists i :: FirstFree(old(files), path, old(atomicSuffix), i) && !calls.createFails(i)
                                         && name.value == Candidate(path, old(atomicSuffix), i)
      ensures name == None ==> CannotCreate(old(files), path, old(atomicSuffix), calls)
      ensures files == if name.Some? then old(files)[name.value := []] else old(files)
    {
      var i, start := 0, atomicSuffix;
      while i < MAX_TRIES
        invariant i <= MAX_TRIES && files == old(files)
        invariant atomicSuffix == SuffixAfter(start, i)
        invariant forall k :: 0 <= k < i ==> Candidate(path, start, k) in old(files)
      {
        atomicSuffix := AddUint32(atomicSuffix);
        var filename := TempName(path, atomicSuffix, i);
        assert filename == Candidate(path, start, i);
        if filename !in files {
          assert FirstFree(old(files), path, start, i);
          if calls.createFails(i) {
            return None;
          }
          files := files[filename := []];
          return Some(filename);
        }
        i := i + 1;
      }
      return None;
    }

    method Remove(name: string, fails: bool)
      modifies `files
      ensures files == if fails then old(files) else old(files) - {name}
    {
      if !fails {
        files := files - {name};
      }
    }

    /** The steps after the last byte: attributes, rename over the target, ownership and mode, v2 ACK. */
    method Commit(tmp: string, path: string, v2: bool, calls: SystemCalls) returns (failure: Option<Failure>)
      requires tmp in files
      modifies `files
      ensures failure in {None, Some(PreserveFailed), Some(FinalAckFailed)} ==>
                files == (old(files) - {tmp})[path := old(files)[tmp]]
      ensures failure !in {None, Some(PreserveFailed), Some(FinalAckFailed)} ==> files == old(files)
      ensures failure in {None, Some(AttributesFailed), Some(RenameFailed), Some(PreserveFailed), Some(FinalAckFailed)}
      ensures failure.Some? ==> CommitCaused(v2, calls, failure.value)
      ensures failure == None ==> forall f :: !CommitCaused(v2, calls, f)
    {
      if calls.chmodFails || calls.chownFails {
        return Some(AttributesFailed);
      }
      if calls.renameFails {
        return Some(RenameFailed);
      }
      files := (files - {tmp})[path := files[tmp]];
      if calls.preserveFails {
        return Some(PreserveFailed);
      }
      return if v2 && calls.finalAckFails then Some(FinalAckFailed) else None;
    }

    /** Receive into the temporary file and commit it; whatever fails, the name is removed again. */
    method ReceiveAndCommit(tmp: string, path: string, v2: bool, peer: seq<U.Message>, env: U.Environment,
                            limits: U.Limits, calls: SystemCalls, ghost before: map<string, Bytes>)
      returns (received: Bytes, trace: seq<U.Event>, failure: Option<Failure>)
      requires path < tmp && tmp !in before && files == before[tmp := []]
      modifies `files
      ensures failure !in {Some(CreateFailed), Some(AckFailed)}
      ensures U.Receipt(peer, v2, env, limits, received, trace, ReceiveFailure(failure))
      ensures failure.Some? && !failure.value.ReceiveFailed? ==> CommitCaused(v2, calls, failure.value)
      ensures failure == None ==> forall f :: !CommitCaused(v2, calls, f)
      ensures AllOrNothing(before, files, path, received, calls, failure)
    {
      var cause;
      received, trace, cause := U.WriteFile(peer, v2, env, limits);
      files := files[tmp := received];
      DropTemp(before, tmp, path, received);
      assert files == before[tmp := received];
      if cause.Some? {
        Remove(tmp, calls.removeFails);
        return received, trace, Some(ReceiveFailed(cause.value));
      }
      failure := Commit(tmp, path, v2, calls);
      if failure.Some? {
        Remove(tmp, calls.removeFails);
      }
    }

    /**
      All or nothing, on every path; the handler's own replies are an ACK before the first
      chunk in v1 and one after the rename in v2.
     */
    method FileUploadHandler(path: string, v2: bool, peer: seq<U.Message>, env: U.Environment,
                             limits: U.Limits, calls: SystemCalls)
      returns (received: Bytes, trace: seq<U.Event>, replies: seq<Reply>, failure: Option<Failure>)
      modifies this
      ensures AllOrNothing(old(files), files, path, received, calls, failure)
      ensures failure !in {Some(CreateFailed), Some(AckFailed)} ==>
                U.Receipt(peer, v2, env, limits, received, trace, ReceiveFailure(failure))
      ensures failure in {Some(CreateFailed), Some(AckFailed)} ==> received == [] && trace == []
      ensures failure == Some(CreateFailed) ==> CannotCreate(old(files), path, old(atomicSuffix), calls)
      ensures failure == Some(AckFailed) ==> !v2 && calls.firstAckFails
      ensures failure.Some? && !failure.value.ReceiveFailed? && failure.value !in {CreateFailed, AckFailed} ==>
                CommitCaused(v2, calls, failure.value)
      ensures failure !in {Some(CreateFailed), Some(AckFailed)} ==> v2 || !calls.firstAckFails
      ensures failure == None ==> forall f :: !CommitCaused(v2, calls, f)
      ensures replies == if failure in {Some(CreateFailed), Some(AckFailed)} then []
                         else if !v2 then [StartAck] else if failure == None then [FinalAck] else []
    {
      received, trace, replies := [], [], [];
      var fd := CreateWrOnlyTempFile(path, calls);
      if fd == None {
        return received, trace, replies, Some(CreateFailed);
      }
      ghost var before := old(files);
      if !v2 && calls.firstAckFails {
        DropTemp(before, fd.value, path, received);
        Remove(fd.value, calls.removeFails);
        return received, trace, replies, Some(AckFailed);
      }
      received, trace, failure := ReceiveAndCommit(fd.value, path, v2, peer, env, limits, calls, before);
      replies := if !v2 then [StartAck] else if failure == None then [FinalAck] else [];
    }
  }
}
