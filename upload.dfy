/**
 * UploadFile and the CompleteMultipartUpload step it ends with.
 *
 * Every effect outside the client (splitting the local file, each service call) is
 * answered by an `UploadReplies` value; the method returns the error it reports and
 * the list of calls it made, in order. `IsUploadRun` states which (error, calls)
 * pairs a run may produce, and the lemmas below derive the abort and ordering rules
 * from it.
 */
module Upload {
  import opened Types
  import opened Seqs
  import opened PartOrder
  import Requests

  /** The message of the error UploadFile reports for a part size out of bounds. */
  const UploadPartSizeError := ClientError("oss: part size invalid range (1024KB, 5GB]")

  /** The local outcome of opening the file for one part, then the service's reply to its PUT. */
  datatype PartReply = PartReply(open: Outcome, put: Result<string>)

  /** How the file system and the service answer one UploadFile run. */
  datatype UploadReplies = UploadReplies(
    split: Result<seq<FileChunk>>,     // SplitFileByPartSize
    initiate: Result<InitiateResult>,  // InitiateMultipartUpload
    part: nat -> PartReply,            // the k-th UploadPartFromFile, counting from 0
    complete: Outcome,                 // CompleteMultipartUpload's request and response decoding
    abort: Result<int>)                // AbortMultipartUpload's transport outcome and status

  /** A call UploadFile makes, in the order it makes them. */
  datatype UploadCall =
    | SplitFile(filePath: string, partSize: int)
    | Initiate(objectKey: string, options: seq<ReqOption>)
    | PartUpload(uploadId: string, number: int, offset: int, size: int)
    | Complete(uploadId: string, parts: seq<Part>)
    | Abort(uploadId: string)

  predicate IsAbortCall(c: UploadCall) { c.Abort? }
  predicate IsCompleteCall(c: UploadCall) { c.Complete? }
  predicate IsPartUploadCall(c: UploadCall) { c.PartUpload? }

  predicate PartSizeValid(limits: PartSizeLimits, partSize: int) {
    !(partSize < limits.minPartSize || partSize > limits.maxPartSize)
  }

  /** The size check passed, the file was split and the session was opened. */
  predicate SessionOpened(limits: PartSizeLimits, partSize: int, r: UploadReplies) {
    PartSizeValid(limits, partSize) && r.split.Success? && r.initiate.Success?
  }

  /** The result UploadPartFromFile returns for one chunk. */
  function PartOutcome(c: FileChunk, reply: PartReply): Result<Part> {
    Requests.FilePartResult(c.number, reply.open, reply.put)
  }

  /**
   * Each PartUpload call of the trace is an UploadPartFromFile of that chunk: its result is
   * PartOutcome, and its request names the chunk's number and the session's upload id and
   * sends the chunk's byte range.
   */
  lemma PartOutcomeIsUploadPartFromFile(imur: InitiateResult, c: FileChunk, reply: PartReply)
    ensures var call := Requests.UploadPartFromFile(imur, c.offset, c.size, c.number, reply.open, reply.put);
      && call.result == PartOutcome(c, reply)
      && (reply.open.Ok? ==>
            && call.request.Some?
            && Requests.ParsePartParams(call.request.value.params) == Some((c.number, imur.uploadId))
            && call.request.value.body == FileRange(c.offset, c.size))
  {
  }

  function PartCallOf(uploadId: string, c: FileChunk): UploadCall {
    PartUpload(uploadId, c.number, c.offset, c.size)
  }

  /** One part upload per chunk, in chunk order. */
  function PartCalls(uploadId: string, chunks: seq<FileChunk>): (calls: seq<UploadCall>)
  {
    if chunks == [] then []
    else PartCalls(uploadId, chunks[..|chunks| - 1]) + [PartCallOf(uploadId, chunks[|chunks| - 1])]
  }

  lemma PartCallsSnoc(uploadId: string, chunks: seq<FileChunk>, i: nat)
    requires i < |chunks|
    ensures PartCalls(uploadId, chunks[..i + 1]) == PartCalls(uploadId, chunks[..i]) + [PartCallOf(uploadId, chunks[i])]
  {
    assert chunks[..i + 1][..i] == chunks[..i];
  }

  /** The index of the first chunk at or after `from` whose upload fails, or `|chunks|`. */
  function FirstFailedPart(chunks: seq<FileChunk>, part: nat -> PartReply, from: nat): (k: nat)
    requires from <= |chunks|
    ensures from <= k <= |chunks|
    ensures forall j :: from <= j < k ==> PartOutcome(chunks[j], part(j)).Success?
    ensures k < |chunks| ==> PartOutcome(chunks[k], part(k)).Failure?
    decreases |chunks| - from
  {
    if from == |chunks| || PartOutcome(chunks[from], part(from)).Failure? then from
    else FirstFailedPart(chunks, part, from + 1)
  }

  /** The parts returned by the first `k` uploads, all of which succeeded. */
  function UploadedParts(chunks: seq<FileChunk>, part: nat -> PartReply, k: nat): (parts: seq<Part>)
    requires k <= |chunks|
    requires forall j :: 0 <= j < k ==> PartOutcome(chunks[j], part(j)).Success?
    ensures |parts| == k
    ensures forall j :: 0 <= j < k ==> parts[j] == PartOutcome(chunks[j], part(j)).value
    ensures forall j :: 0 <= j < k ==> parts[j].partNumber == chunks[j].number
  {
    if k == 0 then []
    else UploadedParts(chunks, part, k - 1) + [PartOutcome(chunks[k - 1], part(k - 1)).value]
  }

  /**
   * The runs UploadFile may produce: the error it returns and the calls it makes,
   * given how the file system and the service answer.
   */
  ghost predicate IsUploadRun(limits: PartSizeLimits, objectKey: string, filePath: string, options: seq<ReqOption>, partSize: int, r: UploadReplies,
                              err: Outcome, calls: seq<UploadCall>)
  {
    if !PartSizeValid(limits, partSize) then
      err == Fail(UploadPartSizeError) && calls == []
    else if r.split.Failure? then
      err == Fail(r.split.error) && calls == [SplitFile(filePath, partSize)]
    else if r.initiate.Failure? then
      err == Fail(r.initiate.error) && calls == [SplitFile(filePath, partSize), Initiate(objectKey, options)]
    else
      IsSessionRun(objectKey, filePath, options, partSize, r, err, calls)
  }

  /** The runs that got as far as opening the session. */
  ghost predicate IsSessionRun(objectKey: string, filePath: string, options: seq<ReqOption>, partSize: int, r: UploadReplies, err: Outcome, calls: seq<UploadCall>)
    requires r.split.Success? && r.initiate.Success?
  {
    var chunks, imur := r.split.value, r.initiate.value;
    var k := FirstFailedPart(chunks, r.part, 0);
    var head := [SplitFile(filePath, partSize), Initiate(objectKey, options)];
    if k < |chunks| then
      // the k-th part failed: abort, and report the part's error
      && err == Fail(PartOutcome(chunks[k], r.part(k)).error)
      && calls == head + PartCalls(imur.uploadId, chunks[..k + 1]) + [Abort(imur.uploadId)]
    else
      // every part succeeded: complete with the parts sorted by number
      IsCompletionRun(head + PartCalls(imur.uploadId, chunks), imur.uploadId,
                      UploadedParts(chunks, r.part, |chunks|), r.complete, err, calls)
  }

  /**
   * The end of a run after `before`: one completion call carrying `uploaded` sorted by
   * part number, then, if completion failed, one abort; the error is completion's.
   */
  ghost predicate IsCompletionRun(before: seq<UploadCall>, uploadId: string, uploaded: seq<Part>, reply: Outcome,
                                  err: Outcome, calls: seq<UploadCall>)
  {
    && |calls| == |before| + (if reply.Ok? then 1 else 2)
    && calls[..|before|] == before
    && calls[|before|].Complete?
    && calls[|before|].uploadId == uploadId
    && IsSortedPermutation(calls[|before|].parts, uploaded)
    && err == reply
    && (reply.Fail? ==> calls[|before| + 1] == Abort(uploadId))
  }

  /** The run that stops at the k-th part, the first to fail. */
  lemma PartFailureIsRun(limits: PartSizeLimits, objectKey: string, filePath: string, options: seq<ReqOption>, partSize: int, r: UploadReplies, k: nat,
                         err: Outcome, calls: seq<UploadCall>)
    requires SessionOpened(limits, partSize, r)
    requires k < |r.split.value|
    requires forall j :: 0 <= j < k ==> PartOutcome(r.split.value[j], r.part(j)).Success?
    requires PartOutcome(r.split.value[k], r.part(k)).Failure?
    requires err == Fail(PartOutcome(r.split.value[k], r.part(k)).error)
    requires var id := r.initiate.value.uploadId;
      calls == [SplitFile(filePath, partSize), Initiate(objectKey, options)] + PartCalls(id, r.split.value[..k])
               + [PartCallOf(id, r.split.value[k])] + [Abort(id)]
    ensures IsUploadRun(limits, objectKey, filePath, options, partSize, r, err, calls)
  {
    var chunks, id := r.split.value, r.initiate.value.uploadId;
    assert FirstFailedPart(chunks, r.part, 0) == k;
    PartCallsSnoc(id, chunks, k);
  }

  /** The run in which every part succeeds and the session is completed with `sent`. */
  lemma CompletionIsRun(limits: PartSizeLimits, objectKey: string, filePath: string, options: seq<ReqOption>, partSize: int, r: UploadReplies,
                        sent: seq<Part>, err: Outcome, calls: seq<UploadCall>)
    requires SessionOpened(limits, partSize, r)
    requires forall j :: 0 <= j < |r.split.value| ==> PartOutcome(r.split.value[j], r.part(j)).Success?
    requires IsSortedPermutation(sent, UploadedParts(r.split.value, r.part, |r.split.value|))
    requires var id := r.initiate.value.uploadId;
      var before := [SplitFile(filePath, partSize), Initiate(objectKey, options)] + PartCalls(id, r.split.value) + [Complete(id, sent)];
      if r.complete.Ok? then err == Ok && calls == before
      else err == r.complete && calls == before + [Abort(id)]
    ensures IsUploadRun(limits, objectKey, filePath, options, partSize, r, err, calls)
  {
    var chunks, id := r.split.value, r.initiate.value.uploadId;
    assert FirstFailedPart(chunks, r.part, 0) == |chunks|;
    var before := [SplitFile(filePath, partSize), Initiate(objectKey, options)] + PartCalls(id, chunks);
    assert calls[..|before|] == before;
    assert calls[|before|] == Complete(id, sent);
  }

  /**
   * CompleteMultipartUpload: sorts the caller's part list in place by part number, then
   * sends it in one POST of the session. `reply` is the outcome of that request and of
   * decoding its response.
   */
  method CompleteMultipartUpload(imur: InitiateResult, parts: array<Part>, reply: Outcome)
    returns (request: Request, err: Outcome)
    modifies parts
    ensures IsSortedPermutation(parts[..], old(parts[..]))
    ensures request == Request("POST", imur.key, Requests.SessionParams(imur.uploadId), [], PartList(parts[..]))
    ensures err == reply
  {
    SortParts(parts);
    request := Request("POST", imur.key, Requests.SessionParams(imur.uploadId), [], PartList(parts[..]));
    err := reply;
  }

  /**
   * UploadFile: checks the part size, splits the file, opens a session, uploads every
   * chunk in order and completes the session; a failed part or a failed completion
   * aborts the session and returns that failure's error.
   */
  method UploadFile(limits: PartSizeLimits, objectKey: string, filePath: string, options: seq<ReqOption>, partSize: int, r: UploadReplies)
    returns (err: Outcome, calls: seq<UploadCall>)
    ensures IsUploadRun(limits, objectKey, filePath, options, partSize, r, err, calls)
  {
    if partSize < limits.minPartSize || partSize > limits.maxPartSize {
      return Fail(UploadPartSizeError), [];
    }
    calls := [SplitFile(filePath, partSize)];
    if r.split.Failure? {
      return Fail(r.split.error), calls;
    }
    var chunks := r.split.value;
    calls := calls + [Initiate(objectKey, options)];
    if r.initiate.Failure? {
      return Fail(r.initiate.error), calls;
    }
    var imur := r.initiate.value;

    var parts: seq<Part> := [];
    var i := 0;
    while i < |chunks|
      invariant 0 <= i <= |chunks|
      invariant forall j :: 0 <= j < i ==> PartOutcome(chunks[j], r.part(j)).Success?
      invariant parts == UploadedParts(chunks, r.part, i)
      invariant calls == [SplitFile(filePath, partSize), Initiate(objectKey, options)] + PartCalls(imur.uploadId, chunks[..i])
    {
      var chunk := chunks[i];
      var result := PartOutcome(chunk, r.part(i));
      calls := calls + [PartUpload(imur.uploadId, chunk.number, chunk.offset, chunk.size)];
      if result.Failure? {
        var aborted := Requests.AbortMultipartUpload(imur, r.abort);
        calls := calls + [Abort(imur.uploadId)];
        err := Fail(result.error);
        PartFailureIsRun(limits, objectKey, filePath, options, partSize, r, i, err, calls);
        return;
      }
      parts := parts + [result.value];
      PartCallsSnoc(imur.uploadId, chunks, i);
      i := i + 1;
    }
    assert chunks[..i] == chunks;

    var sent := new Part[|parts|](j requires 0 <= j < |parts| => parts[j]);
    assert sent[..] == parts;
    var request, completed := CompleteMultipartUpload(imur, sent, r.complete);
    calls := calls + [Complete(imur.uploadId, sent[..])];
    err := Ok;
    if completed.Fail? {
      var aborted := Requests.AbortMultipartUpload(imur, r.abort);
      calls := calls + [Abort(imur.uploadId)];
      err := completed;
    }
    CompletionIsRun(limits, objectKey, filePath, options, partSize, r, sent[..], err, calls);
  }

  // ---------------------------------------------------------------------------
  // What every run guarantees

  /** PartCalls makes one part upload per chunk, in chunk order, with that chunk's number, offset and size. */
  lemma {:induction false} PartCallsEach(uploadId: string, chunks: seq<FileChunk>)
    ensures |PartCalls(uploadId, chunks)| == |chunks|
    ensures forall j :: 0 <= j < |chunks| ==>
      PartCalls(uploadId, chunks)[j] == PartUpload(uploadId, chunks[j].number, chunks[j].offset, chunks[j].size)
  {
    if chunks != [] {
      PartCallsEach(uploadId, chunks[..|chunks| - 1]);
    }
  }

  /** The first calls of a session: split, initiate, then the part uploads; none aborts or completes. */
  lemma {:induction false} SessionPrefixCounts(filePath: string, options: seq<ReqOption>, partSize: int, objectKey: string, uploadId: string, chunks: seq<FileChunk>)
    ensures var calls := [SplitFile(filePath, partSize), Initiate(objectKey, options)] + PartCalls(uploadId, chunks);
      && Filter(calls, IsPartUploadCall) == PartCalls(uploadId, chunks)
      && Count(calls, IsAbortCall) == 0
      && Count(calls, IsCompleteCall) == 0
  {
    var head := [SplitFile(filePath, partSize), Initiate(objectKey, options)];
    var parts := PartCalls(uploadId, chunks);
    PartCallsEach(uploadId, chunks);
    PartCallsAreParts(parts);
    assert Filter(head, IsPartUploadCall) == [] by {
      assert Filter(head[1..], IsPartUploadCall) == [];
    }
    assert Count(head, IsAbortCall) == 0 && Count(head, IsCompleteCall) == 0;
    FilterAppend(head, parts, IsPartUploadCall);
    CountAppend(head, parts, IsAbortCall);
    CountAppend(head, parts, IsCompleteCall);
  }

  lemma {:induction false} PartCallsAreParts(calls: seq<UploadCall>)
    requires forall j :: 0 <= j < |calls| ==> calls[j].PartUpload?
    ensures Filter(calls, IsPartUploadCall) == calls
    ensures Count(calls, IsAbortCall) == 0 && Count(calls, IsCompleteCall) == 0
  {
    if calls != [] {
      PartCallsAreParts(calls[1..]);
    }
  }

  /** Counting over `prefix + tail` for a tail of completion and abort calls. */
  lemma CountsWithTail(prefix: seq<UploadCall>, tail: seq<UploadCall>)
    requires forall j :: 0 <= j < |tail| ==> tail[j].Complete? || tail[j].Abort?
    ensures Filter(prefix + tail, IsPartUploadCall) == Filter(prefix, IsPartUploadCall)
    ensures Count(prefix + tail, IsAbortCall) == Count(prefix, IsAbortCall) + Count(tail, IsAbortCall)
    ensures Count(prefix + tail, IsCompleteCall) == Count(prefix, IsCompleteCall) + Count(tail, IsCompleteCall)
  {
    FilterAppend(prefix, tail, IsPartUploadCall);
    CountAppend(prefix, tail, IsAbortCall);
    CountAppend(prefix, tail, IsCompleteCall);
    assert Count(tail, IsPartUploadCall) == 0;
  }

  /** What follows the part uploads: the completion call, then the abort if completion failed. */
  lemma CompletionTail(before: seq<UploadCall>, uploadId: string, uploaded: seq<Part>, reply: Outcome,
                       err: Outcome, calls: seq<UploadCall>)
    requires IsCompletionRun(before, uploadId, uploaded, reply, err, calls)
    ensures calls == before + calls[|before|..]
    ensures calls[|before|..] == [calls[|before|]] + (if reply.Fail? then [Abort(uploadId)] else [])
    ensures forall j :: 0 <= j < |calls[|before|..]| ==> calls[|before|..][j].Complete? || calls[|before|..][j].Abort?
  {
    assert calls == calls[..|before|] + calls[|before|..];
  }

  /**
   * The part-size check: UploadFile makes no call at all (no split, no session) exactly
   * when the part size is out of bounds, and then reports the part-size error.
   * The lower bound itself is accepted.
   */
  lemma UploadRejectsPartSize(limits: PartSizeLimits, objectKey: string, filePath: string, options: seq<ReqOption>, partSize: int, r: UploadReplies,
                              err: Outcome, calls: seq<UploadCall>)
    requires IsUploadRun(limits, objectKey, filePath, options, partSize, r, err, calls)
    ensures calls == [] <==> partSize < limits.minPartSize || partSize > limits.maxPartSize
    ensures calls == [] ==> err == Fail(UploadPartSizeError)
  {
    if SessionOpened(limits, partSize, r) {
      var chunks := r.split.value;
      if FirstFailedPart(chunks, r.part, 0) == |chunks| {
        assert |calls| > 0;
      }
    }
  }

  /**
   * Failures before the session exists (splitting the file, initiating) are returned as
   * they are, and no part is uploaded, nothing is completed and nothing is aborted.
   */
  lemma UploadWithoutSession(limits: PartSizeLimits, objectKey: string, filePath: string, options: seq<ReqOption>, partSize: int, r: UploadReplies,
                             err: Outcome, calls: seq<UploadCall>)
    requires IsUploadRun(limits, objectKey, filePath, options, partSize, r, err, calls)
    requires !SessionOpened(limits, partSize, r)
    ensures PartSizeValid(limits, partSize) && r.split.Failure? ==> err == Fail(r.split.error)
    ensures PartSizeValid(limits, partSize) && r.split.Success? ==> err == Fail(r.initiate.error)
    ensures Count(calls, IsPartUploadCall) == 0
    ensures Count(calls, IsCompleteCall) == 0
    ensures Count(calls, IsAbortCall) == 0
  {
  }

  /**
   * A failed part upload: every chunk before it was uploaded, in order, and no chunk
   * after it; Complete is never called; Abort is called exactly once, as the last call;
   * and the part's own error is returned.
   */
  lemma UploadPartFailure(limits: PartSizeLimits, objectKey: string, filePath: string, options: seq<ReqOption>, partSize: int, r: UploadReplies,
                          err: Outcome, calls: seq<UploadCall>, k: nat)
    requires IsUploadRun(limits, objectKey, filePath, options, partSize, r, err, calls)
    requires SessionOpened(limits, partSize, r)
    requires k < |r.split.value|
    requires forall j :: 0 <= j < k ==> PartOutcome(r.split.value[j], r.part(j)).Success?
    requires PartOutcome(r.split.value[k], r.part(k)).Failure?
    ensures err == Fail(PartOutcome(r.split.value[k], r.part(k)).error)
    ensures Filter(calls, IsPartUploadCall) == PartCalls(r.initiate.value.uploadId, r.split.value[..k + 1])
    ensures Count(calls, IsCompleteCall) == 0
    ensures Count(calls, IsAbortCall) == 1
    ensures calls[|calls| - 1] == Abort(r.initiate.value.uploadId)
  {
    var chunks, id := r.split.value, r.initiate.value.uploadId;
    assert FirstFailedPart(chunks, r.part, 0) == k;
    var prefix := [SplitFile(filePath, partSize), Initiate(objectKey, options)] + PartCalls(id, chunks[..k + 1]);
    assert calls == prefix + [Abort(id)];
    SessionPrefixCounts(filePath, options, partSize, objectKey, id, chunks[..k + 1]);
    CountsWithTail(prefix, [Abort(id)]);
  }

  /**
   * A failed completion after every part succeeded: all chunks were uploaded in order,
   * Complete was called once, then Abort once, last; Complete's error is returned.
   */
  lemma UploadCompleteFailure(limits: PartSizeLimits, objectKey: string, filePath: string, options: seq<ReqOption>, partSize: int, r: UploadReplies,
                              err: Outcome, calls: seq<UploadCall>)
    requires IsUploadRun(limits, objectKey, filePath, options, partSize, r, err, calls)
    requires SessionOpened(limits, partSize, r)
    requires forall j :: 0 <= j < |r.split.value| ==> PartOutcome(r.split.value[j], r.part(j)).Success?
    requires r.complete.Fail?
    ensures err == r.complete
    ensures Filter(calls, IsPartUploadCall) == PartCalls(r.initiate.value.uploadId, r.split.value)
    ensures Count(calls, IsCompleteCall) == 1
    ensures Count(calls, IsAbortCall) == 1
    ensures calls[|calls| - 2].Complete? && calls[|calls| - 1] == Abort(r.initiate.value.uploadId)
  {
    var chunks, id := r.split.value, r.initiate.value.uploadId;
    assert FirstFailedPart(chunks, r.part, 0) == |chunks|;
    var prefix := [SplitFile(filePath, partSize), Initiate(objectKey, options)] + PartCalls(id, chunks);
    CompletionTail(prefix, id, UploadedParts(chunks, r.part, |chunks|), r.complete, err, calls);
    var tail := calls[|prefix|..];
    SessionPrefixCounts(filePath, options, partSize, objectKey, id, chunks);
    CountsWithTail(prefix, tail);
  }

  /**
   * A successful upload: the session was opened, every chunk was uploaded in order, the
   * session was completed once, as the last call, with the uploaded parts sorted by
   * number, and nothing was aborted.
   */
  lemma UploadSuccess(limits: PartSizeLimits, objectKey: string, filePath: string, options: seq<ReqOption>, partSize: int, r: UploadReplies,
                      err: Outcome, calls: seq<UploadCall>)
    requires IsUploadRun(limits, objectKey, filePath, options, partSize, r, err, calls)
    requires err == Ok
    ensures SessionOpened(limits, partSize, r)
    ensures forall j :: 0 <= j < |r.split.value| ==> PartOutcome(r.split.value[j], r.part(j)).Success?
    ensures r.complete == Ok
    ensures Filter(calls, IsPartUploadCall) == PartCalls(r.initiate.value.uploadId, r.split.value)
    ensures Count(calls, IsAbortCall) == 0
    ensures Count(calls, IsCompleteCall) == 1
    ensures calls[|calls| - 1].Complete?
    ensures IsSortedPermutation(calls[|calls| - 1].parts, UploadedParts(r.split.value, r.part, |r.split.value|))
  {
    var chunks, id := r.split.value, r.initiate.value.uploadId;
    var k := FirstFailedPart(chunks, r.part, 0);
    assert k == |chunks|;
    var prefix := [SplitFile(filePath, partSize), Initiate(objectKey, options)] + PartCalls(id, chunks);
    CompletionTail(prefix, id, UploadedParts(chunks, r.part, |chunks|), r.complete, err, calls);
    var tail := calls[|prefix|..];
    SessionPrefixCounts(filePath, options, partSize, objectKey, id, chunks);
    CountsWithTail(prefix, tail);
  }

  /** Abort's own reply never changes what UploadFile returns or which calls it makes. */
  lemma UploadAbortReplyIgnored(limits: PartSizeLimits, objectKey: string, filePath: string, options: seq<ReqOption>, partSize: int, r: UploadReplies,
                                err: Outcome, calls: seq<UploadCall>, abortReply: Result<int>)
    ensures IsUploadRun(limits, objectKey, filePath, options, partSize, r, err, calls)
        <==> IsUploadRun(limits, objectKey, filePath, options, partSize, r.(abort := abortReply), err, calls)
  {
  }

  /**
   * When the chunks carry ascending part numbers (as when `SplitFileByPartSize` numbers
   * the chunks in ascending order),
   * the sort before completion changes nothing: Complete receives the parts in chunk order.
   */
  lemma CompleteGetsChunkOrder(limits: PartSizeLimits, objectKey: string, filePath: string, options: seq<ReqOption>, partSize: int, r: UploadReplies,
                               err: Outcome, calls: seq<UploadCall>)
    requires IsUploadRun(limits, objectKey, filePath, options, partSize, r, err, calls)
    requires SessionOpened(limits, partSize, r)
    requires forall j :: 0 <= j < |r.split.value| ==> PartOutcome(r.split.value[j], r.part(j)).Success?
    requires forall i, j :: 0 <= i < j < |r.split.value| ==> r.split.value[i].number < r.split.value[j].number
    ensures var before := 2 + |r.split.value|;
      before < |calls| && calls[before] == Complete(r.initiate.value.uploadId, UploadedParts(r.split.value, r.part, |r.split.value|))
  {
    var chunks, id := r.split.value, r.initiate.value.uploadId;
    assert FirstFailedPart(chunks, r.part, 0) == |chunks|;
    PartCallsEach(id, chunks);
    var uploaded := UploadedParts(chunks, r.part, |chunks|);
    var prefix := [SplitFile(filePath, partSize), Initiate(objectKey, options)] + PartCalls(id, chunks);
    assert StrictlyAscending(uploaded);
    CompletionOfAscending(prefix, id, uploaded, r.complete, err, calls);
  }

  /** A completion of parts already in ascending order sends them as they are. */
  lemma CompletionOfAscending(before: seq<UploadCall>, uploadId: string, uploaded: seq<Part>, reply: Outcome,
                              err: Outcome, calls: seq<UploadCall>)
    requires IsCompletionRun(before, uploadId, uploaded, reply, err, calls)
    requires StrictlyAscending(uploaded)
    ensures |before| < |calls| && calls[|before|] == Complete(uploadId, uploaded)
  {
    SortedPermutationUnique(uploaded, calls[|before|].parts);
  }
}
