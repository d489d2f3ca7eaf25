/**
 * Request shaping and result construction of the single-request multipart calls:
 * UploadPart, UploadPartFromFile, UploadPartCopy and AbortMultipartUpload.
 * The transport reply of each call is a parameter.
 */
module Requests {
  import opened Types
  import Decimal

  /** The only status AbortMultipartUpload accepts (204 No Content). */
  const StatusNoContent := 204

  /**
   * The query string of a part call: `partNumber=<n>&uploadId=<id>`. It names the part
   * number and the upload id it was built from, for every id.
   */
  function PartParams(partNumber: int, uploadId: string): (q: string)
    ensures ParsePartParams(q) == Some((partNumber, uploadId))
  {
    var digits := Decimal.Itoa(partNumber);
    ItoaHasNoAmpersand(partNumber);
    Decimal.ItoaRoundTrip(partNumber);
    ParseAssembled(digits, partNumber, uploadId);
    "partNumber=" + (digits + ("&" + ("uploadId=" + uploadId)))
  }

  /**
   * The query string of the session-level calls (complete, abort, list parts):
   * `uploadId=<id>`, which reads back as the upload id.
   */
  function SessionParams(uploadId: string): (q: string)
    ensures |q| == 9 + |uploadId| && q[9..] == uploadId
    ensures StripPrefix(q, "uploadId=") == Some(uploadId)
  {
    StripPrefixOf("uploadId=", uploadId);
    "uploadId=" + uploadId
  }

  /** The index of the first `c` in `s`, or `|s|` when there is none. */
  function IndexOf(s: string, c: char): (i: nat)
    ensures i <= |s|
    ensures forall j :: 0 <= j < i ==> s[j] != c
    ensures i < |s| ==> s[i] == c
  {
    if s == [] || s[0] == c then 0 else 1 + IndexOf(s[1..], c)
  }

  /** `s` with the prefix `p` removed, when `s` starts with `p`. */
  function StripPrefix(s: string, p: string): (r: Option<string>)
    ensures r.Some? <==> |p| <= |s| && s[..|p|] == p
    ensures r.Some? ==> s == p + r.value
  {
    if |p| <= |s| && s[..|p|] == p then Some(s[|p|..]) else None
  }

  /** Reads a part query string back into its part number and upload id. */
  function ParsePartParams(q: string): Option<(int, string)> {
    match StripPrefix(q, "partNumber=")
    case None => None
    case Some(rest) =>
      var amp := IndexOf(rest, '&');
      if amp == |rest| then None
      else
        match (Decimal.Atoi(rest[..amp]), StripPrefix(rest[amp + 1..], "uploadId="))
        case (Some(n), Some(uploadId)) => Some((n, uploadId))
        case _ => None
  }

  /** The first `c` of `a + b` is the head of `b` when `a` holds no `c`. */
  lemma IndexOfAfter(a: string, b: string, c: char)
    requires forall j :: 0 <= j < |a| ==> a[j] != c
    requires 0 < |b| && b[0] == c
    ensures IndexOf(a + b, c) == |a|
  {
    assert (a + b)[|a|] == c;
    assert forall j :: 0 <= j < |a| ==> (a + b)[j] == a[j];
  }

  /** A string beginning with `p` loses exactly `p` to StripPrefix. */
  lemma StripPrefixOf(p: string, rest: string)
    ensures StripPrefix(p + rest, p) == Some(rest)
  {
    assert (p + rest)[..|p|] == p;
    assert (p + rest)[|p|..] == rest;
  }

  /** The decimal text of an int holds no '&', so it cannot end the part number early. */
  lemma ItoaHasNoAmpersand(n: int)
    ensures forall j :: 0 <= j < |Decimal.Itoa(n)| ==> Decimal.Itoa(n)[j] != '&'
  {
    var digits := Decimal.Itoa(n);
    forall j | 0 <= j < |digits| ensures digits[j] != '&' {
      if n < 0 && j > 0 {
        assert digits[j] == digits[1..][j - 1];
      }
    }
  }

  /** Parsing a query string assembled from any '&'-free number text and an upload id. */
  lemma ParseAssembled(digits: string, n: int, uploadId: string)
    requires forall j :: 0 <= j < |digits| ==> digits[j] != '&'
    requires Decimal.Atoi(digits) == Some(n)
    ensures ParsePartParams("partNumber=" + (digits + ("&" + ("uploadId=" + uploadId)))) == Some((n, uploadId))
  {
    var tail := "uploadId=" + uploadId;
    var rest := digits + ("&" + tail);
    StripPrefixOf("partNumber=", rest);
    IndexOfAfter(digits, "&" + tail, '&');
    assert rest[..|digits|] == digits;
    assert rest[|digits| + 1..] == tail;
    StripPrefixOf("uploadId=", uploadId);
  }

  /** What a part call sent (None when it failed before any request) and what it returned. */
  datatype PartCall = PartCall(request: Option<Request>, result: Result<Part>)

  /** The part a PUT yields: the argument's part number and the returned ETag, or the PUT's error. */
  function PartResult(partNumber: int, reply: Result<string>): (r: Result<Part>)
    ensures r.Success? <==> reply.Success?
    ensures r.Success? ==> r.value.partNumber == partNumber && r.value.eTag == reply.value
    ensures r.Failure? ==> r.error == reply.error
  {
    match reply
    case Failure(e) => Failure(e)
    case Success(eTag) => Success(Part(partNumber, eTag))
  }

  /** The part UploadPartFromFile yields: the open error first, then as PartResult. */
  function FilePartResult(partNumber: int, open: Outcome, reply: Result<string>): (r: Result<Part>)
    ensures r.Success? <==> open.Ok? && reply.Success?
    ensures r.Success? ==> r.value.partNumber == partNumber && r.value.eTag == reply.value
    ensures open.Fail? ==> r == Failure(open.error)
    ensures open.Ok? && reply.Failure? ==> r == Failure(reply.error)
  {
    if open.Fail? then Failure(open.error) else PartResult(partNumber, reply)
  }

  /**
   * UploadPart: one PUT of the reader's first `size` bytes. `reply` is the transport's
   * outcome, carrying the ETag response header on success.
   */
  function UploadPart(imur: InitiateResult, size: int, partNumber: int, reply: Result<string>): (c: PartCall)
    ensures c.request.Some?
    ensures c.request.value == Request("PUT", imur.key, PartParams(partNumber, imur.uploadId), [ContentLength(size)], ReaderPrefix(size))
    ensures ParsePartParams(c.request.value.params) == Some((partNumber, imur.uploadId))
    ensures c.result.Success? <==> reply.Success?
    ensures c.result.Success? ==> c.result.value == Part(partNumber, reply.value)
    ensures c.result.Failure? ==> c.result.error == reply.error
  {
    var request := Request("PUT", imur.key, PartParams(partNumber, imur.uploadId), [ContentLength(size)], ReaderPrefix(size));
    PartCall(Some(request), PartResult(partNumber, reply))
  }

  /**
   * UploadPartFromFile: opens the file (`open` is that outcome), then one PUT of
   * `partSize` bytes from `startPosition`; `reply` as for UploadPart.
   */
  function UploadPartFromFile(imur: InitiateResult, startPosition: int, partSize: int, partNumber: int,
                              open: Outcome, reply: Result<string>): (c: PartCall)
    ensures c.request.Some? <==> open.Ok?
    ensures c.request.Some? ==>
      c.request.value == Request("PUT", imur.key, PartParams(partNumber, imur.uploadId), [], FileRange(startPosition, partSize))
    ensures c.request.Some? ==> ParsePartParams(c.request.value.params) == Some((partNumber, imur.uploadId))
    ensures c.result.Success? <==> open.Ok? && reply.Success?
    ensures c.result.Success? ==> c.result.value == Part(partNumber, reply.value)
    ensures open.Fail? ==> c.result == Failure(open.error)
    ensures open.Ok? && reply.Failure? ==> c.result == Failure(reply.error)
    ensures c.result == FilePartResult(partNumber, open, reply)
  {
    if open.Fail? then PartCall(None, Failure(open.error))
    else
      var request := Request("PUT", imur.key, PartParams(partNumber, imur.uploadId), [], FileRange(startPosition, partSize));
      PartCall(Some(request), PartResult(partNumber, reply))
  }

  /**
   * UploadPartCopy: one PUT naming the source object and byte range, followed by the
   * caller's options. `sent` is the transport's outcome and `decoded` the ETag read
   * from the XML response body, or the decoding error.
   */
  function UploadPartCopy(bucketName: string, imur: InitiateResult, copySrc: string, startPosition: int,
                          partSize: int, partNumber: int, options: seq<ReqOption>,
                          sent: Outcome, decoded: Result<string>): (c: PartCall)
    ensures c.request.Some?
    ensures c.request.value.verb == "PUT" && c.request.value.key == imur.key && c.request.value.body == NoBody
    ensures c.request.value.params == PartParams(partNumber, imur.uploadId)
    ensures ParsePartParams(c.request.value.params) == Some((partNumber, imur.uploadId))
    ensures |c.request.value.options| == 2 + |options|
    ensures c.request.value.options[..2] == [CopySource(bucketName, copySrc), CopySourceRange(startPosition, partSize)]
    ensures c.request.value.options[2..] == options
    ensures c.result.Success? <==> sent.Ok? && decoded.Success?
    ensures c.result.Success? ==> c.result.value == Part(partNumber, decoded.value)
    ensures sent.Fail? ==> c.result == Failure(sent.error)
    ensures sent.Ok? && decoded.Failure? ==> c.result == Failure(decoded.error)
  {
    var opts := [CopySource(bucketName, copySrc), CopySourceRange(startPosition, partSize)] + options;
    var request := Request("PUT", imur.key, PartParams(partNumber, imur.uploadId), opts, NoBody);
    if sent.Fail? then PartCall(Some(request), Failure(sent.error))
    else PartCall(Some(request), PartResult(partNumber, decoded))
  }

  datatype AbortCall = AbortCall(request: Request, outcome: Outcome)

  /**
   * AbortMultipartUpload: one DELETE of the session. `reply` is the transport's outcome,
   * carrying the response status on success; only 204 counts as success.
   */
  function AbortMultipartUpload(imur: InitiateResult, reply: Result<int>): (c: AbortCall)
    ensures c.request == Request("DELETE", imur.key, SessionParams(imur.uploadId), [], NoBody)
    ensures c.outcome.Ok? <==> reply == Success(StatusNoContent)
    ensures reply.Failure? ==> c.outcome == Fail(reply.error)
    ensures reply.Success? && reply.value != StatusNoContent ==> c.outcome == Fail(UnexpectedStatus(reply.value))
  {
    var request := Request("DELETE", imur.key, SessionParams(imur.uploadId), [], NoBody);
    match reply
    case Failure(e) => AbortCall(request, Fail(e))
    case Success(status) =>
      AbortCall(request, if status == StatusNoContent then Ok else Fail(UnexpectedStatus(status)))
  }
}
