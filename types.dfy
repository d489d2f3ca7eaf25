/** The values that flow through the multipart calls of the OSS bucket client. */
module Types {

  datatype Option<T> = None | Some(value: T)

  /** What a Go `error` carries in this model. */
  datatype Error =
    | ClientError(message: string)   // built locally with errors.New
    | UnexpectedStatus(status: int)  // the service answered with a status the call does not accept
    | ServiceError(detail: string)   // reported by the transport, the service or the local file system

  datatype Result<T> = Success(value: T) | Failure(error: Error)

  /** A Go `error` return: `Ok` is nil. */
  datatype Outcome = Ok | Fail(error: Error)

  /** The bounds the client puts on a part size (MinPartSize and MaxPartSize of the SDK). */
  datatype PartSizeLimits = PartSizeLimits(minPartSize: int, maxPartSize: int)

  /** One planned piece of a local file: its 1-based part number, byte offset and length. */
  datatype FileChunk = FileChunk(number: int, offset: int, size: int)

  /** What InitiateMultipartUpload returns: the session handle used by every later call. */
  datatype InitiateResult = InitiateResult(bucket: string, key: string, uploadId: string)

  /** The Go `UploadPart` record: a stored part's number and the ETag the service gave it. */
  datatype Part = Part(partNumber: int, eTag: string)

  /** The request options this core builds; `Given` stands for an option passed in by the caller. */
  datatype ReqOption =
    | ContentLength(length: int)
    | CopySource(sourceBucket: string, sourceKey: string)
    | CopySourceRange(start: int, size: int)
    | Range(start: int, end: int)
    | Given(name: string)

  /** What a request sends as its body. */
  datatype Body =
    | NoBody
    | ReaderPrefix(size: int)              // the first `size` bytes of a caller's reader
    | FileRange(offset: int, size: int)    // `size` bytes of a local file from `offset`
    | PartList(parts: seq<Part>)           // the XML list of parts sent on completion

  /** One HTTP request handed to the transport: verb, object key, query string, options and body. */
  datatype Request = Request(verb: string, key: string, params: string, options: seq<ReqOption>, body: Body)
}
