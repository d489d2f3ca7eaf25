# Multipart upload and ranged download of the OSS Go client, in Dafny

This project models the multipart transfer core of the Aliyun OSS Go SDK's
`Bucket` type (`oss/multipart.go`):

- **`UploadFile`** checks the part size and splits the local file into chunks.
  It then opens a multipart session (`InitiateMultipartUpload`) and uploads
  every chunk in order with `UploadPartFromFile`. Finally it completes the
  session. A failed part or a failed completion aborts the session
  (`AbortMultipartUpload`) and returns that failure's error. Abort's own
  result is ignored.
- **`CompleteMultipartUpload`** sorts the caller's part list in place by part
  number (`sort.Sort`), then POSTs it with `uploadId=<id>`.
- **`UploadPart`, `UploadPartFromFile` and `UploadPartCopy`** each send one
  PUT with the query string `partNumber=<n>&uploadId=<id>`. Each returns a part
  that echoes the part number it was given, plus the ETag the service reports.
- **`AbortMultipartUpload`** sends one DELETE and accepts only status 204.
- **`DownloadFile`** checks the part size, reads the object's meta data and
  opens the local file. It then walks the offsets `0, p, 2p, …` below the
  object size. For each offset it appends a `Range` option to the caller's
  options, issues a `GetObject` with all options so far, and copies the body
  into the file. It stops at the first failure.

## How the model is built

- **Replies are inputs.** Every effect outside the client is an input value
  indexed by call number: `Upload.UploadReplies` and
  `Download.DownloadReplies`. This covers splitting the file, opening it,
  every service call and every copy into the file.
- **Methods return the call trace.** The orchestration methods
  `Upload.UploadFile` and `Download.DownloadFile` keep the Go loop structure,
  including the early returns. Besides the error, each returns the list of
  calls it made, in order, as a real output.
- **A relation states each run.** Each method is proved against a relation
  that says which (error, calls) pairs a run may give for given replies:
  `Upload.IsUploadRun` and `Download.IsDownloadRun`. The lemmas beside it
  derive the promised behaviour from that relation:
  - abort exactly once on failure;
  - which error wins;
  - the order of the part calls;
  - the ranges requested and their options.
- **The sort keeps the array.** `CompleteMultipartUpload`'s sort is an
  in-place sort on an `array<Part>`, proved to produce a sorted permutation.
  Go's `sort.Sort` is not stable, so the model promises only that.
  `PartOrder.SortedPermutationUnique` shows this determines the result
  whenever part numbers are distinct.
- **Query strings read back.** Query strings are built as Go builds them,
  with `strconv.Itoa` modelled by `Decimal.Itoa`. They are proved to parse
  back to the part number and upload id they were built from.

The code calls `sort.Sort`, which is not stable, and the model follows the code.

Both size-check messages write the lower bound as open: `(1024KB, 5GB]` and
`(1, 5GB]`. The code accepts the lower bound itself (`partSize <
MinPartSize` and `partSize < 1` are the rejections), and the model follows
the code.

## Model

| member | source | states |
|---|---|---|
| `Decimal.Itoa` | oss/multipart.go:59 | the decimal text of the part number: a leading '-' exactly for negative numbers, then at least one digit and no leading zero (canonical form) |
| `Decimal.ItoaRoundTrip` | oss/multipart.go:59 | the decimal text of every integer reads back as that integer |
| `Requests.PartParams` | oss/multipart.go:59 | the part query string `partNumber=<n>&uploadId=<id>` (built the same way at lines 95 and 131) parses back to exactly that part number and upload id, for every number and id |
| `Requests.SessionParams` | oss/multipart.go:171 | the session query string `uploadId=<id>` (also built at line 190) reads back as exactly the upload id |
| `Requests.PartResult` | oss/multipart.go:61-69 | a part call succeeds exactly when its PUT does; the part then carries the caller's part number and the returned ETag; otherwise the PUT's error is returned |
| `Requests.FilePartResult` | oss/multipart.go:88-104 | an open failure is returned before anything is sent; otherwise as PartResult |
| `Requests.UploadPart` | oss/multipart.go:56-70 | one PUT of the object key with the part query string (which parses back to the part number and upload id), ContentLength(size), and the first `size` bytes of the reader; the part echoes the part number and carries the ETag, or the PUT's error is returned |
| `Requests.UploadPartFromFile` | oss/multipart.go:85-105 | no request when the file cannot be opened, and then the open error; otherwise one PUT with no options and the file's byte range [startPosition, startPosition + partSize); the query string parses back to the part number and upload id; the part echoes the part number |
| `Requests.UploadPartCopy` | oss/multipart.go:123-146 | one PUT whose options are CopySource(bucket, source) and CopySourceRange(start, size) followed by the caller's options unchanged; no body; the part echoes the part number with the decoded ETag; a transport error or a decoding error is returned |
| `Requests.AbortMultipartUpload` | oss/multipart.go:189-197 | one DELETE of the session (`uploadId=<id>`); success exactly when the reply is status 204; any other status is an error naming it; a transport error passes through |
| `PartOrder.SortParts` | oss/multipart.go:161 | after the in-place sort the array holds the same parts (as a multiset) in ascending part-number order |
| `PartOrder.InsertAt` | oss/multipart.go:161 | one insertion step of the sort: a sorted prefix grows by one element, the array keeps its parts, and the elements after the step are untouched |
| `PartOrder.SortedPermutationUnique` | oss/multipart.go:161 | with distinct part numbers, the only sorted permutation of an ascending list is the list itself |
| `PartOrder.SortForgetsCollectionOrder` | oss/multipart.go:161 | with distinct part numbers, sorting any rearrangement of the parts yields the same ascending list |
| `Upload.CompleteMultipartUpload` | oss/multipart.go:157-180 | sorts the caller's array in place into a sorted permutation, then sends one POST of the session carrying the sorted list; the reply's error is returned |
| `Upload.UploadFile` | oss/multipart.go:262-294 | the returned error and call trace form a run of UploadFile for the given replies (IsUploadRun); the lemmas below derive what such a run guarantees |
| `Upload.PartOutcomeIsUploadPartFromFile` | oss/multipart.go:279-280 | each part upload of the run is UploadPartFromFile of that chunk: same result, and a request naming the chunk's number, the session's upload id and the chunk's byte range |
| `Upload.FirstFailedPart` | oss/multipart.go:278-284 | the first chunk whose upload fails (or the number of chunks): all earlier ones succeed and this one fails |
| `Upload.UploadedParts` | oss/multipart.go:277-286 | the list collected by the loop: one part per successful chunk, in chunk order, carrying that chunk's number |
| `Upload.PartCallsEach` | oss/multipart.go:278-280 | the part uploads follow the chunks one to one, in order, with each chunk's number, offset and size |
| `Upload.UploadRejectsPartSize` | oss/multipart.go:263-265 | no call at all is made exactly when the part size is below the minimum or above the maximum, and then the part-size error is returned |
| `Upload.UploadWithoutSession` | oss/multipart.go:267-275 | a split or initiate failure is returned as is, with no part upload, no completion and no abort |
| `Upload.UploadPartFailure` | oss/multipart.go:278-284 | when chunk k is the first to fail: the part's error is returned; exactly chunks 0..k were uploaded, in order; Complete is never called; Abort is called exactly once, as the last call |
| `Upload.UploadCompleteFailure` | oss/multipart.go:288-292 | when every part succeeds and completion fails: completion's error is returned; every chunk was uploaded in order; Complete is called once; Abort is called once, right after it, as the last call |
| `Upload.UploadSuccess` | oss/multipart.go:262-293 | a nil result means the session was opened, every chunk was uploaded in order, and completion succeeded; there is exactly one Complete, last, carrying the uploaded parts sorted by number, and no Abort |
| `Upload.UploadAbortReplyIgnored` | oss/multipart.go:282-291 | whatever Abort returns, UploadFile returns the same error and makes the same calls |
| `Upload.CompleteGetsChunkOrder` | oss/multipart.go:277-288 | when chunk numbers ascend, Complete receives the uploaded parts in chunk order |
| `Download.DownloadFile` | oss/multipart.go:306-338 | the returned error and call trace form a run of DownloadFile for the given replies (IsDownloadRun); the lemmas below derive what such a run guarantees |
| `Download.ObjectSize` | oss/multipart.go:323 | a Content-Length that is the decimal text of a number reads as that number; text that does not parse reads as 0 |
| `Download.RangeStarts` | oss/multipart.go:324 | the range starts are 0, p, 2p, …, all in [0, objectSize), strictly ascending, ceil(objectSize / p) of them, and none when objectSize <= 0 |
| `Download.RangeStartsExample` | oss/multipart.go:324 | a 250-byte object in 100-byte parts is read from offsets 0, 100 and 200 |
| `Download.RangeOptions` | oss/multipart.go:324-325 | one Range option per range, ceil(objectSize / partSize) of them; the j-th starts at j * partSize and ends where GetPartEnd says |
| `Download.FirstFailedRead` | oss/multipart.go:324-335 | the first iteration whose GetObject or copy fails (or the number of ranges): all earlier ones succeed and this one fails |
| `Download.ReadError` | oss/multipart.go:327-335 | a failed iteration reports GetObject's error, or else the copy's |
| `Download.ReadCallsGets` | oss/multipart.go:326-327 | k successful iterations issue k GetObject calls; the j-th carries the caller's options followed by the Range options 0..j |
| `Download.DownloadRejectsPartSize` | oss/multipart.go:307-309 | no call at all is made exactly when the part size is below 1 or above the maximum, and then the part-size error is returned |
| `Download.DownloadWithoutFile` | oss/multipart.go:311-319 | a meta-data or file-open failure is returned as is, before any GetObject |
| `Download.DownloadEmptyObject` | oss/multipart.go:323-337 | an object size <= 0 (including an unparsable Content-Length) means no GetObject, and the download succeeds |
| `Download.DownloadRequestsInOrder` | oss/multipart.go:324-329 | the j-th GetObject carries the caller's options followed by the Range options of iterations 0..j, newest last; the j-th range starts at j * partSize; GetObject calls are issued up to and including the first failing iteration, and none after it |
| `Download.DownloadStopsAtFirstFailure` | oss/multipart.go:326-335 | when iteration k is the first to fail, its error is returned; k + 1 ranges were requested; the last call is that iteration's GetObject, or its copy if GetObject succeeded |
| `Download.DownloadSuccess` | oss/multipart.go:324-337 | a nil result means every range was read and copied: ceil(objectSize / partSize) GetObject calls, none for an empty object |

## Left out

- HTTP transport, XML encoding and decoding, and response headers are not modelled. Each call's outcome is an input: the ETag header, the status code, the decoded ETag, and whether completion succeeded.
- The error path of `xml.Marshal` on the completion body is not modelled separately. Completion's reply stands for every failure of that call.
- `InitiateMultipartUpload`, `ListUploadedParts` and `ListMultipartUploads` are not modelled. They are plain request wrappers. UploadFile's initiate step is an input reply, and the trace records the key and the caller's options it passes on.
- `SplitFileByPartSize` and `GetPartEnd` are not part of this model. Split's outcome is an input. `GetPartEnd` is a function parameter, so the model says nothing about where a range ends.
- `MinPartSize` and `MaxPartSize` are taken as a parameter (`PartSizeLimits`) rather than fixed constants.
- Local file I/O is not modelled, beyond the outcome of opening the file and of each copy:
  - the Seek whose error `UploadPartFromFile` ignores;
  - the absence of `O_TRUNC`;
  - the I/O buffer size;
  - the bytes themselves.
- The deferred `Close` calls are left out, because they affect resource timing and not the result.
- Download.ObjectSize: it does not model ParseInt's leading '+' sign, or its saturated value on overflow. Text that does not parse reads as 0, as ParseInt returns it.
- Download.DownloadFile: offsets are unbounded integers. The int64 overflow of `i += partSize` near the largest object size is not modelled.
- Upload.UploadFile: each chunk's outcome is computed through `PartOutcome`, which is the `FilePartResult` of `UploadPartFromFile`. It is not the full request value. `Upload.PartOutcomeIsUploadPartFromFile` connects the two.
- Upload.CompleteMultipartUpload: the returned `CompleteMultipartUploadResult` value is not modelled; only its error is.
- Concurrency is not modelled; every operation here is sequential.
