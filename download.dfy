/**
 * Bucket.DownloadFile: the ranged, part-by-part download of one object into a
 * local file.
 *
 * The remote calls (GetObjectDetailedMeta, GetObject) and the local file work
 * (opening the file, copying one range into it) are given as an oracle of
 * replies indexed by iteration. The method returns the calls it makes as its
 * trace; `IsDownloadRun` states which trace and error belong to which replies,
 * and the lemmas at the end draw the properties out of that relation.
 */
module Download {
  import opened Types
  import opened Seqs
  import Decimal

  const DownloadPartSizeError := ClientError("oss: part size invalid range (1, 5GB]")

  /** The replies the download gets, the n-th range read and copy indexed by n. */
  datatype DownloadReplies = DownloadReplies(
    meta: Result<string>,   // GetObjectDetailedMeta: the Content-Length header it reports
    open: Outcome,          // opening the local file for writing
    get: nat -> Outcome,    // GetObject of the n-th range
    copy: nat -> Outcome)   // copying the n-th range into the file

  datatype DownloadCall =
    | GetMeta(objectKey: string)
    | OpenFile(filePath: string)
    | GetObject(objectKey: string, options: seq<ReqOption>)
    | CopyToFile

  predicate IsGetObjectCall(c: DownloadCall) { c.GetObject? }

  /** The download's own size check; the upper bound is the SDK's maximum part size. */
  predicate DownloadPartSizeValid(limits: PartSizeLimits, partSize: int) {
    !(partSize < 1 || partSize > limits.maxPartSize)
  }

  /**
   * The object size read from the Content-Length header with base-10 parsing; text
   * that does not parse reads as 0, which is the value Go's strconv.ParseInt hands back
   * together with its (unchecked) syntax error.
   */
  function ObjectSize(contentLength: string): (n: int)
    ensures Decimal.Atoi(contentLength).Some? ==> n == Decimal.Atoi(contentLength).value
    ensures Decimal.Atoi(contentLength).None? ==> n == 0
    ensures forall m :: contentLength == Decimal.Itoa(m) ==> n == m
  {
    assert forall m :: contentLength == Decimal.Itoa(m) ==> Decimal.Atoi(contentLength) == Some(m) by {
      forall m | contentLength == Decimal.Itoa(m) ensures Decimal.Atoi(contentLength) == Some(m) {
        Decimal.ItoaRoundTrip(m);
      }
    }
    match Decimal.Atoi(contentLength)
    case Some(v) => v
    case None => 0
  }

  // ---------------------------------------------------------------------------
  // The ranges

  /** The offsets `i, i + p, i + 2p, …` that are below `n`. */
  function StartsFrom(i: int, n: int, p: int): seq<int>
    requires p >= 1
    decreases n - i
  {
    if i < n then [i] + StartsFrom(i + p, n, p) else []
  }

  /**
   * The start offsets of the ranges DownloadFile reads for an object of `n` bytes:
   * 0, p, 2p, …, all below the object size, strictly ascending, and ceil(n / p) of
   * them; none when the object is empty.
   */
  function RangeStarts(n: int, p: int): (s: seq<int>)
    requires p >= 1
    ensures |s| == (if n <= 0 then 0 else (n + p - 1) / p)
    ensures forall k :: 0 <= k < |s| ==> s[k] == k * p && 0 <= s[k] < n
    ensures forall k, l :: 0 <= k < l < |s| ==> s[k] < s[l]
  {
    StartsFromShape(n, p);
    StartsFrom(0, n, p)
  }

  lemma MulAtLeast(d: int, p: int)
    requires d >= 1 && p >= 1
    ensures d * p >= p
  {
    var e := d - 1;
    assert d * p == e * p + p;
  }

  /** Euclidean division has one quotient: a remainder in [0, p) fixes it. */
  lemma DivUnique(x: int, p: int, q: int, m: int)
    requires p >= 1 && 0 <= m < p && x == q * p + m
    ensures x / p == q
  {
    var q', m' := x / p, x % p;
    assert x == q' * p + m';
    var d := q - q';
    assert d * p == q * p - q' * p;
    assert d * p == m' - m;
    if d >= 1 {
      MulAtLeast(d, p);
    } else if d <= -1 {
      MulAtLeast(-d, p);
    }
  }

  lemma DivStep(x: int, p: int)
    requires p >= 1
    ensures (x + p) / p == x / p + 1
  {
    var q, m := x / p, x % p;
    assert x == q * p + m;
    assert x + p == (q + 1) * p + m;
    DivUnique(x + p, p, q + 1, m);
  }

  lemma {:induction false} StartsFromLength(i: int, n: int, p: int)
    requires p >= 1
    ensures |StartsFrom(i, n, p)| == if n <= i then 0 else (n - i + p - 1) / p
    decreases n - i
  {
    if i < n {
      StartsFromLength(i + p, n, p);
      if n <= i + p {
        DivUnique(n - i + p - 1, p, 1, n - i - 1);
      } else {
        DivStep(n - i - 1, p);
      }
    }
  }

  lemma {:induction false} StartsFromAt(i: int, n: int, p: int, k: nat)
    requires p >= 1
    requires k < |StartsFrom(i, n, p)|
    ensures StartsFrom(i, n, p)[k] == i + k * p
    decreases n - i
  {
    if k > 0 {
      StartsFromAt(i + p, n, p, k - 1);
      assert (k - 1) * p + p == k * p;
    }
  }

  /** The offsets from 0 are 0, p, 2p, …, below `n`, ascending, and ceil(n / p) of them. */
  lemma StartsFromShape(n: int, p: int)
    requires p >= 1
    ensures var s := StartsFrom(0, n, p);
      && |s| == (if n <= 0 then 0 else (n + p - 1) / p)
      && (forall k :: 0 <= k < |s| ==> s[k] == k * p && 0 <= s[k] < n)
      && (forall k, l :: 0 <= k < l < |s| ==> s[k] < s[l])
  {
    var s := StartsFrom(0, n, p);
    StartsFromLength(0, n, p);
    forall k | 0 <= k < |s|
      ensures s[k] == k * p && 0 <= s[k] < n
    {
      StartsFromAt(0, n, p, k);
      StartsBelow(0, n, p, k);
    }
    forall k, l | 0 <= k < l < |s|
      ensures s[k] < s[l]
    {
      assert l * p == k * p + (l - k) * p;
      MulAtLeast(l - k, p);
    }
  }

  /** A 250-byte object read in 100-byte parts: ranges start at 0, 100 and 200. */
  lemma RangeStartsExample()
    ensures RangeStarts(250, 100) == [0, 100, 200]
  {
    var s := RangeStarts(250, 100);
    assert |s| == 3;
    assert s[0] == 0 && s[1] == 100 && s[2] == 200;
  }

  lemma {:induction false} StartsBelow(i: int, n: int, p: int, k: nat)
    requires p >= 1
    requires k < |StartsFrom(i, n, p)|
    ensures i <= StartsFrom(i, n, p)[k] < n
    decreases n - i
  {
    if k > 0 {
      StartsBelow(i + p, n, p, k - 1);
    }
  }

  /**
   * The Range option of each start, `Range(start, GetPartEnd(start, n, p))`: one per
   * range, the j-th starting at j * p.
   */
  function RangeOptions(n: int, p: int, partEnd: (int, int, int) -> int): (ranges: seq<ReqOption>)
    requires p >= 1
    ensures |ranges| == |RangeStarts(n, p)|
    ensures forall j :: 0 <= j < |ranges| ==> ranges[j] == Range(j * p, partEnd(j * p, n, p))
  {
    var starts := RangeStarts(n, p);
    seq(|starts|, j requires 0 <= j < |starts| => Range(starts[j], partEnd(starts[j], n, p)))
  }

  // ---------------------------------------------------------------------------
  // The runs

  predicate ReadFails(r: DownloadReplies, j: nat) {
    r.get(j).Fail? || r.copy(j).Fail?
  }

  /** What a failed iteration returns: GetObject's error, else the copy's. */
  function ReadError(r: DownloadReplies, j: nat): (e: Outcome)
    requires ReadFails(r, j)
    ensures e.Fail?
    ensures r.get(j).Fail? ==> e == r.get(j)
    ensures r.get(j).Ok? ==> e == r.copy(j)
  {
    if r.get(j).Fail? then r.get(j) else r.copy(j)
  }

  /** The first failing iteration at or after `from`, or `count` when none fails. */
  function FirstFailedRead(r: DownloadReplies, from: nat, count: nat): (k: nat)
    requires from <= count
    ensures from <= k <= count
    ensures forall j :: from <= j < k ==> !ReadFails(r, j)
    ensures k < count ==> ReadFails(r, k)
    decreases count - from
  {
    if from == count then count
    else if ReadFails(r, from) then from
    else FirstFailedRead(r, from + 1, count)
  }

  /** The calls of `k` successful iterations: GetObject with the options grown so far, then the copy. */
  function ReadCalls(objectKey: string, options: seq<ReqOption>, ranges: seq<ReqOption>, k: nat): seq<DownloadCall>
    requires k <= |ranges|
  {
    if k == 0 then []
    else ReadCalls(objectKey, options, ranges, k - 1) + [GetObject(objectKey, options + ranges[..k]), CopyToFile]
  }

  /** The calls of the iteration that fails: its GetObject, and the copy if GetObject succeeded. */
  function FailedReadCalls(objectKey: string, options: seq<ReqOption>, ranges: seq<ReqOption>,
                           r: DownloadReplies, k: nat): seq<DownloadCall>
    requires k < |ranges|
  {
    [GetObject(objectKey, options + ranges[..k + 1])] + (if r.get(k).Fail? then [] else [CopyToFile])
  }

  /** Meta data was read and the local file opened: the range loop is reached. */
  predicate FileOpened(limits: PartSizeLimits, partSize: int, r: DownloadReplies) {
    DownloadPartSizeValid(limits, partSize) && r.meta.Success? && r.open.Ok?
  }

  /**
   * The calls and the error of DownloadFile given its replies: the size check before
   * any call, then meta data, then the file, then one GetObject and one copy per range,
   * stopping at the first failure and returning it.
   */
  ghost predicate IsDownloadRun(limits: PartSizeLimits, objectKey: string, filePath: string, partSize: int,
                                options: seq<ReqOption>, partEnd: (int, int, int) -> int,
                                r: DownloadReplies, err: Outcome, calls: seq<DownloadCall>)
  {
    if !DownloadPartSizeValid(limits, partSize) then
      err == Fail(DownloadPartSizeError) && calls == []
    else if r.meta.Failure? then
      err == Fail(r.meta.error) && calls == [GetMeta(objectKey)]
    else if r.open.Fail? then
      err == r.open && calls == [GetMeta(objectKey), OpenFile(filePath)]
    else
      var n := ObjectSize(r.meta.value);
      var starts := RangeStarts(n, partSize);
      var ranges := RangeOptions(n, partSize, partEnd);
      var head := [GetMeta(objectKey), OpenFile(filePath)];
      var k := FirstFailedRead(r, 0, |starts|);
      if k < |starts| then
        err == ReadError(r, k)
        && calls == head + ReadCalls(objectKey, options, ranges, k) + FailedReadCalls(objectKey, options, ranges, r, k)
      else
        err == Ok && calls == head + ReadCalls(objectKey, options, ranges, |starts|)
  }

  /** The run that stops at iteration k, the first to fail. */
  lemma StoppedIsRun(limits: PartSizeLimits, objectKey: string, filePath: string, partSize: int,
                     options: seq<ReqOption>, partEnd: (int, int, int) -> int,
                     r: DownloadReplies, k: nat, err: Outcome, calls: seq<DownloadCall>)
    requires FileOpened(limits, partSize, r)
    requires var n := ObjectSize(r.meta.value);
      var starts := RangeStarts(n, partSize);
      var ranges := RangeOptions(n, partSize, partEnd);
      && k < |starts|
      && (forall j :: 0 <= j < k ==> !ReadFails(r, j))
      && ReadFails(r, k)
      && err == ReadError(r, k)
      && calls == [GetMeta(objectKey), OpenFile(filePath)] + ReadCalls(objectKey, options, ranges, k)
                  + FailedReadCalls(objectKey, options, ranges, r, k)
    ensures IsDownloadRun(limits, objectKey, filePath, partSize, options, partEnd, r, err, calls)
  {
    assert FirstFailedRead(r, 0, |RangeStarts(ObjectSize(r.meta.value), partSize)|) == k;
  }

  /**
   * Downloads `objectKey` to `filePath` range by range. `partEnd` is the SDK's
   * GetPartEnd, which picks the last byte of the range starting at its first argument.
   */
  method DownloadFile(limits: PartSizeLimits, objectKey: string, filePath: string, partSize: int,
                      options: seq<ReqOption>, partEnd: (int, int, int) -> int, r: DownloadReplies)
    returns (err: Outcome, calls: seq<DownloadCall>)
    ensures IsDownloadRun(limits, objectKey, filePath, partSize, options, partEnd, r, err, calls)
  {
    if partSize < 1 || partSize > limits.maxPartSize {
      return Fail(DownloadPartSizeError), [];
    }
    calls := [GetMeta(objectKey)];
    if r.meta.Failure? {
      return Fail(r.meta.error), calls;
    }
    calls := calls + [OpenFile(filePath)];
    if r.open.Fail? {
      return r.open, calls;
    }
    var objectSize := ObjectSize(r.meta.value);
    ghost var starts := RangeStarts(objectSize, partSize);
    ghost var ranges := RangeOptions(objectSize, partSize, partEnd);
    var opts := options;
    var i := 0;
    var k: nat := 0;  // which iteration, to pick its replies
    while i < objectSize
      invariant k <= |starts|
      invariant StartsFrom(i, objectSize, partSize) == starts[k..]
      invariant opts == options + ranges[..k]
      invariant calls == [GetMeta(objectKey), OpenFile(filePath)] + ReadCalls(objectKey, options, ranges, k)
      invariant forall j :: 0 <= j < k ==> !ReadFails(r, j)
      decreases objectSize - i
    {
      assert |starts[k..]| > 0 && starts[k] == i;
      assert StartsFrom(i + partSize, objectSize, partSize) == starts[k + 1..];
      opts := opts + [Range(i, partEnd(i, objectSize, partSize))];
      assert opts == options + ranges[..k + 1];
      calls := calls + [GetObject(objectKey, opts)];
      if r.get(k).Fail? {
        err := r.get(k);
        StoppedIsRun(limits, objectKey, filePath, partSize, options, partEnd, r, k, err, calls);
        return;
      }
      calls := calls + [CopyToFile];
      if r.copy(k).Fail? {
        err := r.copy(k);
        StoppedIsRun(limits, objectKey, filePath, partSize, options, partEnd, r, k, err, calls);
        return;
      }
      i := i + partSize;
      k := k + 1;
    }
    assert k == |starts|;
    err := Ok;
  }

  // ---------------------------------------------------------------------------
  // What every run guarantees

  /** k successful iterations issue k GetObject calls, the j-th with the caller's options and ranges 0..j. */
  lemma {:induction false} ReadCallsGets(objectKey: string, options: seq<ReqOption>, ranges: seq<ReqOption>, k: nat)
    requires k <= |ranges|
    ensures var gets := Filter(ReadCalls(objectKey, options, ranges, k), IsGetObjectCall);
      && |gets| == k
      && forall j :: 0 <= j < k ==> gets[j] == GetObject(objectKey, options + ranges[..j + 1])
  {
    if k > 0 {
      var last := [GetObject(objectKey, options + ranges[..k]), CopyToFile];
      ReadCallsGets(objectKey, options, ranges, k - 1);
      FilterAppend(ReadCalls(objectKey, options, ranges, k - 1), last, IsGetObjectCall);
      assert Filter(last, IsGetObjectCall) == [last[0]] by {
        assert Filter(last[1..], IsGetObjectCall) == [];
      }
    }
  }

  /**
   * The size check: DownloadFile makes no call at all exactly when the part size is
   * below 1 or above the maximum, and then reports the part-size error.
   */
  lemma DownloadRejectsPartSize(limits: PartSizeLimits, objectKey: string, filePath: string, partSize: int,
                                options: seq<ReqOption>, partEnd: (int, int, int) -> int,
                                r: DownloadReplies, err: Outcome, calls: seq<DownloadCall>)
    requires IsDownloadRun(limits, objectKey, filePath, partSize, options, partEnd, r, err, calls)
    ensures calls == [] <==> partSize < 1 || partSize > limits.maxPartSize
    ensures calls == [] ==> err == Fail(DownloadPartSizeError)
  {
  }

  /** A failure to read the meta data or to open the file is returned as it is, before any range is read. */
  lemma DownloadWithoutFile(limits: PartSizeLimits, objectKey: string, filePath: string, partSize: int,
                            options: seq<ReqOption>, partEnd: (int, int, int) -> int,
                            r: DownloadReplies, err: Outcome, calls: seq<DownloadCall>)
    requires IsDownloadRun(limits, objectKey, filePath, partSize, options, partEnd, r, err, calls)
    requires DownloadPartSizeValid(limits, partSize) && !FileOpened(limits, partSize, r)
    ensures r.meta.Failure? ==> err == Fail(r.meta.error)
    ensures r.meta.Success? ==> err == r.open
    ensures err.Fail?
    ensures Count(calls, IsGetObjectCall) == 0
  {
  }

  /** An object of size 0 (or a Content-Length that does not parse) needs no GetObject at all, and the download succeeds. */
  lemma DownloadEmptyObject(limits: PartSizeLimits, objectKey: string, filePath: string, partSize: int,
                            options: seq<ReqOption>, partEnd: (int, int, int) -> int,
                            r: DownloadReplies, err: Outcome, calls: seq<DownloadCall>)
    requires IsDownloadRun(limits, objectKey, filePath, partSize, options, partEnd, r, err, calls)
    requires FileOpened(limits, partSize, r) && ObjectSize(r.meta.value) <= 0
    ensures err == Ok
    ensures calls == [GetMeta(objectKey), OpenFile(filePath)]
  {
    assert RangeStarts(ObjectSize(r.meta.value), partSize) == [];
  }

  /**
   * The ranged reads of a run, in order: the j-th GetObject receives the caller's
   * options followed by the Range options of iterations 0..j, newest last, and the j-th
   * Range starts at j * partSize and ends where GetPartEnd says. A read is issued for
   * every iteration up to and including the first one that fails, and for none after.
   */
  lemma DownloadRequestsInOrder(limits: PartSizeLimits, objectKey: string, filePath: string, partSize: int,
                                options: seq<ReqOption>, partEnd: (int, int, int) -> int,
                                r: DownloadReplies, err: Outcome, calls: seq<DownloadCall>)
    requires IsDownloadRun(limits, objectKey, filePath, partSize, options, partEnd, r, err, calls)
    requires FileOpened(limits, partSize, r)
    ensures var n := ObjectSize(r.meta.value);
      var starts := RangeStarts(n, partSize);
      var ranges := RangeOptions(n, partSize, partEnd);
      var k := FirstFailedRead(r, 0, |starts|);
      var gets := Filter(calls, IsGetObjectCall);
      && |gets| == (if k < |starts| then k + 1 else |starts|)
      && (forall j :: 0 <= j < |gets| ==> gets[j] == GetObject(objectKey, options + ranges[..j + 1]))
      && (forall j :: 0 <= j < |ranges| ==> ranges[j] == Range(j * partSize, partEnd(j * partSize, n, partSize)))
  {
    var n := ObjectSize(r.meta.value);
    var starts := RangeStarts(n, partSize);
    var ranges := RangeOptions(n, partSize, partEnd);
    var k := FirstFailedRead(r, 0, |starts|);
    var head := [GetMeta(objectKey), OpenFile(filePath)];
    if k < |starts| {
      assert calls == head + ReadCalls(objectKey, options, ranges, k) + FailedReadCalls(objectKey, options, ranges, r, k);
      StoppedRunGets(objectKey, filePath, options, ranges, r, k);
    } else {
      assert calls == head + ReadCalls(objectKey, options, ranges, |ranges|);
      GetsOfFullRun(objectKey, filePath, options, ranges);
    }
  }

  lemma HeadHasNoGets(objectKey: string, filePath: string)
    ensures Filter([GetMeta(objectKey), OpenFile(filePath)], IsGetObjectCall) == []
  {
    assert Filter([GetMeta(objectKey), OpenFile(filePath)][1..], IsGetObjectCall) == [];
  }

  /** A list whose only GetObject call is its first. */
  lemma OnlyFirstIsGet(calls: seq<DownloadCall>)
    requires calls != [] && calls[0].GetObject?
    requires forall j :: 1 <= j < |calls| ==> !calls[j].GetObject?
    ensures Filter(calls, IsGetObjectCall) == [calls[0]]
  {
    assert Count(calls[1..], IsGetObjectCall) == 0;
  }

  /** The GetObject calls of a run that stops at iteration k are those of k + 1 iterations. */
  lemma GetsOfStoppedRun(objectKey: string, filePath: string, options: seq<ReqOption>, ranges: seq<ReqOption>,
                         r: DownloadReplies, k: nat)
    requires k < |ranges|
    ensures var calls := [GetMeta(objectKey), OpenFile(filePath)] + ReadCalls(objectKey, options, ranges, k)
                         + FailedReadCalls(objectKey, options, ranges, r, k);
      Filter(calls, IsGetObjectCall) == Filter(ReadCalls(objectKey, options, ranges, k + 1), IsGetObjectCall)
  {
    var head := [GetMeta(objectKey), OpenFile(filePath)];
    var before := ReadCalls(objectKey, options, ranges, k);
    var failed := FailedReadCalls(objectKey, options, ranges, r, k);
    var full := [GetObject(objectKey, options + ranges[..k + 1]), CopyToFile];
    HeadHasNoGets(objectKey, filePath);
    OnlyFirstIsGet(failed);
    OnlyFirstIsGet(full);
    FilterAppend(head, before, IsGetObjectCall);
    FilterAppend(head + before, failed, IsGetObjectCall);
    FilterAppend(before, full, IsGetObjectCall);
  }

  /** A run that stops at iteration k requests k + 1 ranges, the j-th with ranges 0..j. */
  lemma StoppedRunGets(objectKey: string, filePath: string, options: seq<ReqOption>, ranges: seq<ReqOption>,
                       r: DownloadReplies, k: nat)
    requires k < |ranges|
    ensures var gets := Filter([GetMeta(objectKey), OpenFile(filePath)] + ReadCalls(objectKey, options, ranges, k)
                               + FailedReadCalls(objectKey, options, ranges, r, k), IsGetObjectCall);
      && |gets| == k + 1
      && forall j :: 0 <= j < k + 1 ==> gets[j] == GetObject(objectKey, options + ranges[..j + 1])
  {
    GetsOfStoppedRun(objectKey, filePath, options, ranges, r, k);
    ReadCallsGets(objectKey, options, ranges, k + 1);
  }

  lemma StoppedRunGetCount(objectKey: string, filePath: string, options: seq<ReqOption>, ranges: seq<ReqOption>,
                           r: DownloadReplies, k: nat)
    requires k < |ranges|
    ensures Count([GetMeta(objectKey), OpenFile(filePath)] + ReadCalls(objectKey, options, ranges, k)
                  + FailedReadCalls(objectKey, options, ranges, r, k), IsGetObjectCall) == k + 1
  {
    StoppedRunGets(objectKey, filePath, options, ranges, r, k);
  }

  /** The GetObject calls of a run in which no iteration fails. */
  lemma GetsOfFullRun(objectKey: string, filePath: string, options: seq<ReqOption>, ranges: seq<ReqOption>)
    ensures var calls := [GetMeta(objectKey), OpenFile(filePath)] + ReadCalls(objectKey, options, ranges, |ranges|);
      var gets := Filter(calls, IsGetObjectCall);
      |gets| == |ranges| && forall j :: 0 <= j < |ranges| ==> gets[j] == GetObject(objectKey, options + ranges[..j + 1])
  {
    HeadHasNoGets(objectKey, filePath);
    FilterAppend([GetMeta(objectKey), OpenFile(filePath)], ReadCalls(objectKey, options, ranges, |ranges|), IsGetObjectCall);
    ReadCallsGets(objectKey, options, ranges, |ranges|);
  }

  /** A run whose first failing iteration is k ends with that iteration's calls. */
  lemma StoppedRunShape(limits: PartSizeLimits, objectKey: string, filePath: string, partSize: int,
                        options: seq<ReqOption>, partEnd: (int, int, int) -> int,
                        r: DownloadReplies, err: Outcome, calls: seq<DownloadCall>, k: nat)
    requires IsDownloadRun(limits, objectKey, filePath, partSize, options, partEnd, r, err, calls)
    requires FileOpened(limits, partSize, r)
    requires k < |RangeStarts(ObjectSize(r.meta.value), partSize)|
    requires forall j :: 0 <= j < k ==> !ReadFails(r, j)
    requires ReadFails(r, k)
    ensures var n := ObjectSize(r.meta.value);
      var ranges := RangeOptions(n, partSize, partEnd);
      && err == ReadError(r, k)
      && calls == [GetMeta(objectKey), OpenFile(filePath)] + ReadCalls(objectKey, options, ranges, k)
                  + FailedReadCalls(objectKey, options, ranges, r, k)
  {
    assert FirstFailedRead(r, 0, |RangeStarts(ObjectSize(r.meta.value), partSize)|) == k;
  }

  /**
   * The first failing iteration ends the download: its error (GetObject's, or else the
   * copy's) is returned, k + 1 ranges were requested, and its own call is the last one.
   */
  lemma DownloadStopsAtFirstFailure(limits: PartSizeLimits, objectKey: string, filePath: string, partSize: int,
                                    options: seq<ReqOption>, partEnd: (int, int, int) -> int,
                                    r: DownloadReplies, err: Outcome, calls: seq<DownloadCall>, k: nat)
    requires IsDownloadRun(limits, objectKey, filePath, partSize, options, partEnd, r, err, calls)
    requires FileOpened(limits, partSize, r)
    requires k < |RangeStarts(ObjectSize(r.meta.value), partSize)|
    requires forall j :: 0 <= j < k ==> !ReadFails(r, j)
    requires ReadFails(r, k)
    ensures err == ReadError(r, k)
    ensures Count(calls, IsGetObjectCall) == k + 1
    ensures var n := ObjectSize(r.meta.value);
      var ranges := RangeOptions(n, partSize, partEnd);
      calls[|calls| - 1] == if r.get(k).Fail? then GetObject(objectKey, options + ranges[..k + 1]) else CopyToFile
  {
    var n := ObjectSize(r.meta.value);
    var starts := RangeStarts(n, partSize);
    var ranges := RangeOptions(n, partSize, partEnd);
    var failed := FailedReadCalls(objectKey, options, ranges, r, k);
    var before := [GetMeta(objectKey), OpenFile(filePath)] + ReadCalls(objectKey, options, ranges, k);
    StoppedRunShape(limits, objectKey, filePath, partSize, options, partEnd, r, err, calls, k);
    assert calls == before + failed;
    StoppedRunGetCount(objectKey, filePath, options, ranges, r, k);
    assert calls[|calls| - 1] == failed[|failed| - 1];
  }

  /**
   * A successful download read meta data, opened the file, and read and copied every
   * range: ceil(objectSize / partSize) GetObject calls, none for an empty object.
   */
  lemma DownloadSuccess(limits: PartSizeLimits, objectKey: string, filePath: string, partSize: int,
                        options: seq<ReqOption>, partEnd: (int, int, int) -> int,
                        r: DownloadReplies, err: Outcome, calls: seq<DownloadCall>)
    requires IsDownloadRun(limits, objectKey, filePath, partSize, options, partEnd, r, err, calls)
    requires err == Ok
    ensures FileOpened(limits, partSize, r)
    ensures var n := ObjectSize(r.meta.value);
      && (forall j :: 0 <= j < |RangeStarts(n, partSize)| ==> !ReadFails(r, j))
      && Count(calls, IsGetObjectCall) == (if n <= 0 then 0 else (n + partSize - 1) / partSize)
  {
    var n := ObjectSize(r.meta.value);
    var starts := RangeStarts(n, partSize);
    var ranges := RangeOptions(n, partSize, partEnd);
    assert FirstFailedRead(r, 0, |starts|) == |starts|;
    GetsOfFullRun(objectKey, filePath, options, ranges);
  }
}
