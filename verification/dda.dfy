/**
 * The decision logic of the asset-service client (client.go) without HTTP:
 * each request is answered by a finite sequence of replies that drives
 * `send`'s rate-limit loop, the URLs built from asset ids go through Go's
 * URL parser, and the concurrent part uploads are a sequential map
 * followed by a join.
 */
module Dda {
  import opened Wrappers
  import opened Errors
  import opened Partitions
  import opened Assets
  import opened DdaSchema
  import GoStrings
  import GoURL

  const StatusOK: int := 200
  const StatusCreated: int := 201
  const StatusTooManyRequests: int := 429

  // ---------------------------------------------------------------- send

  /** A response body as send would read and unmarshal it. */
  datatype Body<T> = Unreadable | Malformed | Json(value: T)

  /** What `client.Do` yields for one attempt. */
  datatype Reply<T> = TransportError | Reply(status: int, body: Body<T>)

  /** A reply send answers by sending the request again. */
  predicate RateLimited<T>(reply: Reply<T>, expCode: int)
  {
    reply.Reply? && reply.status != expCode && reply.status == StatusTooManyRequests
  }

  /**
   * How send ends on a reply that is not a rate-limit rejection: a transport
   * error or an unexpected status fails; the expected status succeeds,
   * reading and unmarshalling the body only when a target was given.
   */
  function Settle<T>(reply: Reply<T>, expCode: int, decode: bool): (r: Result<Option<T>, Error>)
    requires !RateLimited(reply, expCode)
    ensures r.Success? <==> reply.Reply? && reply.status == expCode && (decode ==> reply.body.Json?)
    ensures r.Success? && decode ==> r.value == Some(reply.body.value)
    ensures r.Success? && !decode ==> r.value == None
    ensures reply.Reply? && reply.status != expCode ==> r == Failure(UnexpectedStatus(expCode, reply.status))
  {
    match reply
    case TransportError => Failure(Wrapped(FailedToSendRequest, TransportFailed))
    case Reply(status, body) =>
      if status != expCode then Failure(UnexpectedStatus(expCode, status))
      else if !decode then Success(None)
      else match body
        case Unreadable => Failure(BodyReadFailed)
        case Malformed => Failure(DecodeFailed)
        case Json(v) => Success(Some(v))
  }

  /**
   * `send`: issue the request, and while the answer is 429 (and 429 is not
   * the expected status) issue it again with the try count incremented.
   * `replies[n]` is the answer to the send whose try count is `n`; the
   * source recurses without bound, so the model covers the runs in which
   * some answer is not a rate-limit rejection. `tries` counts the sends.
   */
  method Send<T>(replies: seq<Reply<T>>, expCode: int, decode: bool) returns (r: Result<Option<T>, Error>, tries: nat)
    requires Settles(replies, expCode)
    ensures 1 <= tries <= |replies|
    ensures forall i | 0 <= i < tries - 1 :: RateLimited(replies[i], expCode)
    ensures !RateLimited(replies[tries - 1], expCode)
    ensures tries == SettlingIndex(replies, expCode, 0) + 1
    ensures r == Settle(Settled(replies, expCode), expCode, decode)
  {
    var tryCount := 0;
    while RateLimited(replies[tryCount], expCode)
      invariant 0 <= tryCount < |replies|
      invariant forall i | 0 <= i < tryCount :: RateLimited(replies[i], expCode)
      invariant exists i | tryCount <= i < |replies| :: !RateLimited(replies[i], expCode)
      decreases |replies| - tryCount
    {
      tryCount := tryCount + 1;
    }
    r := Settle(replies[tryCount], expCode, decode);
    tries := tryCount + 1;
  }

  /** Some reply to the request is one send settles on. */
  predicate Settles<T>(replies: seq<Reply<T>>, expCode: int)
  {
    exists i | 0 <= i < |replies| :: !RateLimited(replies[i], expCode)
  }

  /** The position, from `from` on, of the first reply that is not a rejected 429. */
  function SettlingIndex<T>(replies: seq<Reply<T>>, expCode: int, from: nat): (i: nat)
    requires exists i | from <= i < |replies| :: !RateLimited(replies[i], expCode)
    ensures from <= i < |replies| && !RateLimited(replies[i], expCode)
    ensures forall j | from <= j < i :: RateLimited(replies[j], expCode)
    decreases |replies| - from
  {
    if !RateLimited(replies[from], expCode) then from else SettlingIndex(replies, expCode, from + 1)
  }

  /** The reply send settles on. */
  function Settled<T>(replies: seq<Reply<T>>, expCode: int): (rep: Reply<T>)
    requires Settles(replies, expCode)
    ensures !RateLimited(rep, expCode)
  {
    replies[SettlingIndex(replies, expCode, 0)]
  }

  /**
   * send with a target to decode into: the decoded body of a reply with the
   * expected status, or send's error.
   */
  function Received<T>(replies: seq<Reply<T>>, expCode: int): (r: Result<T, Error>)
    requires Settles(replies, expCode)
    ensures var rep := Settled(replies, expCode);
            && (r.Success? <==> Decoded(rep, expCode))
            && (r.Success? ==> r.value == rep.body.value)
            && (rep.Reply? && rep.status != expCode ==> r == Failure(UnexpectedStatus(expCode, rep.status)))
  {
    match Settle(Settled(replies, expCode), expCode, true)
    case Failure(e) => Failure(e)
    case Success(v) => Success(v.value)
  }

  /** A reply with the expected status and a body that decodes. */
  predicate Decoded<T>(rep: Reply<T>, expCode: int)
  {
    rep.Reply? && rep.status == expCode && rep.body.Json?
  }

  /** send without a target: success on a reply with the expected status, whatever its body. */
  function Delivered<T>(replies: seq<Reply<T>>, expCode: int): (r: Option<Error>)
    requires Settles(replies, expCode)
    ensures var rep := Settled(replies, expCode);
            && (r.None? <==> rep.Reply? && rep.status == expCode)
            && (rep.Reply? && rep.status != expCode ==> r == Some(UnexpectedStatus(expCode, rep.status)))
  {
    match Settle(Settled(replies, expCode), expCode, false)
    case Failure(e) => Some(e)
    case Success(_) => None
  }

  /**
   * `send` as written for a POST, when the re-send goes out on a fresh
   * HTTP/1.1 connection. The body is a `bytes.Reader` that the first
   * `client.Do` drains; a re-send after a 429 reuses the same request, whose
   * Content-Length still announces the payload while the body is empty, so
   * the transport refuses it and only the first reply can lead to success.
   * On a reused keep-alive connection `net/http` rewinds the body through
   * `GetBody` instead, and `Send` describes that case.
   */
  function SendPostAsWritten<T>(replies: seq<Reply<T>>, expCode: int, decode: bool): (r: Result<Option<T>, Error>)
    requires |replies| > 0
    ensures r.Success? <==> replies[0].Reply? && replies[0].status == expCode && (decode ==> replies[0].body.Json?)
    ensures RateLimited(replies[0], expCode) ==> r == Failure(Wrapped(FailedToSendRequest, TransportFailed))
  {
    if RateLimited(replies[0], expCode) then Settle(TransportError, expCode, decode)
    else Settle(replies[0], expCode, decode)
  }

  /** The replies a POST sees on fresh connections: after a first 429, every re-send is refused by the transport. */
  predicate DrainedResends<T>(replies: seq<Reply<T>>, expCode: int)
  {
    |replies| > 0 && (RateLimited(replies[0], expCode) ==> forall i | 1 <= i < |replies| :: replies[i].TransportError?)
  }

  /** On the replies a POST can see, the retry loop ends as the as-written POST send does. */
  lemma SendOnDrainedIsAsWritten<T>(replies: seq<Reply<T>>, expCode: int, decode: bool)
    requires Settles(replies, expCode) && DrainedResends(replies, expCode)
    ensures Settle(Settled(replies, expCode), expCode, decode) == SendPostAsWritten(replies, expCode, decode)
  {
    var i := SettlingIndex(replies, expCode, 0);
    if RateLimited(replies[0], expCode) {
      assert i != 0;
      assert replies[i].TransportError?;
    }
  }

  /** Past a first 429, a POST's send on the replies it can see fails at the transport. */
  lemma DrainedSettlesOnTransportError<T>(replies: seq<Reply<T>>, expCode: int)
    requires Settles(replies, expCode) && DrainedResends(replies, expCode) && RateLimited(replies[0], expCode)
    ensures Settled(replies, expCode) == TransportError
  {
    var i := SettlingIndex(replies, expCode, 0);
    assert i != 0;
  }

  // ------------------------------------------------------ CreateMetaData

  /** The partition a metadata descriptor announces: no ETag and no contents yet. */
  function Announced(u: PartURL): UploadPartition
  {
    UploadPartition(u.part, u.url, "", u.start, u.end, [])
  }

  /**
   * The descriptor loop of CreateMetaData: stop with an error at the first
   * descriptor whose End is below 1, otherwise set each announced partition,
   * ignoring the error SetPartition returns.
   */
  function Ingest(file: File, parts: seq<UploadPartition>, urls: seq<PartURL>): (r: SetResult)
    ensures r.err.Some? <==> exists k | 0 <= k < |urls| :: urls[k].end == 0
    ensures r.err.Some? ==> r.err.value == ZeroLengthPartition
    decreases |urls|
  {
    if |urls| == 0 then SetResult(parts, None)
    else if urls[0].end < 1 then SetResult(parts, Some(ZeroLengthPartition))
    else
      var r := Ingest(file, SetPartition(file, parts, Announced(urls[0])).parts, urls[1..]);
      assert forall k | 1 <= k < |urls| :: urls[k] == urls[1..][k - 1];
      r
  }

  /**
   * `CreateMetaData`: post the metadata (expected status 200, body decoded);
   * on a decoded response record the asset id and the upload id, then ingest
   * the descriptors; a failed request changes nothing. The URL is the fixed
   * `/assets/signed` endpoint, which always parses.
   */
  function CreateMetaData(a: Asset, replies: seq<Reply<CreateAssetMetaDataResponse>>): (r: Step)
    requires Settles(replies, StatusOK)
    ensures var rep := Settled(replies, StatusOK);
            !Decoded(rep, StatusOK) ==>
              r == Step(a, Some(Wrapped(RequestFailed, Received(replies, StatusOK).error)))
    ensures var rep := Settled(replies, StatusOK);
            Decoded(rep, StatusOK) ==>
              && r.asset.id == rep.body.value.id && r.asset.uploadID == rep.body.value.uploadID
              && (r.err.Some? <==> exists k | 0 <= k < |rep.body.value.urls| :: rep.body.value.urls[k].end == 0)
    ensures r.asset.filename == a.filename && r.asset.size == a.size
    ensures r.asset.mimeType == a.mimeType && r.asset.file == a.file
  {
    match Received(replies, StatusOK)
    case Failure(e) => Step(a, Some(Wrapped(RequestFailed, e)))
    case Success(resp) =>
      var ingested := Ingest(a.file, a.partitions, resp.urls);
      Step(a.(id := resp.id, uploadID := resp.uploadID, partitions := ingested.parts), ingested.err)
  }

  /** Ingestion keeps the store invariant. */
  lemma {:induction false} IngestPreservesValid(file: File, parts: seq<UploadPartition>, urls: seq<PartURL>)
    requires Valid(file, parts)
    ensures Valid(file, Ingest(file, parts, urls).parts)
    decreases |urls|
  {
    if |urls| > 0 && urls[0].end >= 1 {
      SetPartitionPreservesValid(file, parts, Announced(urls[0]));
      IngestPreservesValid(file, SetPartition(file, parts, Announced(urls[0])).parts, urls[1..]);
    }
  }

  /** Metadata creation keeps the store invariant, whatever the response. */
  lemma CreateMetaDataPreservesValid(a: Asset, replies: seq<Reply<CreateAssetMetaDataResponse>>)
    requires Valid(a.file, a.partitions) && Settles(replies, StatusOK)
    ensures Valid(CreateMetaData(a, replies).asset.file, CreateMetaData(a, replies).asset.partitions)
  {
    if Received(replies, StatusOK).Success? {
      IngestPreservesValid(a.file, a.partitions, Received(replies, StatusOK).value.urls);
    }
  }

  /**
   * No rollback: when descriptor `k` is the first with End 0, the store
   * keeps everything the descriptors before it stored.
   */
  lemma {:induction false} IngestStopsAtFirstZero(file: File, parts: seq<UploadPartition>, urls: seq<PartURL>, k: nat)
    requires k < |urls| && urls[k].end == 0
    requires forall i | 0 <= i < k :: urls[i].end != 0
    ensures Ingest(file, parts, urls) == SetResult(Ingest(file, parts, urls[..k]).parts, Some(ZeroLengthPartition))
    decreases k
  {
    if k > 0 {
      var next := SetPartition(file, parts, Announced(urls[0])).parts;
      assert urls[1..][..k - 1] == urls[..k][1..];
      IngestStopsAtFirstZero(file, next, urls[1..], k - 1);
    }
  }

  /**
   * Only End is checked: a descriptor with End at least 1 whose range is
   * empty raises no error; SetPartition reads nothing and rejects it, the
   * rejection is ignored, and ingestion goes on as if it were absent.
   */
  lemma IngestSkipsEmptyRange(file: File, parts: seq<UploadPartition>, u: PartURL, rest: seq<PartURL>)
    requires u.end >= 1 && u.end == u.start
    ensures Ingest(file, parts, [u] + rest) == Ingest(file, parts, rest)
  {
    assert ([u] + rest)[1..] == rest;
  }

  /**
   * SetPartition's verdict is ignored: a descriptor with End at least 1 and
   * a range that is not inverted, which the store rejects (bad id,
   * unreadable or empty range), is skipped silently.
   */
  lemma IngestSkipsRejected(file: File, parts: seq<UploadPartition>, u: PartURL, rest: seq<PartURL>)
    requires u.end >= 1 && u.start <= u.end && SetPartition(file, parts, Announced(u)).err.Some?
    ensures Ingest(file, parts, [u] + rest) == Ingest(file, parts, rest)
  {
    assert ([u] + rest)[1..] == rest;
  }

  /** The part numbers the descriptors announce, in order. */
  function PartNumbers(urls: seq<PartURL>): (ns: seq<int>)
    ensures |ns| == |urls| && forall k | 0 <= k < |urls| :: ns[k] == urls[k].part
  {
    if |urls| == 0 then [] else [urls[0].part] + PartNumbers(urls[1..])
  }

  /**
   * Descriptors that are all storable: positive part numbers, readable
   * non-empty ranges, and part numbers distinct from each other and from the
   * store's ids.
   */
  predicate Storable(file: File, parts: seq<UploadPartition>, urls: seq<PartURL>)
  {
    && (forall k | 0 <= k < |urls| :: urls[k].part >= 1 && urls[k].start < urls[k].end <= |file|)
    && (forall k | 0 <= k < |urls| :: urls[k].part !in PartitionIDs(parts))
    && (forall k, l | 0 <= k < l < |urls| :: urls[k].part != urls[l].part)
  }

  /** Announced storable partitions are all stored, appended in announcement order. */
  lemma {:induction false} IngestStoresDistinct(file: File, parts: seq<UploadPartition>, urls: seq<PartURL>)
    requires Storable(file, parts, urls)
    ensures Ingest(file, parts, urls).err == None
    ensures PartitionIDs(Ingest(file, parts, urls).parts) == PartitionIDs(parts) + PartNumbers(urls)
    decreases |urls|
  {
    if |urls| > 0 {
      var next := SetPartition(file, parts, Announced(urls[0])).parts;
      IngestStep(file, parts, urls);
      IngestStoresDistinct(file, next, urls[1..]);
      AppendOne(PartitionIDs(parts), urls[0].part, PartNumbers(urls[1..]));
    } else {
      assert PartitionIDs(parts) + [] == PartitionIDs(parts);
    }
  }

  lemma AppendOne(a: seq<int>, x: int, b: seq<int>)
    ensures (a + [x]) + b == a + ([x] + b)
  {
  }

  /** Storing the first storable descriptor appends its id and leaves the rest storable. */
  lemma IngestStep(file: File, parts: seq<UploadPartition>, urls: seq<PartURL>)
    requires |urls| > 0 && Storable(file, parts, urls)
    ensures var next := SetPartition(file, parts, Announced(urls[0])).parts;
            && Ingest(file, parts, urls) == Ingest(file, next, urls[1..])
            && PartitionIDs(next) == PartitionIDs(parts) + [urls[0].part]
            && Storable(file, next, urls[1..])
            && PartNumbers(urls) == [urls[0].part] + PartNumbers(urls[1..])
  {
    var next := SetPartition(file, parts, Announced(urls[0])).parts;
    SetPartitionIDs(file, parts, Announced(urls[0]));
    forall k | 0 <= k < |urls[1..]|
      ensures urls[1..][k].part !in PartitionIDs(parts) + [urls[0].part]
    {
      assert urls[1..][k] == urls[k + 1];
    }
  }

  // ----------------------------------------------------------- uploadPart

  /** What the part's `PUT` yields: a request that cannot be built, a failed send, or a response. */
  datatype PutOutcome = PutBuildFailed | PutSendFailed | PutResponse(status: int, eTagHeader: string)

  /** The ETag the part upload records: the header without its surrounding double quotes. */
  function ETagOf(header: string): (tag: string)
    ensures tag == "" || (tag[0] != '"' && tag[|tag| - 1] != '"')
    ensures var lead := GoStrings.LeadingRun(header, '"');
            lead + |tag| <= |header| &&
            header == GoStrings.Repeat('"', lead) + tag + GoStrings.Repeat('"', |header| - lead - |tag|)
  {
    GoStrings.Trim(header, '"')
  }

  /**
   * `uploadPart`: the part gets an ETag only from a 200 response whose ETag
   * header is not empty once the quotes are trimmed.
   */
  function UploadPart(p: UploadPartition, outcome: PutOutcome): (r: Result<UploadPartition, Error>)
    ensures r.Success? <==> outcome.PutResponse? && outcome.status == 200 && ETagOf(outcome.eTagHeader) != ""
    ensures r.Success? ==> r.value == p.(eTag := ETagOf(outcome.eTagHeader))
    ensures r.Success? ==> r.value.eTag != "" && r.value.eTag[0] != '"' && r.value.eTag[|r.value.eTag| - 1] != '"'
    ensures outcome.PutResponse? && outcome.status != 200 ==> r == Failure(UploadNot200(outcome.status))
  {
    match outcome
    case PutBuildFailed => Failure(RequestBuildFailed)
    case PutSendFailed => Failure(Wrapped(FailedToSendRequest, TransportFailed))
    case PutResponse(status, header) =>
      if status != StatusOK then Failure(UploadNot200(status))
      else
        var tag := ETagOf(header);
        if tag == "" then Failure(EmptyETag) else Success(p.(eTag := tag))
  }

  // ---------------------------------------------------------- UploadParts

  /**
   * The by-value copy UploadParts and ConfirmUpload take: the partition each
   * listed id looks up to, in list order; a missing id aborts.
   */
  function Snapshot(parts: seq<UploadPartition>, ids: seq<int>): (r: Result<seq<UploadPartition>, Error>)
    ensures r.Success? <==> forall i | 0 <= i < |ids| :: ids[i] in PartitionIDs(parts)
    ensures r.Success? ==> |r.value| == |ids|
    ensures r.Success? ==> forall i | 0 <= i < |ids| :: Partition(parts, ids[i]) == Success(r.value[i])
  {
    if |ids| == 0 then Success([])
    else match Partition(parts, ids[0])
      case Failure(e) => Failure(e)
      case Success(p) =>
        match Snapshot(parts, ids[1..])
        case Failure(e) =>
          assert forall i | 1 <= i < |ids| :: ids[i] == ids[1..][i - 1];
          Failure(e)
        case Success(rest) =>
          assert forall i | 1 <= i < |ids| :: ids[i] == ids[1..][i - 1];
          Success([p] + rest)
  }

  /** One upload task: upload the part, wrapping a failure with the part's id. */
  function UploadTask(p: UploadPartition, put: UploadPartition -> PutOutcome): (r: Result<UploadPartition, Error>)
    ensures r.Success? <==> put(p).PutResponse? && put(p).status == StatusOK && ETagOf(put(p).eTagHeader) != ""
    ensures r.Success? ==> r.value == p.(eTag := ETagOf(put(p).eTagHeader))
    ensures r.Failure? ==> r.error.Wrapped? && r.error.context == PartitionUploadFailed(p.id)
  {
    match UploadPart(p, put(p))
    case Failure(e) => Failure(Wrapped(PartitionUploadFailed(p.id), e))
    case Success(q) => Success(q)
  }

  /** The outcomes of the upload tasks, one per snapshot entry, in snapshot order. */
  function Tasks(snap: seq<UploadPartition>, put: UploadPartition -> PutOutcome): (outcomes: seq<Result<UploadPartition, Error>>)
    ensures |outcomes| == |snap|
    ensures forall i | 0 <= i < |snap| ::
              && (outcomes[i].Success? ==> outcomes[i].value.id == snap[i].id && outcomes[i].value.eTag != "")
              && (outcomes[i].Failure? ==> outcomes[i].error.Wrapped? && outcomes[i].error.context == PartitionUploadFailed(snap[i].id))
  {
    seq(|snap|, i requires 0 <= i < |snap| => UploadTask(snap[i], put))
  }

  /**
   * The join after all tasks ended: a failure if any task failed (the source
   * reports whichever failure reaches its channel first), else every
   * uploaded partition in snapshot order.
   */
  function Join(outcomes: seq<Result<UploadPartition, Error>>): (r: Result<seq<UploadPartition>, Error>)
    ensures r.Success? <==> forall i | 0 <= i < |outcomes| :: outcomes[i].Success?
    ensures r.Success? ==> |r.value| == |outcomes|
    ensures r.Success? ==> forall i | 0 <= i < |outcomes| :: r.value[i] == outcomes[i].value
    ensures r.Failure? ==> exists i | 0 <= i < |outcomes| :: outcomes[i] == Failure(r.error)
  {
    if |outcomes| == 0 then Success([])
    else match outcomes[0]
      case Failure(e) => Failure(e)
      case Success(p) =>
        assert forall i | 1 <= i < |outcomes| :: outcomes[i] == outcomes[1..][i - 1];
        match Join(outcomes[1..])
        case Failure(e) => Failure(e)
        case Success(rest) => Success([p] + rest)
  }

  /** The sequential write-back: SetPartition each uploaded part in order, stopping at the first failure. */
  function WriteBack(file: File, parts: seq<UploadPartition>, uploaded: seq<UploadPartition>): (r: SetResult)
    ensures (forall i | 0 <= i < |uploaded| :: uploaded[i].id >= 1 && uploaded[i].startByte < uploaded[i].endByte <= |file|)
            ==> r.err.None?
    ensures r.err.Some? ==> r.err.value.Wrapped? && r.err.value.context == FailedToSetPartition
    decreases |uploaded|
  {
    if |uploaded| == 0 then SetResult(parts, None)
    else
      var stored := SetPartition(file, parts, uploaded[0]);
      if stored.err.Some? then SetResult(parts, Some(Wrapped(FailedToSetPartition, stored.err.value)))
      else
        assert forall i | 1 <= i < |uploaded| :: uploaded[i] == uploaded[1..][i - 1];
        WriteBack(file, stored.parts, uploaded[1..])
  }

  /**
   * `UploadParts`: snapshot the store in id-list order, upload every part,
   * and only if all uploads succeeded write each part back with its ETag.
   * `put` is the storage endpoint's answer to a part's `PUT`.
   */
  function UploadParts(a: Asset, put: UploadPartition -> PutOutcome): (r: Step)
    ensures r.asset.(partitions := a.partitions) == a
    ensures r.err.Some? && r.err.value.Wrapped? && r.err.value.context == AtLeastOnePartFailed ==> r.asset == a
  {
    match Snapshot(a.partitions, PartitionIDs(a.partitions))
    case Failure(e) => Step(a, Some(Wrapped(CouldNotGetImagePartition, e)))
    case Success(snap) =>
      match Join(Tasks(snap, put))
      case Failure(e) => Step(a, Some(Wrapped(AtLeastOnePartFailed, e)))
      case Success(uploaded) =>
        var written := WriteBack(a.file, a.partitions, uploaded);
        Step(a.(partitions := written.parts), written.err)
  }

  /** The snapshot never misses: every listed id is found in the store it was listed from. */
  lemma SnapshotNeverMisses(parts: seq<UploadPartition>)
    ensures Snapshot(parts, PartitionIDs(parts)).Success?
  {
    var ids := PartitionIDs(parts);
    forall i | 0 <= i < |ids| ensures ids[i] in PartitionIDs(parts) {
    }
  }

  /** In a store with unique ids the snapshot is the store itself. */
  lemma SnapshotOfValid(file: File, parts: seq<UploadPartition>)
    requires Valid(file, parts)
    ensures Snapshot(parts, PartitionIDs(parts)) == Success(parts)
  {
    var ids := PartitionIDs(parts);
    SnapshotNeverMisses(parts);
    var snap := Snapshot(parts, ids).value;
    forall i | 0 <= i < |parts| ensures snap[i] == parts[i] {
      FirstOfUnique(file, parts, i);
      assert Partition(parts, ids[i]) == Success(snap[i]);
    }
    assert snap == parts;
  }

  /** Changing only the ETags of a valid store's entries keeps it valid. */
  lemma RetaggedValid(file: File, parts: seq<UploadPartition>, retagged: seq<UploadPartition>)
    requires Valid(file, parts) && |retagged| == |parts|
    requires forall i | 0 <= i < |parts| :: retagged[i] == parts[i].(eTag := retagged[i].eTag)
    ensures Valid(file, retagged)
  {
    assert forall i | 0 <= i < |parts| :: retagged[i].id == parts[i].id;
  }

  /** Writing back the retagged copy of entry `k` replaces that entry in place. */
  lemma WriteBackStep(file: File, parts: seq<UploadPartition>, uploaded: seq<UploadPartition>, k: nat)
    requires Valid(file, parts)
    requires |uploaded| == |parts| && k < |parts|
    requires forall i | 0 <= i < |parts| :: uploaded[i] == parts[i].(eTag := uploaded[i].eTag)
    ensures SetPartition(file, uploaded[..k] + parts[k..], uploaded[k])
            == SetResult(uploaded[..k + 1] + parts[k + 1..], None)
  {
    var cur := uploaded[..k] + parts[k..];
    assert forall i | 0 <= i < |cur| :: cur[i] == parts[i].(eTag := cur[i].eTag);
    RetaggedValid(file, parts, cur);
    assert cur[k] == parts[k];
    SetExistingInPlace(file, cur, uploaded[k], k);
    SpliceStep(uploaded, parts, k);
  }

  /** Replacing element `k` of the splice at `k` moves the splice point one step. */
  lemma SpliceStep<T>(a: seq<T>, b: seq<T>, k: nat)
    requires |a| == |b| && k < |a|
    ensures (a[..k] + b[k..])[k := a[k]] == a[..k + 1] + b[k + 1..]
  {
  }

  /**
   * Writing back copies of a valid store's entries that differ only in
   * their ETag replaces each entry in place.
   */
  lemma {:induction false} WriteBackInPlace(file: File, parts: seq<UploadPartition>, uploaded: seq<UploadPartition>, k: nat)
    requires Valid(file, parts)
    requires |uploaded| == |parts| && k <= |parts|
    requires forall i | 0 <= i < |parts| :: uploaded[i] == parts[i].(eTag := uploaded[i].eTag)
    ensures WriteBack(file, uploaded[..k] + parts[k..], uploaded[k..]) == SetResult(uploaded, None)
    decreases |parts| - k
  {
    if k == |parts| {
      assert uploaded[..k] + parts[k..] == uploaded;
    } else {
      WriteBackStep(file, parts, uploaded, k);
      assert uploaded[k..][1..] == uploaded[k + 1..];
      WriteBackInPlace(file, parts, uploaded, k + 1);
    }
  }

  /**
   * UploadParts on a valid store: it succeeds exactly when every part's
   * upload succeeds, on failure nothing is written back, and the store stays
   * valid either way.
   */
  lemma UploadPartsOfValid(a: Asset, put: UploadPartition -> PutOutcome)
    requires Valid(a.file, a.partitions)
    ensures UploadParts(a, put).err.None?
            <==> forall i | 0 <= i < |a.partitions| :: UploadPart(a.partitions[i], put(a.partitions[i])).Success?
    ensures UploadParts(a, put).err.Some? ==> UploadParts(a, put).asset == a
    ensures Valid(UploadParts(a, put).asset.file, UploadParts(a, put).asset.partitions)
  {
    UploadPartsOfValidUnfolds(a, put);
    TasksSucceed(a.partitions, put);
    match Join(Tasks(a.partitions, put))
    case Failure(e) =>
    case Success(uploaded) =>
      UploadedWrittenBack(a, put, uploaded);
  }

  /**
   * A successful UploadParts on a valid store keeps every entry in place and
   * in order, each carrying the trimmed, non-empty ETag of its upload.
   */
  lemma UploadPartsRetags(a: Asset, put: UploadPartition -> PutOutcome)
    requires Valid(a.file, a.partitions) && UploadParts(a, put).err.None?
    ensures |UploadParts(a, put).asset.partitions| == |a.partitions|
    ensures forall i | 0 <= i < |a.partitions| :: put(a.partitions[i]).PutResponse?
    ensures forall i | 0 <= i < |a.partitions| ::
              UploadParts(a, put).asset.partitions[i] == a.partitions[i].(eTag := ETagOf(put(a.partitions[i]).eTagHeader))
    ensures forall i | 0 <= i < |a.partitions| :: UploadParts(a, put).asset.partitions[i].eTag != ""
  {
    UploadPartsOfValidUnfolds(a, put);
    match Join(Tasks(a.partitions, put))
    case Failure(e) =>
    case Success(uploaded) =>
      UploadedWrittenBack(a, put, uploaded);
  }

  /** After a successful join on a valid store, the write-back stores the uploaded parts as they are. */
  lemma UploadedWrittenBack(a: Asset, put: UploadPartition -> PutOutcome, uploaded: seq<UploadPartition>)
    requires Valid(a.file, a.partitions) && Join(Tasks(a.partitions, put)) == Success(uploaded)
    ensures WriteBack(a.file, a.partitions, uploaded) == SetResult(uploaded, None)
    ensures Valid(a.file, uploaded)
    ensures |uploaded| == |a.partitions|
    ensures forall i | 0 <= i < |a.partitions| :: put(a.partitions[i]).PutResponse?
    ensures forall i | 0 <= i < |a.partitions| ::
              uploaded[i] == a.partitions[i].(eTag := ETagOf(put(a.partitions[i]).eTagHeader)) && uploaded[i].eTag != ""
  {
    var parts := a.partitions;
    UploadedAreRetagged(parts, put, uploaded);
    WriteBackInPlace(a.file, parts, uploaded, 0);
    assert uploaded[..0] + parts[0..] == parts;
    RetaggedValid(a.file, parts, uploaded);
  }

  /** On a valid store the snapshot is the store, so UploadParts joins the tasks over the store itself. */
  lemma UploadPartsOfValidUnfolds(a: Asset, put: UploadPartition -> PutOutcome)
    requires Valid(a.file, a.partitions)
    ensures UploadParts(a, put) == match Join(Tasks(a.partitions, put))
      case Failure(e) => Step(a, Some(Wrapped(AtLeastOnePartFailed, e)))
      case Success(uploaded) =>
        var written := WriteBack(a.file, a.partitions, uploaded);
        Step(a.(partitions := written.parts), written.err)
  {
    SnapshotOfValid(a.file, a.partitions);
  }

  /** The join succeeds exactly when every part's upload does. */
  lemma TasksSucceed(parts: seq<UploadPartition>, put: UploadPartition -> PutOutcome)
    ensures Join(Tasks(parts, put)).Success?
            <==> forall i | 0 <= i < |parts| :: UploadPart(parts[i], put(parts[i])).Success?
  {
    var outcomes := Tasks(parts, put);
    assert forall i | 0 <= i < |parts| :: outcomes[i].Success? == UploadPart(parts[i], put(parts[i])).Success?;
  }

  /** A successful join yields each part with the trimmed, non-empty ETag of its upload. */
  lemma UploadedAreRetagged(parts: seq<UploadPartition>, put: UploadPartition -> PutOutcome, uploaded: seq<UploadPartition>)
    requires Join(Tasks(parts, put)) == Success(uploaded)
    ensures |uploaded| == |parts|
    ensures forall i | 0 <= i < |parts| :: put(parts[i]).PutResponse?
    ensures forall i | 0 <= i < |parts| :: uploaded[i] == parts[i].(eTag := ETagOf(put(parts[i]).eTagHeader))
    ensures forall i | 0 <= i < |parts| :: uploaded[i].eTag != ""
  {
    var outcomes := Tasks(parts, put);
    forall i | 0 <= i < |parts|
      ensures put(parts[i]).PutResponse?
      ensures uploaded[i] == parts[i].(eTag := ETagOf(put(parts[i]).eTagHeader)) && uploaded[i].eTag != ""
    {
      assert outcomes[i] == UploadTask(parts[i], put);
      assert outcomes[i].Success?;
    }
  }

  // -------------------------------------------------------- ConfirmUpload

  /**
   * The confirmation payload: the upload id and one `(PartNumber, ETag)`
   * pair per listed id, in id-list order, each from the id's lookup.
   */
  function ConfirmationPayload(a: Asset): (r: Result<UploadConfirmationRequest, Error>)
    ensures r.Success?
    ensures r.value.uploadID == a.uploadID && |r.value.parts| == |a.partitions|
    ensures forall i | 0 <= i < |a.partitions| ::
              && r.value.parts[i].partNumber == a.partitions[i].id
              && Partition(a.partitions, a.partitions[i].id).Success?
              && r.value.parts[i].eTag == Partition(a.partitions, a.partitions[i].id).value.eTag
  {
    SnapshotNeverMisses(a.partitions);
    match Snapshot(a.partitions, PartitionIDs(a.partitions))
    case Failure(e) => Failure(Wrapped(CouldNotGetPartition, e))
    case Success(snap) =>
      Success(UploadConfirmationRequest(
        seq(|snap|, i requires 0 <= i < |snap| => ConfirmedPart(snap[i].id, snap[i].eTag)),
        a.uploadID))
  }

  /** On a valid store the payload pairs each stored partition's id with its own ETag. */
  lemma ConfirmationOfValid(a: Asset)
    requires Valid(a.file, a.partitions)
    ensures ConfirmationPayload(a).value.parts
            == seq(|a.partitions|, i requires 0 <= i < |a.partitions| => ConfirmedPart(a.partitions[i].id, a.partitions[i].eTag))
  {
    forall i | 0 <= i < |a.partitions| ensures Partition(a.partitions, a.partitions[i].id).value == a.partitions[i] {
      IndexOfFirst(a.partitions, a.partitions[i].id, i);
    }
  }

  /** The service's base URL. */
  const BaseV1URL: string := "https://app.digital-downloads.com/api/v1"

  /** A POST request: its target and its JSON payload. */
  datatype Post<B> = Post(url: string, body: B)

  function ConfirmURL(assetID: string): string
  {
    BaseV1URL + "/assets/" + assetID + "/uploaded"
  }

  function AttachURL(assetID: string): string
  {
    BaseV1URL + "/assets/" + assetID + "/attach"
  }

  /** What ConfirmUpload did: its step, and the request it sent, if it built one. */
  datatype ConfirmCall = ConfirmCall(step: Step, request: Option<Post<UploadConfirmationRequest>>)

  /**
   * `ConfirmUpload`: build the payload, put the asset id into the URL, then
   * post (expected status 201, no body decoded). A URL that does not parse
   * stops the call before anything is sent. The asset is untouched.
   */
  function ConfirmUpload(a: Asset, replies: seq<Reply<()>>): (r: ConfirmCall)
    requires !GoURL.ParseFails(ConfirmURL(a.id)) ==> Settles(replies, StatusCreated)
    ensures r.step.asset == a
    ensures GoURL.ParseFails(ConfirmURL(a.id)) ==>
              r == ConfirmCall(Step(a, Some(Wrapped(FailedToCreateRequest, URLParseFailed(ConfirmURL(a.id))))), None)
    ensures !GoURL.ParseFails(ConfirmURL(a.id)) ==>
              && r.request == Some(Post(ConfirmURL(a.id), ConfirmationPayload(a).value))
              && (r.step.err.None? <==>
                    Settled(replies, StatusCreated).Reply? && Settled(replies, StatusCreated).status == StatusCreated)
              && (r.step.err.Some? ==> r.step.err == Some(Wrapped(RequestFailed, Delivered(replies, StatusCreated).value)))
  {
    match ConfirmationPayload(a)
    case Failure(e) => ConfirmCall(Step(a, Some(e)), None)
    case Success(payload) =>
      var url := ConfirmURL(a.id);
      if GoURL.ParseFails(url) then
        ConfirmCall(Step(a, Some(Wrapped(FailedToCreateRequest, URLParseFailed(url)))), None)
      else
        var request := Some(Post(url, payload));
        match Delivered(replies, StatusCreated)
        case Some(e) => ConfirmCall(Step(a, Some(Wrapped(RequestFailed, e))), request)
        case None => ConfirmCall(Step(a, None), request)
  }

  /** A confirmation that succeeded posted the payload to the asset's endpoint and settled on a 201. */
  lemma ConfirmUploadSent(a: Asset, replies: seq<Reply<()>>)
    requires !GoURL.ParseFails(ConfirmURL(a.id)) ==> Settles(replies, StatusCreated)
    requires ConfirmUpload(a, replies).step.err.None?
    ensures !GoURL.ParseFails(ConfirmURL(a.id))
    ensures ConfirmUpload(a, replies).request == Some(Post(ConfirmURL(a.id), ConfirmationPayload(a).value))
    ensures Settled(replies, StatusCreated).Reply? && Settled(replies, StatusCreated).status == StatusCreated
  {
  }

  // ------------------------------------- association and product search

  /** The attach request AssociateShopifyProductWithAsset sent, if it built one, and its outcome. */
  datatype AttachCall = AttachCall(request: Option<Post<AssociateProductsRequest>>, err: Option<Error>)

  /**
   * `AssociateShopifyProductWithAsset`: post a payload naming exactly the one
   * product to the asset's attach endpoint (expected status 201, no body
   * decoded); a URL that does not parse stops the call before anything is sent.
   */
  function AssociateShopifyProductWithAsset(productID: string, assetID: string, replies: seq<Reply<()>>): (r: AttachCall)
    requires !GoURL.ParseFails(AttachURL(assetID)) ==> Settles(replies, StatusCreated)
    ensures GoURL.ParseFails(AttachURL(assetID)) ==>
              r == AttachCall(None, Some(Wrapped(FailedToCreateRequest, URLParseFailed(AttachURL(assetID)))))
    ensures !GoURL.ParseFails(AttachURL(assetID)) ==>
              && r.request.Some? && r.request.value.url == AttachURL(assetID)
              && r.request.value.body.products == [productID]
              && (r.err.None? <==>
                    Settled(replies, StatusCreated).Reply? && Settled(replies, StatusCreated).status == StatusCreated)
              && (r.err.Some? ==> r.err == Some(Wrapped(RequestFailed, Delivered(replies, StatusCreated).value)))
  {
    var url := AttachURL(assetID);
    if GoURL.ParseFails(url) then
      AttachCall(None, Some(Wrapped(FailedToCreateRequest, URLParseFailed(url))))
    else
      var request := Some(Post(url, AssociateProductsRequest([productID])));
      match Delivered(replies, StatusCreated)
      case Some(e) => AttachCall(request, Some(Wrapped(RequestFailed, e)))
      case None => AttachCall(request, None)
  }

  /**
   * An asset id with no control character and no '%' yields URLs that
   * parse, so both calls send their request.
   */
  lemma AssetURLsParse(assetID: string)
    requires GoURL.Clean(assetID)
    ensures !GoURL.ParseFails(ConfirmURL(assetID)) && !GoURL.ParseFails(AttachURL(assetID))
  {
    BaseURLClean();
    GoURL.CleanAppend(BaseV1URL + "/assets/", assetID);
    GoURL.CleanAppend(BaseV1URL + "/assets/" + assetID, "/uploaded");
    GoURL.CleanAppend(BaseV1URL + "/assets/" + assetID, "/attach");
    GoURL.CleanParses(ConfirmURL(assetID));
    GoURL.CleanParses(AttachURL(assetID));
  }

  /**
   * An asset id (with no '#' or '?') holding a control character or a '%'
   * that does not start a two-hex-digit escape yields URLs that do not parse,
   * so both calls fail with "failed to create request" before sending.
   */
  lemma AssetURLsFail(assetID: string, i: nat)
    requires GoURL.PathOnly(assetID)
    requires i < |assetID| && (GoURL.IsControl(assetID[i]) || GoURL.BadEscapeAt(assetID, i))
    ensures GoURL.ParseFails(ConfirmURL(assetID)) && GoURL.ParseFails(AttachURL(assetID))
  {
    AssetURLFails(assetID, i, "/uploaded");
    AssetURLFails(assetID, i, "/attach");
  }

  lemma BaseURLClean()
    ensures GoURL.Clean(BaseV1URL + "/assets/") && GoURL.PathOnly(BaseV1URL + "/assets/")
  {
    BaseClean();
    BasePathOnly();
    GoURL.CleanAppend(BaseV1URL, "/assets/");
    GoURL.PathOnlyAppend(BaseV1URL, "/assets/");
  }

  lemma BaseClean()
    ensures GoURL.Clean(BaseV1URL)
  {
  }

  lemma BasePathOnly()
    ensures GoURL.PathOnly(BaseV1URL)
  {
  }

  /** The id's bad character stays bad in `base/assets/<id><suffix>` when the suffix starts with '/'. */
  lemma AssetURLFails(assetID: string, i: nat, suffix: string)
    requires GoURL.PathOnly(assetID)
    requires i < |assetID| && (GoURL.IsControl(assetID[i]) || GoURL.BadEscapeAt(assetID, i))
    requires |suffix| > 0 && suffix[0] == '/' && GoURL.PathOnly(suffix)
    ensures GoURL.ParseFails(BaseV1URL + "/assets/" + assetID + suffix)
  {
    var prefix := BaseV1URL + "/assets/";
    var url := prefix + assetID + suffix;
    var k := |prefix| + i;
    assert url[k] == assetID[i];
    assert k + 1 < |url| ==> url[k + 1] == (assetID + suffix)[i + 1];
    assert k + 2 < |url| ==> url[k + 2] == (assetID + suffix)[i + 2];
    BaseURLClean();
    GoURL.PathOnlyAppend(prefix, assetID);
    GoURL.PathOnlyAppend(prefix + assetID, suffix);
    GoURL.PlainPathFails(url, k);
  }

  /** Metadata creation as written, on fresh connections: a 429 on the first post makes it fail with the transport error. */
  lemma CreateMetaDataAfter429Fails(a: Asset, replies: seq<Reply<CreateAssetMetaDataResponse>>)
    requires Settles(replies, StatusOK) && DrainedResends(replies, StatusOK) && RateLimited(replies[0], StatusOK)
    ensures CreateMetaData(a, replies) == Step(a, Some(Wrapped(RequestFailed, Wrapped(FailedToSendRequest, TransportFailed))))
  {
    DrainedSettlesOnTransportError(replies, StatusOK);
  }

  /** Confirmation as written, on fresh connections: a 429 on the first post makes it fail with the transport error. */
  lemma ConfirmUploadAfter429Fails(a: Asset, replies: seq<Reply<()>>)
    requires !GoURL.ParseFails(ConfirmURL(a.id))
    requires Settles(replies, StatusCreated) && DrainedResends(replies, StatusCreated) && RateLimited(replies[0], StatusCreated)
    ensures ConfirmUpload(a, replies).step.err == Some(Wrapped(RequestFailed, Wrapped(FailedToSendRequest, TransportFailed)))
  {
    DrainedSettlesOnTransportError(replies, StatusCreated);
  }

  /** Association as written, on fresh connections: a 429 on the first post makes it fail with the transport error. */
  lemma AssociateAfter429Fails(productID: string, assetID: string, replies: seq<Reply<()>>)
    requires !GoURL.ParseFails(AttachURL(assetID))
    requires Settles(replies, StatusCreated) && DrainedResends(replies, StatusCreated) && RateLimited(replies[0], StatusCreated)
    ensures AssociateShopifyProductWithAsset(productID, assetID, replies).err
            == Some(Wrapped(RequestFailed, Wrapped(FailedToSendRequest, TransportFailed)))
  {
    DrainedSettlesOnTransportError(replies, StatusCreated);
  }

  /**
   * The discrepancy on one input: a 429 followed by a 201. The as-written
   * POST send fails when the re-send goes out on a fresh connection, while the retry loop the model uses confirms.
   */
  lemma RetriedConfirmDiverges(a: Asset)
    requires !GoURL.ParseFails(ConfirmURL(a.id))
    ensures var replies: seq<Reply<()>> := [Reply(StatusTooManyRequests, Malformed), Reply(StatusCreated, Malformed)];
            && Settles(replies, StatusCreated)
            && SendPostAsWritten(replies, StatusCreated, false).Failure?
            && ConfirmUpload(a, replies).step.err.None?
  {
    var replies: seq<Reply<()>> := [Reply(StatusTooManyRequests, Malformed), Reply(StatusCreated, Malformed)];
    assert !RateLimited(replies[1], StatusCreated);
    assert SettlingIndex(replies, StatusCreated, 0) == 1;
  }

  /**
   * The intended behaviour, which the model keeps: however many 429s come
   * first, a confirmation whose post is finally answered 201 succeeds.
   */
  lemma ConfirmRetriesPast429(a: Asset, k: nat)
    requires !GoURL.ParseFails(ConfirmURL(a.id))
    ensures var replies: seq<Reply<()>> := seq(k, _ => Reply(StatusTooManyRequests, Malformed)) + [Reply(StatusCreated, Malformed)];
            Settles(replies, StatusCreated) && ConfirmUpload(a, replies).step.err.None?
  {
    var replies: seq<Reply<()>> := seq(k, _ => Reply(StatusTooManyRequests, Malformed)) + [Reply(StatusCreated, Malformed)];
    assert !RateLimited(replies[k], StatusCreated);
    var i := SettlingIndex(replies, StatusCreated, 0);
    assert forall j | 0 <= j < k :: RateLimited(replies[j], StatusCreated);
    assert i == k;
  }

  /** The position of the first listed product with the Shopify id. */
  function FindProduct(data: seq<Product>, shopifyProductID: int): (r: Option<nat>)
    ensures r.Some? ==> r.value < |data| && data[r.value].productID == shopifyProductID
    ensures r.Some? ==> forall k | 0 <= k < r.value :: data[k].productID != shopifyProductID
    ensures r.None? ==> forall k | 0 <= k < |data| :: data[k].productID != shopifyProductID
  {
    if |data| == 0 then None
    else if data[0].productID == shopifyProductID then Some(0)
    else match FindProduct(data[1..], shopifyProductID)
      case None => None
      case Some(k) => Some(k + 1)
  }

  /**
   * `GetDDAProductID`: list the products (expected status 200, body decoded)
   * and return the service's id of the first listed product whose Shopify id
   * matches. The URL carries only a decimal number, so it always parses.
   */
  function GetDDAProductID(shopifyProductID: int, replies: seq<Reply<ProductListResponse>>): (r: Result<string, Error>)
    requires Settles(replies, StatusOK)
    ensures var rep := Settled(replies, StatusOK);
            !Decoded(rep, StatusOK) ==>
              r == Failure(Wrapped(FailedToSendRequest, Received(replies, StatusOK).error))
    ensures var rep := Settled(replies, StatusOK);
            Decoded(rep, StatusOK) ==>
              && (r.Success? <==> exists j | 0 <= j < |rep.body.value.data| :: rep.body.value.data[j].productID == shopifyProductID)
              && (r.Success? ==>
                    exists j | 0 <= j < |rep.body.value.data| ::
                      && rep.body.value.data[j].productID == shopifyProductID
                      && rep.body.value.data[j].id == r.value
                      && forall k | 0 <= k < j :: rep.body.value.data[k].productID != shopifyProductID)
              && (r.Failure? ==> r.error == ProductNotFound(shopifyProductID))
  {
    match Received(replies, StatusOK)
    case Failure(e) => Failure(Wrapped(FailedToSendRequest, e))
    case Success(list) =>
      match FindProduct(list.data, shopifyProductID)
      case Some(j) => Success(list.data[j].id)
      case None => Failure(ProductNotFound(shopifyProductID))
  }
}
