/**
 * The two workflows of upload.go: `UploadImage` runs the uploader's three
 * steps in order and aborts at the first failure; `AssociateImageWithShopifyProduct`
 * parses the Shopify id, looks the product up with at most ten attempts and
 * then asks for exactly one association.
 *
 * The collaborators are values of function type; each run reports the calls it
 * made, in order, so "nothing else is called" is part of the contract.
 */
module Upload {
  import opened Wrappers
  import opened Errors
  import opened Partitions
  import opened Assets
  import opened Images
  import opened StrConv

  /** The uploader interface: each step returns the image as it left it, and maybe an error. */
  datatype Uploader = Uploader(
    createMetaData: Asset -> Step,
    uploadParts: Asset -> Step,
    confirmUpload: Asset -> Step)

  datatype Call = CreateMetaDataCall | UploadPartsCall | ConfirmUploadCall | CloseCall

  datatype UploadRun = UploadRun(result: Result<Asset, Error>, calls: seq<Call>)

  /** The uploader steps in the order UploadImage runs them. */
  const Pipeline: seq<Call> := [CreateMetaDataCall, UploadPartsCall, ConfirmUploadCall]

  /** The message prefix UploadImage puts on the error of step `k` of the pipeline. */
  function StepContext(k: nat): Context
    requires k < 3
  {
    if k == 0 then CouldNotCreateMetadata else if k == 1 then CouldNotUploadParts else CouldNotConfirmUpload
  }

  /** What the three steps do when each runs on the image the previous one left. */
  function Steps(u: Uploader, img: Asset): (s: seq<Step>)
    ensures |s| == 3
  {
    var created := u.createMetaData(img);
    var uploaded := u.uploadParts(created.asset);
    [created, uploaded, u.confirmUpload(uploaded.asset)]
  }

  function Abort(k: nat, s: Step): Result<Asset, Error>
    requires k < 3 && s.err.Some?
  {
    Failure(Wrapped(StepContext(k), s.err.value))
  }

  /**
   * UploadImage: build the image, then metadata, part upload and
   * confirmation; the file is closed whenever the image was built.
   */
  function UploadImage(filename: string, stat: Option<int>, mime: string, handle: Option<File>, u: Uploader): (r: UploadRun)
    // a failed NewImage calls nothing
    ensures NewImage(filename, stat, mime, handle).Failure? <==> r.calls == []
    ensures NewImage(filename, stat, mime, handle).Failure? ==>
              r.result == Failure(Wrapped(CouldNotCreateImage, NewImage(filename, stat, mime, handle).error))
    // otherwise: a prefix of the steps, always closed
    ensures r.calls != [] ==>
              2 <= |r.calls| <= 4 && r.calls[|r.calls| - 1] == CloseCall && r.calls[..|r.calls| - 1] == Pipeline[..|r.calls| - 1]
    // every step but the last one called succeeded; the run ends in the last one's error, or in success
    ensures r.calls != [] ==>
              var img := NewImage(filename, stat, mime, handle).value;
              var n := |r.calls| - 1;
              (forall k | 0 <= k < n - 1 :: Steps(u, img)[k].err.None?) &&
              (r.result.Failure? ==> Steps(u, img)[n - 1].err.Some? && r.result == Abort(n - 1, Steps(u, img)[n - 1]))
    ensures r.result.Success? <==> r.calls == Pipeline + [CloseCall] && Steps(u, NewImage(filename, stat, mime, handle).value)[2].err.None?
    ensures r.result.Success? ==> r.result.value == Steps(u, NewImage(filename, stat, mime, handle).value)[2].asset
  {
    var made := NewImage(filename, stat, mime, handle);
    if made.Failure? then UploadRun(Failure(Wrapped(CouldNotCreateImage, made.error)), [])
    else
      var s := Steps(u, made.value);
      if s[0].err.Some? then UploadRun(Abort(0, s[0]), [CreateMetaDataCall, CloseCall])
      else if s[1].err.Some? then UploadRun(Abort(1, s[1]), [CreateMetaDataCall, UploadPartsCall, CloseCall])
      else if s[2].err.Some? then UploadRun(Abort(2, s[2]), Pipeline + [CloseCall])
      else UploadRun(Success(s[2].asset), Pipeline + [CloseCall])
  }

  /**
   * The associater: the product search is indexed by the attempt number (the
   * catalogue may catch up between attempts); `associate` links a product to an asset.
   */
  datatype Associater = Associater(
    getDDAProductID: (nat, int) -> Result<string, Error>,
    associate: (string, string) -> Option<Error>)

  datatype AssociateCall = LookupCall(shopifyProductID: int) | AssociateCall(productID: string, assetID: string)

  /** How many times the product search is tried. */
  const MaxLookups: nat := 10

  function Lookups(pid: int, n: nat): (s: seq<AssociateCall>)
    ensures |s| == n && forall k | 0 <= k < n :: s[k] == LookupCall(pid)
  {
    seq(n, _ => LookupCall(pid))
  }

  /** The first attempt, from `from` on and below MaxLookups, whose search succeeds. */
  function FirstFound(a: Associater, pid: int, from: nat): (k: Option<nat>)
    ensures k.None? <==> forall j | from <= j < MaxLookups :: a.getDDAProductID(j, pid).Failure?
    ensures k.Some? ==> from <= k.value < MaxLookups && a.getDDAProductID(k.value, pid).Success?
    ensures k.Some? ==> forall j | from <= j < k.value :: a.getDDAProductID(j, pid).Failure?
    decreases MaxLookups - from
  {
    if from >= MaxLookups then None
    else if a.getDDAProductID(from, pid).Success? then Some(from)
    else FirstFound(a, pid, from + 1)
  }

  function Associated(e: Option<Error>): Option<Error>
  {
    if e.Some? then Some(Wrapped(CannotAssociate, e.value)) else None
  }

  /**
   * AssociateImageWithShopifyProduct: an unparsable id calls nothing; the
   * search runs until its first success or ten failures; a found product is
   * associated exactly once.
   */
  method AssociateImageWithShopifyProduct(ddaAssetID: string, shopifyProductIDStr: string, a: Associater)
    returns (err: Option<Error>, calls: seq<AssociateCall>)
    ensures Atoi(shopifyProductIDStr).Failure? ==>
              calls == [] && err == Some(Wrapped(CannotConvertToInteger(shopifyProductIDStr), Atoi(shopifyProductIDStr).error))
    ensures Atoi(shopifyProductIDStr).Success? ==>
              var pid := Atoi(shopifyProductIDStr).value;
              var first := FirstFound(a, pid, 0);
              (first.None? ==>
                 calls == Lookups(pid, MaxLookups) &&
                 err == Some(Wrapped(CannotFindProduct, a.getDDAProductID(MaxLookups - 1, pid).error))) &&
              (first.Some? ==>
                 var product := a.getDDAProductID(first.value, pid).value;
                 calls == Lookups(pid, first.value + 1) + [AssociateCall(product, ddaAssetID)] &&
                 err == Associated(a.associate(product, ddaAssetID)))
  {
    var parsed := Atoi(shopifyProductIDStr);
    if parsed.Failure? {
      return Some(Wrapped(CannotConvertToInteger(shopifyProductIDStr), parsed.error)), [];
    }
    var pid := parsed.value;
    calls := [];
    var attempts: nat := 0;
    var product: Option<string> := None;
    var searchErr: Option<Error> := None;
    while attempts < MaxLookups && product.None?
      invariant attempts <= MaxLookups
      invariant calls == Lookups(pid, attempts)
      invariant product.None? ==> FirstFound(a, pid, 0) == FirstFound(a, pid, attempts)
      invariant product.None? && attempts > 0 ==>
                  searchErr == Some(Wrapped(CannotFindProduct, a.getDDAProductID(attempts - 1, pid).error))
      invariant product.Some? ==>
                  attempts > 0 && FirstFound(a, pid, 0) == Some(attempts - 1) &&
                  product.value == a.getDDAProductID(attempts - 1, pid).value
      decreases MaxLookups - attempts
    {
      var found := a.getDDAProductID(attempts, pid);
      calls := calls + [LookupCall(pid)];
      attempts := attempts + 1;
      match found
      case Success(id) => product := Some(id);
      case Failure(e) => searchErr := Some(Wrapped(CannotFindProduct, e));
    }
    if product.None? {
      return searchErr, calls;
    }
    calls := calls + [AssociateCall(product.value, ddaAssetID)];
    err := Associated(a.associate(product.value, ddaAssetID));
  }
}
