/**
 * UploadImage driven by the DDA client: the three uploader steps are
 * CreateMetaData, UploadParts and ConfirmUpload of client.go, each with the
 * service's replies fixed in advance. A successful run leaves a valid store
 * whose every partition carries a non-empty ETag, and the confirmation
 * pairs each partition with that tag.
 */
module DdaUpload {
  import opened Wrappers
  import opened Errors
  import opened Partitions
  import opened Assets
  import opened Images
  import opened DdaSchema
  import opened Dda
  import opened Upload

  /**
   * The DDA client as an uploader: `meta` and `confirm` are the replies the
   * metadata and confirmation posts receive, `put` the part uploads' outcomes.
   */
  function DdaUploader(meta: seq<Reply<CreateAssetMetaDataResponse>>, put: UploadPartition -> PutOutcome, confirm: seq<Reply<()>>): Uploader
    requires Settles(meta, StatusOK) && Settles(confirm, StatusCreated)
  {
    Uploader(a => CreateMetaData(a, meta), a => UploadParts(a, put), a => ConfirmUpload(a, confirm).step)
  }

  /**
   * A successful upload through the DDA client: the metadata post settled on
   * a decoded 200 whose ids the image carries, its store is valid, every
   * partition has a non-empty ETag, the confirmation succeeded (so, by
   * ConfirmUploadSent, its payload was posted and settled on a 201), and the
   * payload lists exactly the stored (id, ETag) pairs.
   */
  lemma UploadThroughDda(filename: string, stat: Option<int>, mime: string, handle: Option<File>,
                         meta: seq<Reply<CreateAssetMetaDataResponse>>, put: UploadPartition -> PutOutcome, confirm: seq<Reply<()>>)
    requires Settles(meta, StatusOK) && Settles(confirm, StatusCreated)
    requires UploadImage(filename, stat, mime, handle, DdaUploader(meta, put, confirm)).result.Success?
    ensures var img := UploadImage(filename, stat, mime, handle, DdaUploader(meta, put, confirm)).result.value;
            var resp := Settled(meta, StatusOK);
            && Decoded(resp, StatusOK)
            && img.id == resp.body.value.id && img.uploadID == resp.body.value.uploadID
            && Valid(img.file, img.partitions)
            && (forall i | 0 <= i < |img.partitions| :: img.partitions[i].eTag != "")
            && ConfirmUpload(img, confirm).step.err.None?
            && (forall i | 0 <= i < |img.partitions| ::
                  ConfirmationPayload(img).value.parts[i] == ConfirmedPart(img.partitions[i].id, img.partitions[i].eTag))
            && Settled(confirm, StatusCreated).Reply? && Settled(confirm, StatusCreated).status == StatusCreated
  {
    var img0, created, uploaded := SuccessfulRun(filename, stat, mime, handle, meta, put, confirm);
    CreateMetaDataPreservesValid(img0, meta);
    UploadPartsOfValid(created.asset, put);
    UploadPartsRetags(created.asset, put);
    ConfirmationOfValid(uploaded.asset);
  }

  /**
   * When the metadata response announces storable partitions, a successful
   * upload stores exactly them, in announcement order.
   */
  lemma UploadStoresAnnounced(filename: string, stat: Option<int>, mime: string, handle: Option<File>,
                              meta: seq<Reply<CreateAssetMetaDataResponse>>, put: UploadPartition -> PutOutcome, confirm: seq<Reply<()>>,
                              resp: CreateAssetMetaDataResponse)
    requires Settles(meta, StatusOK) && Settles(confirm, StatusCreated)
    requires Settled(meta, StatusOK) == Reply(StatusOK, Json(resp))
    requires UploadImage(filename, stat, mime, handle, DdaUploader(meta, put, confirm)).result.Success?
    requires Storable(handle.value, [], resp.urls)
    ensures PartitionIDs(UploadImage(filename, stat, mime, handle, DdaUploader(meta, put, confirm)).result.value.partitions)
            == PartNumbers(resp.urls)
  {
    var img0, created, uploaded := SuccessfulRun(filename, stat, mime, handle, meta, put, confirm);
    IngestStoresDistinct(img0.file, [], resp.urls);
    CreateMetaDataPreservesValid(img0, meta);
    UploadPartsRetags(created.asset, put);
    RetagKeepsIDs(created.asset.partitions, uploaded.asset.partitions);
  }

  /** The three steps of a successful run through the DDA client, each without error. */
  lemma SuccessfulRun(filename: string, stat: Option<int>, mime: string, handle: Option<File>,
                      meta: seq<Reply<CreateAssetMetaDataResponse>>, put: UploadPartition -> PutOutcome, confirm: seq<Reply<()>>)
    returns (img0: Asset, created: Step, uploaded: Step)
    requires Settles(meta, StatusOK) && Settles(confirm, StatusCreated)
    requires UploadImage(filename, stat, mime, handle, DdaUploader(meta, put, confirm)).result.Success?
    ensures NewImage(filename, stat, mime, handle).Success? && img0 == NewImage(filename, stat, mime, handle).value
    ensures created == CreateMetaData(img0, meta) && created.err.None?
    ensures uploaded == UploadParts(created.asset, put) && uploaded.err.None?
    ensures ConfirmUpload(uploaded.asset, confirm).step.err.None?
    ensures UploadImage(filename, stat, mime, handle, DdaUploader(meta, put, confirm)).result.value == uploaded.asset
  {
    var u := DdaUploader(meta, put, confirm);
    img0 := NewImage(filename, stat, mime, handle).value;
    var s := Steps(u, img0);
    created := s[0];
    uploaded := s[1];
  }

  /** Changing only the ETags keeps the id list. */
  lemma RetagKeepsIDs(parts: seq<UploadPartition>, retagged: seq<UploadPartition>)
    requires |retagged| == |parts| && forall i | 0 <= i < |parts| :: retagged[i].id == parts[i].id
    ensures PartitionIDs(retagged) == PartitionIDs(parts)
  {
  }
}
