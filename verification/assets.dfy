/**
 * The asset entity (asset.go): the file being uploaded, its remote ids and
 * its partition store. Image (image.go) has exactly the same fields and
 * store, so both constructors produce this record.
 */
module Assets {
  import opened Wrappers
  import opened Errors
  import opened Partitions

  const MimeTypeJPEG: string := "image/jpeg"
  const MimeTypeMP4: string := "video/mp4"

  /**
   * `id` and `uploadID` are empty until metadata creation fills them;
   * `file` stands for the open file handle the asset owns.
   */
  datatype Asset = Asset(
    id: string,
    filename: string,
    size: int,
    mimeType: string,
    uploadID: string,
    file: File,
    partitions: seq<UploadPartition>)

  /** An asset after a call of the uploader, and the error the call returned. */
  datatype Step = Step(asset: Asset, err: Option<Error>)

  /** The MIME types NewAsset accepts. */
  predicate Uploadable(mime: string)
  {
    mime == MimeTypeJPEG || mime == MimeTypeMP4
  }

  /**
   * `NewAsset`: stat the file, check the MIME type its extension maps to,
   * open it. `stat` is the size os.Stat reports (None when it fails),
   * `mime` the value mime.TypeByExtension returns, `handle` the file
   * os.Open yields (None when it fails).
   */
  function NewAsset(filename: string, stat: Option<int>, mime: string, handle: Option<File>): (r: Result<Asset, Error>)
    ensures r.Success? <==> stat.Some? && (mime == "image/jpeg" || mime == "video/mp4") && handle.Some?
    ensures stat.None? ==> r == Failure(StatFailed)
    ensures stat.Some? && mime != "image/jpeg" && mime != "video/mp4" ==> r == Failure(MimeNotUploadable(mime))
    ensures stat.Some? && (mime == "image/jpeg" || mime == "video/mp4") && handle.None? ==> r == Failure(OpenFailed)
    ensures r.Success? ==> r.value == Asset("", filename, stat.value, mime, "", handle.value, [])
  {
    if stat.None? then Failure(StatFailed)
    else if !Uploadable(mime) then Failure(MimeNotUploadable(mime))
    else if handle.None? then Failure(OpenFailed)
    else Success(Asset("", filename, stat.value, mime, "", handle.value, []))
  }

  /** A freshly constructed asset satisfies the store invariant. */
  lemma NewAssetValid(filename: string, stat: Option<int>, mime: string, handle: Option<File>)
    requires NewAsset(filename, stat, mime, handle).Success?
    ensures var a := NewAsset(filename, stat, mime, handle).value; Valid(a.file, a.partitions)
  {
  }
}
