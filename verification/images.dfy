/**
 * The JPEG-only image entity (image.go). Its fields and partition store
 * (`GetPartitionIDs`, `GetPartition`, `SetPartition`) are those of the
 * asset, so the model reuses `Assets.Asset` and the `Partitions` store.
 */
module Images {
  import opened Wrappers
  import opened Errors
  import opened Partitions
  import opened Assets

  /** `NewImage`: like NewAsset, but the only MIME type accepted is image/jpeg. */
  function NewImage(filename: string, stat: Option<int>, mime: string, handle: Option<File>): (r: Result<Asset, Error>)
    ensures r.Success? <==> stat.Some? && mime == "image/jpeg" && handle.Some?
    ensures stat.None? ==> r == Failure(StatFailed)
    ensures stat.Some? && mime == "image/jpeg" && handle.None? ==> r == Failure(OpenFailed)
    ensures stat.Some? && mime != "image/jpeg" ==> r == Failure(MimeNotJpeg(mime))
    ensures r.Success? ==> r.value == Asset("", filename, stat.value, mime, "", handle.value, [])
  {
    if stat.None? then Failure(StatFailed)
    else if mime != MimeTypeJPEG then Failure(MimeNotJpeg(mime))
    else if handle.None? then Failure(OpenFailed)
    else Success(Asset("", filename, stat.value, mime, "", handle.value, []))
  }

  /** Every image NewImage accepts would be accepted by NewAsset, but not conversely. */
  lemma ImageNarrowerThanAsset(filename: string, stat: Option<int>, mime: string, handle: Option<File>)
    ensures NewImage(filename, stat, mime, handle).Success? ==> NewAsset(filename, stat, mime, handle) == NewImage(filename, stat, mime, handle)
    ensures mime == "video/mp4" && stat.Some? && handle.Some? ==>
              NewAsset(filename, stat, mime, handle).Success? && NewImage(filename, stat, mime, handle).Failure?
  {
  }
}
