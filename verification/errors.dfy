/**
 * The errors the uploader returns. Go wraps errors with `fmt.Errorf("...: %w", err)`;
 * `Wrapped` keeps that chain, naming the message prefix by a `Context`.
 */
module Errors {

  datatype Error =
    | StatFailed                                  // os.Stat failed
    | MimeNotUploadable(mime: string)             // NewAsset allow-list
    | MimeNotJpeg(mime: string)                   // NewImage allow-list
    | OpenFailed                                  // os.Open failed
    | NonPositiveID(id: int)                      // SetPartition with ID < 1
    | InvertedRange                               // EndByte < StartByte: the uint64 length wraps and `make` panics
    | ReadFailed                                  // ReadAt returned an error
    | NoBytesRead                                 // ReadAt read nothing
    | PartitionNotFound(id: int)                  // Partition lookup miss
    | RequestBuildFailed                          // http.NewRequest failed on a part's URL
    | URLParseFailed(url: string)                 // net/url.Parse rejected a URL built from an asset id
    | TransportFailed                             // client.Do failed
    | UnexpectedStatus(expected: int, got: int)   // send saw a status other than the expected one or 429
    | BodyReadFailed                              // reading a response body failed
    | DecodeFailed                                // unmarshalling a response body failed
    | ZeroLengthPartition                         // a metadata descriptor has End < 1
    | UploadNot200(got: int)                      // a part upload answered other than 200
    | EmptyETag                                   // a part upload answered without a usable ETag
    | ProductNotFound(productID: int)             // no listed product has the Shopify id
    | NotAnInteger(text: string)                  // strconv.Atoi rejected the product id
    | Wrapped(context: Context, inner: Error)

  /** The message prefix a wrapping `fmt.Errorf` adds. */
  datatype Context =
    | CannotConvertToInteger(text: string)
    | CouldNotCreateImage
    | CouldNotCreateMetadata
    | CouldNotUploadParts
    | CouldNotConfirmUpload
    | CannotFindProduct
    | CannotAssociate
    | RequestFailed
    | FailedToCreateRequest
    | FailedToSendRequest
    | CouldNotGetImagePartition
    | CouldNotGetPartition
    | PartitionUploadFailed(partID: int)
    | AtLeastOnePartFailed
    | FailedToSetPartition
}
