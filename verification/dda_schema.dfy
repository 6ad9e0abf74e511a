/**
 * The JSON payloads the asset service exchanges (asset_metadata.go,
 * upload_confirmation.go, product_list_response.go, associate_product.go).
 * They carry no behaviour; JSON encoding is not modelled.
 */
module DdaSchema {
  import opened Wrappers
  import opened Partitions

  /** One partition descriptor of the metadata response. */
  datatype PartURL = PartURL(start: u64, end: u64, part: int, url: string)

  /** Answer to `POST /assets/signed`. */
  datatype CreateAssetMetaDataResponse = CreateAssetMetaDataResponse(
    chunkSize: u64,
    uploadID: string,
    urls: seq<PartURL>,
    id: string,
    fileURL: string)

  /** One `{PartNumber, ETag}` pair of the confirmation. */
  datatype ConfirmedPart = ConfirmedPart(partNumber: int, eTag: string)

  /** Body of `POST /assets/{id}/uploaded`. */
  datatype UploadConfirmationRequest = UploadConfirmationRequest(parts: seq<ConfirmedPart>, uploadID: string)

  /** One entry of the product listing (`variant_name`, untyped in the source, is dropped). */
  datatype Product = Product(
    id: string,
    name: string,
    sku: string,
    productID: int,
    variantID: int,
    vendor: string,
    tags: seq<string>)

  datatype PageLinks = PageLinks(first: string, last: string, prev: Option<string>, next: Option<string>)

  datatype PageMeta = PageMeta(currentPage: int, from: int, lastPage: int, path: string, perPage: int, to: int, total: int)

  /** Answer to `GET /products?product_id=...`. */
  datatype ProductListResponse = ProductListResponse(data: seq<Product>, links: PageLinks, meta: PageMeta)

  /** Body of `POST /assets/{id}/attach`. */
  datatype AssociateProductsRequest = AssociateProductsRequest(products: seq<string>)
}
